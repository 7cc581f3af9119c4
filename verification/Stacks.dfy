/** Banking of the stack pointer between kernel and user mode. */
module Stacks {
  import opened Words
  import opened Cache
  import opened Mmu
  import opened LoadStore
  import opened Cpu
  import opened Interrupts

  /** CMOD is kernel or user; the loop's choice of stack is right only between these two. */
  predicate TwoModes(cmod: word) {
    cmod == 0 || cmod == 3
  }

  function Bank(cpu: Cpu, cmod: word): word {
    if cmod == 0 then cpu.kspr else cpu.uspr
  }

  /** SPR holds the bank of the mode the last iteration ran in. */
  predicate Banked(cpu: Cpu) {
    cpu.spr == Bank(cpu, cpu.cmod)
  }

  predicate FetchesUspWrite(f: Fetched, decode: word -> Insn) {
    f.Fetched? && decode(f.w).WriteSystem? && decode(f.w).reg.Usp?
  }

  /** The iteration executes `sruspw`. */
  predicate WritesUsp(m: Machine, dev: Devices, decode: word -> Insn) {
    FetchesUspWrite(FetchWord(m.(cpu := ChooseStack(m.cpu)), dev), decode)
  }

  lemma ExecuteKeepsBanks(m: Machine, dev: Devices, insn: Insn)
    requires Execute(m, dev, insn).Next?
    ensures var c := Execute(m, dev, insn).m.cpu;
      && c.kspr == m.cpu.kspr && c.cmod == m.cpu.cmod
      && (!(insn.WriteSystem? && insn.reg.Usp?) ==> c.uspr == m.cpu.uspr)
  {
    if MemoryInsn(insn) {
      MemoryInsnFrame(m, dev, insn);
    }
  }

  /** From a banked state the loop starts each iteration on the bank of its mode. */
  lemma ChoosesBank(cpu: Cpu)
    requires Banked(cpu) && TwoModes(cpu.cmod) && TwoModes(Cmod(cpu.psr))
    ensures ChooseStack(cpu).spr == Bank(cpu, Cmod(cpu.psr))
  {
  }

  lemma BodyKeepsBanks(m: Machine, dev: Devices, decode: word -> Insn)
    requires Body(m, dev, decode).Next?
    ensures var c := Body(m, dev, decode).m.cpu;
      && c.kspr == m.cpu.kspr && c.cmod == m.cpu.cmod
      && (c.uspr == m.cpu.uspr || FetchesUspWrite(FetchWord(m, dev), decode))
  {
    var f := FetchWord(m, dev);
    if f.Fetched? {
      ExecuteKeepsBanks(m.(mem := f.mem), dev, decode(f.w));
    }
  }

  lemma FinishBanks(e: Executed)
    requires e.Next? && Finish(e).Running?
    ensures var c := Finish(e).m.cpu;
      && Banked(c) && c.cmod == e.m.cpu.cmod
      && (if c.cmod == 0 then c.uspr == e.m.cpu.uspr else c.kspr == e.m.cpu.kspr)
  {
  }

  /** One iteration: SPR ends as the bank of the iteration's mode; a user iteration leaves KSPR alone,
      and a kernel iteration changes USPR only by `sruspw`, even if `ib` and a new interrupt meet. */
  lemma IterationBanks(m: Machine, dev: Devices, decode: word -> Insn)
    requires Iterate(m, dev, decode).Running?
    ensures var c := Iterate(m, dev, decode).m.cpu;
      && Banked(c) && c.cmod == Cmod(m.cpu.psr)
      && (Cmod(m.cpu.psr) != 0 ==> c.kspr == m.cpu.kspr)
      && (Cmod(m.cpu.psr) == 0 && !WritesUsp(m, dev, decode) ==> c.uspr == m.cpu.uspr)
  {
    var m1 := m.(cpu := ChooseStack(m.cpu));
    BodyKeepsBanks(m1, dev, decode);
    FinishBanks(Body(m1, dev, decode));
    DispatchOnce(Cycle(m, dev, decode).m.cpu, dev);
  }

  /** Every iteration of the stretch runs in the mode `cmod`, without `sruspw` if that is kernel mode. */
  predicate Stretch(m: Machine, devs: seq<Devices>, decode: word -> Insn, cmod: word): (stretch: bool)
    ensures stretch ==> RunFor(m, devs, decode).Running?
    decreases |devs|
  {
    |devs| == 0 ||
    (&& Iterate(m, devs[0], decode).Running? && Cmod(m.cpu.psr) == cmod
     && (cmod == 0 ==> !WritesUsp(m, devs[0], decode))
     && Stretch(Iterate(m, devs[0], decode).m, devs[1..], decode, cmod))
  }

  lemma {:induction false} StretchBanks(m: Machine, devs: seq<Devices>, decode: word -> Insn, cmod: word)
    requires Stretch(m, devs, decode, cmod)
    ensures var c := RunFor(m, devs, decode).m.cpu;
      && (|devs| > 0 ==> Banked(c) && c.cmod == cmod)
      && (if cmod == 0 then c.uspr == m.cpu.uspr else c.kspr == m.cpu.kspr)
    decreases |devs|
  {
    if |devs| != 0 {
      IterationBanks(m, devs[0], decode);
      StretchBanks(Iterate(m, devs[0], decode).m, devs[1..], decode, cmod);
    }
  }

  /** A program finds its stack pointer where it left it: after an iteration in one mode, any stretch
      in the other mode (without `sruspw` in the kernel), control returns with the same SPR. */
  lemma {:induction false} StackSurvives(m: Machine, devs: seq<Devices>, decode: word -> Insn, other: word)
    requires Banked(m.cpu) && TwoModes(m.cpu.cmod) && TwoModes(other) && other != m.cpu.cmod
    requires Stretch(m, devs, decode, other)
    requires Cmod(RunFor(m, devs, decode).m.cpu.psr) == m.cpu.cmod
    ensures ChooseStack(RunFor(m, devs, decode).m.cpu).spr == m.cpu.spr
  {
    StretchBanks(m, devs, decode, other);
  }

  /** The instructions that assign SPR. */
  predicate AssignsSp(insn: Insn) {
    insn.Push? || insn.PushPc? || insn.Pop? || insn.AdjustSp? || (insn.WriteSystem? && insn.reg.Sp?)
  }

  lemma ExecuteKeepsSp(m: Machine, dev: Devices, insn: Insn)
    requires !AssignsSp(insn) && Execute(m, dev, insn).Next?
    ensures Execute(m, dev, insn).m.cpu.spr == m.cpu.spr
  {
    var c := m.cpu;
    match insn
    case Load(width, rd, addr) => LoadFrame(m, dev, width, rd, EffectiveAddress(c.gr, addr, width).value);
    case Store(width, rs, addr) => StoreFrame(m, dev, width, c.gr[rs], EffectiveAddress(c.gr, addr, width).value);
    case Tas(rd, addr) =>
      var a := EffectiveAddress(c.gr, addr, FullWord).value;
      var l := ExecLoad(m, dev, FullWord, rd, a);
      LoadFrame(m, dev, FullWord, rd, a);
      if l.Next? { StoreFrame(l.m, dev, FullWord, 1, a); }
    case _ =>
  }

  /** Before the first iteration SPR is not loaded from KSPR, so whatever that iteration executes, its
      write-back replaces the KSPR the simulator set up: by the old SPR if it does not assign SPR. */
  lemma FirstIterationLosesKspr(m: Machine, dev: Devices, decode: word -> Insn)
    requires Iterate(m, dev, decode).Running? && m.cpu.cmod == Cmod(m.cpu.psr) == 0
    ensures Body(m, dev, decode).Next? && Iterate(m, dev, decode).m.cpu.kspr == Body(m, dev, decode).m.cpu.spr
    ensures (InsnAt(m, dev, decode).Some? ==> !AssignsSp(InsnAt(m, dev, decode).value)) ==>
              Iterate(m, dev, decode).m.cpu.kspr == m.cpu.spr
  {
    assert ChooseStack(m.cpu) == m.cpu;
    IterationBanks(m, dev, decode);
    FinishKeepsSpr(Body(m, dev, decode));
    DispatchOnce(Cycle(m, dev, decode).m.cpu, dev);
    var f := FetchWord(m, dev);
    if f.Fetched? && !AssignsSp(decode(f.w)) {
      ExecuteKeepsSp(m.(mem := f.mem), dev, decode(f.w));
    }
  }

  /** The instruction writes `v` to SPR. */
  predicate WritesSp(c: Cpu, insn: Insn, v: word) {
    insn.WriteSystem? && insn.reg.Sp? && SourceValue(c, insn.src) == v
  }

  /** What one instruction can make of the SPR of 0 after reset: `STACK_DEFAULT` only by writing it. */
  lemma DefaultOnlyByWrite(m: Machine, dev: Devices, insn: Insn)
    requires m.cpu.spr == 0 && Execute(m, dev, insn).Next?
    ensures Execute(m, dev, insn).m.cpu.spr == RAM_LIMIT <==> WritesSp(m.cpu, insn, RAM_LIMIT)
  {
    if !AssignsSp(insn) {
      ExecuteKeepsSp(m, dev, insn);
    } else if insn.Push? || insn.PushPc? {
      var low := m.(cpu := m.cpu.(spr := Wrap(-4)));
      StoreFrame(low, dev, FullWord, if insn.Push? then SourceValue(m.cpu, insn.src) else m.cpu.pc, Wrap(-4));
    } else if insn.Pop? {
      LoadFrame(m, dev, FullWord, insn.rd, 0);
    } else if insn.AdjustSp? {
      AdjustedSp(insn.words);
    }
  }

  lemma AdjustedSp(words: Imm16)
    ensures Wrap(4 * words) != RAM_LIMIT
  {
  }

  /** The stacks as `exec` starts with them, in kernel mode. */
  predicate StartsStacks(c: Cpu) {
    c.cmod == Cmod(c.psr) == 0 && c.spr == 0 && c.kspr == RAM_LIMIT
  }

  lemma ResetStacks(entry: word, testsuite: bool)
    ensures StartsStacks(Reset(entry, testsuite))
  {
  }

  /** Of the stack top the simulator sets up, nothing is left after the first iteration, unless the
      first instruction itself writes that value to SPR. */
  lemma DefaultStackSurvivesIff(m: Machine, dev: Devices, decode: word -> Insn)
    requires StartsStacks(m.cpu) && Iterate(m, dev, decode).Running?
    ensures var i := InsnAt(m, dev, decode);
      Iterate(m, dev, decode).m.cpu.kspr == RAM_LIMIT <==> i.Some? && WritesSp(m.cpu, i.value, RAM_LIMIT)
  {
    FirstIterationLosesKspr(m, dev, decode);
    assert ChooseStack(m.cpu) == m.cpu;
    var f := FetchWord(m, dev);
    if f.Fetched? {
      DefaultOnlyByWrite(m.(mem := f.mem), dev, decode(f.w));
    }
  }

  lemma FinishKeepsSpr(e: Executed)
    requires e.Next? && Finish(e).Running?
    ensures Finish(e).m.cpu.spr == e.m.cpu.spr
  {
  }
}
