/** Interrupt entry and return, over one dispatch and over whole handlers. */
module Interrupts {
  import opened Words
  import opened Mmu
  import opened LoadStore
  import opened Cpu

  /** Frames `interrupt_entry` uses for a vector. */
  function Frames(idt: Idt, num: Vector): (n: nat)
    decreases Rank(num)
  {
    if IsValid(idt, num) || num == DOUBLE_FAULT then 1
    else 1 + Frames(idt, if num == INVALID_IDT then DOUBLE_FAULT else INVALID_IDT)
  }

  /** Vector resolution takes at most three frames, lands on the first valid vector of
      num, 43, 63, and fails only when all of them are invalid. */
  lemma ResolveChain(idt: Idt, num: Vector)
    ensures Frames(idt, num) <= 3
    ensures Resolve(idt, num) ==
      if IsValid(idt, num) then Some(num)
      else if num != DOUBLE_FAULT && IsValid(idt, INVALID_IDT) then Some(INVALID_IDT)
      else if IsValid(idt, DOUBLE_FAULT) then Some(DOUBLE_FAULT)
      else None
  {
    assert Resolve(idt, INVALID_IDT) == if IsValid(idt, INVALID_IDT) then Some(INVALID_IDT)
                                        else Resolve(idt, DOUBLE_FAULT);
  }

  lemma Quotients(psr: int)
    ensures psr / 8 == psr / 4 / 2 && psr / 0x20 == psr / 8 / 4 && psr / 0x80 == psr / 0x20 / 4
  {
  }

  lemma DivideBy4(p: int, q: int, r: int)
    requires p == r + 4 * q && 0 <= r < 4
    ensures p / 4 == q && p % 4 == r
  {
  }

  lemma DivideBy2(p: int, q: int, r: int)
    requires p == r + 2 * q && 0 <= r < 2
    ensures p / 2 == q && p % 2 == r
  {
  }

  /** A PSR from its fields: MMUMOD, IM, two unused bits, CMOD and the rest. */
  lemma PsrFields(psr: int, mmu: int, im: int, mid: int, cmod: int, high: int)
    requires psr == mmu + 4 * (im + 2 * (mid + 4 * (cmod + 4 * high)))
    requires 0 <= mmu < 4 && 0 <= im < 2 && 0 <= mid < 4 && 0 <= cmod < 4
    ensures psr % 4 == mmu && psr / 4 % 2 == im && psr / 8 % 4 == mid
    ensures psr / 0x20 % 4 == cmod && psr / 0x80 == high
  {
    Quotients(psr);
    DivideBy4(psr, im + 2 * (mid + 4 * (cmod + 4 * high)), mmu);
    DivideBy2(psr / 4, mid + 4 * (cmod + 4 * high), im);
    DivideBy4(psr / 8, cmod + 4 * high, mid);
    DivideBy4(psr / 0x20, high, cmod);
  }

  lemma PsrSplit(psr: word)
    ensures psr == psr % 4 + 4 * (psr / 4 % 2 + 2 * (psr / 8 % 4 + 4 * (psr / 0x20 % 4 + 4 * (psr / 0x80))))
  {
    Quotients(psr);
  }

  /** What entering an interrupt does to PSR: kernel mode, interrupts off, everything else kept. */
  lemma KernelEntryFields(psr: word)
    ensures Kernel(KernelEntry(psr)) && !InterruptsEnabled(KernelEntry(psr))
    ensures MmuMode(KernelEntry(psr)) == MmuMode(psr) && KernelEntry(psr) / 0x80 == psr / 0x80
    ensures KernelEntry(psr) / 8 % 4 == psr / 8 % 4
  {
    PsrSplit(psr);
    PsrFields(KernelEntry(psr), psr % 4, 0, psr / 8 % 4, 0, psr / 0x80);
  }

  /** The maskable interrupt the dispatcher would take with PSR as it is. */
  function Pending(cpu: Cpu, dev: Devices): Option<Vector> {
    if !InterruptsEnabled(cpu.psr) then None
    else if IsEnabled(cpu.idt, UTIM64) && dev.utim64 then Some(UTIM64)
    else if IsEnabled(cpu.idt, KMC) && dev.kmc then Some(KMC)
    else if IsEnabled(cpu.idt, DPS_LS) && dev.sci then Some(DPS_LS)
    else None
  }

  /** The vector the dispatcher ends up entering: a pending non-maskable interrupt first. */
  function Entered(cpu: Cpu, dev: Devices): Option<Vector> {
    if cpu.nmi.Some? && Resolve(cpu.idt, cpu.nmi.value).Some? then Resolve(cpu.idt, cpu.nmi.value)
    else Pending(cpu, dev)
  }

  /** A dispatch saves the context at most once, and then it is the context of the interrupted
      program; entering changes only the saved registers, PSR and PC. */
  lemma DispatchOnce(cpu: Cpu, dev: Devices)
    ensures var c, e := Dispatch(cpu, dev), Entered(cpu, dev);
      && (e.None? ==> c == cpu.(nmi := None, finished := c.finished))
      && (e.Some? ==> IsValid(cpu.idt, e.value))
      && (e.Some? ==>
            c == cpu.(nmi := None, finished := c.finished, saved := Context(cpu),
                      psr := KernelEntry(cpu.psr), pc := cpu.idt[e.value].handler))
      && (c.finished <==> cpu.finished || (cpu.nmi.Some? && Resolve(cpu.idt, cpu.nmi.value).None?))
  {
    KernelEntryFields(cpu.psr);
    if cpu.nmi.Some? {
      ResolveChain(cpu.idt, cpu.nmi.value);
    }
  }

  lemma DispatchKeeps(c: Cpu, dev: Devices)
    ensures Dispatch(c, dev).gr == c.gr && Dispatch(c, dev).idt == c.idt
  {
  }

  // ---------------------------------------------------------------- handlers

  /** The instruction an iteration executes, if its fetch succeeds. */
  function InsnAt(m: Machine, dev: Devices, decode: word -> Insn): Option<Insn> {
    var f := FetchWord(m.(cpu := ChooseStack(m.cpu)), dev);
    if f.Fetched? then Some(decode(f.w)) else None
  }

  predicate WritesSaved(insn: Insn) {
    insn.WriteSystem? && (insn.reg.Pps? || insn.reg.Ppc? || insn.reg.Ppdt? || insn.reg.Ptid? || insn.reg.Pflag?)
  }

  /** The processor fields a memory access may change. */
  predicate MemoryFrame(c: Cpu, c': Cpu) {
    c' == c.(gr := c'.gr, spr := c'.spr, fi0r := c'.fi0r, fi1r := c'.fi1r)
  }

  lemma LoadFrame(m: Machine, dev: Devices, width: Width, rd: Reg, vaddr: word)
    ensures var r := ExecLoad(m, dev, width, rd, vaddr);
      r.Next? ==> MemoryFrame(m.cpu, r.m.cpu) && r.m.cpu.spr == m.cpu.spr
  {
  }

  lemma StoreFrame(m: Machine, dev: Devices, width: Width, src: word, vaddr: word)
    ensures var r := ExecStore(m, dev, width, src, vaddr);
      r.Next? ==> MemoryFrame(m.cpu, r.m.cpu) && r.m.cpu.spr == m.cpu.spr
  {
  }

  /** An instruction without fault or branch moves on to the next one. */
  lemma PlainFinish(e: Executed)
    requires e.Next? && e.fault == 0 && e.m.cpu.nextPc == NO_BRANCH
    ensures Finish(e) == Running(Machine(WriteBackSp(e.m.cpu).(pc := Wrap(e.m.cpu.pc + 4)), e.m.mem))
  {
  }

  /** The faults a memory access can raise. */
  predicate MemoryFault(num: Vector) {
    num == PAGE_FAULT || num == PROTECTION_FAULT
  }

  lemma AccessFault(mem: Memory, ctl: Control, op: Op)
    ensures Perform(mem, ctl, op).reply.Faulted? ==> MemoryFault(Perform(mem, ctl, op).reply.num)
  {
  }

  predicate MemoryInsn(insn: Insn) {
    insn.Load? || insn.Store? || insn.Push? || insn.PushPc? || insn.Pop? || insn.Tas?
  }

  /** A memory instruction changes only general registers, SPR, FI0R and FI1R. */
  lemma MemoryInsnFrame(m: Machine, dev: Devices, insn: Insn)
    requires MemoryInsn(insn) && Execute(m, dev, insn).Next?
    ensures MemoryFrame(m.cpu, Execute(m, dev, insn).m.cpu)
  {
    var c, sp := m.cpu, Wrap(m.cpu.spr - 4);
    var lowered := m.(cpu := c.(spr := sp));
    match insn
    case Load(width, rd, addr) => LoadFrame(m, dev, width, rd, EffectiveAddress(c.gr, addr, width).value);
    case Store(width, rs, addr) => StoreFrame(m, dev, width, c.gr[rs], EffectiveAddress(c.gr, addr, width).value);
    case Push(src) => StoreFrame(lowered, dev, FullWord, SourceValue(c, src), sp);
    case PushPc => StoreFrame(lowered, dev, FullWord, c.pc, sp);
    case Pop(rd) => LoadFrame(m, dev, FullWord, rd, c.spr);
    case Tas(rd, addr) =>
      var vaddr := EffectiveAddress(c.gr, addr, FullWord).value;
      var l := ExecLoad(m, dev, FullWord, rd, vaddr);
      LoadFrame(m, dev, FullWord, rd, vaddr);
      if l.Next? { StoreFrame(l.m, dev, FullWord, 1, vaddr); }
  }

  lemma LoadFault(m: Machine, dev: Devices, width: Width, rd: Reg, vaddr: word)
    ensures var e := ExecLoad(m, dev, width, rd, vaddr); e.Next? && e.fault != 0 ==> MemoryFault(e.fault)
  {
    AccessFault(m.mem, Ctl(m.cpu), LoadOp(width, vaddr));
  }

  lemma StoreFault(m: Machine, dev: Devices, width: Width, src: word, vaddr: word)
    ensures var e := ExecStore(m, dev, width, src, vaddr); e.Next? && e.fault != 0 ==> MemoryFault(e.fault)
  {
    AccessFault(m.mem, Ctl(m.cpu), StoreOp(width, vaddr, src));
  }

  /** Only memory instructions raise memory faults, and only these. */
  lemma ExecuteFault(m: Machine, dev: Devices, insn: Insn)
    ensures var e := Execute(m, dev, insn); e.Next? && e.fault != 0 ==> MemoryInsn(insn) && MemoryFault(e.fault)
  {
    var c, sp := m.cpu, Wrap(m.cpu.spr - 4);
    var lowered := m.(cpu := c.(spr := sp));
    match insn
    case Load(width, rd, addr) =>
      var a := EffectiveAddress(c.gr, addr, width);
      if a.Some? { LoadFault(m, dev, width, rd, a.value); }
    case Store(width, rs, addr) =>
      var a := EffectiveAddress(c.gr, addr, width);
      if a.Some? { StoreFault(m, dev, width, c.gr[rs], a.value); }
    case Push(src) => StoreFault(lowered, dev, FullWord, SourceValue(c, src), sp);
    case PushPc => StoreFault(lowered, dev, FullWord, c.pc, sp);
    case Pop(rd) => LoadFault(m, dev, FullWord, rd, c.spr);
    case Tas(rd, addr) =>
      var a := EffectiveAddress(c.gr, addr, FullWord);
      if a.Some? {
        var l := ExecLoad(m, dev, FullWord, rd, a.value);
        LoadFault(m, dev, FullWord, rd, a.value);
        if l.Next? { StoreFault(l.m, dev, FullWord, 1, a.value); }
      }
    case _ =>
  }

  lemma ExecuteKeepsSaved(m: Machine, dev: Devices, insn: Insn)
    requires !WritesSaved(insn) && Execute(m, dev, insn).Next?
    ensures Execute(m, dev, insn).m.cpu.saved == m.cpu.saved
    ensures Execute(m, dev, insn).m.cpu.testsuite == m.cpu.testsuite
  {
    if MemoryInsn(insn) {
      MemoryInsnFrame(m, dev, insn);
    }
  }

  lemma CycleKeepsSaved(m: Machine, dev: Devices, decode: word -> Insn)
    requires Cycle(m, dev, decode).Running?
    requires InsnAt(m, dev, decode).Some? ==> !WritesSaved(InsnAt(m, dev, decode).value)
    ensures Cycle(m, dev, decode).m.cpu.saved == m.cpu.saved
    ensures Cycle(m, dev, decode).m.cpu.testsuite == m.cpu.testsuite
  {
    var m1 := m.(cpu := ChooseStack(m.cpu));
    var f := FetchWord(m1, dev);
    if f.Fetched? {
      ExecuteKeepsSaved(m1.(mem := f.mem), dev, decode(f.w));
    }
  }

  /** An iteration that neither writes the saved registers nor enters an interrupt. */
  predicate Quiet(m: Machine, dev: Devices, decode: word -> Insn) {
    && Cycle(m, dev, decode).Running?
    && Entered(Cycle(m, dev, decode).m.cpu, dev).None?
    && (InsnAt(m, dev, decode).Some? ==> !WritesSaved(InsnAt(m, dev, decode).value))
  }

  /** Every iteration of the stretch is quiet. */
  predicate QuietRun(m: Machine, devs: seq<Devices>, decode: word -> Insn): (quiet: bool)
    ensures quiet ==> RunFor(m, devs, decode).Running?
    decreases |devs|
  {
    |devs| == 0 ||
    (Quiet(m, devs[0], decode) && QuietRun(Iterate(m, devs[0], decode).m, devs[1..], decode))
  }

  function RunFor(m: Machine, devs: seq<Devices>, decode: word -> Insn): Outcome
    decreases |devs|
  {
    if |devs| == 0 then Running(m)
    else
      match Iterate(m, devs[0], decode)
      case Ended => Ended
      case Running(m1) => RunFor(m1, devs[1..], decode)
  }

  lemma {:induction false} QuietRunKeepsSaved(m: Machine, devs: seq<Devices>, decode: word -> Insn)
    requires QuietRun(m, devs, decode)
    ensures RunFor(m, devs, decode).m.cpu.saved == m.cpu.saved
    ensures RunFor(m, devs, decode).m.cpu.testsuite == m.cpu.testsuite
    decreases |devs|
  {
    if |devs| != 0 {
      CycleKeepsSaved(m, devs[0], decode);
      DispatchOnce(Cycle(m, devs[0], decode).m.cpu, devs[0]);
      QuietRunKeepsSaved(Iterate(m, devs[0], decode).m, devs[1..], decode);
    }
  }

  /** `ib` reinstates the saved context just before the interrupt check of its own cycle. */
  lemma ReturnRestores(m: Machine, dev: Devices, decode: word -> Insn)
    requires InsnAt(m, dev, decode) == Some(ReturnFromInterrupt) && Cycle(m, dev, decode).Running?
    requires m.cpu.saved.pc != NO_BRANCH
    ensures Context(Cycle(m, dev, decode).m.cpu) == m.cpu.saved
    ensures Cycle(m, dev, decode).m.cpu.saved == m.cpu.saved
  {
  }

  /** A taken interrupt, any handler that leaves the saved registers alone, and `ib` are transparent:
      PC, PSR, PDTR, TIDR and FLAGR come back, with the same flag validity the next instruction would
      have seen; and if another interrupt is taken at that `ib`, it saves the identical context. */
  lemma {:induction false} InterruptTransparent(m: Machine, dev: Devices, devs: seq<Devices>, devIb: Devices,
                                               decode: word -> Insn)
    requires Cycle(m, dev, decode).Running? && Entered(Cycle(m, dev, decode).m.cpu, dev).Some?
    requires Cycle(m, dev, decode).m.cpu.pc != NO_BRANCH
    requires QuietRun(Iterate(m, dev, decode).m, devs, decode)
    requires var h := RunFor(Iterate(m, dev, decode).m, devs, decode);
      InsnAt(h.m, devIb, decode) == Some(ReturnFromInterrupt) && Cycle(h.m, devIb, decode).Running?
    ensures var before := Cycle(m, dev, decode).m.cpu;
      var handler := Iterate(m, dev, decode).m;
      var h := RunFor(handler, devs, decode).m;
      var back, after := Cycle(h, devIb, decode).m.cpu, Iterate(h, devIb, decode).m.cpu;
      && Context(back) == Context(before)
      && (Entered(back, devIb).None? ==>
            Context(after) == Context(AgeFlags(before)) && after.prevFlags == before.flags)
      && (Entered(back, devIb).Some? ==> after.saved == handler.cpu.saved == Context(before))
  {
    var before := Cycle(m, dev, decode).m.cpu;
    var handler := Iterate(m, dev, decode).m;
    DispatchOnce(before, dev);
    QuietRunKeepsSaved(handler, devs, decode);
    var h := RunFor(handler, devs, decode).m;
    ReturnRestores(h, devIb, decode);
    DispatchOnce(Cycle(h, devIb, decode).m.cpu, devIb);
  }
}
