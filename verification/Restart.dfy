/** When a handled memory fault leaves no trace: what the faulting instruction has done by then, and
    when its re-execution does what it would have done with the page accessible all along. */
module Restart {
  import opened Words
  import opened Mmu
  import opened LoadStore
  import opened Cpu
  import opened Interrupts
  import opened Stacks

  /** The instructions that have done nothing when they fault. */
  predicate Restartable(insn: Insn) {
    insn.Load? || insn.Store? || insn.Pop?
  }

  lemma FaultedAccess(mem: Memory, ctl: Control, op: Op)
    requires Perform(mem, ctl, op).reply.Faulted?
    ensures Perform(mem, ctl, op).mem == mem
  {
  }

  /** A faulting load, store or pop leaves every register but FI0R and FI1R, RAM, both caches and the
      TLB as they were. */
  lemma FaultChangesNothing(m: Machine, dev: Devices, insn: Insn)
    requires Restartable(insn) && Execute(m, dev, insn).Next? && Execute(m, dev, insn).fault != 0
    ensures var r := Execute(m, dev, insn).m;
      r.mem == m.mem && r.cpu == m.cpu.(fi0r := r.cpu.fi0r, fi1r := r.cpu.fi1r)
  {
    match insn
    case Load(width, _, addr) =>
      FaultedAccess(m.mem, Ctl(m.cpu), LoadOp(width, EffectiveAddress(m.cpu.gr, addr, width).value));
    case Store(width, rs, addr) =>
      FaultedAccess(m.mem, Ctl(m.cpu), StoreOp(width, EffectiveAddress(m.cpu.gr, addr, width).value, m.cpu.gr[rs]));
    case Pop(_) =>
      FaultedAccess(m.mem, Ctl(m.cpu), LoadOp(FullWord, m.cpu.spr));
  }

  // ---------------------------------------------------------------- similar processors

  /** The two processors differ at most in PFLAGR to PTIDR, FI0R, FI1R and the last flags: what a
      handled fault overwrites. */
  predicate Similar(a: Cpu, b: Cpu) {
    a == b.(saved := a.saved, fi0r := a.fi0r, fi1r := a.fi1r, prevFlags := a.prevFlags)
  }

  /** Two instruction outcomes that differ at most in that. */
  predicate SimilarOutcome(r: Executed, r': Executed) {
    && r.Next? == r'.Next?
    && (r.Next? ==> r.m.mem == r'.m.mem && r.fault == r'.fault && Similar(r.m.cpu, r'.m.cpu))
  }

  /** Two iterations that differ at most in that. */
  predicate Agree(r: Outcome, r': Outcome) {
    r.Running? == r'.Running? && (r.Running? ==> r.m.mem == r'.m.mem && Similar(r.m.cpu, r'.m.cpu))
  }

  /** The instruction reads none of the overwritten registers: not `ib`, nor a read of FI0R, say. A
      conditional branch reads the validity of the last flags. */
  ghost predicate Blind(insn: Insn) {
    && !insn.ReturnFromInterrupt?
    && (insn.Compute? ==> forall c, c' :: Similar(c, c') ==>
          insn.value(c) == insn.value(c') && insn.newFlags(c) == insn.newFlags(c'))
  }

  predicate Conditional(insn: Insn) {
    insn.Branch? && insn.condition != 0
  }

  lemma SimilarLoad(m: Machine, m': Machine, dev: Devices, width: Width, rd: Reg, vaddr: word)
    requires m.mem == m'.mem && Similar(m.cpu, m'.cpu)
    ensures SimilarOutcome(ExecLoad(m, dev, width, rd, vaddr), ExecLoad(m', dev, width, rd, vaddr))
  {
  }

  lemma SimilarStore(m: Machine, m': Machine, dev: Devices, width: Width, src: word, vaddr: word)
    requires m.mem == m'.mem && Similar(m.cpu, m'.cpu)
    ensures SimilarOutcome(ExecStore(m, dev, width, src, vaddr), ExecStore(m', dev, width, src, vaddr))
  {
  }

  lemma SimilarPush(m: Machine, m': Machine, dev: Devices, insn: Insn)
    requires (insn.Push? || insn.PushPc?) && m.mem == m'.mem && Similar(m.cpu, m'.cpu)
    ensures SimilarOutcome(Execute(m, dev, insn), Execute(m', dev, insn))
  {
    var sp := Wrap(m.cpu.spr - 4);
    SimilarStore(m.(cpu := m.cpu.(spr := sp)), m'.(cpu := m'.cpu.(spr := sp)), dev, FullWord,
                 if insn.Push? then SourceValue(m.cpu, insn.src) else m.cpu.pc, sp);
  }

  lemma SimilarPop(m: Machine, m': Machine, dev: Devices, insn: Insn)
    requires insn.Pop? && m.mem == m'.mem && Similar(m.cpu, m'.cpu)
    ensures SimilarOutcome(Execute(m, dev, insn), Execute(m', dev, insn))
  {
    SimilarLoad(m, m', dev, FullWord, insn.rd, m.cpu.spr);
  }

  lemma SimilarMemoryInsn(m: Machine, m': Machine, dev: Devices, insn: Insn)
    requires MemoryInsn(insn) && m.mem == m'.mem && Similar(m.cpu, m'.cpu)
    ensures SimilarOutcome(Execute(m, dev, insn), Execute(m', dev, insn))
  {
    var c := m.cpu;
    assert c.gr == m'.cpu.gr;
    match insn
    case Load(width, rd, addr) =>
      var a := EffectiveAddress(c.gr, addr, width);
      if a.Some? { SimilarLoad(m, m', dev, width, rd, a.value); }
    case Store(width, rs, addr) =>
      var a := EffectiveAddress(c.gr, addr, width);
      if a.Some? { SimilarStore(m, m', dev, width, c.gr[rs], a.value); }
    case Tas(rd, addr) =>
      var a := EffectiveAddress(c.gr, addr, FullWord);
      if a.Some? { SimilarTas(m, m', dev, rd, a.value); }
    case Pop(_) => SimilarPop(m, m', dev, insn);
    case _ => SimilarPush(m, m', dev, insn);
  }

  lemma SimilarTas(m: Machine, m': Machine, dev: Devices, rd: Reg, vaddr: word)
    requires m.mem == m'.mem && Similar(m.cpu, m'.cpu)
    ensures SimilarOutcome(ExecTas(m, dev, rd, vaddr), ExecTas(m', dev, rd, vaddr))
  {
    var l, l' := ExecLoad(m, dev, FullWord, rd, vaddr), ExecLoad(m', dev, FullWord, rd, vaddr);
    SimilarLoad(m, m', dev, FullWord, rd, vaddr);
    if l.Next? {
      SimilarStore(l.m, l'.m, dev, FullWord, 1, vaddr);
    }
  }

  lemma SimilarWrite(m: Machine, m': Machine, reg: SystemReg, v: word)
    requires m.mem == m'.mem && Similar(m.cpu, m'.cpu)
    ensures SimilarOutcome(ExecWriteSystem(m, reg, v), ExecWriteSystem(m', reg, v))
  {
  }

  lemma SimilarAlu(c: Cpu, c': Cpu, op: AluOp, rd: Reg, src: Source)
    requires Similar(c, c')
    ensures Similar(ExecAlu(c, op, rd, src), ExecAlu(c', op, rd, src))
  {
  }

  lemma SimilarOther(m: Machine, m': Machine, dev: Devices, insn: Insn)
    requires !MemoryInsn(insn) && !insn.WriteSystem? && !insn.Alu?
    requires Blind(insn) && !Conditional(insn) && m.mem == m'.mem && Similar(m.cpu, m'.cpu)
    ensures SimilarOutcome(Execute(m, dev, insn), Execute(m', dev, insn))
  {
  }

  lemma SimilarExecute(m: Machine, m': Machine, dev: Devices, insn: Insn)
    requires Blind(insn) && !Conditional(insn) && m.mem == m'.mem && Similar(m.cpu, m'.cpu)
    ensures SimilarOutcome(Execute(m, dev, insn), Execute(m', dev, insn))
  {
    if MemoryInsn(insn) {
      SimilarMemoryInsn(m, m', dev, insn);
    } else if insn.WriteSystem? {
      SimilarWrite(m, m', insn.reg, SourceValue(m.cpu, insn.src));
    } else if insn.Alu? {
      SimilarAlu(m.cpu, m'.cpu, insn.op, insn.rd, insn.src);
    } else {
      SimilarOther(m, m', dev, insn);
    }
  }

  lemma SimilarFetch(m: Machine, m': Machine, dev: Devices)
    requires m.mem == m'.mem && Similar(m.cpu, m'.cpu)
    ensures FetchWord(m, dev) == FetchWord(m', dev)
  {
  }

  lemma SimilarTake(c: Cpu, c': Cpu, fault: Vector)
    requires Similar(c, c')
    ensures Similar(TakeFault(c, fault), TakeFault(c', fault))
  {
  }

  lemma SimilarWriteBack(c: Cpu, c': Cpu)
    requires Similar(c, c')
    ensures Similar(WriteBackSp(c), WriteBackSp(c'))
  {
  }

  lemma SimilarAdvance(c: Cpu, c': Cpu)
    requires Similar(c, c')
    ensures var a, a' := Advance(c), Advance(c'); a.Some? == a'.Some? && (a.Some? ==> Similar(a.value, a'.value))
  {
  }

  lemma SimilarFinish(r: Executed, r': Executed)
    requires SimilarOutcome(r, r')
    ensures Agree(Finish(r), Finish(r'))
  {
    if r.Next? {
      SimilarTake(r.m.cpu, r'.m.cpu, r.fault);
      SimilarWriteBack(TakeFault(r.m.cpu, r.fault), TakeFault(r'.m.cpu, r.fault));
      SimilarAdvance(WriteBackSp(TakeFault(r.m.cpu, r.fault)), WriteBackSp(TakeFault(r'.m.cpu, r.fault)));
    }
  }

  /** From similar states the iterations agree, whatever they fetch, if it is blind and no conditional
      branch. */
  lemma SimilarCycle(m: Machine, m': Machine, dev: Devices, decode: word -> Insn)
    requires m.mem == m'.mem && Similar(ChooseStack(m.cpu), ChooseStack(m'.cpu))
    requires var i := InsnAt(m', dev, decode); i.Some? ==> Blind(i.value) && !Conditional(i.value)
    ensures InsnAt(m, dev, decode) == InsnAt(m', dev, decode)
    ensures Agree(Cycle(m, dev, decode), Cycle(m', dev, decode))
  {
    var m1, m1' := m.(cpu := ChooseStack(m.cpu)), m'.(cpu := ChooseStack(m'.cpu));
    var f := FetchWord(m1', dev);
    SimilarFetch(m1, m1', dev);
    if f.Fetched? {
      SimilarExecute(m1.(mem := f.mem), m1'.(mem := f.mem), dev, decode(f.w));
    }
    SimilarFinish(Body(m1, dev, decode), Body(m1', dev, decode));
  }

  // ---------------------------------------------------------------- the faulting iteration

  /** The state at the start of an iteration that is not the first one. */
  predicate Steady(cpu: Cpu) {
    && Banked(cpu) && TwoModes(cpu.cmod) && TwoModes(Cmod(cpu.psr))
    && cpu.pc % 4 == 0 && cpu.nextPc == NO_BRANCH && cpu.flags.invalid && cpu.nmi.None?
  }

  /** The iteration up to the fault handling of the loop. */
  function BodyOf(m: Machine, dev: Devices, decode: word -> Insn): Executed {
    Body(m.(cpu := ChooseStack(m.cpu)), dev, decode)
  }

  /** The iteration faults, in its fetch or in its instruction. */
  predicate Faults(m: Machine, dev: Devices, decode: word -> Insn) {
    BodyOf(m, dev, decode).Next? && BodyOf(m, dev, decode).fault != 0
  }

  /** The processor the faulting instruction leaves, but for FI0R and FI1R: it may have assigned
      general registers and SPR. */
  function Left(m: Machine, dev: Devices, decode: word -> Insn): Cpu
    requires Faults(m, dev, decode)
  {
    var c := BodyOf(m, dev, decode).m.cpu;
    WriteBackSp(ChooseStack(m.cpu).(gr := c.gr, spr := c.spr))
  }

  /** The faulting instruction has assigned no register. */
  predicate NothingDone(m: Machine, dev: Devices, decode: word -> Insn)
    requires Faults(m, dev, decode)
  {
    var c := BodyOf(m, dev, decode).m.cpu;
    c.gr == m.cpu.gr && c.spr == ChooseStack(m.cpu).spr
  }

  /** An instruction without fault or branch lets its iteration complete. */
  lemma PlainCycle(m: Machine, dev: Devices, decode: word -> Insn, e: Executed)
    requires BodyOf(m, dev, decode) == e && e.Next? && e.fault == 0 && e.m.cpu.nextPc == NO_BRANCH
    ensures Cycle(m, dev, decode) == Running(Machine(WriteBackSp(e.m.cpu).(pc := Wrap(e.m.cpu.pc + 4)), e.m.mem))
  {
    PlainFinish(e);
  }

  /** A fetch fault, and a fault of a load, store or pop, has done nothing. */
  lemma RestartableDoesNothing(m: Machine, dev: Devices, decode: word -> Insn)
    requires Faults(m, dev, decode)
    requires InsnAt(m, dev, decode).Some? ==> Restartable(InsnAt(m, dev, decode).value)
    ensures NothingDone(m, dev, decode)
  {
    var m1 := m.(cpu := ChooseStack(m.cpu));
    var f := FetchWord(m1, dev);
    if f.Fetched? {
      FaultChangesNothing(m1.(mem := f.mem), dev, decode(f.w));
    }
  }

  /** If nothing was done, the processor is as the iteration found it. */
  lemma LeftUnchanged(m: Machine, dev: Devices, decode: word -> Insn)
    requires Steady(m.cpu) && Faults(m, dev, decode) && NothingDone(m, dev, decode)
    ensures Left(m, dev, decode) == ChooseStack(m.cpu)
  {
    ChoosesBank(m.cpu);
  }

  /** The faulting iteration ends at the same PC with what the instruction has assigned, FI0R, FI1R and
      the pending interrupt changed. */
  lemma FaultingCycle(m: Machine, dev: Devices, decode: word -> Insn)
    requires Steady(m.cpu) && Faults(m, dev, decode)
    ensures var r := Cycle(m, dev, decode);
      && r.Running? && r.m.cpu.nmi.Some? && r.m.mem == BodyOf(m, dev, decode).m.mem
      && r.m.cpu == Left(m, dev, decode).(fi0r := r.m.cpu.fi0r, fi1r := r.m.cpu.fi1r, nmi := r.m.cpu.nmi)
  {
    var m1 := m.(cpu := ChooseStack(m.cpu));
    var f := FetchWord(m1, dev);
    AccessFault(m.mem, Ctl(m1.cpu), FetchOp(m1.cpu.pc));
    if f.Fetched? {
      ExecuteFault(m1.(mem := f.mem), dev, decode(f.w));
      MemoryInsnFrame(m1.(mem := f.mem), dev, decode(f.w));
    }
    FinishFault(BodyOf(m, dev, decode), m1.cpu);
  }

  lemma FinishFault(e: Executed, c: Cpu)
    requires e.Next? && MemoryFault(e.fault) && MemoryFrame(c, e.m.cpu) && c.pc % 4 == 0 && c.nextPc == NO_BRANCH
    ensures var r := Finish(e);
      && r.Running? && r.m.cpu.nmi.Some? && r.m.mem == e.m.mem
      && r.m.cpu == WriteBackSp(c.(gr := e.m.cpu.gr, spr := e.m.cpu.spr))
                    .(fi0r := r.m.cpu.fi0r, fi1r := r.m.cpu.fi1r, nmi := r.m.cpu.nmi)
  {
  }

  // ---------------------------------------------------------------- the handler

  /** The handler returns at `h` having put back the general registers, both stack pointers and the
      unsaved control registers it found at its start `f`. */
  predicate Restored(h: Cpu, f: Cpu) {
    && h.gr == f.gr && h.kspr == f.kspr && h.uspr == f.uspr
    && h.kpdtr == f.kpdtr && h.idtr == f.idtr && h.idt == f.idt
    && h.finished == f.finished && h.nmi.None? && h.nextPc == NO_BRANCH
    && Banked(h) && TwoModes(h.cmod) && Kernel(h.psr)
  }

  lemma ReturnCycle(h: Machine, dev: Devices, decode: word -> Insn)
    requires InsnAt(h, dev, decode) == Some(ReturnFromInterrupt) && Cycle(h, dev, decode).Running?
    requires h.cpu.saved.pc % 4 == 0 && Banked(h.cpu) && TwoModes(h.cpu.cmod) && Kernel(h.cpu.psr)
    ensures Cycle(h, dev, decode).m.cpu ==
      h.cpu.(spr := h.cpu.kspr, cmod := 0, flags := h.cpu.saved.flags, pc := h.cpu.saved.pc, nextPc := NO_BRANCH,
             psr := h.cpu.saved.psr, pdtr := h.cpu.saved.pdtr, tidr := h.cpu.saved.tidr)
  {
    ChoosesBank(h.cpu);
  }

  /** After `ib` the processor is what the faulting instruction left. */
  lemma BackSimilar(m: Cpu, left: Cpu, c: Cpu, f: Cpu, h: Cpu, r: Cpu, back: Cpu)
    requires Steady(m) && left == WriteBackSp(ChooseStack(m).(gr := left.gr, spr := left.spr))
    requires c == left.(fi0r := c.fi0r, fi1r := c.fi1r, nmi := c.nmi)
    requires f == AgeFlags(c.(nmi := None, saved := Context(c), psr := f.psr, pc := f.pc))
    requires Restored(h, f) && h.saved == f.saved && h.testsuite == f.testsuite
    requires r == h.(spr := h.kspr, cmod := 0, flags := h.saved.flags, pc := h.saved.pc, nextPc := NO_BRANCH,
                     psr := h.saved.psr, pdtr := h.saved.pdtr, tidr := h.saved.tidr)
    requires back == AgeFlags(r)
    ensures Similar(ChooseStack(back), left) && back.prevFlags == m.flags
    ensures back.saved == Context(m) && back.nmi.None?
  {
    assert h.saved == Saved(m.flags, m.pc, m.psr, m.pdtr, m.tidr);
    assert back.flags == m.flags;
  }

  /** The pending fault has a vector to go to. */
  predicate Deliverable(cpu: Cpu) {
    cpu.nmi.Some? && Resolve(cpu.idt, cpu.nmi.value).Some?
  }

  /** The handler's last iteration: it has restored what it changed, and its `ib` completes undisturbed. */
  predicate Returns(h: Machine, f: Cpu, dev: Devices, decode: word -> Insn) {
    && Restored(h.cpu, f) && InsnAt(h, dev, decode) == Some(ReturnFromInterrupt)
    && Cycle(h, dev, decode).Running? && Entered(Cycle(h, dev, decode).m.cpu, dev).None?
  }

  /** An iteration faults; the interrupt is taken; a handler that leaves the saved registers alone
      restores the rest and returns by `ib`. */
  predicate HandledBy(m: Machine, dev: Devices, devs: seq<Devices>, devIb: Devices, decode: word -> Insn) {
    && Steady(m.cpu) && Faults(m, dev, decode)
    && Cycle(m, dev, decode).Running? && Deliverable(Cycle(m, dev, decode).m.cpu)
    && var f := Iterate(m, dev, decode).m;
       QuietRun(f, devs, decode) && Returns(RunFor(f, devs, decode).m, f.cpu, devIb, decode)
  }

  /** The machine after that. */
  function Back(m: Machine, dev: Devices, devs: seq<Devices>, devIb: Devices, decode: word -> Insn): Machine
    requires HandledBy(m, dev, devs, devIb, decode)
  {
    Iterate(RunFor(Iterate(m, dev, decode).m, devs, decode).m, devIb, decode).m
  }

  /** The processor after fault, handler and `ib` is the one the faulting instruction left; the
      interrupt context that was there before, of an outer handler say, is lost, and the last flags
      count as stale. */
  lemma HandledFault(m: Machine, dev: Devices, devs: seq<Devices>, devIb: Devices, decode: word -> Insn)
    requires HandledBy(m, dev, devs, devIb, decode)
    ensures var back := Back(m, dev, devs, devIb, decode).cpu;
      && Similar(ChooseStack(back), Left(m, dev, decode)) && back.prevFlags.invalid
      && back.saved == Context(m.cpu) && back.nmi.None?
  {
    var f := Iterate(m, dev, decode).m;
    var c := Cycle(m, dev, decode).m.cpu;
    FaultingCycle(m, dev, decode);
    DispatchOnce(c, dev);
    QuietRunKeepsSaved(f, devs, decode);
    var h := RunFor(f, devs, decode).m;
    ReturnCycle(h, devIb, decode);
    var r := Cycle(h, devIb, decode).m.cpu;
    DispatchOnce(r, devIb);
    BackSimilar(m.cpu, Left(m, dev, decode), c, f.cpu, h.cpu, r, Iterate(h, devIb, decode).m.cpu);
  }

  // ---------------------------------------------------------------- re-execution

  /** The iteration executes a conditional branch. */
  predicate BranchNext(m: Machine, dev: Devices, decode: word -> Insn) {
    var i := InsnAt(m, dev, decode);
    i.Some? && Conditional(i.value)
  }

  /** A conditional branch on stale flags ends the simulation. */
  lemma StaleBranchStops(m: Machine, dev: Devices, decode: word -> Insn)
    requires BranchNext(m, dev, decode) && m.cpu.prevFlags.invalid
    ensures Cycle(m, dev, decode).Ended?
  {
    assert BodyOf(m, dev, decode).Stopped?;
  }

  /** From similar states with stale last flags on one side, the iterations agree if and only if the
      instruction is not a conditional branch that completes on the other. */
  lemma AgreeExactly(m: Machine, m': Machine, dev: Devices, decode: word -> Insn)
    requires m.mem == m'.mem && Similar(ChooseStack(m.cpu), ChooseStack(m'.cpu)) && m.cpu.prevFlags.invalid
    requires InsnAt(m', dev, decode).Some? ==> Blind(InsnAt(m', dev, decode).value)
    ensures Agree(Cycle(m, dev, decode), Cycle(m', dev, decode)) <==>
              !(BranchNext(m', dev, decode) && Cycle(m', dev, decode).Running?)
  {
    if BranchNext(m', dev, decode) {
      SimilarFetch(m.(cpu := ChooseStack(m.cpu)), m'.(cpu := ChooseStack(m'.cpu)), dev);
      StaleBranchStops(m, dev, decode);
    } else {
      SimilarCycle(m, m', dev, decode);
    }
  }

  /** The iteration of `back` does what that of `m`, with its memory, would do, except for a conditional
      branch that would have completed. */
  predicate ExactBut(back: Machine, m: Machine, dev: Devices, decode: word -> Insn) {
    var clean := m.(mem := back.mem);
    var r, r', branch := Cycle(back, dev, decode), Cycle(clean, dev, decode), BranchNext(clean, dev, decode);
    && (Agree(r, r') <==> !(branch && r'.Running?))
    && (branch && r'.Running? ==> r.Ended? && !m.cpu.prevFlags.invalid)
  }

  lemma SimilarExact(back: Machine, m: Machine, dev: Devices, decode: word -> Insn)
    requires Similar(ChooseStack(back.cpu), ChooseStack(m.cpu)) && back.cpu.prevFlags.invalid
    requires var clean := m.(mem := back.mem);
      InsnAt(clean, dev, decode).Some? ==> Blind(InsnAt(clean, dev, decode).value)
    ensures ExactBut(back, m, dev, decode)
  {
    var clean := m.(mem := back.mem);
    AgreeExactly(back, clean, dev, decode);
    if BranchNext(clean, dev, decode) && m.cpu.prevFlags.invalid {
      StaleBranchStops(clean, dev, decode);
    }
  }

  /** Precise restart, exactly. If the faulting iteration had done nothing, the iteration after the
      handler agrees with the one there would have been with the memory the handler leaves, whatever
      instruction it finds there, except for a conditional branch that would have completed: after a
      handled fault its flags count as stale. */
  lemma {:induction false} PreciseRestart(m: Machine, dev: Devices, devs: seq<Devices>, devIb: Devices,
                                          again: Devices, decode: word -> Insn)
    requires HandledBy(m, dev, devs, devIb, decode) && NothingDone(m, dev, decode)
    requires var clean := m.(mem := Back(m, dev, devs, devIb, decode).mem);
      InsnAt(clean, again, decode).Some? ==> Blind(InsnAt(clean, again, decode).value)
    ensures ExactBut(Back(m, dev, devs, devIb, decode), m, again, decode)
  {
    var back := Back(m, dev, devs, devIb, decode);
    HandledFault(m, dev, devs, devIb, decode);
    LeftUnchanged(m, dev, decode);
    SimilarExact(back, m, again, decode);
  }

  /** So a conditional branch found after a handled fault always ends the simulation. */
  lemma {:induction false} RestartedBranchStops(m: Machine, dev: Devices, devs: seq<Devices>, devIb: Devices,
                                                again: Devices, decode: word -> Insn)
    requires HandledBy(m, dev, devs, devIb, decode) && NothingDone(m, dev, decode)
    requires BranchNext(m.(mem := Back(m, dev, devs, devIb, decode).mem), again, decode)
    ensures Cycle(Back(m, dev, devs, devIb, decode), again, decode).Ended?
  {
    PreciseRestart(m, dev, devs, devIb, again, decode);
  }

  /** A handled fetch fault on `ib` itself overwrites the context that `ib` was to restore: the
      restarted `ib` returns to itself, changing nothing, and agrees with the fault-free one only if
      the context to restore was already this very state. */
  lemma {:induction false} RestartedReturnLoops(m: Machine, dev: Devices, devs: seq<Devices>, devIb: Devices,
                                                again: Devices, decode: word -> Insn)
    requires HandledBy(m, dev, devs, devIb, decode) && NothingDone(m, dev, decode)
    requires var clean := m.(mem := Back(m, dev, devs, devIb, decode).mem);
      InsnAt(clean, again, decode) == Some(ReturnFromInterrupt)
    requires Cycle(Back(m, dev, devs, devIb, decode), again, decode).Running?
    ensures var back := Back(m, dev, devs, devIb, decode);
      var r, r' := Cycle(back, again, decode), Cycle(m.(mem := back.mem), again, decode);
      && r.m.cpu == ChooseStack(back.cpu) && r.m.cpu.pc == m.cpu.pc && r.m.cpu.saved.pc == m.cpu.pc
      && (Agree(r, r') <==> m.cpu.saved == Context(m.cpu))
  {
    var back := Back(m, dev, devs, devIb, decode);
    var clean := m.(mem := back.mem);
    HandledFault(m, dev, devs, devIb, decode);
    LeftUnchanged(m, dev, decode);
    SimilarFetch(back.(cpu := ChooseStack(back.cpu)), clean.(cpu := ChooseStack(clean.cpu)), again);
    ReturnToItself(back, again, decode);
    ReturnAgrees(back, clean, again, decode);
  }

  lemma ReturnToItself(back: Machine, dev: Devices, decode: word -> Insn)
    requires InsnAt(back, dev, decode) == Some(ReturnFromInterrupt) && Cycle(back, dev, decode).Running?
    requires var c := ChooseStack(back.cpu);
      Banked(c) && c.pc % 4 == 0 && c.nextPc == NO_BRANCH && c.saved == Context(c)
    ensures Cycle(back, dev, decode).m.cpu == ChooseStack(back.cpu)
    ensures Cycle(back, dev, decode).m.mem == FetchWord(back.(cpu := ChooseStack(back.cpu)), dev).mem
  {
  }

  lemma ReturnAgrees(back: Machine, clean: Machine, dev: Devices, decode: word -> Insn)
    requires InsnAt(back, dev, decode) == Some(ReturnFromInterrupt) == InsnAt(clean, dev, decode)
    requires back.mem == clean.mem && Similar(ChooseStack(back.cpu), ChooseStack(clean.cpu))
    requires Cycle(back, dev, decode).Running? && Cycle(back, dev, decode).m.cpu == ChooseStack(back.cpu)
    requires var c := ChooseStack(back.cpu);
      Banked(c) && c.pc % 4 == 0 && c.nextPc == NO_BRANCH && c.saved == Context(c)
    ensures Agree(Cycle(back, dev, decode), Cycle(clean, dev, decode)) <==> clean.cpu.saved == Context(clean.cpu)
  {
    SimilarFetch(back.(cpu := ChooseStack(back.cpu)), clean.(cpu := ChooseStack(clean.cpu)), dev);
    ReturnToItself(back, dev, decode);
    if clean.cpu.saved == Context(clean.cpu) {
      assert Cycle(clean, dev, decode).Running?;
      ReturnToItself(clean, dev, decode);
    }
  }

  // ---------------------------------------------------------------- push

  /** `push` is not restartable: the fault leaves SPR already lowered. */
  lemma PushFaultLowersSp(m: Machine, dev: Devices, insn: Insn)
    requires (insn.Push? || insn.PushPc?) && Execute(m, dev, insn).Next?
    ensures Execute(m, dev, insn).m.cpu.spr == Wrap(m.cpu.spr - 4) && Execute(m, dev, insn).m.cpu.gr == m.cpu.gr
  {
    var lowered := m.(cpu := m.cpu.(spr := Wrap(m.cpu.spr - 4)));
    var src := if insn.Push? then SourceValue(m.cpu, insn.src) else m.cpu.pc;
    StoreFrame(lowered, dev, FullWord, src, lowered.cpu.spr);
    StoreKeepsRegisters(lowered, dev, src, lowered.cpu.spr);
  }

  /** The iteration executes a `push` or `pushpc`. */
  predicate PushNext(m: Machine, dev: Devices, decode: word -> Insn) {
    var i := InsnAt(m, dev, decode);
    i.Some? && (i.value.Push? || i.value.PushPc?)
  }

  lemma PushCycle(m: Machine, dev: Devices, decode: word -> Insn)
    requires PushNext(m, dev, decode) && BodyOf(m, dev, decode).Next?
    ensures BodyOf(m, dev, decode).m.cpu.spr == Wrap(ChooseStack(m.cpu).spr - 4)
    ensures Cycle(m, dev, decode).Running? ==> Cycle(m, dev, decode).m.cpu.spr == Wrap(ChooseStack(m.cpu).spr - 4)
  {
    var c := ChooseStack(m.cpu);
    FetchedBody(m, dev, decode);
    PushFaultLowersSp(Machine(c, FetchWord(m.(cpu := c), dev).mem), dev, InsnAt(m, dev, decode).value);
    if Cycle(m, dev, decode).Running? {
      FinishKeepsSpr(BodyOf(m, dev, decode));
    }
  }

  /** What a push stores. */
  function PushedValue(c: Cpu, insn: Insn): word {
    if insn.Push? then SourceValue(c, insn.src) else c.pc
  }

  /** If the iteration executes a push and completes, it stores just below `top` and leaves SPR there. */
  predicate PushesFrom(m: Machine, dev: Devices, decode: word -> Insn, top: word) {
    var c, r := ChooseStack(m.cpu), Cycle(m, dev, decode);
    PushNext(m, dev, decode) && r.Running? ==>
      && r.m.cpu.spr == Wrap(top - 4)
      && r.m.mem == Perform(FetchWord(m.(cpu := c), dev).mem, Ctl(c),
                            StoreOp(FullWord, Wrap(top - 4), PushedValue(c, InsnAt(m, dev, decode).value))).mem
  }

  lemma PushStores(m: Machine, dev: Devices, insn: Insn)
    requires (insn.Push? || insn.PushPc?) && Execute(m, dev, insn).Next?
    ensures Execute(m, dev, insn).m.mem ==
      Perform(m.mem, Ctl(m.cpu), StoreOp(FullWord, Wrap(m.cpu.spr - 4), PushedValue(m.cpu, insn))).mem
  {
  }

  lemma PushMemory(m: Machine, dev: Devices, decode: word -> Insn)
    requires PushNext(m, dev, decode) && Cycle(m, dev, decode).Running?
    ensures var c := ChooseStack(m.cpu);
      Cycle(m, dev, decode).m.mem ==
        Perform(FetchWord(m.(cpu := c), dev).mem, Ctl(c),
                StoreOp(FullWord, Wrap(c.spr - 4), PushedValue(c, InsnAt(m, dev, decode).value))).mem
  {
    var c := ChooseStack(m.cpu);
    var m1 := Machine(c, FetchWord(m.(cpu := c), dev).mem);
    FetchedBody(m, dev, decode);
    PushFinishes(m1, dev, InsnAt(m, dev, decode).value);
  }

  lemma PushFinishes(m: Machine, dev: Devices, insn: Insn)
    requires (insn.Push? || insn.PushPc?) && Finish(Execute(m, dev, insn)).Running?
    ensures Finish(Execute(m, dev, insn)).m.mem ==
      Perform(m.mem, Ctl(m.cpu), StoreOp(FullWord, Wrap(m.cpu.spr - 4), PushedValue(m.cpu, insn))).mem
  {
    FinishKeepsMemory(Execute(m, dev, insn));
    PushStores(m, dev, insn);
  }

  /** The body of an iteration whose fetch succeeds. */
  lemma FetchedBody(m: Machine, dev: Devices, decode: word -> Insn)
    requires InsnAt(m, dev, decode).Some?
    ensures var c := ChooseStack(m.cpu);
      BodyOf(m, dev, decode) ==
        Execute(Machine(c, FetchWord(m.(cpu := c), dev).mem), dev, InsnAt(m, dev, decode).value)
  {
  }

  lemma PushesFromTop(m: Machine, dev: Devices, decode: word -> Insn)
    ensures PushesFrom(m, dev, decode, ChooseStack(m.cpu).spr)
  {
    if PushNext(m, dev, decode) && Cycle(m, dev, decode).Running? {
      PushCycle(m, dev, decode);
      PushMemory(m, dev, decode);
    }
  }

  lemma FinishKeepsMemory(e: Executed)
    requires Finish(e).Running?
    ensures e.Next? && Finish(e).m.mem == e.m.mem
  {
  }

  /** Where both push and complete, that of `back` stores and ends four below that of `m`, with its
      memory. */
  predicate FourBelow(back: Machine, m: Machine, dev: Devices, decode: word -> Insn) {
    var top := ChooseStack(m.cpu).spr;
    PushesFrom(m.(mem := back.mem), dev, decode, top) && PushesFrom(back, dev, decode, Wrap(top - 4))
  }

  lemma PushTooLow(back: Machine, m: Machine, left: Cpu, dev: Devices, decode: word -> Insn)
    requires Similar(ChooseStack(back.cpu), left) && left.spr == Wrap(ChooseStack(m.cpu).spr - 4)
    ensures FourBelow(back, m, dev, decode)
  {
    PushesFromTop(back, dev, decode);
    PushesFromTop(m.(mem := back.mem), dev, decode);
    assert ChooseStack(back.cpu).spr == left.spr;
  }

  lemma PushLeft(m: Machine, dev: Devices, decode: word -> Insn)
    requires Faults(m, dev, decode) && PushNext(m, dev, decode)
    ensures Left(m, dev, decode).spr == Wrap(ChooseStack(m.cpu).spr - 4)
  {
    PushCycle(m, dev, decode);
  }

  /** So the `push` re-executed after a handled fault stores, and leaves SPR, four below the fault-free
      one. */
  lemma {:induction false} RestartedPushTooLow(m: Machine, dev: Devices, devs: seq<Devices>, devIb: Devices,
                                               again: Devices, decode: word -> Insn)
    requires HandledBy(m, dev, devs, devIb, decode) && PushNext(m, dev, decode)
    ensures FourBelow(Back(m, dev, devs, devIb, decode), m, again, decode)
  {
    HandledFault(m, dev, devs, devIb, decode);
    PushLeft(m, dev, decode);
    PushTooLow(Back(m, dev, devs, devIb, decode), m, Left(m, dev, decode), again, decode);
  }

  lemma StoreKeepsRegisters(m: Machine, dev: Devices, src: word, vaddr: word)
    requires ExecStore(m, dev, FullWord, src, vaddr).Next?
    ensures ExecStore(m, dev, FullWord, src, vaddr).m.cpu.gr == m.cpu.gr
  {
  }
}
