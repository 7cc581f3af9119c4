/** What one completed iteration of the loop leaves, in terms of the instruction it executed. */
module Iteration {
  import opened Words
  import opened Cache
  import opened LoadStore
  import opened Cpu
  import opened Interrupts
  import opened Restart

  /** An immediate, or the register's value. */
  function OperandValue(c: Cpu, src: Source): word {
    match src
    case Constant(n) => n
    case FromReg(r) => c.gr[r]
  }

  /** The state in which the fetched instruction is executed. */
  function Fetching(m: Machine, dev: Devices): Machine {
    var c := m.(cpu := ChooseStack(m.cpu));
    var w := FetchWord(c, dev);
    if w.Fetched? then c.(mem := w.mem) else c
  }

  /** The iteration executes `insn` without a fault and ends in `m1`. */
  ghost predicate Completes(m: Machine, dev: Devices, decode: word -> Insn, insn: Insn, m1: Machine) {
    && InsnAt(m, dev, decode) == Some(insn) && Iterate(m, dev, decode) == Running(m1)
    && !Faults(m, dev, decode)
  }

  /** No interrupt is entered at the end of the iteration. */
  predicate Undisturbed(m: Machine, dev: Devices, decode: word -> Insn) {
    Cycle(m, dev, decode).Running? && Entered(Cycle(m, dev, decode).m.cpu, dev).None?
  }

  /** What the loop itself may change after the instruction: PC, the bank of the mode, the age of the
      flags, and what an interrupt entry assigns. */
  predicate LoopFrame(c: Cpu, c1: Cpu) {
    && c1 == c.(pc := c1.pc, nextPc := NO_BRANCH, kspr := if c.cmod == 0 then c.spr else c.kspr,
                uspr := if c.cmod == 0 then c.uspr else c.spr, flags := c.flags.(invalid := true),
                prevFlags := c.flags, psr := c1.psr, saved := c1.saved, nmi := None, finished := c1.finished)
  }

  lemma BodyExecutes(m: Machine, dev: Devices, decode: word -> Insn, insn: Insn)
    requires InsnAt(m, dev, decode) == Some(insn)
    ensures BodyOf(m, dev, decode) == Execute(Fetching(m, dev), dev, insn)
    ensures Fetching(m, dev).cpu == ChooseStack(m.cpu)
  {
  }

  /** A completed iteration leaves what its instruction left, but for what the loop does itself. */
  lemma CompletedFrame(m: Machine, dev: Devices, decode: word -> Insn, insn: Insn, m1: Machine)
    requires Completes(m, dev, decode, insn, m1)
    ensures var e := Execute(Fetching(m, dev), dev, insn);
      && e.Next? && e.fault == 0 && m1.mem == e.m.mem && LoopFrame(e.m.cpu, m1.cpu)
      && (Undisturbed(m, dev, decode) ==>
            && m1.cpu.psr == e.m.cpu.psr && m1.cpu.saved == e.m.cpu.saved
            && m1.cpu.pc == if e.m.cpu.nextPc == NO_BRANCH then Wrap(e.m.cpu.pc + 4) else e.m.cpu.nextPc)
  {
    BodyExecutes(m, dev, decode, insn);
    var e := BodyOf(m, dev, decode);
    FinishFrame(e);
    DispatchFrame(Finish(e).m.cpu, dev);
    FrameComposes(e.m.cpu, Finish(e).m.cpu, Dispatch(Finish(e).m.cpu, dev));
  }

  lemma DispatchFrame(c: Cpu, dev: Devices)
    ensures var c' := Dispatch(c, dev);
      && c' == c.(pc := c'.pc, psr := c'.psr, saved := c'.saved, nmi := None, finished := c'.finished)
      && (Entered(c, dev).None? ==> c'.pc == c.pc && c'.psr == c.psr && c'.saved == c.saved)
  {
    DispatchOnce(c, dev);
  }

  lemma FrameComposes(c: Cpu, c1: Cpu, c2: Cpu)
    requires c1 == c.(pc := c1.pc, nextPc := NO_BRANCH, kspr := if c.cmod == 0 then c.spr else c.kspr,
                      uspr := if c.cmod == 0 then c.uspr else c.spr)
    requires c2 == c1.(pc := c2.pc, psr := c2.psr, saved := c2.saved, nmi := None, finished := c2.finished)
    ensures LoopFrame(c, AgeFlags(c2))
  {
  }

  lemma FinishFrame(e: Executed)
    requires e.Next? && e.fault == 0 && Finish(e).Running?
    ensures var c, c1 := e.m.cpu, Finish(e).m.cpu;
      && c1 == c.(pc := if c.nextPc == NO_BRANCH then Wrap(c.pc + 4) else c.nextPc, nextPc := NO_BRANCH,
                  kspr := if c.cmod == 0 then c.spr else c.kspr, uspr := if c.cmod == 0 then c.uspr else c.spr)
      && Finish(e).m.mem == e.m.mem
  {
  }

  /** An instruction that accesses no memory does not fault. */
  lemma RegisterInsnCompletes(m: Machine, dev: Devices, decode: word -> Insn, insn: Insn, m1: Machine)
    requires InsnAt(m, dev, decode) == Some(insn) && !MemoryInsn(insn) && Iterate(m, dev, decode) == Running(m1)
    ensures Completes(m, dev, decode, insn, m1)
  {
    BodyExecutes(m, dev, decode, insn);
  }

  /** A fault is one of the two memory faults, and of a fetch or an instruction that accesses memory. */
  lemma FaultFrame(m: Machine, dev: Devices, decode: word -> Insn)
    requires Faults(m, dev, decode)
    ensures var e := BodyOf(m, dev, decode); MemoryFault(e.fault) && MemoryFrame(ChooseStack(m.cpu), e.m.cpu)
    ensures InsnAt(m, dev, decode).Some? ==> MemoryInsn(InsnAt(m, dev, decode).value)
  {
    var m1 := m.(cpu := ChooseStack(m.cpu));
    var f := FetchWord(m1, dev);
    AccessFault(m.mem, Ctl(m1.cpu), FetchOp(m1.cpu.pc));
    if f.Fetched? {
      ExecuteFault(m1.(mem := f.mem), dev, decode(f.w));
      MemoryInsnFrame(m1.(mem := f.mem), dev, decode(f.w));
    }
  }

  /** The first instruction of a program is the RAM word at its entry. */
  lemma FirstInstruction(ram: Ram, entry: word, testsuite: bool, dev: Devices, decode: word -> Insn)
    requires entry < RAM_LIMIT
    ensures InsnAt(Machine(Reset(entry, testsuite), Cold(ram)), dev, decode) == Some(decode(ram[entry / 4]))
  {
    ReadCoherent(Cold(ram).hier.icache, 0, ram, entry, {});
  }

  // ---------------------------------------------------------------- instruction sequences

  /** Consecutive iterations execute the instructions of `code`, and end in `m1`. */
  ghost predicate Executes(m: Machine, devs: seq<Devices>, decode: word -> Insn, code: seq<Insn>, m1: Machine)
    decreases |code|
  {
    |devs| == |code| &&
    if |code| == 0 then m1 == m
    else
      && Iterate(m, devs[0], decode).Running?
      && Completes(m, devs[0], decode, code[0], Iterate(m, devs[0], decode).m)
      && Executes(Iterate(m, devs[0], decode).m, devs[1..], decode, code[1..], m1)
  }

  /** No interrupt is entered on the way. */
  predicate UndisturbedRun(m: Machine, devs: seq<Devices>, decode: word -> Insn)
    decreases |devs|
  {
    |devs| == 0 ||
    (&& Undisturbed(m, devs[0], decode)
     && UndisturbedRun(Iterate(m, devs[0], decode).m, devs[1..], decode))
  }
}
