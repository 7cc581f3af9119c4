/** A compare and the conditional branch after it, as two iterations of the loop. */
module CompareBranch {
  import opened Words
  import opened Flags
  import opened Cpu
  import opened Interrupts

  /** `cmp` followed by a branch takes the branch exactly when the operands stand in the relation its
      condition names; the flags are fresh enough for the branch to accept them. */
  lemma CompareThenBranch(m: Machine, dev: Devices, m1: Machine, dev1: Devices, decode: word -> Insn,
                          rd: Reg, src: Source, relative: bool, condition: nat, target: Source)
    requires m.cpu.nextPc == NO_BRANCH && condition < 16
    requires InsnAt(m, dev, decode) == Some(Alu(CmpOp, rd, src))
    requires Iterate(m, dev, decode) == Running(m1) && Entered(Cycle(m, dev, decode).m.cpu, dev).None?
    requires InsnAt(m1, dev1, decode) == Some(Branch(relative, condition, target))
    requires BranchTarget(m1.cpu, relative, target) % 4 == 0
    ensures Cycle(m1, dev1, decode).Running?
    ensures Cycle(m1, dev1, decode).m.cpu.pc ==
      if Asked(condition, m.cpu.gr[rd], SourceValue(m.cpu, src)) then BranchTarget(m1.cpu, relative, target)
      else Wrap(m1.cpu.pc + 4)
  {
    ComparedFlags(m, dev, m1, decode, rd, src, condition);
    BranchCycle(m1, dev1, decode, relative, condition, target);
  }

  /** The flags the branch finds hold its condition exactly if the operands stand in the relation. */
  lemma ComparedFlags(m: Machine, dev: Devices, m1: Machine, decode: word -> Insn, rd: Reg, src: Source,
                      condition: nat)
    requires m.cpu.nextPc == NO_BRANCH && condition < 16
    requires InsnAt(m, dev, decode) == Some(Alu(CmpOp, rd, src))
    requires Iterate(m, dev, decode) == Running(m1) && Entered(Cycle(m, dev, decode).m.cpu, dev).None?
    ensures m1.cpu.nextPc == NO_BRANCH && !m1.cpu.prevFlags.invalid
    ensures Holds(m1.cpu.flags, condition) <==> Asked(condition, m.cpu.gr[rd], SourceValue(m.cpu, src))
  {
    AfterCompare(m, dev, m1, decode, rd, src);
    StaleFlagsDecide(m1.cpu.flags, m.cpu.gr[rd], SourceValue(m.cpu, src), condition);
  }

  lemma StaleFlagsDecide(f: Flags, a: word, b: word, condition: nat)
    requires condition < 16 && f == MakeFlagsSub(Wrap(a - b), a, b).(invalid := true)
    ensures Holds(f, condition) <==> Asked(condition, a, b)
  {
    var f0 := MakeFlagsSub(Wrap(a - b), a, b);
    CompareDecides(a, b, condition);
    HoldsIgnoresValidity(f0, condition);
  }

  lemma HoldsIgnoresValidity(f: Flags, condition: nat)
    requires condition < 16
    ensures Holds(f.(invalid := true), condition) == Holds(f, condition)
  {
  }

  function BranchTarget(cpu: Cpu, relative: bool, target: Source): word {
    if relative then Wrap(cpu.pc + SourceValue(cpu, target)) else SourceValue(cpu, target)
  }

  lemma CompareBody(m: Machine, dev: Devices, decode: word -> Insn, rd: Reg, src: Source)
    requires InsnAt(m, dev, decode) == Some(Alu(CmpOp, rd, src))
    ensures var c := ChooseStack(m.cpu);
      var e := Body(m.(cpu := c), dev, decode);
      e.Next? && e.fault == 0 && e.m.cpu == ExecAlu(c, CmpOp, rd, src)
  {
  }

  lemma AfterCompare(m: Machine, dev: Devices, m1: Machine, decode: word -> Insn, rd: Reg, src: Source)
    requires m.cpu.nextPc == NO_BRANCH && InsnAt(m, dev, decode) == Some(Alu(CmpOp, rd, src))
    requires Iterate(m, dev, decode) == Running(m1) && Entered(Cycle(m, dev, decode).m.cpu, dev).None?
    ensures var a, b := m.cpu.gr[rd], SourceValue(m.cpu, src);
      m1.cpu.prevFlags == MakeFlagsSub(Wrap(a - b), a, b) && m1.cpu.flags == m1.cpu.prevFlags.(invalid := true)
    ensures m1.cpu.nextPc == NO_BRANCH
  {
    CompareBody(m, dev, decode, rd, src);
    PlainFinish(Body(m.(cpu := ChooseStack(m.cpu)), dev, decode));
    DispatchOnce(Cycle(m, dev, decode).m.cpu, dev);
  }

  lemma BranchCycle(m: Machine, dev: Devices, decode: word -> Insn, relative: bool, condition: nat, target: Source)
    requires m.cpu.nextPc == NO_BRANCH && !m.cpu.prevFlags.invalid && condition < 16
    requires InsnAt(m, dev, decode) == Some(Branch(relative, condition, target))
    requires BranchTarget(m.cpu, relative, target) % 4 == 0
    ensures Cycle(m, dev, decode).Running?
    ensures Cycle(m, dev, decode).m.cpu.pc ==
      if Holds(m.cpu.flags, condition) then BranchTarget(m.cpu, relative, target) else Wrap(m.cpu.pc + 4)
  {
    var c := ChooseStack(m.cpu);
    BranchBody(m, dev, decode, relative, condition, target);
    if !Holds(c.flags, condition) {
      PlainFinish(Body(m.(cpu := c), dev, decode));
    }
  }

  lemma BranchBody(m: Machine, dev: Devices, decode: word -> Insn, relative: bool, condition: nat, target: Source)
    requires !m.cpu.prevFlags.invalid && condition < 16
    requires InsnAt(m, dev, decode) == Some(Branch(relative, condition, target))
    ensures var c := ChooseStack(m.cpu);
      var e := Body(m.(cpu := c), dev, decode);
      && e.Next? && e.fault == 0
      && e.m.cpu == if Holds(c.flags, condition) then c.(nextPc := BranchTarget(m.cpu, relative, target)) else c
  {
  }

  /** A branch ends the simulation exactly if its condition does not exist, if it is conditional on stale
      flags, or if it is taken to an address that is no multiple of 4; it goes to its target exactly if the
      condition holds, but for the target 0xffffffff, which the loop takes for no branch. */
  lemma BranchExactly(m: Machine, dev: Devices, decode: word -> Insn, relative: bool, condition: nat, target: Source)
    requires m.cpu.nextPc == NO_BRANCH && InsnAt(m, dev, decode) == Some(Branch(relative, condition, target))
    ensures var c, r, t := m.cpu, Cycle(m, dev, decode), BranchTarget(m.cpu, relative, target);
      if condition >= 16 || (condition != 0 && c.prevFlags.invalid) then r.Ended?
      else if Holds(c.flags, condition) && t != 0xffff_ffff then
        if t % 4 != 0 then r.Ended? else r.Running? && r.m.cpu.pc == t
      else r.Running? && r.m.cpu.pc == Wrap(c.pc + 4)
  {
    BranchExecutes(m, dev, decode, relative, condition, target);
    BranchFinish(Body(m.(cpu := ChooseStack(m.cpu)), dev, decode));
  }

  lemma BranchExecutes(m: Machine, dev: Devices, decode: word -> Insn, relative: bool, condition: nat, target: Source)
    requires m.cpu.nextPc == NO_BRANCH && InsnAt(m, dev, decode) == Some(Branch(relative, condition, target))
    ensures var c := ChooseStack(m.cpu);
      var e := Body(m.(cpu := c), dev, decode);
      && (e.Stopped? <==> condition >= 16 || (condition != 0 && c.prevFlags.invalid))
      && (e.Next? ==> e.fault == 0)
      && (e.Next? ==>
            e.m.cpu == if Holds(c.flags, condition) then c.(nextPc := BranchTarget(m.cpu, relative, target)) else c)
  {
  }

  lemma BranchFinish(e: Executed)
    requires e.Next? ==> e.fault == 0
    ensures var r := Finish(e);
      if e.Stopped? then r.Ended?
      else if e.m.cpu.nextPc == 0xffff_ffff then r.Running? && r.m.cpu.pc == Wrap(e.m.cpu.pc + 4)
      else if e.m.cpu.nextPc % 4 != 0 then r.Ended?
      else r.Running? && r.m.cpu.pc == e.m.cpu.nextPc
  {
  }
}
