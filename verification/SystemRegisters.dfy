/** The system registers as programs see them: what a write leaves for each read instruction, what it does
    to the TLB, and how a kernel starts a context of its making. */
module SystemRegisters {
  import opened Words
  import opened Mmu
  import opened Flags
  import opened Cpu
  import opened Interrupts
  import opened Restart
  import opened Iteration
  import opened Bits

  /** FLAGR as a word. */
  function FlagWord(f: Flags): int {
    Bit(f.invalid, 1) + 2 * f.reserved + Bit(f.sign, 0x800_0000) + Bit(f.overflow, 0x1000_0000)
    + Bit(f.carry, 0x2000_0000) + Bit(f.parity, 0x4000_0000) + Bit(f.zero, 0x8000_0000)
  }

  function Bit(on: bool, weight: int): int {
    if on then weight else 0
  }

  lemma BitValue(x: nat, weight: int)
    ensures Bit(x % 2 == 1, weight) == weight * (x % 2)
  {
  }

  /** What the read instruction of a register returns; IDTR, which has none, by its value. */
  function ReadSystem(c: Cpu, reg: SystemReg): int {
    match reg
    case Sp => c.spr
    case Pdt => c.pdtr
    case Kpdt => c.kpdtr
    case Ie => And(c.psr, 0x4) / 4
    case Mmu => And(c.psr, 0x3)
    case Pps => c.saved.psr
    case Ppc => c.saved.pc
    case Usp => c.uspr
    case Ppdt => c.saved.pdtr
    case Ptid => c.saved.tidr
    case Idtr => c.idtr
    case Ps => c.psr
    case Pflag => FlagWord(c.saved.flags)
  }

  /** What it returns after a write of `v`: interrupt enable and MMU mode are fields of PSR, and USPR is
      SPR itself in every mode but the kernel's. */
  function Written(c: Cpu, reg: SystemReg, v: word): int {
    match reg
    case Ie => v % 2
    case Mmu => v % 4
    case Usp => if And(c.psr, 0x60) == 0 then v else c.spr
    case _ => v
  }

  /** Registers that share bits: PSR and its fields, SPR and the bank it is written back to. */
  predicate Share(c: Cpu, reg: SystemReg, other: SystemReg) {
    || (reg.Ps? && (other.Ie? || other.Mmu?)) || (other.Ps? && (reg.Ie? || reg.Mmu?))
    || (And(c.psr, 0x60) != 0 && other.Usp?)
  }

  lemma FlagWordOf(w: word)
    ensures FlagWord(FlagsOf(w)) == w
  {
    FlagSum(w);
    FiveBits(w / 0x800_0000);
    LowFlags(w);
  }

  lemma FlagSum(w: word)
    ensures var h := w / 0x800_0000;
      FlagWord(FlagsOf(w)) == w % 2 + 2 * (w / 2 % 0x400_0000) + 0x800_0000 * (h % 2) + 0x1000_0000 * (h / 2 % 2)
        + 0x2000_0000 * (h / 4 % 2) + 0x4000_0000 * (h / 8 % 2) + 0x8000_0000 * (h / 16 % 2)
  {
    var h := w / 0x800_0000;
    FlagsByFields(w);
    BitValue(w, 1);
    BitValue(h, 0x800_0000);
    BitValue(h / 2, 0x1000_0000);
    BitValue(h / 4, 0x2000_0000);
    BitValue(h / 8, 0x4000_0000);
    BitValue(h / 16, 0x8000_0000);
  }

  lemma FlagsByFields(w: word)
    ensures var f, h := FlagsOf(w), w / 0x800_0000;
      && f.invalid == (w % 2 == 1) && f.reserved == w / 2 % 0x400_0000 && f.sign == (h % 2 == 1)
      && f.overflow == (h / 2 % 2 == 1) && f.carry == (h / 4 % 2 == 1) && f.parity == (h / 8 % 2 == 1)
      && f.zero == (h / 16 % 2 == 1)
  {
    HighFlags(w);
  }

  lemma LowFlags(w: word)
    ensures w == w % 2 + 2 * (w / 2 % 0x400_0000) + 0x800_0000 * (w / 0x800_0000)
  {
  }

  lemma HighFlags(w: word)
    ensures var h := w / 0x800_0000;
      && h < 32 && w / 0x1000_0000 == h / 2 && w / 0x2000_0000 == h / 4 && w / 0x4000_0000 == h / 8
      && w / 0x8000_0000 == h / 16
  {
  }

  lemma FiveBits(h: nat)
    requires h < 32
    ensures h == h % 2 + 2 * (h / 2 % 2) + 4 * (h / 4 % 2) + 8 * (h / 8 % 2) + 16 * (h / 16 % 2)
  {
  }

  /** The fields of PSR after its parts are written. */
  lemma PsrParts(psr: word, v: word)
    ensures var p := SetInterrupts(psr, v % 2 == 1); And(p, 0x4) / 4 == v % 2 && And(p, 0x3) == And(psr, 0x3)
    ensures var p := SetMmuMode(psr, v); And(p, 0x3) == v % 4 && And(p, 0x4) == And(psr, 0x4)
  {
    var p, q := SetInterrupts(psr, v % 2 == 1), SetMmuMode(psr, v);
    PsrSplit(psr);
    PsrFields(p, psr % 4, v % 2, psr / 8 % 4, psr / 0x20 % 4, psr / 0x80);
    PsrFields(q, v % 4, psr / 4 % 2, psr / 8 % 4, psr / 0x20 % 4, psr / 0x80);
    EnableBit(psr);
    EnableBit(p);
    EnableBit(q);
    PsrMasks(psr);
    PsrMasks(p);
    PsrMasks(q);
  }

  lemma EnableBit(psr: word)
    ensures And(psr, 0x4) == psr / 4 % 2 * 4
  {
    Powers();
    AndField(psr, 2, 1, 4, 2, 0x4);
  }

  /** The instruction itself, before the loop writes SPR back. */
  lemma WriteExecutes(m: Machine, reg: SystemReg, v: word)
    requires ExecWriteSystem(m, reg, v).Next?
    ensures var c, c' := m.cpu, ExecWriteSystem(m, reg, v).m.cpu;
      ReadSystem(c', reg) == if reg.Usp? then v else Written(c, reg, v)
  {
    PsrParts(m.cpu.psr, v);
    FlagWordOf(v);
  }

  lemma WriteKeeps(m: Machine, reg: SystemReg, v: word, other: SystemReg)
    requires ExecWriteSystem(m, reg, v).Next? && other != reg
    requires !(reg.Ps? && (other.Ie? || other.Mmu?)) && !(other.Ps? && (reg.Ie? || reg.Mmu?))
    ensures ReadSystem(ExecWriteSystem(m, reg, v).m.cpu, other) == ReadSystem(m.cpu, other)
  {
    PsrParts(m.cpu.psr, v);
  }

  /** The iteration writes `reg` from `src`, and no interrupt is entered at its end. */
  ghost predicate Writes(m: Machine, dev: Devices, decode: word -> Insn, reg: SystemReg, src: Source, m1: Machine) {
    && InsnAt(m, dev, decode) == Some(WriteSystem(reg, src)) && Iterate(m, dev, decode) == Running(m1)
    && Undisturbed(m, dev, decode)
  }

  lemma WriteFrame(m: Machine, dev: Devices, decode: word -> Insn, reg: SystemReg, src: Source, m1: Machine)
    requires Writes(m, dev, decode, reg, src, m1)
    ensures var e := ExecWriteSystem(Fetching(m, dev), reg, OperandValue(m.cpu, src));
      && e.Next? && m1.mem == e.m.mem && Fetching(m, dev).cpu == ChooseStack(m.cpu) && LoopFrame(e.m.cpu, m1.cpu)
      && m1.cpu.psr == e.m.cpu.psr && m1.cpu.saved == e.m.cpu.saved && e.m.cpu.gr == m.cpu.gr
      && e.m.cpu.cmod == Cmod(m.cpu.psr)
  {
    RegisterInsnCompletes(m, dev, decode, WriteSystem(reg, src), m1);
    CompletedFrame(m, dev, decode, WriteSystem(reg, src), m1);
    BodyExecutes(m, dev, decode, WriteSystem(reg, src));
  }

  /** What the loop changes for the reader: USPR becomes SPR outside kernel mode. */
  lemma LoopReads(c: Cpu, c1: Cpu, reg: SystemReg)
    requires LoopFrame(c, c1) && c1.psr == c.psr && c1.saved == c.saved
    ensures ReadSystem(c1, reg) == if reg.Usp? && c.cmod != 0 then c.spr else ReadSystem(c, reg)
  {
  }

  /** After a write, its read instruction returns what was written (of `srieiw` and `srmmuw` the field
      alone, of `sruspw` nothing outside kernel mode), and every other one that shares no bits with it
      returns what it did before. */
  lemma WriteReads(m: Machine, dev: Devices, decode: word -> Insn, reg: SystemReg, src: Source, m1: Machine,
                   other: SystemReg)
    requires Writes(m, dev, decode, reg, src, m1)
    ensures var c := ChooseStack(m.cpu);
      && ReadSystem(m1.cpu, reg) == Written(c, reg, OperandValue(m.cpu, src))
      && (other != reg && !Share(c, reg, other) ==> ReadSystem(m1.cpu, other) == ReadSystem(c, other))
      && m1.cpu.gr == m.cpu.gr
  {
    var s, v := Fetching(m, dev), OperandValue(m.cpu, src);
    WriteFrame(m, dev, decode, reg, src, m1);
    var e := ExecWriteSystem(s, reg, v);
    WriteExecutes(s, reg, v);
    LoopReads(e.m.cpu, m1.cpu, reg);
    ModeBits(m.cpu.psr);
    if other != reg && !Share(s.cpu, reg, other) {
      WriteKeeps(s, reg, v, other);
      LoopReads(e.m.cpu, m1.cpu, other);
    }
    if reg.Usp? {
      WriteKeeps(s, reg, v, Sp);
    }
  }

  lemma ModeBits(psr: word)
    ensures And(psr, 0x60) == 0 <==> Cmod(psr) == 0
  {
    PsrMasks(psr);
  }

  /** `srieiw` and `srmmuw` change nothing of PSR but their field. */
  lemma PsrAfter(m: Machine, dev: Devices, decode: word -> Insn, reg: SystemReg, src: Source, m1: Machine)
    requires Writes(m, dev, decode, reg, src, m1)
    ensures var psr, v := m.cpu.psr, OperandValue(m.cpu, src);
      m1.cpu.psr == match reg
                    case Ie => if v % 2 == 1 then Or(psr, 0x4) else And(psr, 0xffff_fffb)
                    case Mmu => Or(And(psr, 0xffff_fffc), And(v, 0x3))
                    case Ps => v
                    case _ => psr
  {
    WriteFrame(m, dev, decode, reg, src, m1);
    EnableMasks(m.cpu.psr);
    MmuModeMasks(m.cpu.psr, OperandValue(m.cpu, src));
  }

  /** A write ends the simulation exactly for a PPCR that is no multiple of 4, and for a PSR that pages
      with pages of another size than 4 KB. */
  lemma WriteEndsIff(m: Machine, dev: Devices, decode: word -> Insn, reg: SystemReg, src: Source)
    requires InsnAt(m, dev, decode) == Some(WriteSystem(reg, src)) && m.cpu.nextPc == NO_BRANCH
    ensures var v := OperandValue(m.cpu, src);
      Iterate(m, dev, decode).Ended? <==>
        (reg.Ppc? && v % 4 != 0) || (reg.Ps? && And(v, 0x3) != 0 && And(v, 0x380) != 0x80)
  {
    var v, s := OperandValue(m.cpu, src), Fetching(m, dev);
    BodyExecutes(m, dev, decode, WriteSystem(reg, src));
    SizeBits(v);
    WriteStops(s, reg, v);
  }

  lemma SizeBits(v: word)
    ensures And(v, 0x3) == MmuMode(v) && (And(v, 0x380) == 0x80 <==> v / 0x80 % 8 == 1)
  {
    Powers();
    PsrMasks(v);
    AndField(v, 7, 3, 0x80, 8, 0x380);
  }

  lemma WriteStops(m: Machine, reg: SystemReg, v: word)
    ensures var e := ExecWriteSystem(m, reg, v);
      && (e.Stopped? <==> (reg.Ppc? && v % 4 != 0) || (reg.Ps? && MmuMode(v) != 0 && v / 0x80 % 8 != 1))
      && (e.Next? ==> e.fault == 0 && e.m.cpu.nextPc == m.cpu.nextPc)
  {
  }

  // ---------------------------------------------------------------- the TLB

  /** The write must not leave TLB entries: another directory, another MMU mode, another mode. */
  predicate MustFlush(c: Cpu, reg: SystemReg, v: word) {
    match reg
    case Pdt => true
    case Kpdt => true
    case Mmu => true
    case Ps => And(v, 0x3) != And(c.psr, 0x3) || And(v, 0x60) != And(c.psr, 0x60)
    case _ => false
  }

  /** Those writes invalidate every TLB entry; the others leave all as the fetch left them. RAM and caches
      are kept by all. */
  lemma WriteFlushes(m: Machine, dev: Devices, decode: word -> Insn, reg: SystemReg, src: Source, m1: Machine)
    requires Writes(m, dev, decode, reg, src, m1)
    ensures m1.mem.hier == Fetching(m, dev).mem.hier
    ensures if MustFlush(m.cpu, reg, OperandValue(m.cpu, src))
            then forall i :: 0 <= i < 16 ==> And(m1.mem.tlb[i].pte, 0x1) == 0
            else m1.mem.tlb == Fetching(m, dev).mem.tlb
  {
    var v := OperandValue(m.cpu, src);
    WriteFrame(m, dev, decode, reg, src, m1);
    PsrMasks(v);
    PsrMasks(m.cpu.psr);
    assert And(0, 0x1) == 0;
  }

  lemma ReturnFrame(m: Machine, dev: Devices, decode: word -> Insn, m1: Machine)
    requires InsnAt(m, dev, decode) == Some(ReturnFromInterrupt) && Iterate(m, dev, decode) == Running(m1)
    ensures ExecReturn(Fetching(m, dev)).Next? && m1.mem == ExecReturn(Fetching(m, dev)).m.mem
    ensures Fetching(m, dev).cpu == ChooseStack(m.cpu) && LoopFrame(ExecReturn(Fetching(m, dev)).m.cpu, m1.cpu)
    ensures Undisturbed(m, dev, decode) ==>
      && m1.cpu.psr == m.cpu.saved.psr && m1.cpu.saved == m.cpu.saved
      && (m.cpu.saved.pc % 4 == 0 ==> m1.cpu.pc == m.cpu.saved.pc)
  {
    RegisterInsnCompletes(m, dev, decode, ReturnFromInterrupt, m1);
    CompletedFrame(m, dev, decode, ReturnFromInterrupt, m1);
    BodyExecutes(m, dev, decode, ReturnFromInterrupt);
  }

  /** `ib` does so exactly for another PDTR or MMU mode. */
  lemma ReturnFlushes(m: Machine, dev: Devices, decode: word -> Insn, m1: Machine)
    requires InsnAt(m, dev, decode) == Some(ReturnFromInterrupt) && Iterate(m, dev, decode) == Running(m1)
    ensures m1.mem.hier == Fetching(m, dev).mem.hier
    ensures if m.cpu.saved.pdtr != m.cpu.pdtr || And(m.cpu.saved.psr, 0x3) != And(m.cpu.psr, 0x3)
            then forall i :: 0 <= i < 16 ==> And(m1.mem.tlb[i].pte, 0x1) == 0
            else m1.mem.tlb == Fetching(m, dev).mem.tlb
  {
    ReturnFrame(m, dev, decode, m1);
    PsrMasks(m.cpu.saved.psr);
    PsrMasks(m.cpu.psr);
    assert And(0, 0x1) == 0;
  }

  // ---------------------------------------------------------------- starting a context

  /** The registers a kernel fills before `ib`. */
  predicate ContextReg(reg: SystemReg) {
    reg.Pps? || reg.Ppc? || reg.Ppdt? || reg.Ptid? || reg.Pflag? || reg.Usp?
  }

  predicate ContextWrites(code: seq<Insn>) {
    forall k :: 0 <= k < |code| ==> code[k].WriteSystem? && ContextReg(code[k].reg)
  }

  /** The value `reg` has after the writes, the last one counting. */
  function AfterWrites(c: Cpu, code: seq<Insn>, reg: SystemReg, before: int): int
    requires ContextWrites(code)
    decreases |code|
  {
    if |code| == 0 then before
    else AfterWrites(c, code[1..], reg, if code[0].reg == reg then OperandValue(c, code[0].src) else before)
  }

  lemma AfterWritesGr(c: Cpu, c': Cpu, code: seq<Insn>, reg: SystemReg, before: int)
    requires ContextWrites(code) && c.gr == c'.gr
    ensures AfterWrites(c, code, reg, before) == AfterWrites(c', code, reg, before)
    decreases |code|
  {
  }

  /** One of these writes in kernel mode. */
  lemma ContextStep(m: Machine, dev: Devices, decode: word -> Insn, insn: Insn, m1: Machine, reg: SystemReg)
    requires insn.WriteSystem? && ContextReg(insn.reg) && ContextReg(reg) && And(m.cpu.psr, 0x60) == 0
    requires Completes(m, dev, decode, insn, m1) && Undisturbed(m, dev, decode)
    ensures ReadSystem(m1.cpu, reg) == if insn.reg == reg then OperandValue(m.cpu, insn.src) else ReadSystem(m.cpu, reg)
    ensures m1.cpu.gr == m.cpu.gr && m1.cpu.psr == m.cpu.psr
  {
    WriteReads(m, dev, decode, insn.reg, insn.src, m1, reg);
    PsrAfter(m, dev, decode, insn.reg, insn.src, m1);
  }

  lemma {:induction false} WritesLast(m: Machine, devs: seq<Devices>, decode: word -> Insn, code: seq<Insn>,
                                      m1: Machine, reg: SystemReg)
    requires Executes(m, devs, decode, code, m1) && UndisturbedRun(m, devs, decode) && ContextWrites(code)
    requires ContextReg(reg) && And(m.cpu.psr, 0x60) == 0
    ensures ReadSystem(m1.cpu, reg) == AfterWrites(m.cpu, code, reg, ReadSystem(m.cpu, reg))
    ensures m1.cpu.psr == m.cpu.psr
    decreases |code|
  {
    if |code| != 0 {
      var n := Iterate(m, devs[0], decode).m;
      ContextStep(m, devs[0], decode, code[0], n, reg);
      WritesLast(n, devs[1..], decode, code[1..], m1, reg);
      AfterWritesGr(m.cpu, n.cpu, code[1..], reg, ReadSystem(n.cpu, reg));
    }
  }

  /** The previous registers of `c` are the present ones of `c1`. */
  predicate Reinstated(c: Cpu, c1: Cpu) {
    && c1.psr == ReadSystem(c, Pps) && c1.pc == ReadSystem(c, Ppc) && c1.pdtr == ReadSystem(c, Ppdt)
    && c1.tidr == ReadSystem(c, Ptid) && FlagWord(c1.prevFlags) == ReadSystem(c, Pflag)
    && (And(c1.psr, 0x60) != 0 ==> ChooseStack(c1).spr == ReadSystem(c, Usp))
  }

  /** What `ib` makes of the registers. */
  lemma ReturnReads(m: Machine, dev: Devices, decode: word -> Insn, m1: Machine)
    requires InsnAt(m, dev, decode) == Some(ReturnFromInterrupt) && Iterate(m, dev, decode) == Running(m1)
    requires Undisturbed(m, dev, decode) && m.cpu.saved.pc % 4 == 0 && And(m.cpu.psr, 0x60) == 0
    ensures Reinstated(m.cpu, m1.cpu)
  {
    ReturnFrame(m, dev, decode, m1);
    ModeBits(m.cpu.psr);
    ModeBits(m1.cpu.psr);
  }

  /** A kernel that writes PPSR, PPCR, PPDTR, PTIDR, PFLAGR and USPR in any order, and any of them more
      than once, and then executes `ib`, starts just that context: PSR, PC, directory, task, flags and,
      in another mode, stack pointer are the values written last. */
  lemma {:induction false} ContextStarts(m: Machine, devs: seq<Devices>, decode: word -> Insn, code: seq<Insn>,
                                         h: Machine, dev: Devices, m1: Machine)
    requires Executes(m, devs, decode, code, h) && UndisturbedRun(m, devs, decode) && ContextWrites(code)
    requires And(m.cpu.psr, 0x60) == 0 && Undisturbed(h, dev, decode) && h.cpu.saved.pc % 4 == 0
    requires InsnAt(h, dev, decode) == Some(ReturnFromInterrupt) && Iterate(h, dev, decode) == Running(m1)
    ensures StartsWith(m.cpu, code, m1.cpu)
  {
    ContextWritten(m, devs, decode, code, h);
    ReturnReads(h, dev, decode, m1);
    ContextReinstated(m.cpu, code, h.cpu, m1.cpu);
  }

  /** `c1` is at the start of the context the writes from `c` on make. */
  predicate StartsWith(c: Cpu, code: seq<Insn>, c1: Cpu)
    requires ContextWrites(code)
  {
    && c1.psr == AfterWrites(c, code, Pps, c.saved.psr) && c1.pc == AfterWrites(c, code, Ppc, c.saved.pc)
    && c1.pdtr == AfterWrites(c, code, Ppdt, c.saved.pdtr) && c1.tidr == AfterWrites(c, code, Ptid, c.saved.tidr)
    && FlagWord(c1.prevFlags) == AfterWrites(c, code, Pflag, FlagWord(c.saved.flags))
    && (And(c1.psr, 0x60) != 0 ==> ChooseStack(c1).spr == AfterWrites(c, code, Usp, c.uspr))
  }

  /** Every register of the context holds what was written to it last. */
  ghost predicate HoldsWrites(c: Cpu, code: seq<Insn>, h: Cpu)
    requires ContextWrites(code)
  {
    forall reg :: ContextReg(reg) ==> ReadSystem(h, reg) == AfterWrites(c, code, reg, ReadSystem(c, reg))
  }

  lemma ContextReinstated(c: Cpu, code: seq<Insn>, h: Cpu, c1: Cpu)
    requires ContextWrites(code) && HoldsWrites(c, code, h) && Reinstated(h, c1)
    ensures StartsWith(c, code, c1)
  {
    assert ContextReg(Pps) && ContextReg(Ppc) && ContextReg(Ppdt) && ContextReg(Ptid) && ContextReg(Pflag)
           && ContextReg(Usp);
  }

  lemma ContextWritten(m: Machine, devs: seq<Devices>, decode: word -> Insn, code: seq<Insn>, h: Machine)
    requires Executes(m, devs, decode, code, h) && UndisturbedRun(m, devs, decode) && ContextWrites(code)
    requires And(m.cpu.psr, 0x60) == 0
    ensures HoldsWrites(m.cpu, code, h.cpu) && h.cpu.psr == m.cpu.psr
  {
    forall reg | ContextReg(reg)
      ensures ReadSystem(h.cpu, reg) == AfterWrites(m.cpu, code, reg, ReadSystem(m.cpu, reg))
    {
      WritesLast(m, devs, decode, code, h, reg);
    }
    WritesLast(m, devs, decode, code, h, Pps);
  }

  /** `ib` ends the simulation exactly for a PSR that pages with pages of another size than 4 KB, and for a
      PC that is no multiple of 4 (but for 0xffffffff, which stands for no branch). */
  lemma ReturnEndsIff(m: Machine, dev: Devices, decode: word -> Insn)
    requires InsnAt(m, dev, decode) == Some(ReturnFromInterrupt)
    ensures var s := m.cpu.saved;
      Iterate(m, dev, decode).Ended? <==>
        (And(s.psr, 0x3) != 0 && And(s.psr, 0x380) != 0x80) || (s.pc % 4 != 0 && s.pc != 0xffff_ffff)
  {
    BodyExecutes(m, dev, decode, ReturnFromInterrupt);
    SizeBits(m.cpu.saved.psr);
    FinishEnds(BodyOf(m, dev, decode));
  }

  lemma FinishEnds(e: Executed)
    requires e.Next? ==> e.fault == 0
    ensures Finish(e).Ended? <==> e.Stopped? || (e.m.cpu.nextPc % 4 != 0 && e.m.cpu.nextPc != 0xffff_ffff)
  {
  }

  // ---------------------------------------------------------------- SPR

  lemma AdjustLeaves(m: Machine, dev: Devices, decode: word -> Insn, words: Imm16, m1: Machine)
    requires InsnAt(m, dev, decode) == Some(AdjustSp(words)) && Iterate(m, dev, decode) == Running(m1)
    ensures m1.cpu.spr == Wrap(ChooseStack(m.cpu).spr + 4 * words) && m1.cpu.gr == m.cpu.gr
  {
    RegisterInsnCompletes(m, dev, decode, AdjustSp(words), m1);
    CompletedFrame(m, dev, decode, AdjustSp(words), m1);
    BodyExecutes(m, dev, decode, AdjustSp(words));
  }

  /** `sp` is `words` words from `before`, modulo 2^32. */
  predicate WordsAway(before: int, words: int, sp: int) {
    (sp - before - 4 * words) % 0x1_0000_0000 == 0
  }

  /** `srspadd` moves SPR by so many words, upwards for positive ones. */
  lemma StackMoves(m: Machine, dev: Devices, decode: word -> Insn, words: Imm16, m1: Machine)
    requires InsnAt(m, dev, decode) == Some(AdjustSp(words)) && Iterate(m, dev, decode) == Running(m1)
    ensures WordsAway(ChooseStack(m.cpu).spr, words, m1.cpu.spr) && m1.cpu.gr == m.cpu.gr
  {
    AdjustLeaves(m, dev, decode, words, m1);
    WrapDistance(ChooseStack(m.cpu).spr, words, m1.cpu.spr);
  }

  lemma WrapDistance(before: int, words: int, sp: word)
    requires sp == Wrap(before + 4 * words)
    ensures WordsAway(before, words, sp)
  {
    var x := before + 4 * words;
    assert sp - x == (0 - x / WORD_LIMIT) * WORD_LIMIT;
  }
}
