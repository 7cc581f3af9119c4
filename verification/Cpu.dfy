/** The processor state and one iteration of the `exec` loop (simulator.c, interrupt.c, instructions.h). */
module Cpu {
  import opened Words
  import opened Cache
  import opened Mmu
  import opened LoadStore
  import opened Flags

  datatype Option<T> = None | Some(value: T)

  type Reg = r: nat | r < 32

  type Registers = g: seq<word> | |g| == 32 witness seq(32, _ => 0)

  datatype IdtEntry = IdtEntry(flags: word, handler: word)

  type Idt = t: seq<IdtEntry> | |t| == 128 witness seq(128, _ => IdtEntry(0, 0))

  const NO_BRANCH: word := 0xffff_ffff
  const INVALID_IDT: Vector := 43
  const DOUBLE_FAULT: Vector := 63
  const DIVIDE_ERROR: Vector := 40
  const UTIM64: Vector := 36
  const KMC: Vector := 5
  const DPS_LS: Vector := 37
  const FIRST_SOFTWARE: Vector := 64

  /** PFLAGR, PPCR, PPSR, PPDTR and PTIDR. */
  datatype Saved = Saved(flags: Flags, pc: word, psr: word, pdtr: word, tidr: word)

  datatype Cpu = Cpu(
    gr: Registers, pc: word, nextPc: word, spr: word, kspr: word, uspr: word,
    flags: Flags, prevFlags: Flags, psr: word, pdtr: word, kpdtr: word, idtr: word, tidr: word,
    fi0r: word, fi1r: word, saved: Saved, nmi: Option<Vector>, idt: Idt, cmod: word, finished: bool,
    testsuite: bool)

  datatype Machine = Machine(cpu: Cpu, mem: Memory)

  /** What one iteration sees of the devices: pending interrupts, and what an uncached access to an
      address reads (`None` where the simulator exits with an error). */
  datatype Devices = Devices(utim64: bool, kmc: bool, sci: bool, bus: word -> Option<word>)

  function Ctl(cpu: Cpu): Control {
    Control(cpu.psr, cpu.pdtr, cpu.kpdtr)
  }

  /** The registers an interrupt saves, as they are now. */
  function Context(cpu: Cpu): Saved {
    Saved(cpu.flags, cpu.pc, cpu.psr, cpu.pdtr, cpu.tidr)
  }

  // ---------------------------------------------------------------- PSR fields

  predicate InterruptsEnabled(psr: word) { psr / 4 % 2 == 1 }

  function SetInterrupts(psr: word, on: bool): word {
    psr - psr / 4 % 2 * 4 + (if on then 4 else 0)
  }

  /** `PSR & ~PSR_IM_ENABLE & ~PSR_CMOD_MASK`. */
  function KernelEntry(psr: word): word {
    SetInterrupts(psr, false) - Cmod(psr) * 0x20
  }

  function SetMmuMode(psr: word, v: word): word {
    psr - psr % 4 + v % 4
  }

  /** The page-size check after PSR is written: paging needs 4 KB pages. */
  predicate PageSizeOk(psr: word) {
    MmuMode(psr) == 0 || psr / 0x80 % 8 == 1
  }

  // ---------------------------------------------------------------- interrupts

  predicate IsValid(idt: Idt, num: Vector) {
    idt[num].flags % 2 == 1
  }

  predicate IsEnabled(idt: Idt, num: Vector) {
    IsValid(idt, num) && idt[num].flags / 2 % 2 == 1
  }

  /** Frames of `interrupt_entry` still possible below the one for `num`. */
  function Rank(num: Vector): nat {
    if num == DOUBLE_FAULT then 0 else if num == INVALID_IDT then 1 else 2
  }

  /** The vector `interrupt_entry` ends at: the requested one, the invalid-IDT one, or double fault. */
  function Resolve(idt: Idt, num: Vector): Option<Vector>
    decreases Rank(num)
  {
    if IsValid(idt, num) then Some(num)
    else if num == DOUBLE_FAULT then None
    else if num == INVALID_IDT then Resolve(idt, DOUBLE_FAULT)
    else Resolve(idt, INVALID_IDT)
  }

  /** `interrupt_entry`. */
  function Enter(cpu: Cpu, num: Vector): Cpu {
    match Resolve(cpu.idt, num)
    case None => cpu.(finished := true)
    case Some(n) => cpu.(saved := Context(cpu), psr := KernelEntry(cpu.psr), pc := cpu.idt[n].handler)
  }

  /** `interrupt_dispatch_nonmask`; under `TESTSUITE_MODE` the first software interrupt ends the run. */
  function RaiseNmi(cpu: Cpu, num: Vector): Cpu {
    if cpu.testsuite && num == FIRST_SOFTWARE then cpu.(finished := true)
    else cpu.(nmi := Some(if IsValid(cpu.idt, num) then num else INVALID_IDT))
  }

  /** `interrupt_dispatcher`. */
  function Dispatch(cpu: Cpu, dev: Devices): Cpu {
    var c := if cpu.nmi.Some? then Enter(cpu, cpu.nmi.value).(nmi := None) else cpu;
    if !InterruptsEnabled(c.psr) then c
    else if IsEnabled(c.idt, UTIM64) && dev.utim64 then Enter(c, UTIM64)
    else if IsEnabled(c.idt, KMC) && dev.kmc then Enter(c, KMC)
    else if IsEnabled(c.idt, DPS_LS) && dev.sci then Enter(c, DPS_LS)
    else c
  }

  // ---------------------------------------------------------------- instructions

  type Imm11 = n: nat | n < 2048
  type Disp6 = d: int | -32 <= d < 32
  type Imm16 = n: int | -0x8000 <= n < 0x8000

  /** A memory operand: scaled immediate, or register plus scaled displacement. */
  datatype Operand = Absolute(n: Imm11) | Indirect(base: Reg, displacement: Disp6)

  datatype Source = Constant(n: word) | FromReg(r: Reg)

  datatype AluOp = AddOp | SubOp | CmpOp | AddcOp | MullOp | MulhOp | UmulhOp

  datatype SystemReg =
    | Sp | Pdt | Kpdt | Ie | Mmu | Pps | Ppc | Usp | Ppdt | Ptid | Idtr | Ps | Pflag

  /** The instructions with state of their own; `Compute` stands for every instruction that only
      assigns one general register and FLAGR. */
  datatype Insn =
    | Load(width: Width, rd: Reg, addr: Operand)
    | Store(width: Width, rs: Reg, addr: Operand)
    | Push(src: Source)
    | PushPc
    | Pop(rd: Reg)
    | Tas(rd: Reg, addr: Operand)
    | Alu(op: AluOp, rd: Reg, src: Source)
    | Divide(rd: Reg, src: Source, quotient: (word, word) -> word)
    | Branch(relative: bool, condition: nat, src: Source)
    | ReturnFromInterrupt
    | WriteSystem(reg: SystemReg, src: Source)
    | AdjustSp(words: Imm16)
    | SoftwareInterrupt(num: nat)
    | LoadIdt
    | Compute(rd: Reg, value: Cpu -> word, newFlags: Cpu -> Flags)
    | Halt

  /** The state after an instruction and the fault it raised (0 for none), or the end of the
      simulation: an error exit, or a case C leaves undefined. */
  datatype Executed = Next(m: Machine, fault: Vector) | Stopped

  function Scale(width: Width): nat {
    match width case Byte => 1 case HalfWord => 2 case FullWord => 4
  }

  /** The address of a memory operand; `None` when the base register is misaligned. */
  function EffectiveAddress(gr: Registers, addr: Operand, width: Width): Option<word> {
    match addr
    case Absolute(n) => Some(n * Scale(width))
    case Indirect(base, d) =>
      if gr[base] % Scale(width) != 0 then None else Some(Wrap(gr[base] + d * Scale(width)))
  }

  function SourceValue(cpu: Cpu, src: Source): word {
    match src case Constant(n) => n case FromReg(r) => cpu.gr[r]
  }

  /** FI0R and FI1R after a memory fault at `vaddr`. */
  function LatchFault(cpu: Cpu, num: Vector, vaddr: word): Cpu {
    cpu.(fi0r := vaddr, fi1r := if num == PAGE_FAULT then 0 else cpu.fi1r)
  }

  /** The addressed lanes of a word read from a device. */
  function Extract(w: word, vaddr: word, width: Width): word {
    match width
    case Byte => Lane(w, 3 - vaddr % 4)
    case HalfWord => Half(w, 1 - vaddr / 2 % 2)
    case FullWord => w
  }

  /** A load into register `rd`. */
  function ExecLoad(m: Machine, dev: Devices, width: Width, rd: Reg, vaddr: word): Executed {
    var a := Perform(m.mem, Ctl(m.cpu), LoadOp(width, vaddr));
    match a.reply
    case Data(v) => Next(Machine(m.cpu.(gr := m.cpu.gr[rd := v]), a.mem), 0)
    case Faulted(num) =>
      Next(Machine(LatchFault(m.cpu, num, if width == FullWord then vaddr else WordAddress(vaddr)), a.mem), num)
    case Device(p) =>
      (match dev.bus(p)
       case None => Stopped
       case Some(v) => Next(Machine(m.cpu.(gr := m.cpu.gr[rd := Extract(v, vaddr, width)]), a.mem), 0))
    case _ => Stopped
  }

  /** A store of `src`. */
  function ExecStore(m: Machine, dev: Devices, width: Width, src: word, vaddr: word): Executed {
    if width == FullWord && vaddr % 4 != 0 then Stopped
    else
      var a := Perform(m.mem, Ctl(m.cpu), StoreOp(width, vaddr, src));
      match a.reply
      case Done => Next(Machine(m.cpu, a.mem), 0)
      case Faulted(num) => Next(Machine(LatchFault(m.cpu, num, vaddr), a.mem), num)
      case Device(p) => if dev.bus(p).None? then Stopped else Next(Machine(m.cpu, a.mem), 0)
      case _ => Stopped
  }

  function ExecTas(m: Machine, dev: Devices, rd: Reg, vaddr: word): Executed {
    var l := ExecLoad(m, dev, FullWord, rd, vaddr);
    if l.Next? && l.fault == 0 && l.m.cpu.gr[rd] == 0 then ExecStore(l.m, dev, FullWord, 1, vaddr) else l
  }

  function ExecPop(m: Machine, dev: Devices, rd: Reg): Executed {
    var l := ExecLoad(m, dev, FullWord, rd, m.cpu.spr);
    if l.Next? && l.fault == 0 then Next(l.m.(cpu := l.m.cpu.(spr := Wrap(m.cpu.spr + 4))), 0) else l
  }

  function ExecAlu(cpu: Cpu, op: AluOp, rd: Reg, src: Source): Cpu {
    var a, b := cpu.gr[rd], SourceValue(cpu, src);
    match op
    case AddOp => cpu.(gr := cpu.gr[rd := Add(a, b)], flags := MakeFlagsAdd(Add(a, b), a, b))
    case SubOp => cpu.(gr := cpu.gr[rd := Wrap(a - b)], flags := MakeFlagsSub(Wrap(a - b), a, b))
    case CmpOp => cpu.(flags := MakeFlagsSub(Wrap(a - b), a, b))
    case AddcOp => cpu.(gr := cpu.gr[rd := Addc(a, b)], flags := MakeFlagsAdd(Add(a, b), a, b))
    case MullOp => cpu.(gr := cpu.gr[rd := Mull(a, b)], flags := NO_FLAGS)
    case MulhOp => cpu.(gr := cpu.gr[rd := Mulh(a, b)], flags := NO_FLAGS)
    case UmulhOp => cpu.(gr := cpu.gr[rd := Umulh(a, b)], flags := NO_FLAGS)
  }

  const NO_FLAGS := Flags(false, 0, false, false, false, false, false)

  /** FLAGS from a raw word, bit 0 being `_invalid` and bit 31 `zero`. */
  function FlagsOf(w: word): Flags {
    Flags(w % 2 == 1, w / 2 % 0x400_0000, w / 0x800_0000 % 2 == 1, w / 0x1000_0000 % 2 == 1,
          w / 0x2000_0000 % 2 == 1, w / 0x4000_0000 % 2 == 1, w / 0x8000_0000 == 1)
  }

  function Flush(mem: Memory): Memory {
    mem.(tlb := TlbFlush(mem.tlb))
  }

  /** `interrupt_exit`. */
  function ExecReturn(m: Machine): Executed {
    var c := m.cpu;
    var s := c.saved;
    var mem := if s.pdtr != c.pdtr || MmuMode(s.psr) != MmuMode(c.psr) then Flush(m.mem) else m.mem;
    if !PageSizeOk(s.psr) then Stopped
    else Next(Machine(c.(flags := s.flags, nextPc := s.pc, psr := s.psr, pdtr := s.pdtr, tidr := s.tidr), mem), 0)
  }

  /** The system-register writes. */
  function ExecWriteSystem(m: Machine, reg: SystemReg, v: word): Executed {
    var c := m.cpu;
    match reg
    case Sp => Next(m.(cpu := c.(spr := v)), 0)
    case Pdt => Next(Machine(c.(pdtr := v), Flush(m.mem)), 0)
    case Kpdt => Next(Machine(c.(kpdtr := v), Flush(m.mem)), 0)
    case Ie => Next(m.(cpu := c.(psr := SetInterrupts(c.psr, v % 2 == 1))), 0)
    case Mmu => Next(Machine(c.(psr := SetMmuMode(c.psr, v)), Flush(m.mem)), 0)
    case Pps => Next(m.(cpu := c.(saved := c.saved.(psr := v))), 0)
    case Ppc => if v % 4 != 0 then Stopped else Next(m.(cpu := c.(saved := c.saved.(pc := v))), 0)
    case Usp => Next(m.(cpu := c.(uspr := v)), 0)
    case Ppdt => Next(m.(cpu := c.(saved := c.saved.(pdtr := v))), 0)
    case Ptid => Next(m.(cpu := c.(saved := c.saved.(tidr := v))), 0)
    case Idtr => Next(m.(cpu := c.(idtr := v)), 0)
    case Ps =>
      var mem := if MmuMode(v) != MmuMode(c.psr) || Cmod(v) != Cmod(c.psr) then Flush(m.mem) else m.mem;
      if !PageSizeOk(v) then Stopped else Next(Machine(c.(psr := v), mem), 0)
    case Pflag => Next(m.(cpu := c.(saved := c.saved.(flags := FlagsOf(v)))), 0)
  }

  /** `interrupt_idt_store`: the 128 entries at IDTR, read from RAM within one host page. */
  function ExecLoadIdt(m: Machine): Executed {
    var base := m.cpu.idtr;
    if base % 4 != 0 || base % 0x4000 + 0x400 > 0x4000 || base >= RAM_LIMIT then Stopped
    else
      assert base / 4 + 0x100 <= RAM_WORDS by { IdtInRam(base); }
      Next(m.(cpu := m.cpu.(idt := IdtAt(m.mem.hier.ram, base / 4))), 0)
  }

  /** The interrupt table stored from RAM word `k` on. */
  function IdtAt(ram: Ram, k: nat): (idt: Idt)
    requires k + 0x100 <= RAM_WORDS
    ensures forall n :: 0 <= n < 128 ==> idt[n] == IdtEntry(ram[k + 2 * n], ram[k + 2 * n + 1])
  {
    seq(128, n requires 0 <= n < 128 => IdtEntry(ram[k + 2 * n], ram[k + 2 * n + 1]))
  }

  lemma IdtInRam(base: word)
    requires base % 4 == 0 && base % 0x4000 + 0x400 <= 0x4000 && base < RAM_LIMIT
    ensures base / 4 + 0x100 <= RAM_WORDS
  {
    var n := base / 0x4000;
    assert base == n * 0x4000 + base % 0x4000;
  }

  function ExecBranch(m: Machine, relative: bool, condition: nat, src: Source): Executed {
    if condition >= 16 || (m.cpu.prevFlags.invalid && condition != 0) then Stopped
    else if Holds(m.cpu.flags, condition) then
      var v := SourceValue(m.cpu, src);
      Next(m.(cpu := m.cpu.(nextPc := if relative then Wrap(m.cpu.pc + v) else v)), 0)
    else Next(m, 0)
  }

  /** `insn_dispatch`. */
  function Execute(m: Machine, dev: Devices, insn: Insn): Executed {
    var c := m.cpu;
    match insn
    case Load(width, rd, addr) =>
      var a := EffectiveAddress(c.gr, addr, width);
      if a.None? then Stopped else ExecLoad(m, dev, width, rd, a.value)
    case Store(width, rs, addr) =>
      var a := EffectiveAddress(c.gr, addr, width);
      if a.None? then Stopped else ExecStore(m, dev, width, c.gr[rs], a.value)
    case Push(src) =>
      var sp := Wrap(c.spr - 4);
      ExecStore(m.(cpu := c.(spr := sp)), dev, FullWord, SourceValue(c, src), sp)
    case PushPc =>
      var sp := Wrap(c.spr - 4);
      ExecStore(m.(cpu := c.(spr := sp)), dev, FullWord, c.pc, sp)
    case Pop(rd) => ExecPop(m, dev, rd)
    case Tas(rd, addr) =>
      var a := EffectiveAddress(c.gr, addr, FullWord);
      if a.None? then Stopped else ExecTas(m, dev, rd, a.value)
    case Alu(op, rd, src) => Next(m.(cpu := ExecAlu(c, op, rd, src)), 0)
    case Divide(rd, src, quotient) =>
      if SourceValue(c, src) == 0 then Next(m.(cpu := RaiseNmi(c, DIVIDE_ERROR)), 0)
      else Next(m.(cpu := c.(gr := c.gr[rd := quotient(c.gr[rd], SourceValue(c, src))], flags := NO_FLAGS)), 0)
    case Branch(relative, condition, src) => ExecBranch(m, relative, condition, src)
    case ReturnFromInterrupt => ExecReturn(m)
    case WriteSystem(reg, src) => ExecWriteSystem(m, reg, SourceValue(c, src))
    case AdjustSp(words) => Next(m.(cpu := c.(spr := Wrap(c.spr + 4 * words))), 0)
    case SoftwareInterrupt(num) => if 64 <= num < 128 then Next(m.(cpu := RaiseNmi(c, num)), 0) else Stopped
    case LoadIdt => ExecLoadIdt(m)
    case Compute(rd, value, newFlags) => Next(m.(cpu := c.(gr := c.gr[rd := value(c)], flags := newFlags(c))), 0)
    case Halt => Stopped
  }

  // ---------------------------------------------------------------- one iteration

  /** The processor as `exec` starts it at `entry`. */
  function Reset(entry: word, testsuite: bool): Cpu {
    Cpu(seq(32, _ => 0), entry, NO_BRANCH, 0, RAM_LIMIT, 0, FlagsOf(0x8000_0000), FlagsOf(0x8000_0000),
        0, 0, 0, 0, 0, 0, 0, Saved(NO_FLAGS, 0, 0, 0, 0), None, seq(128, _ => IdtEntry(0, 0)), 0, false,
        testsuite)
  }

  /** The stack-pointer choice at the top of the loop. */
  function ChooseStack(cpu: Cpu): Cpu {
    cpu.(spr := if cpu.cmod == Cmod(cpu.psr) then cpu.spr else if cpu.cmod == 0 then cpu.uspr else cpu.kspr,
         cmod := Cmod(cpu.psr))
  }

  datatype Fetched = Fetched(mem: Memory, w: word) | FetchFault(mem: Memory, num: Vector) | FetchStopped

  function FetchWord(m: Machine, dev: Devices): Fetched {
    var a := Fetch(m.mem, Ctl(m.cpu), m.cpu.pc);
    match a.reply
    case Data(w) => Fetched(a.mem, w)
    case Faulted(num) => FetchFault(a.mem, num)
    case Device(p) =>
      (match dev.bus(p) case None => FetchStopped case Some(w) => Fetched(a.mem, w))
    case _ => FetchStopped
  }

  /** Fetch and execute, `decode` being the generated opcode dispatch. */
  function Body(m: Machine, dev: Devices, decode: word -> Insn): Executed {
    match FetchWord(m, dev)
    case Fetched(mem, w) => Execute(m.(mem := mem), dev, decode(w))
    case FetchFault(mem, num) => Next(Machine(LatchFault(m.cpu, num, m.cpu.pc), mem), num)
    case FetchStopped => Stopped
  }

  /** A memory fault becomes a pending non-maskable interrupt that restarts the instruction. */
  function TakeFault(cpu: Cpu, fault: Vector): Cpu {
    if fault == 0 then cpu else RaiseNmi(cpu, fault).(nextPc := cpu.pc)
  }

  function WriteBackSp(cpu: Cpu): Cpu {
    if cpu.cmod != 0 then cpu.(uspr := cpu.spr) else cpu.(kspr := cpu.spr)
  }

  /** The next instruction address; `None` for a misaligned branch target. */
  function Advance(cpu: Cpu): Option<Cpu> {
    if cpu.nextPc == NO_BRANCH then Some(cpu.(pc := Wrap(cpu.pc + 4)))
    else if cpu.nextPc % 4 != 0 then None
    else Some(cpu.(pc := cpu.nextPc, nextPc := NO_BRANCH))
  }

  datatype Outcome = Running(m: Machine) | Ended

  /** Fault handling, stack write-back and the move to the next instruction. */
  function Finish(e: Executed): Outcome {
    match e
    case Stopped => Ended
    case Next(m, fault) =>
      match Advance(WriteBackSp(TakeFault(m.cpu, fault)))
      case None => Ended
      case Some(c) => Running(Machine(c, m.mem))
  }

  /** The iteration up to the interrupt check. */
  function Cycle(m: Machine, dev: Devices, decode: word -> Insn): Outcome {
    Finish(Body(m.(cpu := ChooseStack(m.cpu)), dev, decode))
  }

  /** `prev_FLAGR = FLAGR; FLAGR._invalid |= 1`. */
  function AgeFlags(cpu: Cpu): Cpu {
    cpu.(prevFlags := cpu.flags, flags := cpu.flags.(invalid := true))
  }

  /** One iteration of the `exec` loop. */
  function Iterate(m: Machine, dev: Devices, decode: word -> Insn): Outcome {
    match Cycle(m, dev, decode)
    case Ended => Ended
    case Running(m1) => Running(m1.(cpu := AgeFlags(Dispatch(m1.cpu, dev))))
  }
}
