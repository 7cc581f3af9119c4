/** Which interrupt an iteration enters, told by raw table words, PSR bits and vector numbers. */
module InterruptGate {
  import opened Words
  import opened Mmu
  import opened LoadStore
  import opened Cpu
  import opened Interrupts
  import opened Restart
  import opened Iteration
  import opened Bits

  /** Bits 0 and 1 of the table entry: valid, enabled. */
  predicate ValidEntry(idt: Idt, n: Vector) {
    And(idt[n].flags, 0x1) != 0
  }

  predicate EnabledEntry(idt: Idt, n: Vector) {
    And(idt[n].flags, 0x1) != 0 && And(idt[n].flags, 0x2) != 0
  }

  /** The device of a maskable vector asks for it. */
  predicate Asserted(dev: Devices, n: Vector) {
    (n == 36 && dev.utim64) || (n == 5 && dev.kmc) || (n == 37 && dev.sci)
  }

  /** Interrupt `n` may be entered: PSR enables interrupts, its entry is valid and enabled, its device
      asks for it. */
  predicate Open(c: Cpu, dev: Devices, n: Vector) {
    And(c.psr, 0x4) != 0 && EnabledEntry(c.idt, n) && Asserted(dev, n)
  }

  /** The maskable interrupt to enter: the first of 36, 5 and 37 that may be. */
  function Maskable(c: Cpu, dev: Devices): Option<Vector> {
    if Open(c, dev, 36) then Some(36) else if Open(c, dev, 5) then Some(5) else if Open(c, dev, 37) then Some(37)
    else None
  }

  /** The first of `n`, 43 and 63 with a valid entry. */
  function FirstValid(idt: Idt, n: Vector): Option<Vector> {
    if ValidEntry(idt, n) then Some(n)
    else if ValidEntry(idt, 43) then Some(43)
    else if ValidEntry(idt, 63) then Some(63)
    else None
  }

  /** The vector whose handler is entered: that of a pending non-maskable interrupt before all others.
      The double fault vector itself does not fall back on 43. */
  function Taken(c: Cpu, dev: Devices): Option<Vector> {
    if c.nmi.None? then Maskable(c, dev)
    else if c.nmi.value == 63 then if ValidEntry(c.idt, 63) then Some(63) else Maskable(c, dev)
    else if FirstValid(c.idt, c.nmi.value).Some? then FirstValid(c.idt, c.nmi.value)
    else Maskable(c, dev)
  }

  /** From `c` the handler of `n` is entered: the context is saved, interrupts are off, the mode is
      kernel, and FLAGR has aged. */
  predicate EnteredAt(c: Cpu, n: Vector, c': Cpu) {
    && c'.pc == c.idt[n].handler && c'.psr == And(c.psr, 0xffff_ff9b)
    && c'.saved == Saved(c.flags, c.pc, c.psr, c.pdtr, c.tidr)
  }

  predicate NotEntered(c: Cpu, c': Cpu) {
    c'.pc == c.pc && c'.psr == c.psr && c'.saved == c.saved
  }

  lemma TableBits(idt: Idt, n: Vector)
    ensures ValidEntry(idt, n) == IsValid(idt, n)
    ensures EnabledEntry(idt, n) <==> idt[n].flags % 2 == 1 && idt[n].flags / 2 % 2 == 1
  {
    IdtMasks(idt[n].flags);
  }

  lemma PendingBits(c: Cpu, dev: Devices)
    ensures Pending(c, dev) == Maskable(c, dev)
  {
    TableBits(c.idt, 36);
    TableBits(c.idt, 5);
    TableBits(c.idt, 37);
    PsrMasks(c.psr);
  }

  lemma TakenIsEntered(c: Cpu, dev: Devices)
    ensures Taken(c, dev) == Entered(c, dev)
  {
    PendingBits(c, dev);
    if c.nmi.Some? {
      ResolveChain(c.idt, c.nmi.value);
      TableBits(c.idt, c.nmi.value);
      TableBits(c.idt, 43);
      TableBits(c.idt, 63);
    }
  }

  /** Every iteration ends in the handler of the vector `Taken` names, and in none if it names none. */
  lemma IterationEnters(m: Machine, dev: Devices, decode: word -> Insn)
    requires Cycle(m, dev, decode).Running?
    ensures Iterate(m, dev, decode).Running?
    ensures var c, c' := Cycle(m, dev, decode).m.cpu, Iterate(m, dev, decode).m.cpu;
      match Taken(c, dev) case Some(n) => EnteredAt(c, n, c') case None => NotEntered(c, c')
  {
    var c := Cycle(m, dev, decode).m.cpu;
    TakenIsEntered(c, dev);
    EntryMask(c.psr);
    DispatchOnce(c, dev);
  }

  // ---------------------------------------------------------------- sources that are not heard

  /** Interrupt `n` is masked in PSR or not enabled in its table entry. */
  predicate Closed(c: Cpu, n: Vector) {
    And(c.psr, 0x4) == 0 || !EnabledEntry(c.idt, n)
  }

  /** So it is at every interrupt check of the run. */
  predicate ClosedRun(m: Machine, devs: seq<Devices>, decode: word -> Insn, n: Vector)
    decreases |devs|
  {
    |devs| == 0 ||
    match Cycle(m, devs[0], decode)
    case Ended => true
    case Running(m1) =>
      Closed(m1.cpu, n) && ClosedRun(Iterate(m, devs[0], decode).m, devs[1..], decode, n)
  }

  /** The devices differ at most in asking for `n`. */
  predicate SameButFor(dev: Devices, dev': Devices, n: Vector) {
    && (n != 36 ==> dev.utim64 == dev'.utim64) && (n != 5 ==> dev.kmc == dev'.kmc)
    && (n != 37 ==> dev.sci == dev'.sci)
  }

  lemma ClosedDispatch(c: Cpu, dev: Devices, dev': Devices, n: Vector)
    requires SameButFor(dev, dev', n) && Closed(c, n)
    ensures Dispatch(c, dev') == Dispatch(c, dev)
  {
    TakenIsEntered(c, dev);
    TakenIsEntered(c, dev');
    SameTaken(c, dev, dev', n);
    DispatchOnce(c, dev);
    DispatchOnce(c, dev');
  }

  lemma SameTaken(c: Cpu, dev: Devices, dev': Devices, n: Vector)
    requires SameButFor(dev, dev', n) && Closed(c, n)
    ensures Taken(c, dev') == Taken(c, dev)
  {
  }

  lemma ClosedStep(m: Machine, dev: Devices, dev': Devices, decode: word -> Insn, n: Vector)
    requires SameButFor(dev, dev', n) && dev.bus == dev'.bus
    requires Cycle(m, dev, decode).Running? ==> Closed(Cycle(m, dev, decode).m.cpu, n)
    ensures Iterate(m, dev', decode) == Iterate(m, dev, decode)
  {
    SameCycle(m, dev, dev', decode);
    if Cycle(m, dev, decode).Running? {
      ClosedDispatch(Cycle(m, dev, decode).m.cpu, dev, dev', n);
    }
  }

  /** An iteration reads the pending interrupts only in its interrupt check. */
  lemma SameCycle(m: Machine, dev: Devices, dev': Devices, decode: word -> Insn)
    requires dev.bus == dev'.bus
    ensures Cycle(m, dev', decode) == Cycle(m, dev, decode)
  {
    var c := m.(cpu := ChooseStack(m.cpu));
    var w := FetchWord(c, dev);
    if w.Fetched? {
      SameExecute(c.(mem := w.mem), dev, dev', decode(w.w));
    }
  }

  lemma SameExecute(m: Machine, dev: Devices, dev': Devices, insn: Insn)
    requires dev.bus == dev'.bus
    ensures Execute(m, dev', insn) == Execute(m, dev, insn)
  {
    var c, sp := m.cpu, Wrap(m.cpu.spr - 4);
    var lowered := m.(cpu := c.(spr := sp));
    match insn
    case Load(width, rd, addr) =>
      var a := EffectiveAddress(c.gr, addr, width);
      if a.Some? { SameLoad(m, dev, dev', width, rd, a.value); }
    case Store(width, rs, addr) =>
      var a := EffectiveAddress(c.gr, addr, width);
      if a.Some? { SameStore(m, dev, dev', width, c.gr[rs], a.value); }
    case Push(src) => SameStore(lowered, dev, dev', FullWord, SourceValue(c, src), sp);
    case PushPc => SameStore(lowered, dev, dev', FullWord, c.pc, sp);
    case Pop(rd) => SameLoad(m, dev, dev', FullWord, rd, c.spr);
    case Tas(rd, addr) =>
      var a := EffectiveAddress(c.gr, addr, FullWord);
      if a.Some? { SameTas(m, dev, dev', rd, a.value); }
    case _ =>
  }

  lemma SameLoad(m: Machine, dev: Devices, dev': Devices, width: Width, rd: Reg, vaddr: word)
    requires dev.bus == dev'.bus
    ensures ExecLoad(m, dev', width, rd, vaddr) == ExecLoad(m, dev, width, rd, vaddr)
  {
  }

  lemma SameStore(m: Machine, dev: Devices, dev': Devices, width: Width, src: word, vaddr: word)
    requires dev.bus == dev'.bus
    ensures ExecStore(m, dev', width, src, vaddr) == ExecStore(m, dev, width, src, vaddr)
  {
  }

  lemma SameTas(m: Machine, dev: Devices, dev': Devices, rd: Reg, vaddr: word)
    requires dev.bus == dev'.bus
    ensures ExecTas(m, dev', rd, vaddr) == ExecTas(m, dev, rd, vaddr)
  {
    SameLoad(m, dev, dev', FullWord, rd, vaddr);
    var l := ExecLoad(m, dev, FullWord, rd, vaddr);
    if l.Next? {
      SameStore(l.m, dev, dev', FullWord, 1, vaddr);
    }
  }

  /** A source that stays masked or disabled is not heard: whatever its device asks for and when, the run
      is the same. */
  lemma {:induction false} ClosedSourceUnheard(m: Machine, devs: seq<Devices>, devs': seq<Devices>,
                                               decode: word -> Insn, n: Vector)
    requires |devs| == |devs'| && ClosedRun(m, devs, decode, n)
    requires forall k :: 0 <= k < |devs| ==> SameButFor(devs[k], devs'[k], n) && devs[k].bus == devs'[k].bus
    ensures RunFor(m, devs', decode) == RunFor(m, devs, decode)
    decreases |devs|
  {
    if |devs| != 0 {
      ClosedStep(m, devs[0], devs'[0], decode, n);
      if Iterate(m, devs[0], decode).Running? {
        ClosedSourceUnheard(Iterate(m, devs[0], decode).m, devs[1..], devs'[1..], decode, n);
      }
    }
  }

  // ---------------------------------------------------------------- non-maskable interrupts

  /** The iteration ends in the handler of the first valid vector of `n`, 43 and 63, with `pc` saved. */
  predicate Raised(m: Machine, dev: Devices, decode: word -> Insn, n: Vector, pc: word) {
    Iterate(m, dev, decode).Running? &&
    var c, c' := m.cpu, Iterate(m, dev, decode).m.cpu;
    var k := FirstValid(c.idt, n);
    k.Some? ==> c'.pc == c.idt[k.value].handler && c'.psr == And(c.psr, 0xffff_ff9b) && c'.saved.pc == pc
                && c'.saved.psr == c.psr && c'.saved.pdtr == c.pdtr && c'.saved.tidr == c.tidr
  }

  lemma RaisedFrom(m: Machine, dev: Devices, decode: word -> Insn, n: Vector, pc: word)
    requires n != 63 && Cycle(m, dev, decode).Running?
    requires var c := Cycle(m, dev, decode).m.cpu;
      && c.nmi == Some(if IsValid(m.cpu.idt, n) then n else INVALID_IDT) && c.idt == m.cpu.idt && c.psr == m.cpu.psr
      && c.pc == pc && c.pdtr == m.cpu.pdtr && c.tidr == m.cpu.tidr
    ensures Raised(m, dev, decode, n, pc)
  {
    IterationEnters(m, dev, decode);
    TableBits(m.cpu.idt, n);
    TableBits(m.cpu.idt, 43);
  }

  /** An instruction that only raises `n`. */
  lemma RaisedPlainly(m: Machine, dev: Devices, decode: word -> Insn, n: Vector)
    requires n != 63 && !(m.cpu.testsuite && n == 64) && m.cpu.nextPc == NO_BRANCH
    requires var e := BodyOf(m, dev, decode); e.Next? && e.fault == 0 && e.m.cpu == RaiseNmi(ChooseStack(m.cpu), n)
    ensures Raised(m, dev, decode, n, Wrap(m.cpu.pc + 4)) && Iterate(m, dev, decode).m.cpu.gr == m.cpu.gr
  {
    PlainPends(BodyOf(m, dev, decode), ChooseStack(m.cpu), n);
    RaisedFrom(m, dev, decode, n, Wrap(m.cpu.pc + 4));
    DispatchKeeps(Cycle(m, dev, decode).m.cpu, dev);
  }

  lemma PlainPends(e: Executed, c: Cpu, n: Vector)
    requires e.Next? && e.fault == 0 && e.m.cpu == RaiseNmi(c, n)
    requires c.nextPc == NO_BRANCH && !(c.testsuite && n == 64)
    ensures Finish(e).Running?
    ensures var c' := Finish(e).m.cpu;
      && c'.nmi == Some(if IsValid(c.idt, n) then n else INVALID_IDT) && c'.pc == Wrap(c.pc + 4)
      && c'.gr == c.gr && c'.idt == c.idt && c'.psr == c.psr && c'.pdtr == c.pdtr && c'.tidr == c.tidr
  {
    PlainFinish(e);
  }

  /** `swi n` enters the handler of vector `n` and returns behind itself. */
  lemma SoftwareRaised(m: Machine, dev: Devices, decode: word -> Insn, n: Vector)
    requires InsnAt(m, dev, decode) == Some(SoftwareInterrupt(n)) && 64 <= n && m.cpu.nextPc == NO_BRANCH
    requires !(m.cpu.testsuite && n == 64)
    ensures Raised(m, dev, decode, n, Wrap(m.cpu.pc + 4))
  {
    BodyExecutes(m, dev, decode, SoftwareInterrupt(n));
    RaisedPlainly(m, dev, decode, n);
  }

  /** `swi` knows the vectors 64 to 127 only. */
  lemma SoftwareEnds(m: Machine, dev: Devices, decode: word -> Insn, n: nat)
    requires InsnAt(m, dev, decode) == Some(SoftwareInterrupt(n)) && m.cpu.nextPc == NO_BRANCH
    ensures Iterate(m, dev, decode).Ended? <==> n < 64 || n > 127
  {
    BodyExecutes(m, dev, decode, SoftwareInterrupt(n));
  }

  /** In test-suite mode `swi 64` ends the run instead, and enters no handler of its own. */
  lemma TestsuiteExits(m: Machine, dev: Devices, decode: word -> Insn)
    requires InsnAt(m, dev, decode) == Some(SoftwareInterrupt(64)) && m.cpu.nextPc == NO_BRANCH
    requires m.cpu.testsuite && m.cpu.nmi.None?
    ensures Iterate(m, dev, decode).Running? && Iterate(m, dev, decode).m.cpu.finished
    ensures Cycle(m, dev, decode).m.cpu.nmi.None? && Cycle(m, dev, decode).m.cpu.pc == Wrap(m.cpu.pc + 4)
  {
    BodyExecutes(m, dev, decode, SoftwareInterrupt(64));
    PlainFinish(BodyOf(m, dev, decode));
    DispatchOnce(Cycle(m, dev, decode).m.cpu, dev);
  }

  /** A division by zero enters vector 40 and returns behind itself. */
  lemma DivisionRaised(m: Machine, dev: Devices, decode: word -> Insn, rd: Reg, src: Source,
                       quotient: (word, word) -> word)
    requires InsnAt(m, dev, decode) == Some(Divide(rd, src, quotient)) && m.cpu.nextPc == NO_BRANCH
    requires OperandValue(m.cpu, src) == 0
    ensures Raised(m, dev, decode, 40, Wrap(m.cpu.pc + 4))
    ensures Iterate(m, dev, decode).m.cpu.gr == m.cpu.gr
  {
    BodyExecutes(m, dev, decode, Divide(rd, src, quotient));
    RaisedPlainly(m, dev, decode, 40);
  }

  /** A memory fault enters the vector of the fault and returns to the instruction itself. */
  lemma FaultRaised(m: Machine, dev: Devices, decode: word -> Insn)
    requires Faults(m, dev, decode) && m.cpu.pc % 4 == 0
    ensures Raised(m, dev, decode, BodyOf(m, dev, decode).fault, m.cpu.pc)
  {
    FaultFrame(m, dev, decode);
    FaultPends(BodyOf(m, dev, decode));
    RaisedFrom(m, dev, decode, BodyOf(m, dev, decode).fault, m.cpu.pc);
  }

  lemma FaultPends(e: Executed)
    requires e.Next? && MemoryFault(e.fault) && e.m.cpu.pc % 4 == 0
    ensures Finish(e).Running?
    ensures var c, c' := e.m.cpu, Finish(e).m.cpu;
      && c'.nmi == Some(if IsValid(c.idt, e.fault) then e.fault else INVALID_IDT)
      && c'.idt == c.idt && c'.psr == c.psr && c'.pc == c.pc && c'.pdtr == c.pdtr && c'.tidr == c.tidr
  {
  }
}
