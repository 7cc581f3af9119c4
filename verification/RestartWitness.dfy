/** Concrete faults: a faulting `push`, and a run whose conditional branch is lost to a fetch fault. */
module RestartWitness {
  import opened Words
  import opened Cache
  import opened Mmu
  import opened LoadStore
  import opened Coherence
  import opened Cpu
  import opened Interrupts
  import opened Restart

  /** A `push` through an empty page directory raises a page fault, with SPR already lowered. */
  lemma PushFaults(c: Cpu, dev: Devices, src: Source, ram: Ram)
    requires MmuMode(c.psr) == 2 && Kernel(c.psr) && c.kpdtr == 0 && c.spr == 8 && ram[0] == 0
    ensures var e := Execute(Machine(c, Cold(ram)), dev, Push(src));
      e.Next? && e.fault == PAGE_FAULT && e.m.cpu.spr == 4
  {
    EmptyDirectory(Cold(ram), Ctl(c), SourceValue(c, src));
  }

  lemma EmptyDirectory(mem: Memory, ctl: Control, v: word)
    requires MmuMode(ctl.psr) == 2 && Kernel(ctl.psr) && ctl.kpdtr == 0
    requires mem.hier.ram[0] == 0 && !PteValid(mem.tlb[0].pte)
    ensures Perform(mem, ctl, StoreOp(FullWord, 4, v)).reply == Faulted(PAGE_FAULT)
  {
    assert WalkTables(mem.hier.ram, ctl, 4, true, false) == Denied(PAGE_FAULT);
  }

  // ---------------------------------------------------------------- the run

  const KERNEL_PTE: word := 0x109    // 4 MB, kernel only, executable, frame 0
  const MAPPED_PTE: word := 0x40_0109
  const HANDLER: word := 0x1000
  const PROGRAM: word := 0x40_0000
  const PUSHING: word := 0x3000

  /** What the instruction words of the runs stand for. */
  function Decode(w: word): Insn {
    if w == 1 then Store(FullWord, 1, Absolute(1))
    else if w == 2 then ReturnFromInterrupt
    else if w == 3 then Branch(false, 2, Constant(0x2000))
    else if w == 4 then Push(Constant(7))
    else Halt
  }

  function CodeWord(k: nat): word {
    if k == 0 then KERNEL_PTE
    else if k == HANDLER / 4 then 1
    else if k == HANDLER / 4 + 1 then 2
    else if k == PROGRAM / 4 then 3
    else if k == PUSHING / 4 then 4
    else 0
  }

  lemma NoOtherEntry(k: nat)
    requires 2 <= k < 1024
    ensures CodeWord(k) == 0
  {
    assert HANDLER / 4 == 1024 && PROGRAM / 4 == 0x10_0000 && PUSHING / 4 == 0xc00;
  }

  /** The first 4 MB are mapped and hold the handler, the program's are not mapped. */
  function StartRam(): (ram: Ram)
    ensures forall k :: 0 <= k < RAM_WORDS ==> ram[k] == CodeWord(k)
  {
    seq(RAM_WORDS, k requires 0 <= k < RAM_WORDS => CodeWord(k))
  }

  /** The handler maps the program's 4 MB. */
  function MappedRam(): Ram {
    StartRam()[1 := MAPPED_PTE]
  }

  function Quietly(): Devices {
    Devices(false, false, false, _ => None)
  }

  /** Kernel mode, paging on, the last instruction having left fresh flags with zero clear. */
  predicate Ready(c: Cpu) {
    && c.psr == 0x82 && c.kpdtr == 0 && c.cmod == 0 && c.spr == c.kspr && c.nextPc == NO_BRANCH && c.nmi.None?
    && c.gr[1] == MAPPED_PTE && c.idt[PAGE_FAULT] == IdtEntry(1, HANDLER)
  }

  predicate Begins(c: Cpu) {
    && Ready(c) && c.pc == PROGRAM && c.flags.invalid && !c.flags.zero && !c.prevFlags.invalid
  }

  /** Caches and TLB in step with `ram`: nothing cached for the program's region. */
  ghost predicate InStep(mem: Memory, ram: Ram) {
    && mem.hier.ram == ram && BothCoherent(mem, {})
    && (PteValid(mem.tlb[0].pte) ==> mem.tlb[0].pageNum / LARGE == 0 && mem.tlb[0].pte == KERNEL_PTE)
    && !PteValid(mem.tlb[1].pte)
  }

  predicate KernelPaged(ctl: Control) {
    ctl.psr == 0x82 && ctl.kpdtr == 0
  }

  lemma KernelPte()
    ensures PteValid(KERNEL_PTE) && PageExtension(KERNEL_PTE) && Executable(KERNEL_PTE) && Protection(KERNEL_PTE) == 0
    ensures PteValid(MAPPED_PTE) && PageExtension(MAPPED_PTE) && Executable(MAPPED_PTE) && Protection(MAPPED_PTE) == 0
    ensures KERNEL_PTE / LARGE == 0 && MAPPED_PTE / LARGE == 1
  {
  }

  /** An address in the first 4 MB translates to itself. */
  lemma LowTranslation(mem: Memory, ram: Ram, ctl: Control, v: word, write: bool, exec: bool)
    requires InStep(mem, ram) && ram[0] == KERNEL_PTE && KernelPaged(ctl) && v < LARGE
    ensures var t := VirtToPhys(mem.hier.ram, mem.tlb, ctl, v, write, exec);
      t.result == Address(v) && InStep(Translated1(mem, t), ram)
  {
    KernelPte();
    assert Permits(KERNEL_PTE, ctl.psr, write, exec);
    assert WalkTables(ram, ctl, v, write, exec) == Large(KERNEL_PTE);
  }

  lemma LowFetch(mem: Memory, ram: Ram, ctl: Control, pc: word)
    requires InStep(mem, ram) && ram[0] == KERNEL_PTE && KernelPaged(ctl) && pc < LARGE
    ensures var a := Fetch(mem, ctl, pc); a.reply == Data(ram[pc / 4]) && InStep(a.mem, ram)
  {
    LowTranslation(mem, ram, ctl, pc, false, true);
    ReadCoherent(mem.hier.icache, mem.hier.tick, ram, pc, {});
  }

  lemma LowStore(mem: Memory, ram: Ram, ctl: Control, v: word, x: word)
    requires InStep(mem, ram) && ram[0] == KERNEL_PTE && KernelPaged(ctl) && v < LARGE && v % 4 == 0
    ensures var a := Perform(mem, ctl, StoreOp(FullWord, v, x)); a.reply == Done && InStep(a.mem, ram[v / 4 := x])
  {
    LowTranslation(mem, ram, ctl, v, true, false);
    var t := VirtToPhys(mem.hier.ram, mem.tlb, ctl, v, true, false);
    WriteCoherent(Translated1(mem, t).hier, v, x, {});
    assert {} - {v / 4} == {};
  }

  /** The program's page before and after the handler has mapped it. */
  lemma ProgramFetch(mem: Memory, ram: Ram, ctl: Control)
    requires InStep(mem, ram) && KernelPaged(ctl)
    ensures ram[1] == 0 ==> Fetch(mem, ctl, PROGRAM) == Accessed(mem, Faulted(PAGE_FAULT))
    ensures ram[1] == MAPPED_PTE ==> Fetch(mem, ctl, PROGRAM).reply == Data(ram[PROGRAM / 4])
  {
    KernelPte();
    if ram[1] == 0 {
      assert WalkTables(ram, ctl, PROGRAM, false, true) == Denied(PAGE_FAULT);
    } else if ram[1] == MAPPED_PTE {
      assert Permits(MAPPED_PTE, ctl.psr, false, true);
      assert WalkTables(ram, ctl, PROGRAM, false, true) == Large(MAPPED_PTE);
      ReadCoherent(mem.hier.icache, mem.hier.tick, ram, PROGRAM, {});
    }
  }

  lemma PsrKept()
    ensures KernelEntry(0x82) == 0x82 && Cmod(0x82) == 0 && MmuMode(0x82) == 2 && !InterruptsEnabled(0x82)
    ensures PageSizeOk(0x82)
  {
    assert 0x82 / 4 == 0x20 && 0x82 / 0x20 == 4 && 0x82 / 0x80 == 1;
  }

  /** The iteration faults and leads into the handler. */
  ghost predicate EntersHandler(m: Machine) {
    var c, r := Cycle(m, Quietly(), Decode), Iterate(m, Quietly(), Decode);
    && Steady(m.cpu) && Faults(m, Quietly(), Decode) && c.Running? && Deliverable(c.m.cpu)
    && r.Running? && Ready(r.m.cpu) && r.m.cpu.pc == HANDLER && InStep(r.m.mem, StartRam())
    && r.m.cpu.saved.pc % 4 == 0 && r.m.cpu.saved.psr == 0x82
  }

  /** First iteration: the fetch faults and the handler is entered. */
  lemma FirstIteration(m: Machine)
    requires Begins(m.cpu) && InStep(m.mem, StartRam())
    ensures EntersHandler(m) && NothingDone(m, Quietly(), Decode)
  {
    PsrKept();
    ProgramFetch(m.mem, StartRam(), Ctl(m.cpu));
    assert BodyOf(m, Quietly(), Decode) == Next(Machine(LatchFault(m.cpu, PAGE_FAULT, PROGRAM), m.mem), PAGE_FAULT);
  }

  lemma MapPage(m: Machine, mem: Memory)
    requires Ready(m.cpu) && InStep(m.mem, StartRam()) && mem == Fetch(m.mem, Ctl(m.cpu), HANDLER).mem
    ensures var e := Execute(m.(mem := mem), Quietly(), Decode(1));
      e.Next? && e.m.cpu == m.cpu && e.fault == 0 && InStep(e.m.mem, MappedRam())
  {
    PsrKept();
    LowFetch(m.mem, StartRam(), Ctl(m.cpu), HANDLER);
    LowStore(mem, StartRam(), Ctl(m.cpu), 4, MAPPED_PTE);
    StoreDone(m.(mem := mem), 4);
  }

  lemma StoreDone(m: Machine, v: word)
    requires v == 4 && Perform(m.mem, Ctl(m.cpu), StoreOp(FullWord, v, m.cpu.gr[1])).reply == Done
    ensures Execute(m, Quietly(), Decode(1)) ==
      Next(Machine(m.cpu, Perform(m.mem, Ctl(m.cpu), StoreOp(FullWord, v, m.cpu.gr[1])).mem), 0)
  {
  }

  lemma MovesOn(c: Cpu)
    requires Ready(c) && c.pc == HANDLER
    ensures WriteBackSp(c).(pc := Wrap(c.pc + 4)) == c.(pc := HANDLER + 4)
  {
  }

  lemma NoInterrupt(c: Cpu)
    requires c.nmi.None? && !InterruptsEnabled(c.psr)
    ensures Dispatch(c, Quietly()) == c && Entered(c, Quietly()).None?
  {
  }

  lemma QuietIterate(m: Machine, c: Cpu, mem: Memory)
    requires Cycle(m, Quietly(), Decode) == Running(Machine(c, mem)) && Dispatch(c, Quietly()) == c
    ensures Iterate(m, Quietly(), Decode) == Running(Machine(AgeFlags(c), mem))
  {
  }

  /** An iteration of the handler that ends without fault or branch. */
  lemma PlainIteration(m: Machine, e: Executed)
    requires Ready(m.cpu) && m.cpu.pc == HANDLER
    requires BodyOf(m, Quietly(), Decode) == e && e.Next? && e.fault == 0 && e.m.cpu == m.cpu
    ensures var c := m.cpu.(pc := HANDLER + 4);
      && Cycle(m, Quietly(), Decode) == Running(Machine(c, e.m.mem)) && Entered(c, Quietly()).None?
      && Iterate(m, Quietly(), Decode) == Running(Machine(AgeFlags(c), e.m.mem))
  {
    var c := m.cpu.(pc := HANDLER + 4);
    PsrKept();
    PlainCycle(m, Quietly(), Decode, e);
    MovesOn(m.cpu);
    NoInterrupt(c);
    QuietIterate(m, c, e.m.mem);
  }

  /** Second iteration: the handler maps the page. */
  lemma SecondIteration(m: Machine)
    requires Ready(m.cpu) && m.cpu.pc == HANDLER && InStep(m.mem, StartRam())
    ensures var r := Iterate(m, Quietly(), Decode);
      && Quiet(m, Quietly(), Decode) && r.Running?
      && r.m.cpu == AgeFlags(m.cpu.(pc := HANDLER + 4)) && InStep(r.m.mem, MappedRam())
  {
    var mem := Fetch(m.mem, Ctl(m.cpu), HANDLER).mem;
    HandlerFetch(m);
    MapPage(m, mem);
    PlainIteration(m, Execute(m.(mem := mem), Quietly(), Decode(1)));
  }

  lemma HandlerFetch(m: Machine)
    requires Ready(m.cpu) && m.cpu.pc == HANDLER && InStep(m.mem, StartRam())
    ensures InsnAt(m, Quietly(), Decode) == Some(Decode(1))
    ensures BodyOf(m, Quietly(), Decode) ==
      Execute(m.(mem := Fetch(m.mem, Ctl(m.cpu), HANDLER).mem), Quietly(), Decode(1))
  {
    PsrKept();
    LowFetch(m.mem, StartRam(), Ctl(m.cpu), HANDLER);
    assert ChooseStack(m.cpu) == m.cpu;
  }

  /** The cycle of the returning `ib`. */
  lemma ReturnRuns(m: Machine)
    requires Ready(m.cpu) && m.cpu.pc == HANDLER + 4 && InStep(m.mem, MappedRam())
    requires m.cpu.saved.pc % 4 == 0 && m.cpu.saved.psr == 0x82
    ensures InsnAt(m, Quietly(), Decode) == Some(ReturnFromInterrupt)
    ensures var r := Cycle(m, Quietly(), Decode);
      r.Running? && r.m.cpu.nmi.None? && r.m.cpu.psr == 0x82 && InStep(r.m.mem, MappedRam())
  {
    PsrKept();
    LowFetch(m.mem, MappedRam(), Ctl(m.cpu), HANDLER + 4);
    assert ChooseStack(m.cpu) == m.cpu;
  }

  /** Third iteration: the handler returns. */
  lemma ThirdIteration(m: Machine, f: Cpu)
    requires Ready(m.cpu) && m.cpu.pc == HANDLER + 4 && InStep(m.mem, MappedRam())
    requires m.cpu == AgeFlags(f.(pc := m.cpu.pc)) && m.cpu.saved.pc % 4 == 0 && m.cpu.saved.psr == 0x82
    ensures Returns(m, f, Quietly(), Decode) && InStep(Iterate(m, Quietly(), Decode).m.mem, MappedRam())
  {
    PsrKept();
    ReturnRuns(m);
    NoInterrupt(Cycle(m, Quietly(), Decode).m.cpu);
    HandlerRestored(m.cpu, f);
  }

  lemma HandlerRestored(h: Cpu, f: Cpu)
    requires Ready(h) && h == AgeFlags(f.(pc := h.pc))
    ensures Restored(h, f)
  {
    PsrKept();
  }

  /** From there on the handler maps the page and returns. */
  lemma HandlerReturns(m: Machine)
    requires EntersHandler(m)
    ensures HandledBy(m, Quietly(), [Quietly()], Quietly(), Decode)
    ensures InStep(Back(m, Quietly(), [Quietly()], Quietly(), Decode).mem, MappedRam())
  {
    var q := Quietly();
    var f := Iterate(m, q, Decode).m;
    SecondIteration(f);
    var h := Iterate(f, q, Decode).m;
    assert [q][1..] == [];
    assert QuietRun(h, [], Decode) && RunFor(h, [], Decode) == Running(h);
    assert QuietRun(f, [q], Decode) && RunFor(f, [q], Decode) == Running(h);
    ThirdIteration(h, f.cpu);
  }

  /** The fault-free iteration branches to 0x2000. */
  lemma BranchCompletes(m: Machine)
    requires Begins(m.cpu) && InStep(m.mem, MappedRam())
    ensures BranchNext(m, Quietly(), Decode) && Cycle(m, Quietly(), Decode).Running?
    ensures Cycle(m, Quietly(), Decode).m.cpu.pc == 0x2000
  {
    PsrKept();
    ProgramFetch(m.mem, MappedRam(), Ctl(m.cpu));
    assert InsnAt(m, Quietly(), Decode) == Some(Decode(3));
  }

  /** The run exists: a fetch fault on a conditional branch, a handler that does nothing but map the
      page, and a simulator that exits where the branch would have been taken. */
  lemma BranchLost(m: Machine)
    requires Begins(m.cpu) && InStep(m.mem, StartRam())
    ensures var q := Quietly();
      && HandledBy(m, q, [q], q, Decode) && NothingDone(m, q, Decode)
      && var back := Back(m, q, [q], q, Decode);
         && Cycle(back, q, Decode).Ended?
         && Cycle(m.(mem := back.mem), q, Decode).Running?
         && Cycle(m.(mem := back.mem), q, Decode).m.cpu.pc == 0x2000
  {
    var q := Quietly();
    FirstIteration(m);
    HandlerReturns(m);
    BranchCompletes(m.(mem := Back(m, q, [q], q, Decode).mem));
    PreciseRestart(m, q, [q], q, q, Decode);
  }

  /** And there is such a machine to start from. */
  lemma BranchLostExists() returns (m: Machine)
    ensures Begins(m.cpu) && InStep(m.mem, StartRam())
  {
    var idt: Idt := seq(128, _ => IdtEntry(1, HANDLER));
    var c := Reset(PROGRAM, false).(psr := 0x82, kspr := 0, gr := seq(32, _ => MAPPED_PTE), idt := idt,
                             flags := FlagsOf(1), prevFlags := FlagsOf(0));
    m := Machine(c, Cold(StartRam()));
    FlagBits();
  }

  lemma FlagBits()
    ensures FlagsOf(1).invalid && !FlagsOf(1).zero && !FlagsOf(0).invalid
  {
  }
}
