/** A page fault of a user program, handled by a kernel with its own page directory, as a run the
    theorem about programs covers: two directories that share a second-level table, no flush. */
module UserFault {
  import opened Words
  import opened Cache
  import opened Mmu
  import opened TlbRefinement
  import opened LoadStore
  import opened FlatMemory
  import opened Refinement
  import opened Cpu
  import opened FlatMachine

  const KERNEL_PTE: word := 0x109   // the kernel's first 4 MB, supervisor only, executable, frame 0
  const TABLE_PTE: word := 0x1039   // the shared table at 0x1000, open to all
  const LEAF: word := 0x4039        // the page at 0x4000, open to all
  const DIRECTORIES: Roots := Roots(0x2000, 0)
  const HANDLER: word := 0x3000
  const PROGRAM: word := 0x40_0000
  const USER_PSR: word := 0xe2
  const KERNEL_PSR: word := 0x82

  /** What the three instruction words of the run stand for. */
  function Decode(w: word): Insn {
    if w == 1 then Store(FullWord, 1, Absolute(0x400))
    else if w == 2 then ReturnFromInterrupt
    else if w == 3 then Alu(CmpOp, 2, Constant(7))
    else Halt
  }

  function RamWord(k: nat, leaf: word): word {
    if k == 0 then KERNEL_PTE
    else if k == 1 || k == 0x801 then TABLE_PTE
    else if k == 0x400 then leaf
    else if k == 0xc00 then 1
    else if k == 0xc01 then 2
    else if k == 0x1000 then 3
    else 0
  }

  /** Kernel directory at 0, shared table at 0x1000 with one leaf, user directory at 0x2000, handler at
      0x3000, the program's page at 0x4000. */
  function RamWith(leaf: word): (ram: Ram)
    ensures forall k :: 0 <= k < RAM_WORDS ==> ram[k] == RamWord(k, leaf)
  {
    seq(RAM_WORDS, k requires 0 <= k < RAM_WORDS => RamWord(k, leaf))
  }

  // ---------------------------------------------------------------- the tables are in order

  lemma Entries()
    ensures PteValid(KERNEL_PTE) && PageExtension(KERNEL_PTE) && Executable(KERNEL_PTE) && Protection(KERNEL_PTE) == 0
    ensures PteValid(TABLE_PTE) && !PageExtension(TABLE_PTE) && Executable(TABLE_PTE) && Protection(TABLE_PTE) == 3
    ensures PteValid(LEAF) && !PageExtension(LEAF) && Executable(LEAF) && Protection(LEAF) == 3
    ensures KERNEL_PTE / LARGE == 0 && TABLE_PTE / PAGE == 1 && LEAF / PAGE == 4
  {
  }

  lemma Modes()
    ensures MmuMode(USER_PSR) == 2 && Cmod(USER_PSR) == 3 && !InterruptsEnabled(USER_PSR) && PageSizeOk(USER_PSR)
    ensures MmuMode(KERNEL_PSR) == 2 && Cmod(KERNEL_PSR) == 0 && !InterruptsEnabled(KERNEL_PSR)
    ensures KernelEntry(USER_PSR) == KERNEL_PSR
  {
    assert 0xe2 / 4 == 0x38 && 0xe2 / 0x20 == 7 && 0xe2 / 0x80 == 1;
    assert 0x82 / 4 == 0x20 && 0x82 / 0x20 == 4;
  }

  predicate LeafWord(leaf: word) {
    leaf == 0 || leaf == LEAF
  }

  /** The kernel's directory: its own 4 MB, and the shared table for the program's. */
  lemma KernelDirectory(leaf: word, v: word)
    requires LeafWord(leaf)
    ensures L1Entry(RamWith(leaf), 0, v) ==
      if v / LARGE == 0 then KERNEL_PTE else if v / LARGE == 1 then TABLE_PTE else 0
  {
    assert Slot1(0, v) == v / LARGE < 1024;
  }

  /** The user's directory: the shared table only. */
  lemma UserDirectory(leaf: word, v: word)
    requires LeafWord(leaf)
    ensures L1Entry(RamWith(leaf), 0x2000, v) == if v / LARGE == 1 then TABLE_PTE else 0
  {
    assert Slot1(0x2000, v) == 0x800 + v / LARGE < 0xc00;
  }

  /** The shared table. */
  lemma SharedTable(leaf: word, v: word)
    requires LeafWord(leaf)
    ensures Slot2(TABLE_PTE, v) == 0x400 + v / PAGE % 1024
    ensures RamWith(leaf)[Slot2(TABLE_PTE, v)] == if v / PAGE % 1024 == 0 then leaf else 0
  {
    Entries();
  }

  /** In the program's 4 MB both directories have the leaf for its first page, and nothing else. */
  lemma ProgramEntry(leaf: word, root: word, v: word)
    requires LeafWord(leaf) && (root == 0 || root == 0x2000) && v / LARGE == 1
    ensures L1Entry(RamWith(leaf), root, v) == TABLE_PTE
    ensures HasEntry(RamWith(leaf), root, v) <==> v / PAGE % 1024 == 0 && leaf == LEAF
    ensures HasEntry(RamWith(leaf), root, v) ==>
      Entry(RamWith(leaf), root, v) == LEAF && PageOf(RamWith(leaf), root, v) == 4
  {
    Entries();
    KernelDirectory(leaf, v);
    UserDirectory(leaf, v);
    SharedTable(leaf, v);
  }

  /** Outside of it only the kernel has an entry, for its own 4 MB. */
  lemma OtherEntry(leaf: word, root: word, v: word)
    requires LeafWord(leaf) && (root == 0 || root == 0x2000) && v / LARGE != 1
    ensures HasEntry(RamWith(leaf), root, v) <==> root == 0 && v / LARGE == 0
    ensures HasEntry(RamWith(leaf), root, v) ==>
      Entry(RamWith(leaf), root, v) == KERNEL_PTE && PageOf(RamWith(leaf), root, v) == LargePage(KERNEL_PTE, v)
  {
    Entries();
    KernelDirectory(leaf, v);
    UserDirectory(leaf, v);
  }

  lemma LeafServed(ram: Ram, v: word)
    requires ram == RamWith(LEAF) && v / LARGE == 1 && v / PAGE % 1024 == 0
    ensures EntryServes(ram, DIRECTORIES, LEAF, v)
  {
    Entries();
    forall a: word, psr: word, write, exec | UsedFor(LEAF, v, a) && Permits(LEAF, psr, write, exec)
      ensures Serves(ram, DIRECTORIES, psr, a, write, exec, PageThrough(LEAF, a))
    {
      ProgramEntry(LEAF, RootFor(DIRECTORIES, psr), a);
    }
  }

  /** The kernel's entry is for the kernel only, whose directory is where it comes from. */
  lemma KernelServed(ram: Ram, leaf: word, v: word)
    requires LeafWord(leaf) && ram == RamWith(leaf) && v / LARGE == 0
    ensures EntryServes(ram, DIRECTORIES, KERNEL_PTE, v)
  {
    Entries();
    forall a: word, psr: word, write, exec | UsedFor(KERNEL_PTE, v, a) && Permits(KERNEL_PTE, psr, write, exec)
      ensures Serves(ram, DIRECTORIES, psr, a, write, exec, PageThrough(KERNEL_PTE, a))
    {
      OtherEntry(leaf, 0, a);
      KernelDirectory(leaf, a);
    }
  }

  /** The two directories serve both modes, before and after the page is mapped, though they differ. */
  lemma DirectoriesOk(leaf: word)
    requires LeafWord(leaf)
    ensures SpacesOk(RamWith(leaf), DIRECTORIES)
  {
    var ram := RamWith(leaf);
    forall psr: word, v: word | Readable(ram, DIRECTORIES, psr, v)
      ensures EntryServes(ram, DIRECTORIES, Entry(ram, RootFor(DIRECTORIES, psr), v), v)
    {
      var root := RootFor(DIRECTORIES, psr);
      if v / LARGE == 1 {
        ProgramEntry(leaf, root, v);
        LeafServed(ram, v);
      } else {
        OtherEntry(leaf, root, v);
        KernelServed(ram, leaf, v);
      }
    }
  }

  /** The tables lie below 0x3000. */
  lemma TablesLow(leaf: word, root: word, k: nat)
    requires LeafWord(leaf) && (root == 0 || root == 0x2000) && TableWord(RamWith(leaf), root, k)
    ensures k < 0xc00
  {
    Entries();
    var v: word :| EntryOf(RamWith(leaf), root, v, k);
    KernelDirectory(leaf, v);
    UserDirectory(leaf, v);
    if HasTable(RamWith(leaf), root, v) {
      SharedTable(leaf, v);
    }
  }

  // ---------------------------------------------------------------- accesses of the run

  /** A byte memory with the words of the run, and no table words but those below 0x3000 walked. */
  ghost predicate InStep(f: Flat, p: Paging, leaf: word) {
    && LeafWord(leaf) && Words32(f) == RamWith(leaf)
    && p.dir == Paged(DIRECTORIES) && p.edited == {} && forall k :: k in p.walked ==> k < 0xc00
  }

  predicate KernelAccess(ctl: Control) {
    ctl.psr == KERNEL_PSR && ctl.kpdtr == 0
  }

  predicate UserAccess(ctl: Control) {
    ctl.psr == USER_PSR && ctl.pdtr == 0x2000
  }

  lemma KernelTranslates(leaf: word, ctl: Control, v: word, write: bool, exec: bool)
    requires LeafWord(leaf) && KernelAccess(ctl) && v < LARGE
    ensures Translate(RamWith(leaf), ctl, v, write, exec) == Address(v)
  {
    Modes();
    Entries();
    OtherEntry(leaf, 0, v);
    KernelDirectory(leaf, v);
    TranslateServes(RamWith(leaf), ctl, DIRECTORIES, v, write, exec);
    KernelPage(v);
  }

  lemma KernelPage(v: word)
    requires v < LARGE
    ensures LargePage(KERNEL_PTE, v) * PAGE + v % PAGE == v
  {
    Entries();
  }

  lemma UserTranslates(leaf: word, ctl: Control, v: word)
    requires LeafWord(leaf) && UserAccess(ctl) && v == PROGRAM
    ensures leaf == 0 ==> Translate(RamWith(leaf), ctl, v, false, true) == Fault(PAGE_FAULT)
    ensures leaf == LEAF ==> Translate(RamWith(leaf), ctl, v, false, true) == Address(0x4000)
  {
    Modes();
    Entries();
    assert v / LARGE == 1 && v / PAGE == 0x400;
    ProgramEntry(leaf, 0x2000, v);
    SharedTable(leaf, v);
    TranslateServes(RamWith(leaf), ctl, DIRECTORIES, v, false, true);
  }

  lemma KernelFetch(f: Flat, p: Paging, leaf: word, ctl: Control, op: Op)
    requires InStep(f, p, leaf) && KernelAccess(ctl) && op.FetchOp? && (op.vaddr == HANDLER || op.vaddr == HANDLER + 4)
    ensures Allowed(f, p, ctl, op)
    ensures RefPerform(f, ctl, op) == FlatAccessed(f, Data(if op.vaddr == HANDLER then 1 else 2))
  {
    Modes();
    KernelTranslates(leaf, ctl, op.vaddr, false, true);
    LoadFromWord(f, op.vaddr);
    assert FlatWord(f, op.vaddr / 4) == Words32(f)[op.vaddr / 4];
  }

  lemma UserFetch(f: Flat, p: Paging, leaf: word, ctl: Control, op: Op)
    requires InStep(f, p, leaf) && UserAccess(ctl) && op == FetchOp(PROGRAM)
    ensures Allowed(f, p, ctl, op)
    ensures RefPerform(f, ctl, op) == FlatAccessed(f, if leaf == 0 then Faulted(PAGE_FAULT) else Data(3))
  {
    Modes();
    UserTranslates(leaf, ctl, op.vaddr);
    if leaf == LEAF {
      LoadFromWord(f, 0x4000);
      assert FlatWord(f, 0x1000) == Words32(f)[0x1000];
    }
  }

  predicate MapsPage(op: Op) {
    op == StoreOp(FullWord, 0x1000, LEAF)
  }

  lemma MappedWords(f: Flat)
    requires Words32(f) == RamWith(0)
    ensures Words32(StoreBytes(f, 0x1000, FullWord, LEAF)) == RamWith(LEAF)
  {
    var f' := StoreBytes(f, 0x1000, FullWord, LEAF);
    forall k: nat | k < RAM_WORDS
      ensures Words32(f')[k] == RamWith(LEAF)[k]
    {
      StoreFullWord(f, 0x1000, LEAF, k);
      assert Words32(f)[k] == RamWith(0)[k];
    }
  }

  lemma MapEffect(f: Flat, p: Paging, ctl: Control, op: Op)
    requires RefTarget(f, ctl, op) == Address(0x1000) && MapsPage(op)
    requires p.dir == Paged(DIRECTORIES) && p.edited == {} && FlatWord(f, 0x400) == 0
    ensures var f' := StoreBytes(f, 0x1000, FullWord, LEAF);
      && RefPerform(f, ctl, op) == FlatAccessed(f', Done)
      && PagingAfter(f, p, ctl, op) == Paging(p.dir, p.walked - {0x400} + TableWords(f', p.dir), {})
  {
  }

  lemma TableWordsLow(f: Flat, leaf: word, k: nat)
    requires LeafWord(leaf) && Words32(f) == RamWith(leaf) && k in TableWords(f, Paged(DIRECTORIES))
    ensures k < 0xc00
  {
    if TableWord(RamWith(leaf), 0, k) {
      TablesLow(leaf, 0, k);
    } else {
      TablesLow(leaf, 0x2000, k);
    }
  }

  lemma MapStore(f: Flat, p: Paging, ctl: Control, op: Op)
    requires InStep(f, p, 0) && KernelAccess(ctl) && MapsPage(op)
    ensures Allowed(f, p, ctl, op)
    ensures RefPerform(f, ctl, op) == FlatAccessed(StoreBytes(f, 0x1000, FullWord, LEAF), Done)
    ensures InStep(RefPerform(f, ctl, op).flat, PagingAfter(f, p, ctl, op), LEAF)
  {
    var f' := StoreBytes(f, 0x1000, FullWord, LEAF);
    Modes();
    KernelTranslates(0, ctl, op.vaddr, true, false);
    assert FlatWord(f, 0x400) == Words32(f)[0x400];
    MapEffect(f, p, ctl, op);
    MappedWords(f);
    DirectoriesOk(LEAF);
    forall k | k in TableWords(f', p.dir)
      ensures k < 0xc00
    {
      TableWordsLow(f', LEAF, k);
    }
  }

  // ---------------------------------------------------------------- the four iterations

  function Quietly(): Devices {
    Devices(false, false, false, _ => None)
  }

  /** The registers the run depends on. */
  predicate Ready(c: Cpu) {
    && c.kpdtr == 0 && c.pdtr == 0x2000 && c.nextPc == NO_BRANCH && c.nmi.None?
    && c.gr[1] == LEAF && c.idt[PAGE_FAULT] == IdtEntry(1, HANDLER)
  }

  predicate InUser(c: Cpu) {
    Ready(c) && c.psr == USER_PSR && c.pc == PROGRAM
  }

  /** In the handler, with the user program's context saved and the fault registers telling where it
      stopped. */
  predicate InHandler(c: Cpu, pc: word) {
    && c.fi0r == PROGRAM && c.fi1r == 0
    && Ready(c) && c.psr == KERNEL_PSR && c.pc == pc
    && c.saved.pc == PROGRAM && c.saved.psr == USER_PSR && c.saved.pdtr == 0x2000
  }

  /** The iteration is allowed and leads from one state to the other. */
  ghost predicate Goes(c: Cpu, f: Flat, p: Paging, c': Cpu, f': Flat, p': Paging) {
    && IterationAllowed(c, f, p, Quietly(), Decode, Direct)
    && FlatIterate(c, f, Quietly(), Decode) == FlatRunning(c', f')
    && PagingIterated(c, f, p, Quietly(), Decode, Direct) == p'
  }

  /** An iteration whose fetch delivers `w`. */
  lemma Fetched(c: Cpu, f: Flat, w: word)
    requires RefPerform(f, Ctl(c), FetchOp(c.pc)).reply == Data(w)
    ensures FlatInsn(c, f, Quietly(), Decode) == Some(Decode(w))
    ensures FlatBody(c, f, Quietly(), Decode) == FlatExecute(c, f, Quietly(), Decode(w))
  {
  }

  /** An iteration without fault or interrupt. */
  lemma MovesOn(c: Cpu, f: Flat, c1: Cpu, f1: Flat, c2: Cpu)
    requires FlatBody(ChooseStack(c), f, Quietly(), Decode) == Ran(c1, f1, 0)
    requires Advance(WriteBackSp(c1)) == Some(c2) && c1.nmi.None? && !InterruptsEnabled(c1.psr)
    ensures FlatIterate(c, f, Quietly(), Decode) == FlatRunning(AgeFlags(c2), f1)
  {
  }

  lemma GoesOn(c: Cpu, f: Flat, p: Paging, w: word, c1: Cpu, f1: Flat, p1: Paging, c2: Cpu)
    requires var s := ChooseStack(c);
      && Allowed(f, p, Ctl(s), FetchOp(s.pc)) && RefPerform(f, Ctl(s), FetchOp(s.pc)).reply == Data(w)
      && InsnAllowed(s, f, p, Quietly(), Decode(w), Direct)
      && FlatExecute(s, f, Quietly(), Decode(w)) == Ran(c1, f1, 0)
      && PagingAfterInsn(s, f, p, Quietly(), Decode(w), Direct) == p1
    requires Advance(WriteBackSp(c1)) == Some(c2) && c1.nmi.None? && !InterruptsEnabled(c1.psr)
    ensures Goes(c, f, p, AgeFlags(c2), f1, p1)
  {
    Fetched(ChooseStack(c), f, w);
    MovesOn(c, f, c1, f1, c2);
  }

  lemma FaultBody(c: Cpu, f: Flat)
    requires RefPerform(f, Ctl(c), FetchOp(c.pc)).reply == Faulted(PAGE_FAULT)
    ensures FlatInsn(c, f, Quietly(), Decode).None?
    ensures FlatBody(c, f, Quietly(), Decode) == Ran(LatchFault(c, PAGE_FAULT, c.pc), f, PAGE_FAULT)
  {
  }

  /** Delivering the fault: the loop takes it, and the dispatcher enters the handler. */
  lemma FaultDelivered(c: Cpu) returns (c': Cpu)
    requires InUser(c)
    ensures var taken := WriteBackSp(TakeFault(LatchFault(c, PAGE_FAULT, c.pc), PAGE_FAULT));
      Advance(taken).Some? && c' == AgeFlags(Dispatch(Advance(taken).value, Quietly())) && InHandler(c', HANDLER)
  {
    Modes();
    var taken := WriteBackSp(TakeFault(LatchFault(c, PAGE_FAULT, c.pc), PAGE_FAULT));
    c' := AgeFlags(Dispatch(Advance(taken).value, Quietly()));
  }

  /** The program's fetch faults and the kernel is entered, without a flush. */
  lemma FaultIteration(c: Cpu, f: Flat, p: Paging) returns (c': Cpu)
    requires InUser(c) && InStep(f, p, 0)
    ensures Goes(c, f, p, c', f, p) && InHandler(c', HANDLER)
  {
    var s := ChooseStack(c);
    Modes();
    UserFetch(f, p, 0, Ctl(s), FetchOp(s.pc));
    FaultBody(s, f);
    c' := FaultDelivered(s);
  }

  lemma MapExecutes(c: Cpu, f: Flat)
    requires c.gr[1] == LEAF
    requires RefPerform(f, Ctl(c), StoreOp(FullWord, 0x1000, LEAF)).reply == Done
    ensures FlatExecute(c, f, Quietly(), Decode(1)) ==
      Ran(c, RefPerform(f, Ctl(c), StoreOp(FullWord, 0x1000, LEAF)).flat, 0)
  {
    assert EffectiveAddress(c.gr, Absolute(0x400), FullWord) == Some(0x1000);
    StoreRuns(c, f, 0x1000, LEAF);
  }

  lemma StoreRuns(c: Cpu, f: Flat, v: word, x: word)
    requires v % 4 == 0 && RefPerform(f, Ctl(c), StoreOp(FullWord, v, x)).reply == Done
    ensures FlatStore(c, f, Quietly(), FullWord, x, v) ==
      Ran(c, RefPerform(f, Ctl(c), StoreOp(FullWord, v, x)).flat, 0)
  {
  }

  lemma MapAllowed(c: Cpu, f: Flat, p: Paging)
    requires c.gr[1] == LEAF && Allowed(f, p, Ctl(c), StoreOp(FullWord, 0x1000, LEAF))
    ensures InsnAllowed(c, f, p, Quietly(), Decode(1), Direct)
    ensures PagingAfterInsn(c, f, p, Quietly(), Decode(1), Direct) ==
      PagingAfter(f, p, Ctl(c), StoreOp(FullWord, 0x1000, LEAF))
  {
    var op := StoreOp(FullWord, 0x1000, LEAF);
    assert StoreOf(c, f, Quietly(), Decode(1)) == Some(op) && LoadOf(c, Decode(1)).None?;
    assert !FlushesTlb(c, Decode(1)) && !Misaligned(op);
  }

  /** The handler maps the page in the shared table. */
  lemma MapIteration(c: Cpu, f: Flat, p: Paging) returns (c': Cpu, f': Flat, p': Paging)
    requires InHandler(c, HANDLER) && InStep(f, p, 0)
    ensures Goes(c, f, p, c', f', p') && InHandler(c', HANDLER + 4) && InStep(f', p', LEAF)
  {
    var s, op := ChooseStack(c), StoreOp(FullWord, 0x1000, LEAF);
    Modes();
    KernelFetch(f, p, 0, Ctl(s), FetchOp(s.pc));
    MapStore(f, p, Ctl(s), op);
    f', p' := RefPerform(f, Ctl(s), op).flat, PagingAfter(f, p, Ctl(s), op);
    MapAllowed(s, f, p);
    MapExecutes(s, f);
    var c2 := HandlerMoves(s);
    GoesOn(c, f, p, 1, s, f', p', c2);
    c' := AgeFlags(c2);
  }

  lemma HandlerMoves(c: Cpu) returns (c2: Cpu)
    requires InHandler(c, HANDLER)
    ensures Advance(WriteBackSp(c)) == Some(c2) && InHandler(AgeFlags(c2), HANDLER + 4)
  {
    c2 := WriteBackSp(c).(pc := HANDLER + 4);
  }

  lemma ReturnExecutes(c: Cpu, f: Flat, p: Paging)
    requires InHandler(c, HANDLER + 4)
    ensures InsnAllowed(c, f, p, Quietly(), Decode(2), Direct)
    ensures PagingAfterInsn(c, f, p, Quietly(), Decode(2), Direct) == p
    ensures FlatExecute(c, f, Quietly(), Decode(2)) ==
      Ran(c.(flags := c.saved.flags, nextPc := PROGRAM, psr := USER_PSR, pdtr := 0x2000, tidr := c.saved.tidr), f, 0)
  {
    Modes();
  }

  lemma ReturnMoves(s: Cpu, c: Cpu) returns (c2: Cpu)
    requires Ready(s) && c == s.(flags := c.flags, nextPc := PROGRAM, psr := USER_PSR, tidr := c.tidr)
    ensures Advance(WriteBackSp(c)) == Some(c2) && InUser(AgeFlags(c2))
  {
    c2 := WriteBackSp(c).(pc := PROGRAM, nextPc := NO_BRANCH);
  }

  /** The handler returns; the directory register is unchanged, so nothing is flushed. */
  lemma ReturnIteration(c: Cpu, f: Flat, p: Paging) returns (c': Cpu)
    requires InHandler(c, HANDLER + 4) && InStep(f, p, LEAF)
    ensures Goes(c, f, p, c', f, p) && InUser(c')
  {
    var s := ChooseStack(c);
    Modes();
    KernelFetch(f, p, LEAF, Ctl(s), FetchOp(s.pc));
    ReturnExecutes(s, f, p);
    var c1 := FlatExecute(s, f, Quietly(), Decode(2)).cpu;
    var c2 := ReturnMoves(s, c1);
    GoesOn(c, f, p, 2, c1, f, p, c2);
    c' := AgeFlags(c2);
  }

  lemma CompareRuns(c: Cpu, f: Flat, p: Paging)
    ensures InsnAllowed(c, f, p, Quietly(), Decode(3), Direct)
    ensures PagingAfterInsn(c, f, p, Quietly(), Decode(3), Direct) == p
    ensures FlatExecute(c, f, Quietly(), Decode(3)) == Ran(ExecAlu(c, CmpOp, 2, Constant(7)), f, 0)
  {
  }

  predicate Onward(c: Cpu) {
    c.psr == USER_PSR && c.pc == PROGRAM + 4
  }

  /** The program goes on. */
  lemma ProgramIteration(c: Cpu, f: Flat, p: Paging) returns (c': Cpu)
    requires InUser(c) && InStep(f, p, LEAF)
    ensures Goes(c, f, p, c', f, p) && Onward(c')
  {
    var s := ChooseStack(c);
    var c1 := ExecAlu(s, CmpOp, 2, Constant(7));
    Modes();
    UserFetch(f, p, LEAF, Ctl(s), FetchOp(s.pc));
    CompareRuns(s, f, p);
    var c2 := ProgramMoves(s, c1);
    GoesOn(c, f, p, 3, c1, f, p, c2);
    c' := AgeFlags(c2);
  }

  lemma ProgramMoves(s: Cpu, c: Cpu) returns (c2: Cpu)
    requires InUser(s) && c == s.(flags := c.flags)
    ensures Advance(WriteBackSp(c)) == Some(c2) && Onward(AgeFlags(c2))
  {
    c2 := WriteBackSp(c).(pc := PROGRAM + 4);
  }

  // ---------------------------------------------------------------- the run

  /** A run one iteration longer. */
  lemma RunCons(c: Cpu, f: Flat, p: Paging, c': Cpu, f': Flat, p': Paging, t: Tick, rest: seq<Tick>)
    requires t == Tick(Quietly(), Direct) && Goes(c, f, p, c', f', p') && RunAllowed(c', f', p', rest, Decode)
    ensures RunAllowed(c, f, p, [t] + rest, Decode)
    ensures FlatTrace(c, f, [t] + rest, Decode) == [c'] + FlatTrace(c', f', rest, Decode)
  {
    assert ([t] + rest)[1..] == rest;
  }

  /** The program after the fault, in the handler, back, and one instruction on. */
  predicate Expected(trace: seq<Cpu>) {
    && |trace| == 4
    && InHandler(trace[0], HANDLER) && InHandler(trace[1], HANDLER + 4) && InUser(trace[2]) && Onward(trace[3])
  }

  lemma RunFromReturn(c: Cpu, f: Flat, p: Paging, t: Tick) returns (c1: Cpu, c2: Cpu)
    requires InHandler(c, HANDLER + 4) && InStep(f, p, LEAF) && t == Tick(Quietly(), Direct)
    ensures RunAllowed(c, f, p, [t] + ([t] + []), Decode)
    ensures FlatTrace(c, f, [t] + ([t] + []), Decode) == [c1] + ([c2] + []) && InUser(c1) && Onward(c2)
  {
    c1 := ReturnIteration(c, f, p);
    c2 := ProgramIteration(c1, f, p);
    RunCons(c1, f, p, c2, f, p, t, []);
    RunCons(c, f, p, c1, f, p, t, [t] + []);
  }

  /** Over the byte memory the run is allowed, and goes as expected. */
  lemma FlatRunExpected(c: Cpu, f: Flat, p: Paging, t: Tick)
    requires InUser(c) && InStep(f, p, 0) && t == Tick(Quietly(), Direct)
    ensures RunAllowed(c, f, p, [t] + ([t] + ([t] + ([t] + []))), Decode)
    ensures Expected(FlatTrace(c, f, [t] + ([t] + ([t] + ([t] + []))), Decode))
  {
    var a := FaultIteration(c, f, p);
    var b, f1, p1 := MapIteration(a, f, p);
    var d, e := RunFromReturn(b, f1, p1, t);
    RunCons(a, f, p, b, f1, p1, t, [t] + ([t] + []));
    RunCons(c, f, p, a, f, p, t, [t] + ([t] + ([t] + [])));
  }

  lemma StartsInStep(ram: Ram)
    requires ram == RamWith(0)
    ensures InStep(Image(ram), PagingInitial(Image(ram), Paged(DIRECTORIES)), 0)
    ensures Usable(Image(ram), Paged(DIRECTORIES), {})
  {
    var f := Image(ram);
    forall k: nat | k < RAM_WORDS
      ensures Words32(f)[k] == ram[k]
    {
      ImageWord(ram, k);
    }
    assert Words32(f) == ram;
    DirectoriesOk(0);
    forall k | k in TableWords(f, Paged(DIRECTORIES))
      ensures k < 0xc00
    {
      TableWordsLow(f, 0, k);
    }
  }

  /** From reset, on caches, TLB and walks: the user program faults, the kernel walks its own directory,
      maps the page and returns, and the program goes on, with no flush anywhere. */
  lemma {:induction false} UserFaultHandled(m: Machine, t: Tick)
    requires Initial(m.mem) && m.mem.hier.ram == RamWith(0) && InUser(m.cpu) && t == Tick(Quietly(), Direct)
    ensures Expected(Trace(m, [t] + ([t] + ([t] + ([t] + []))), Decode))
  {
    var f := Image(m.mem.hier.ram);
    StartsInStep(m.mem.hier.ram);
    FlatRunExpected(m.cpu, f, PagingInitial(f, Paged(DIRECTORIES)), t);
    ProgramSeesFlatMemory(m, Paged(DIRECTORIES), [t] + ([t] + ([t] + ([t] + []))), Decode);
  }
}
