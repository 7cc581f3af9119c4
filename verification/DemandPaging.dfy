/** A guest that maps a page on demand, without a flush, as a run the end-to-end theorem covers. */
module DemandPaging {
  import opened Words
  import opened Cache
  import opened Mmu
  import opened TlbRefinement
  import opened LoadStore
  import opened FlatMemory
  import opened Refinement
  import opened RestartWitness

  /** One directory, at address 0, for all modes. */
  const ONE_ROOT: Roots := Roots(0, 0)

  /** A byte memory with the words of `ram`. */
  predicate Holds(f: Flat, ram: Ram) {
    Words32(f) == ram
  }

  lemma ImageHolds(ram: Ram)
    ensures Holds(Image(ram), ram)
  {
    var w := Words32(Image(ram));
    forall k: nat | k < RAM_WORDS
      ensures w[k] == ram[k]
    {
      ImageWord(ram, k);
    }
  }

  /** The page directories of the run have no second level, so they are usable. */
  lemma OnlyLargePages(f: Flat, ram: Ram)
    requires Holds(f, ram) && (ram == StartRam() || ram == MappedRam())
    ensures Usable(f, Paged(ONE_ROOT), {})
  {
    forall v: word
      ensures !HasTable(ram, 0, v)
    {
      NoSecondLevel(ram, v);
    }
    assert TablesOk(ram, 0);
    OneRootIff(ram, 0);
  }

  lemma NoSecondLevel(ram: Ram, v: word)
    requires ram == StartRam() || ram == MappedRam()
    ensures !HasTable(ram, 0, v)
  {
    KernelPte();
    assert Slot1(0, v) == v / LARGE < 1024;
    if v / LARGE >= 2 {
      NoOtherEntry(v / LARGE);
    }
  }

  /** The tables occupy the first page. */
  lemma TablesInFirstPage(f: Flat, ram: Ram, k: nat)
    requires Holds(f, ram) && (ram == StartRam() || ram == MappedRam()) && k in TableWords(f, Paged(ONE_ROOT))
    ensures k < 1024
  {
    KernelPte();
    var v: word :| EntryOf(ram, 0, v, k);
    assert Slot1(0, v) == v / LARGE < 1024;
  }

  predicate ProgramFetched(op: Op) {
    op == FetchOp(PROGRAM)
  }

  /** The store that maps the program's region. */
  predicate MapsProgram(op: Op) {
    op == StoreOp(FullWord, 4, MAPPED_PTE)
  }

  lemma FirstFetch(f: Flat, p: Paging, ctl: Control, op: Op)
    requires Holds(f, StartRam()) && p.dir == Paged(ONE_ROOT) && p.edited == {}
    requires KernelPaged(ctl) && ProgramFetched(op)
    ensures Allowed(f, p, ctl, op) && RefPerform(f, ctl, op) == FlatAccessed(f, Faulted(PAGE_FAULT))
  {
    PsrKept();
    assert op.vaddr / LARGE == 1;
    assert Slot1(0, op.vaddr) == 1 && StartRam()[1] == 0;
    assert WalkTables(StartRam(), ctl, op.vaddr, false, true) == Denied(PAGE_FAULT);
  }

  lemma MapTarget(f: Flat, ctl: Control, op: Op)
    requires Holds(f, StartRam()) && KernelPaged(ctl) && MapsProgram(op)
    ensures RefTarget(f, ctl, op) == Address(4)
  {
    PsrKept();
    KernelPte();
    assert op.vaddr / LARGE == 0 && op.vaddr % LARGE == 4;
    assert WalkTables(StartRam(), ctl, op.vaddr, true, false) == Large(KERNEL_PTE);
  }

  lemma MappedWords(f: Flat)
    requires Holds(f, StartRam())
    ensures Holds(StoreBytes(f, 4, FullWord, MAPPED_PTE), MappedRam())
  {
    var f' := StoreBytes(f, 4, FullWord, MAPPED_PTE);
    forall k: nat | k < RAM_WORDS
      ensures Words32(f')[k] == MappedRam()[k]
    {
      StoreFullWord(f, 4, MAPPED_PTE, k);
      assert Words32(f)[k] == StartRam()[k];
    }
  }

  lemma ProgramNoTable(f: Flat, ram: Ram)
    requires Holds(f, ram) && (ram == StartRam() || ram == MappedRam())
    ensures PROGRAM / 4 !in TableWords(f, Paged(ONE_ROOT))
  {
    if PROGRAM / 4 in TableWords(f, Paged(ONE_ROOT)) {
      TablesInFirstPage(f, ram, PROGRAM / 4);
    }
  }

  /** What the store does to the byte memory and to the paging state: the entry it overwrites was not
      valid, so no region counts as edited. */
  lemma MapEffect(f: Flat, p: Paging, ctl: Control, op: Op)
    requires RefTarget(f, ctl, op) == Address(4) && MapsProgram(op)
    requires p.dir == Paged(ONE_ROOT) && p.edited == {} && FlatWord(f, 1) == 0
    ensures var f' := StoreBytes(f, 4, FullWord, MAPPED_PTE);
      && RefPerform(f, ctl, op) == FlatAccessed(f', Done)
      && PagingAfter(f, p, ctl, op) == Paging(Paged(ONE_ROOT), p.walked - {1} + TableWords(f', Paged(ONE_ROOT)), {})
  {
  }

  lemma MapStore(f: Flat, p: Paging, ctl: Control, op: Op)
    requires Holds(f, StartRam()) && KernelPaged(ctl) && MapsProgram(op)
    requires p.dir == Paged(ONE_ROOT) && p.walked == TableWords(f, Paged(ONE_ROOT)) && p.edited == {}
    ensures Allowed(f, p, ctl, op)
    ensures var a, p' := RefPerform(f, ctl, op), PagingAfter(f, p, ctl, op);
      && a.reply == Done && Holds(a.flat, MappedRam())
      && p'.dir == Paged(ONE_ROOT) && p'.edited == {} && PROGRAM / 4 !in p'.walked
  {
    var f' := StoreBytes(f, 4, FullWord, MAPPED_PTE);
    MapTarget(f, ctl, op);
    assert Words32(f)[1] == StartRam()[1];
    MapEffect(f, p, ctl, op);
    MappedWords(f);
    OnlyLargePages(f', MappedRam());
    ProgramNoTable(f, StartRam());
    ProgramNoTable(f', MappedRam());
    KernelWalks(ctl);
  }

  lemma KernelWalks(ctl: Control)
    requires KernelPaged(ctl)
    ensures Root(ctl) == 0
  {
    PsrKept();
  }

  lemma SecondFetch(f: Flat, p: Paging, ctl: Control, op: Op)
    requires Holds(f, MappedRam()) && p.dir == Paged(ONE_ROOT) && p.edited == {} && PROGRAM / 4 !in p.walked
    requires KernelPaged(ctl) && ProgramFetched(op)
    ensures Allowed(f, p, ctl, op) && RefPerform(f, ctl, op).reply == Data(3)
  {
    PsrKept();
    KernelPte();
    assert op.vaddr / LARGE == 1 && op.vaddr % LARGE == 0;
    assert WalkTables(MappedRam(), ctl, op.vaddr, false, true) == Large(MAPPED_PTE);
    assert RefTarget(f, ctl, op) == Address(PROGRAM);
    LoadFromWord(f, PROGRAM);
    assert FlatWord(f, PROGRAM / 4) == MappedRam()[PROGRAM / 4] == 3;
  }

  /** A run one step longer. */
  lemma RunCons(f: Flat, p: Paging, s: Step, rest: seq<Step>)
    requires StepAllowed(f, p, s) && AllowedRun(RefTake(f, s).flat, PagingNext(f, p, s), rest)
    ensures AllowedRun(f, p, [s] + rest)
    ensures RefReplies(f, [s] + rest) == [RefTake(f, s).reply] + RefReplies(RefTake(f, s).flat, rest)
  {
    assert ([s] + rest)[1..] == rest;
  }

  lemma ThreeSteps(f: Flat, p: Paging, s1: Step, s2: Step, s3: Step)
    requires StepAllowed(f, p, s1)
    requires RefTake(f, s1).flat == f && PagingNext(f, p, s1) == p && StepAllowed(f, p, s2)
    requires StepAllowed(RefTake(f, s2).flat, PagingNext(f, p, s2), s3)
    ensures AllowedRun(f, p, [s1, s2, s3])
    ensures RefReplies(f, [s1, s2, s3]) ==
      [RefTake(f, s1).reply, RefTake(f, s2).reply, RefTake(RefTake(f, s2).flat, s3).reply]
  {
    RunCons(RefTake(f, s2).flat, PagingNext(f, p, s2), s3, []);
    RunCons(f, p, s2, [s3] + []);
    RunCons(f, p, s1, [s2] + ([s3] + []));
    assert [s1] + ([s2] + ([s3] + [])) == [s1, s2, s3];
  }

  lemma ThreeReplies(m: Memory, dir: Directory, s1: Step, s2: Step, s3: Step, r1: Reply, r2: Reply, r3: Reply)
    requires Initial(m) && Usable(Image(m.hier.ram), dir, {})
    requires var f := Image(m.hier.ram);
      && AllowedRun(f, PagingInitial(f, dir), [s1, s2, s3]) && RefReplies(f, [s1, s2, s3]) == [r1, r2, r3]
    ensures Replies(m, [s1, s2, s3]) == [r1, r2, r3]
  {
    EndToEnd(m, dir, [s1, s2, s3]);
  }

  /** From reset, a fetch from a page that is not there faults, the store that maps it goes through, and
      the same fetch then reads the program: through caches, TLB and walks, and without a flush. */
  lemma {:induction false} MapsOnDemand(m: Memory, fetch: Step, store: Step)
    requires Initial(m) && m.hier.ram == StartRam()
    requires fetch.Access? && store.Access? && KernelPaged(fetch.ctl) && KernelPaged(store.ctl)
    requires ProgramFetched(fetch.op) && MapsProgram(store.op)
    ensures Replies(m, [fetch, store, fetch]) == [Faulted(PAGE_FAULT), Done, Data(3)]
  {
    var f := Image(m.hier.ram);
    ImageHolds(m.hier.ram);
    OnlyLargePages(f, m.hier.ram);
    MapRun(f, PagingInitial(f, Paged(ONE_ROOT)), fetch, store);
    ThreeReplies(m, Paged(ONE_ROOT), fetch, store, fetch, Faulted(PAGE_FAULT), Done, Data(3));
  }

  lemma MapRun(f: Flat, p: Paging, fetch: Step, store: Step)
    requires Holds(f, StartRam()) && p == PagingInitial(f, Paged(ONE_ROOT))
    requires fetch.Access? && store.Access? && KernelPaged(fetch.ctl) && KernelPaged(store.ctl)
    requires ProgramFetched(fetch.op) && MapsProgram(store.op)
    ensures AllowedRun(f, p, [fetch, store, fetch])
    ensures RefReplies(f, [fetch, store, fetch]) == [Faulted(PAGE_FAULT), Done, Data(3)]
  {
    FirstFetch(f, p, fetch.ctl, fetch.op);
    MapStore(f, p, store.ctl, store.op);
    SecondFetch(RefPerform(f, store.ctl, store.op).flat, PagingAfter(f, p, store.ctl, store.op),
                fetch.ctl, fetch.op);
    ThreeSteps(f, p, fetch, store, fetch);
  }
}
