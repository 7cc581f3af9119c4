/** What page privileges protect: bytes no user-writable page shows keep their value over every run of
    user accesses, in the byte memory and on the simulator. */
module Isolation {
  import opened Words
  import opened Cache
  import opened Mmu
  import opened TlbRefinement
  import opened LoadStore
  import opened FlatMemory
  import opened Refinement
  import opened Bits
  import opened Privilege

  /** Some address is mapped to physical page `n`, with PP = RWRW at both levels. */
  ghost predicate OpenPage(ram: Ram, root: word, n: nat) {
    exists v: word :: OpenAt(ram, root, v) && PageOf(ram, root, v) == n
  }

  predicate OpenAt(ram: Ram, root: word, v: word) {
    HasEntry(ram, root, v) && And(L1Entry(ram, root, v), 0x30) == 0x30 && And(Entry(ram, root, v), 0x30) == 0x30
  }

  /** A paged request of a mode other than kernel mode, walking `root`. */
  predicate UserPaged(ctl: Control, root: word) {
    And(ctl.psr, 0x60) != 0 && And(ctl.psr, 0x3) == 2 && Root(ctl) == root
  }

  /** No page table word lies in a page open to users. */
  ghost predicate TablesClosed(ram: Ram, root: word) {
    forall k: nat :: k < RAM_WORDS && TableWord(ram, root, k) ==> !OpenPage(ram, root, k / 1024)
  }

  /** All bytes outside the open pages are kept. */
  ghost predicate ClosedKept(f: Flat, f': Flat, ram: Ram, root: word) {
    forall k: nat :: k < RAM_LIMIT && !OpenPage(ram, root, k / 0x1000) ==> f'[k] == f[k]
  }

  lemma RootsOf(ctl: Control)
    ensures Root(ctl) == RootFor(Roots(Root(ctl), Root(ctl)), ctl.psr)
  {
  }

  /** A user store that is carried out lands in an open page. */
  lemma StoreLandsOpen(ram: Ram, ctl: Control, v: word, root: word)
    requires UserPaged(ctl, root) && Translate(ram, ctl, v, true, false).Address?
    ensures OpenPage(ram, root, Translate(ram, ctl, v, true, false).paddr / 0x1000)
  {
    PsrMasks(ctl.psr);
    RootsOf(ctl);
    TranslateServes(ram, ctl, Roots(root, root), v, true, false);
    PageParts(PageOf(ram, root, v), v % PAGE);
    PermitsIff(L1Entry(ram, root, v), ctl.psr, true, false);
    PermitsIff(Entry(ram, root, v), ctl.psr, true, false);
    assert OpenAt(ram, root, v);
  }

  /** The bits of an entry refuse the access: stores outside kernel mode need RWRW and in it anything but
      RDXX, loads and fetches outside it RWRW or RWRD, fetches EX. */
  predicate Refuses(pte: word, psr: word, op: Op) {
    || (op.StoreOp? && And(pte, 0x30) != 0x30 && And(psr, 0x60) != 0)
    || (op.StoreOp? && And(pte, 0x30) == 0x10)
    || (!op.StoreOp? && And(psr, 0x60) != 0 && And(pte, 0x30) != 0x30 && And(pte, 0x30) != 0x20)
    || (op.FetchOp? && And(pte, 0x8) == 0)
  }

  /** An access that an entry of either level refuses raises vector 41 and changes no byte. */
  lemma RefusedAccess(f: Flat, ctl: Control, op: Op)
    requires And(ctl.psr, 0x3) == 2 && HasEntry(Words32(f), Root(ctl), op.vaddr)
    requires Refuses(L1Entry(Words32(f), Root(ctl), op.vaddr), ctl.psr, op)
          || Refuses(Entry(Words32(f), Root(ctl), op.vaddr), ctl.psr, op)
    ensures RefPerform(f, ctl, op) == FlatAccessed(f, Faulted(41))
  {
    var ram, v := Words32(f), op.vaddr;
    PsrMasks(ctl.psr);
    RefusedBits(L1Entry(ram, Root(ctl), v), ctl.psr, op);
    RefusedBits(Entry(ram, Root(ctl), v), ctl.psr, op);
    EntryRefused(ram, ctl, v, op.StoreOp?, op.FetchOp?);
  }

  lemma RefusedBits(pte: word, psr: word, op: Op)
    ensures Refuses(pte, psr, op) <==> !Permits(pte, psr, op.StoreOp?, op.FetchOp?)
  {
    PermitsIff(pte, psr, op.StoreOp?, op.FetchOp?);
  }

  lemma EntryRefused(ram: Ram, ctl: Control, v: word, write: bool, exec: bool)
    requires MmuMode(ctl.psr) == 2 && HasEntry(ram, Root(ctl), v)
    requires !(Permits(L1Entry(ram, Root(ctl), v), ctl.psr, write, exec)
               && Permits(Entry(ram, Root(ctl), v), ctl.psr, write, exec))
    ensures Translate(ram, ctl, v, write, exec) == Fault(41)
  {
  }

  // ---------------------------------------------------------------- one store

  lemma StoredByte(f: Flat, p: word, width: Width, x: word, k: nat)
    requires p < RAM_LIMIT && k < RAM_LIMIT && k / 4 != p / 4
    ensures StoreBytes(f, p, width, x)[k] == f[k]
  {
    var q, o := SplitOffset(p);
  }

  lemma PageOfWord(k: nat)
    ensures k / 4 / 1024 == k / 0x1000
  {
  }

  lemma OpenSame(m: Ram, m': Ram, root: word)
    requires SameTables(m, m', root)
    ensures forall n: nat :: OpenPage(m, root, n) == OpenPage(m', root, n)
  {
    forall v: word
      ensures OpenAt(m, root, v) == OpenAt(m', root, v)
      ensures OpenAt(m, root, v) ==> PageOf(m, root, v) == PageOf(m', root, v)
    {
      OpenAtSame(m, m', root, v);
    }
  }

  lemma OpenAtSame(m: Ram, m': Ram, root: word, v: word)
    requires SameTables(m, m', root)
    ensures OpenAt(m, root, v) == OpenAt(m', root, v)
    ensures OpenAt(m, root, v) ==> PageOf(m, root, v) == PageOf(m', root, v)
  {
    EntrySame(m, m', root, v);
    if HasEntry(m, root, v) {
      SameEntryFields(L1Entry(m, root, v), L1Entry(m', root, v));
      SameEntryFields(Entry(m, root, v), Entry(m', root, v));
      PteMasks(L1Entry(m, root, v));
      PteMasks(L1Entry(m', root, v));
      PteMasks(Entry(m, root, v));
      PteMasks(Entry(m', root, v));
    }
  }

  /** A user access keeps the tables, and all bytes outside the open pages. */
  lemma AccessConfined(f: Flat, ctl: Control, op: Op, root: word)
    requires UserPaged(ctl, root) && TablesClosed(Words32(f), root)
    ensures var f' := RefPerform(f, ctl, op).flat;
      && SameTables(Words32(f), Words32(f'), root) && ClosedKept(f, f', Words32(f), root)
  {
    var ram, t, f' := Words32(f), RefTarget(f, ctl, op), RefPerform(f, ctl, op).flat;
    if op.StoreOp? && t.Address? && t.paddr < RAM_LIMIT {
      StoreLandsOpen(ram, ctl, op.vaddr, root);
      StoreConfined(f, t.paddr, op.width, op.src, root);
    } else {
      assert f' == f;
    }
  }

  lemma StoreConfined(f: Flat, p: word, width: Width, x: word, root: word)
    requires p < RAM_LIMIT && OpenPage(Words32(f), root, p / 0x1000) && TablesClosed(Words32(f), root)
    ensures var f' := StoreBytes(f, p, width, x);
      SameTables(Words32(f), Words32(f'), root) && ClosedKept(f, f', Words32(f), root)
  {
    var ram, f', j := Words32(f), StoreBytes(f, p, width, x), p / 4;
    PageOfWord(p);
    forall k: nat | k < RAM_LIMIT && !OpenPage(ram, root, k / 0x1000)
      ensures f'[k] == f[k]
    {
      PageOfWord(k);
      StoredByte(f, p, width, x, k);
    }
    forall k: nat | k < RAM_WORDS
      ensures Words32(f')[k] == ram[j := FlatWord(f', j)][k]
    {
      if k != j {
        StoredElsewhere(f, p, width, x, k);
      }
    }
    assert Words32(f') == ram[j := FlatWord(f', j)];
    OutsideTables(ram, root, j, FlatWord(f', j));
  }

  lemma StoredElsewhere(f: Flat, p: word, width: Width, x: word, k: nat)
    requires p < RAM_LIMIT && k < RAM_WORDS && k != p / 4
    ensures FlatWord(StoreBytes(f, p, width, x), k) == FlatWord(f, k)
  {
    var f' := StoreBytes(f, p, width, x);
    forall j: nat | 4 * k <= j < 4 * k + 4
      ensures f'[j] == f[j]
    {
      StoredByte(f, p, width, x, j);
    }
  }

  // ---------------------------------------------------------------- runs

  /** Accesses of user programs with `root` as their directory. */
  predicate UserSteps(steps: seq<Step>, root: word) {
    forall k :: 0 <= k < |steps| ==> steps[k].Access? && UserPaged(steps[k].ctl, root)
  }

  function FlatAfter(f: Flat, steps: seq<Step>): Flat
    decreases |steps|
  {
    if |steps| == 0 then f else FlatAfter(RefTake(f, steps[0]).flat, steps[1..])
  }

  lemma ClosedStays(m: Ram, m': Ram, root: word)
    requires SameTables(m, m', root) && TablesClosed(m, root)
    ensures TablesClosed(m', root)
  {
    OpenSame(m, m', root);
    forall k: nat | k < RAM_WORDS && TableWord(m', root, k)
      ensures !OpenPage(m', root, k / 1024)
    {
      TableWordSame(m, m', root, k);
    }
  }

  /** Over any run of user accesses of all kinds, no byte outside the open pages changes: neither the
      tables nor anything else the kernel keeps to itself. */
  lemma {:induction false} UserRunConfined(f: Flat, steps: seq<Step>, root: word)
    requires UserSteps(steps, root) && TablesClosed(Words32(f), root)
    ensures ClosedKept(f, FlatAfter(f, steps), Words32(f), root)
    decreases |steps|
  {
    if |steps| != 0 {
      var f1 := RefTake(f, steps[0]).flat;
      AccessConfined(f, steps[0].ctl, steps[0].op, root);
      OpenSame(Words32(f), Words32(f1), root);
      ClosedStays(Words32(f), Words32(f1), root);
      UserRunConfined(f1, steps[1..], root);
    }
  }

  lemma {:induction false} RepliesAfter(f: Flat, steps: seq<Step>, s: Step)
    ensures RefReplies(f, steps + [s])[|steps|] == RefTake(FlatAfter(f, steps), s).reply
    decreases |steps|
  {
    if |steps| != 0 {
      assert (steps + [s])[1..] == steps[1..] + [s];
      RepliesAfter(RefTake(f, steps[0]).flat, steps[1..], s);
    } else {
      assert steps + [s] == [s];
    }
  }

  /** On the simulator, with caches and TLB: after any run of user accesses the kernel loads from a
      closed page the word that was there at reset. */
  lemma {:induction false} KernelWordSurvives(m: Memory, dir: Directory, steps: seq<Step>, root: word, ctl: Control,
                                              a: word)
    requires Initial(m) && Usable(Image(m.hier.ram), dir, {}) && UserSteps(steps, root)
    requires TablesClosed(Words32(Image(m.hier.ram)), root) && And(ctl.psr, 0x3) == 0
    requires a < RAM_LIMIT && a % 4 == 0 && !OpenPage(Words32(Image(m.hier.ram)), root, a / 0x1000)
    requires var run := steps + [Access(ctl, LoadOp(FullWord, a))];
      AllowedRun(Image(m.hier.ram), PagingInitial(Image(m.hier.ram), dir), run)
    ensures Replies(m, steps + [Access(ctl, LoadOp(FullWord, a))])[|steps|] == Data(m.hier.ram[a / 4])
  {
    var f, s := Image(m.hier.ram), Access(ctl, LoadOp(FullWord, a));
    var f' := FlatAfter(f, steps);
    EndToEnd(m, dir, steps + [s]);
    RepliesAfter(f, steps, s);
    UserRunConfined(f, steps, root);
    ImageWord(m.hier.ram, a / 4);
    LoadsKept(f, f', ctl, a, root);
  }

  lemma LoadsKept(f: Flat, f': Flat, ctl: Control, a: word, root: word)
    requires ClosedKept(f, f', Words32(f), root) && And(ctl.psr, 0x3) == 0
    requires a < RAM_LIMIT && a % 4 == 0 && !OpenPage(Words32(f), root, a / 0x1000)
    ensures RefPerform(f', ctl, LoadOp(FullWord, a)).reply == Data(FlatWord(f, a / 4))
  {
    PsrMasks(ctl.psr);
    WordKept(f, f', a, root);
    LoadFromWord(f', a);
  }

  lemma WordKept(f: Flat, f': Flat, a: word, root: word)
    requires ClosedKept(f, f', Words32(f), root)
    requires a < RAM_LIMIT && a % 4 == 0 && !OpenPage(Words32(f), root, a / 0x1000)
    ensures FlatWord(f', a / 4) == FlatWord(f, a / 4)
  {
    forall j: nat | a <= j < a + 4
      ensures f'[j] == f[j]
    {
      assert j / 0x1000 == a / 0x1000 by { PageOfWord(a); PageOfWord(j); }
    }
  }
}
