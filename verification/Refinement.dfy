/** End to end: TLB, page walks and both caches together behave as the flat byte memory. */
module Refinement {
  import opened Words
  import opened Cache
  import opened Mmu
  import opened TlbRefinement
  import opened LoadStore
  import opened FlatMemory

  /** What paged accesses walk from until the next flush; `Direct` if there are none. */
  datatype Directory = Direct | Paged(roots: Roots)

  /** What a run has done so far: the directory in use, the words walks may have updated since they
      were last stored, and the 4 MB regions with valid entries the guest has overwritten since the
      last flush. */
  datatype Paging = Paging(dir: Directory, walked: set<nat>, edited: set<nat>)

  /** The words of the byte memory. */
  function Words32(f: Flat): (ram: Ram)
    ensures forall k :: 0 <= k < RAM_WORDS ==> ram[k] == FlatWord(f, k)
  {
    seq(RAM_WORDS, k requires 0 <= k < RAM_WORDS => FlatWord(f, k))
  }

  /** The reference access: translation through the tables the byte memory itself holds. */
  function RefPerform(f: Flat, ctl: Control, op: Op): FlatAccessed {
    FlatPerform(f, Words32(f), ctl, op)
  }

  function RefTarget(f: Flat, ctl: Control, op: Op): Result {
    Target(Words32(f), ctl, op)
  }

  /** RAM word `k` is an entry of the tables of user mode or of the other modes. */
  ghost predicate AnyTableWord(ram: Ram, rs: Roots, k: nat) {
    TableWord(ram, rs.user, k) || TableWord(ram, rs.other, k)
  }

  ghost function TableWords(f: Flat, dir: Directory): set<nat> {
    if dir.Paged? then set k: nat | k < RAM_WORDS && AnyTableWord(Words32(f), dir.roots, k) else {}
  }

  /** The tables are usable outside the edited regions. */
  ghost predicate Usable(f: Flat, dir: Directory, edited: set<nat>) {
    dir.Paged? ==> SpacesOk(Words32(f), dir.roots, edited)
  }

  /** Byte memory, caches and RAM agree on every word, up to R and D bits that RAM may have in addition
      in the walked words; the TLB has been filled from the tables, outside the edited regions. */
  ghost predicate Related(m: Memory, f: Flat, p: Paging) {
    && TableWords(f, p.dir) <= p.walked && Usable(f, p.dir, p.edited)
    && (p.dir.Paged? ==> TlbOk(m.tlb, m.hier.ram, p.dir.roots, p.edited))
    && Coherent(m.hier.icache, m.hier.ram, p.walked) && Coherent(m.hier.dcache, m.hier.ram, p.walked)
    && Mirrors(f, m.hier.ram, p.walked)
  }

  ghost predicate Mirrors(f: Flat, ram: Ram, walked: set<nat>) {
    forall k: nat :: k < RAM_WORDS ==> WordCoherent(FlatWord(f, k), ram, k, walked)
  }

  /** The RAM word an access reaches in the reference. */
  predicate Reaches(f: Flat, ctl: Control, op: Op, k: nat) {
    var t := RefTarget(f, ctl, op);
    t.Address? && t.paddr < RAM_LIMIT && k == t.paddr / 4
  }

  predicate WholeWord(op: Op) {
    op.StoreOp? && op.width == FullWord
  }

  /** The 4 MB regions some address of which some mode translates through word `k`. */
  ghost function Through(ram: Ram, rs: Roots, k: nat): set<nat> {
    set v: word | EntryOf(ram, rs.user, v, k) || EntryOf(ram, rs.other, v, k) :: v / LARGE
  }

  /** What is so after an access: a full-word store makes its word exact again, may add tables, and
      may overwrite a valid table entry. */
  ghost function PagingAfter(f: Flat, p: Paging, ctl: Control, op: Op): Paging {
    var t := RefTarget(f, ctl, op);
    if WholeWord(op) && t.Address? && t.paddr < RAM_LIMIT then
      var k := t.paddr / 4;
      Paging(p.dir, p.walked - {k} + TableWords(RefPerform(f, ctl, op).flat, p.dir),
             if p.dir.Paged? && PteValid(FlatWord(f, k)) then p.edited + Through(Words32(f), p.dir.roots, k)
             else p.edited)
    else p
  }

  /** The control registers select the directory in use for the current mode. */
  predicate Selects(p: Paging, ctl: Control) {
    p.dir.Paged? && Root(ctl) == RootFor(p.dir.roots, ctl.psr)
  }

  /** A request: paged accesses walk the directories in use and stay out of the edited regions;
      full-word stores are aligned, and leave usable tables; other accesses avoid walked words. */
  ghost predicate Allowed(f: Flat, p: Paging, ctl: Control, op: Op) {
    && (MmuMode(ctl.psr) == 2 ==> Selects(p, ctl) && op.vaddr / LARGE !in p.edited)
    && (if WholeWord(op) then
          op.vaddr % 4 == 0 && Usable(RefPerform(f, ctl, op).flat, p.dir, PagingAfter(f, p, ctl, op).edited)
        else forall k: nat :: Reaches(f, ctl, op, k) ==> k !in p.walked)
  }

  // ---------------------------------------------------------------- translation and offsets

  /** Translation keeps the low 12 bits, and the word of an address translates with it. */
  lemma TranslateOffset(ram: Ram, ctl: Control, vaddr: word, write: bool, exec: bool)
    ensures var r, r' := Translate(ram, ctl, vaddr, write, exec),
                         Translate(ram, ctl, WordAddress(vaddr), write, exec);
      if r.Address? then r.paddr % PAGE == vaddr % PAGE && r' == Address(WordAddress(r.paddr)) else r' == r
  {
    WordAddressFields(vaddr);
    if MmuMode(ctl.psr) == 2 {
      var w := WalkTables(ram, ctl, vaddr, write, exec);
      assert WalkTables(ram, ctl, WordAddress(vaddr), write, exec) == w;
      if w.Large? { PlacedLarge(w.pte / LARGE, vaddr); }
      if w.Small? { PlacedSmall(w.pte / PAGE, vaddr); }
    }
  }

  lemma WordAddressFields(vaddr: word)
    ensures var a := WordAddress(vaddr); a / LARGE == vaddr / LARGE && a / PAGE == vaddr / PAGE
  {
    var q := vaddr / 4;
    assert vaddr / LARGE == q / 0x10_0000 && vaddr / PAGE == q / 0x400;
    assert 4 * q / LARGE == q / 0x10_0000 && 4 * q / PAGE == q / 0x400;
  }

  lemma OffsetIn(q: nat, r: nat)
    requires r < 4
    ensures (4 * q + r) % LARGE == 4 * (q % 0x10_0000) + r
    ensures (4 * q + r) % PAGE == 4 * (q % 0x400) + r
  {
    assert 4 * q + r == q / 0x10_0000 * LARGE + (4 * (q % 0x10_0000) + r);
    assert 4 * q + r == q / 0x400 * PAGE + (4 * (q % 0x400) + r);
  }

  lemma OffsetOfWord(vaddr: word)
    ensures vaddr % LARGE == WordAddress(vaddr) % LARGE + vaddr % 4 && WordAddress(vaddr) % LARGE % 4 == 0
    ensures vaddr % PAGE == WordAddress(vaddr) % PAGE + vaddr % 4 && WordAddress(vaddr) % PAGE % 4 == 0
  {
    OffsetIn(vaddr / 4, 0);
    OffsetIn(vaddr / 4, vaddr % 4);
  }

  lemma AddPages(n: nat, o: nat)
    ensures (n * LARGE + o) % PAGE == o % PAGE
  {
    var k := n * 0x400;
    assert n * LARGE == k * PAGE;
  }

  lemma CutLowBits(a: nat, b: nat, r: nat)
    requires a % 4 == 0 && b % 4 == 0 && r < 4
    ensures (a + b + r) / 4 * 4 == a + b
  {
  }

  lemma PlacedSmall(frame: nat, vaddr: word)
    ensures var p := frame * PAGE + vaddr % PAGE;
      p % PAGE == vaddr % PAGE && p / 4 * 4 == frame * PAGE + WordAddress(vaddr) % PAGE
  {
    OffsetOfWord(vaddr);
    PageParts(frame, vaddr % PAGE);
    PagesOfWords(frame);
    CutLowBits(frame * PAGE, WordAddress(vaddr) % PAGE, vaddr % 4);
  }

  lemma PagesOfWords(frame: nat)
    ensures frame * PAGE % 4 == 0
  {
    assert frame * PAGE == 4 * (frame * 0x400);
  }

  lemma PlacedLarge(frame: nat, vaddr: word)
    ensures var p := frame * LARGE + vaddr % LARGE;
      p % PAGE == vaddr % PAGE && p / 4 * 4 == frame * LARGE + WordAddress(vaddr) % LARGE
  {
    OffsetOfWord(vaddr);
    AddPages(vaddr / LARGE, vaddr % LARGE);
    AddPages(frame, vaddr % LARGE);
    CutLowBits(frame * LARGE, WordAddress(vaddr) % LARGE, vaddr % 4);
  }

  // ---------------------------------------------------------------- one access

  lemma WalkSlotIsTableWord(ram: Ram, ctl: Control, vaddr: word, write: bool, exec: bool)
    requires WalkTables(ram, ctl, vaddr, write, exec).Small?
    ensures TableWord(ram, Root(ctl), WalkTables(ram, ctl, vaddr, write, exec).slot)
  {
    var walk := WalkTables(ram, ctl, vaddr, write, exec);
    assert EntryOf(ram, Root(ctl), vaddr, walk.slot);
  }

  /** RAMs that agree up to R and D bits hold the same tables, wherever these are. */
  lemma AgreeingTables(f: Flat, ram: Ram, walked: set<nat>, root: word)
    requires Mirrors(f, ram, walked)
    ensures SameTables(Words32(f), ram, root)
  {
    var a := Words32(f);
    forall v: word
      ensures SameEntriesAt(a, ram, root, v)
    {
      if TableInRam(root) {
        assert WordCoherent(a[Slot1(root, v)], ram, Slot1(root, v), walked);
      }
      if HasTable(a, root, v) {
        assert WordCoherent(a[LeafSlot(a, root, v)], ram, LeafSlot(a, root, v), walked);
      }
    }
  }

  lemma AgreeingSpaces(f: Flat, ram: Ram, walked: set<nat>, rs: Roots)
    requires Mirrors(f, ram, walked)
    ensures SameSpaces(Words32(f), ram, rs)
  {
    AgreeingTables(f, ram, walked, rs.user);
    AgreeingTables(f, ram, walked, rs.other);
  }

  /** Translation gives the address the tables of the reference promise, and keeps the relation. */
  lemma TranslateRelated(m: Memory, f: Flat, p: Paging, ctl: Control, vaddr: word, write: bool, exec: bool)
    requires Related(m, f, p)
    requires MmuMode(ctl.psr) == 2 ==> Selects(p, ctl) && vaddr / LARGE !in p.edited
    ensures var t := VirtToPhys(m.hier.ram, m.tlb, ctl, vaddr, write, exec);
      && t.result == Translate(Words32(f), ctl, vaddr, write, exec)
      && Related(Translated1(m, t), f, p)
  {
    if MmuMode(ctl.psr) == 2 {
      var ram, root, rs := m.hier.ram, Root(ctl), p.dir.roots;
      var t := VirtToPhys(ram, m.tlb, ctl, vaddr, write, exec);
      AgreeingSpaces(f, ram, p.walked, rs);
      SpacesOkSame(Words32(f), ram, rs, p.edited);
      StepRefines(ram, m.tlb, ctl, rs, vaddr, write, exec, p.edited);
      SameTablesSameWalk(Words32(f), ram, ctl, vaddr, write, exec);
      if t.ram != ram {
        var walk := WalkTables(ram, ctl, vaddr, write, exec);
        WalkSlotIsTableWord(ram, ctl, vaddr, write, exec);
        TableWordSame(Words32(f), ram, root, walk.slot);
        assert walk.slot in TableWords(f, p.dir);
        WalkRelated(m, f, p.walked, walk.slot, SetRD(walk.pte, write)) by { SetRDAgrees(walk.pte, write); }
      }
    }
  }

  /** A walk updates a table word behind caches and reference. */
  lemma WalkRelated(m: Memory, f: Flat, walked: set<nat>, slot: nat, x: word)
    requires slot < RAM_WORDS && slot in walked && AgreesUpToRD(m.hier.ram[slot], x)
    requires Coherent(m.hier.icache, m.hier.ram, walked) && Coherent(m.hier.dcache, m.hier.ram, walked)
    requires Mirrors(f, m.hier.ram, walked)
    ensures var ram' := m.hier.ram[slot := x];
      && Coherent(m.hier.icache, ram', walked) && Coherent(m.hier.dcache, ram', walked)
      && Mirrors(f, ram', walked)
  {
    var ram: Ram, ram': Ram := m.hier.ram, m.hier.ram[slot := x];
    WalkCoherent(m.hier.icache, ram, walked, slot, x);
    WalkCoherent(m.hier.dcache, ram, walked, slot, x);
    assert walked + {slot} == walked;
    forall k: nat | k < RAM_WORDS
      ensures WordCoherent(FlatWord(f, k), ram', k, walked)
    {
      assert WordCoherent(FlatWord(f, k), ram, k, walked);
      if k == slot {
        AgreesTransitive(FlatWord(f, k), ram[k], x);
      }
    }
  }

  lemma ReadRelated(m: Memory, f: Flat, p: Paging, paddr: word, icache: bool)
    requires Related(m, f, p) && paddr < RAM_LIMIT && paddr / 4 !in p.walked
    ensures var h := m.hier;
      var q := Read(if icache then h.icache else h.dcache, h.tick, h.ram, paddr);
      && q.value == FlatWord(f, paddr / 4)
      && Related(m.(hier := if icache then h.(icache := q.l1, tick := q.tick)
                            else h.(dcache := q.l1, tick := q.tick)), f, p)
  {
    var h := m.hier;
    ReadCoherent(if icache then h.icache else h.dcache, h.tick, h.ram, paddr, p.walked);
    assert WordCoherent(FlatWord(f, paddr / 4), h.ram, paddr / 4, p.walked);
  }

  /** A store to word `paddr / 4` that the reference mirrors. */
  lemma WriteMirrors(m: Memory, f: Flat, f': Flat, walked: set<nat>, paddr: word, data: word)
    requires paddr < RAM_LIMIT && Mirrors(f, m.hier.ram, walked)
    requires Coherent(m.hier.icache, m.hier.ram, walked) && Coherent(m.hier.dcache, m.hier.ram, walked)
    requires forall k: nat :: k < RAM_WORDS ==>
               FlatWord(f', k) == if k == paddr / 4 then data else FlatWord(f, k)
    ensures var h := Write(m.hier, paddr, data);
      && h.ram == m.hier.ram[paddr / 4 := data] && Mirrors(f', h.ram, walked - {paddr / 4})
      && Coherent(h.icache, h.ram, walked - {paddr / 4}) && Coherent(h.dcache, h.ram, walked - {paddr / 4})
  {
    var ram, k := m.hier.ram, paddr / 4;
    var ram': Ram := ram[k := data];
    WriteCoherent(m.hier, paddr, data, walked);
    forall j: nat | j < RAM_WORDS
      ensures WordCoherent(FlatWord(f', j), ram', j, walked - {k})
    {
      assert WordCoherent(FlatWord(f, j), ram, j, walked);
    }
  }

  lemma CoherentMore(m: Memory, f: Flat, walked: set<nat>, more: set<nat>)
    requires Mirrors(f, m.hier.ram, walked) && walked <= more
    requires Coherent(m.hier.icache, m.hier.ram, walked) && Coherent(m.hier.dcache, m.hier.ram, walked)
    ensures Mirrors(f, m.hier.ram, more)
    ensures Coherent(m.hier.icache, m.hier.ram, more) && Coherent(m.hier.dcache, m.hier.ram, more)
  {
    CoherentWeaken(m.hier.icache, m.hier.ram, walked, more);
    CoherentWeaken(m.hier.dcache, m.hier.ram, walked, more);
    forall k: nat | k < RAM_WORDS
      ensures WordCoherent(FlatWord(f, k), m.hier.ram, k, more)
    {
      assert WordCoherent(FlatWord(f, k), m.hier.ram, k, walked);
    }
  }

  /** Writing a word outside the tables of all modes leaves them as they are. */
  lemma OutsideSpaces(ram: Ram, rs: Roots, k: nat, data: word)
    requires k < RAM_WORDS && !AnyTableWord(ram, rs, k)
    ensures SameSpaces(ram, ram[k := data], rs)
  {
    OutsideTables(ram, rs.user, k, data);
    OutsideTables(ram, rs.other, k, data);
  }

  lemma SameTableWords(f: Flat, f': Flat, dir: Directory, k: nat, data: word)
    requires k < RAM_WORDS && k !in TableWords(f, dir)
    requires forall j: nat :: j < RAM_WORDS ==> FlatWord(f', j) == if j == k then data else FlatWord(f, j)
    ensures Words32(f') == Words32(f)[k := data] && TableWords(f', dir) == TableWords(f, dir)
  {
    var a, b := Words32(f), Words32(f');
    assert b == a[k := data];
    if dir.Paged? {
      OutsideSpaces(a, dir.roots, k, data);
      forall j: nat | j < RAM_WORDS
        ensures AnyTableWord(a, dir.roots, j) == AnyTableWord(b, dir.roots, j)
      {
        TableWordSame(a, b, dir.roots.user, j);
        TableWordSame(a, b, dir.roots.other, j);
      }
    }
  }

  /** A word outside the tables may change without changing their meaning. */
  lemma OutsideWrite(f: Flat, f': Flat, dir: Directory, edited: set<nat>, k: nat, data: word)
    requires k < RAM_WORDS && k !in TableWords(f, dir) && Usable(f, dir, edited)
    requires forall j: nat :: j < RAM_WORDS ==> FlatWord(f', j) == if j == k then data else FlatWord(f, j)
    ensures Usable(f', dir, edited) && TableWords(f', dir) == TableWords(f, dir)
  {
    SameTableWords(f, f', dir, k, data);
    if dir.Paged? {
      OutsideSpaces(Words32(f), dir.roots, k, data);
      SpacesOkSame(Words32(f), Words32(f'), dir.roots, edited);
    }
  }

  /** Every table entry on the path to an entry that maps `v` is valid. */
  lemma ValidPath(ram: Ram, root: word, v: word, k: nat)
    requires k < RAM_WORDS && HasEntry(ram, root, v) && EntryOf(ram, root, v, k)
    ensures PteValid(ram[k])
  {
  }

  /** A word off the path of an address may change without changing what maps it. */
  lemma OffPath(ram: Ram, root: word, v: word, k: nat, data: word)
    requires k < RAM_WORDS && HasEntry(ram, root, v) && !EntryOf(ram, root, v, k)
    ensures HasEntry(ram[k := data], root, v) && Entry(ram[k := data], root, v) == Entry(ram, root, v)
    ensures L1Entry(ram[k := data], root, v) == L1Entry(ram, root, v)
  {
  }

  lemma EntryKept(e: TlbEntry, i: nat, ram: Ram, rs: Roots, psr: word, k: nat, data: word)
    requires k < RAM_WORDS && EntryOk(e, i, ram, rs) && PteValid(e.pte) && KeptFor(e, ram, rs, psr)
    requires !EntryOf(ram, RootFor(rs, psr), e.pageNum, k)
    ensures EntryOk(e, i, ram[k := data], rs)
  {
    OffPath(ram, RootFor(rs, psr), e.pageNum, k, data);
    assert KeptFor(e, ram[k := data], rs, psr);
  }

  /** An address some mode reads through `k` makes its region one that `k` is used for. */
  lemma OnPath(f: Flat, ram: Ram, walked: set<nat>, rs: Roots, psr: word, v: word, k: nat)
    requires k < RAM_WORDS && Mirrors(f, ram, walked) && Readable(ram, rs, psr, v)
    requires EntryOf(ram, RootFor(rs, psr), v, k)
    ensures PteValid(FlatWord(f, k)) && v / LARGE in Through(Words32(f), rs, k)
  {
    var root := RootFor(rs, psr);
    ValidPath(ram, root, v, k);
    assert WordCoherent(FlatWord(f, k), ram, k, walked);
    AgreeingTables(f, ram, walked, root);
    SameTablesSameSlots(Words32(f), ram, root, v);
    assert EntryOf(Words32(f), root, v, k);
  }

  /** The TLB holds no entry made through a word, unless that word held a valid table entry. */
  lemma WriteKeepsTlb(tlb: Tlb, f: Flat, ram: Ram, walked: set<nat>, rs: Roots, edited: set<nat>,
                      k: nat, data: word)
    requires k < RAM_WORDS && Mirrors(f, ram, walked) && TlbOk(tlb, ram, rs, edited)
    ensures TlbOk(tlb, ram[k := data], rs,
                  if PteValid(FlatWord(f, k)) then edited + Through(Words32(f), rs, k) else edited)
  {
    var edited' := if PteValid(FlatWord(f, k)) then edited + Through(Words32(f), rs, k) else edited;
    forall i: nat | i < 16 && tlb[i].pageNum / LARGE !in edited'
      ensures EntryOk(tlb[i], i, ram[k := data], rs)
    {
      assert EntryOk(tlb[i], i, ram, rs);
      if PteValid(tlb[i].pte) {
        var psr: word :| KeptFor(tlb[i], ram, rs, psr);
        if EntryOf(ram, RootFor(rs, psr), tlb[i].pageNum, k) {
          OnPath(f, ram, walked, rs, psr, tlb[i].pageNum, k);
          assert false;
        }
        EntryKept(tlb[i], i, ram, rs, psr, k, data);
      }
    }
  }

  lemma LoadRelated(m: Memory, f: Flat, p: Paging, ctl: Control, vaddr: word)
    requires Related(m, f, p) && Allowed(f, p, ctl, LoadOp(FullWord, vaddr))
    ensures var a := Load32(m, ctl, vaddr);
      a.reply == RefPerform(f, ctl, LoadOp(FullWord, vaddr)).reply && Related(a.mem, f, p)
  {
    var t := VirtToPhys(m.hier.ram, m.tlb, ctl, vaddr, false, false);
    TranslateRelated(m, f, p, ctl, vaddr, false, false);
    if t.result.Address? && t.result.paddr < RAM_LIMIT {
      assert Reaches(f, ctl, LoadOp(FullWord, vaddr), t.result.paddr / 4);
      ReadRelated(Translated1(m, t), f, p, t.result.paddr, false);
      LoadFromWord(f, t.result.paddr);
    }
  }

  lemma FetchRelated(m: Memory, f: Flat, p: Paging, ctl: Control, vaddr: word)
    requires Related(m, f, p) && Allowed(f, p, ctl, FetchOp(vaddr))
    ensures var a := Fetch(m, ctl, vaddr);
      a.reply == RefPerform(f, ctl, FetchOp(vaddr)).reply && Related(a.mem, f, p)
  {
    var t := VirtToPhys(m.hier.ram, m.tlb, ctl, vaddr, false, true);
    TranslateRelated(m, f, p, ctl, vaddr, false, true);
    if t.result.Address? && t.result.paddr < RAM_LIMIT {
      assert Reaches(f, ctl, FetchOp(vaddr), t.result.paddr / 4);
      ReadRelated(Translated1(m, t), f, p, t.result.paddr, true);
      LoadFromWord(f, t.result.paddr);
    }
  }

  lemma LaneOfOffset(p: word)
    ensures p % 4 == p % PAGE % 4 && p / 2 % 2 == p % 4 / 2
  {
    var q, r := p / 4, p % 4;
    OffsetIn(q, r);
    assert p / 2 == 2 * q + r / 2;
  }

  lemma SameOffset(p: word, v: word)
    requires p % PAGE == v % PAGE
    ensures p % 4 == v % 4 && p / 2 % 2 == v / 2 % 2
  {
    LaneOfOffset(p);
    LaneOfOffset(v);
  }

  lemma WordAddressRange(p: word)
    ensures WordAddress(p) / 4 == p / 4 && (p < RAM_LIMIT <==> WordAddress(p) < RAM_LIMIT)
  {
  }

  lemma SubLoadRelated(m: Memory, f: Flat, p: Paging, ctl: Control, op: Op)
    requires op.LoadOp? && op.width != FullWord
    requires Related(m, f, p) && Allowed(f, p, ctl, op)
    ensures Perform(m, ctl, op).reply == RefPerform(f, ctl, op).reply
    ensures Related(Perform(m, ctl, op).mem, f, p)
  {
    var v, t := op.vaddr, RefTarget(f, ctl, op);
    TranslateOffset(Words32(f), ctl, v, false, false);
    WordAddressFields(v);
    if t.Address? {
      SameOffset(t.paddr, v);
      WordAddressRange(t.paddr);
      if t.paddr < RAM_LIMIT {
        assert Reaches(f, ctl, op, t.paddr / 4);
        LoadFromWord(f, t.paddr);
        LoadFromWord(f, WordAddress(t.paddr));
      }
    }
    LoadRelated(m, f, p, ctl, WordAddress(v));
  }

  /** The word a store writes back, computed from the old word and the virtual address. */
  function StoredWord(before: word, op: Op): word
    requires op.StoreOp?
  {
    match op.width
    case Byte => SetLane(before, 3 - op.vaddr % 4, op.src % 0x100)
    case HalfWord => SetHalf(before, 1 - op.vaddr / 2 % 2, op.src)
    case FullWord => op.src
  }

  lemma StoredWordFlat(f: Flat, p: word, op: Op, k: nat)
    requires op.StoreOp? && p < RAM_LIMIT && k < RAM_WORDS && p % PAGE == op.vaddr % PAGE
    ensures FlatWord(StoreBytes(f, p, op.width, op.src), k) ==
            if k == p / 4 then StoredWord(FlatWord(f, k), op) else FlatWord(f, k)
  {
    SameOffset(p, op.vaddr);
    match op.width
    case Byte => StoreByteWord(f, p, op.src, k);
    case HalfWord => StoreHalfWord(f, p, op.src, k);
    case FullWord => StoreFullWord(f, p, op.src, k);
  }

  /** Every store width is one word write of the merged word, or an uncached access. */
  lemma StoreIsWordWrite(m: Memory, ctl: Control, op: Op)
    requires op.StoreOp?
    ensures var t := VirtToPhys(m.hier.ram, m.tlb, ctl, op.vaddr, true, false);
      var m1, a := Translated1(m, t), Perform(m, ctl, op);
      if !t.result.Address? then a == Accessed(m1, Refused(t.result))
      else
        var p := t.result.paddr;
        if p >= RAM_LIMIT then a == Accessed(m1, Device(if op.width == FullWord then p else WordAddress(p)))
        else op.width != FullWord || p % 4 == 0 ==>
          a == Accessed(m1.(hier := Write(m1.hier, WordAddress(p), StoredWord(t.ram[p / 4], op))), Done)
  {
    var t := VirtToPhys(m.hier.ram, m.tlb, ctl, op.vaddr, true, false);
    if t.result.Address? {
      WordAddressRange(t.result.paddr);
    }
  }

  /** The store of `op` at physical address `a`, in the hierarchy and in the reference. */
  lemma StoreBytesRelated(m: Memory, f: Flat, p: Paging, a: word, op: Op)
    requires op.StoreOp? && Related(m, f, p) && a % PAGE == op.vaddr % PAGE && a < RAM_LIMIT
    requires WholeWord(op) || a / 4 !in p.walked
    ensures var f', m' := StoreBytes(f, a, op.width, op.src),
                          m.(hier := Write(m.hier, WordAddress(a), StoredWord(m.hier.ram[a / 4], op)));
      && m'.hier.ram == m.hier.ram[a / 4 := StoredWord(m.hier.ram[a / 4], op)]
      && Mirrors(f', m'.hier.ram, p.walked - {a / 4})
      && Coherent(m'.hier.icache, m'.hier.ram, p.walked - {a / 4})
      && Coherent(m'.hier.dcache, m'.hier.ram, p.walked - {a / 4})
      && (forall k: nat :: k < RAM_WORDS ==>
            FlatWord(f', k) == if k == a / 4 then StoredWord(m.hier.ram[k], op) else FlatWord(f, k))
  {
    WordAddressRange(a);
    var f' := StoreBytes(f, a, op.width, op.src);
    assert WordCoherent(FlatWord(f, a / 4), m.hier.ram, a / 4, p.walked);
    forall k: nat | k < RAM_WORDS
      ensures FlatWord(f', k) == if k == a / 4 then StoredWord(m.hier.ram[k], op) else FlatWord(f, k)
    {
      StoredWordFlat(f, a, op, k);
    }
    WriteMirrors(m, f, f', p.walked, WordAddress(a), StoredWord(m.hier.ram[a / 4], op));
  }

  /** A full-word store that reaches RAM keeps the relation, whatever word it overwrites. */
  lemma WholeStoreRelated(m: Memory, f: Flat, p: Paging, ctl: Control, op: Op, a: word)
    requires WholeWord(op) && Related(m, f, p) && Allowed(f, p, ctl, op)
    requires RefTarget(f, ctl, op) == Address(a) && a < RAM_LIMIT && a % PAGE == op.vaddr % PAGE
    ensures Related(m.(hier := Write(m.hier, WordAddress(a), op.src)), RefPerform(f, ctl, op).flat,
                    PagingAfter(f, p, ctl, op))
  {
    var k, f', p' := a / 4, RefPerform(f, ctl, op).flat, PagingAfter(f, p, ctl, op);
    var m' := m.(hier := Write(m.hier, WordAddress(a), op.src));
    StoreBytesRelated(m, f, p, a, op);
    CoherentMore(m', f', p.walked - {k}, p'.walked);
    if p.dir.Paged? {
      WriteKeepsTlb(m.tlb, f, m.hier.ram, p.walked, p.dir.roots, p.edited, k, op.src);
    }
  }

  lemma PartStoreRelated(m: Memory, f: Flat, p: Paging, a: word, op: Op)
    requires op.StoreOp? && !WholeWord(op) && Related(m, f, p)
    requires a < RAM_LIMIT && a % PAGE == op.vaddr % PAGE && a / 4 !in p.walked
    ensures Related(m.(hier := Write(m.hier, WordAddress(a), StoredWord(m.hier.ram[a / 4], op))),
                    StoreBytes(f, a, op.width, op.src), p)
  {
    var k, f', data := a / 4, StoreBytes(f, a, op.width, op.src), StoredWord(m.hier.ram[a / 4], op);
    StoreBytesRelated(m, f, p, a, op);
    assert p.walked - {k} == p.walked;
    OutsideWrite(f, f', p.dir, p.edited, k, data);
    if p.dir.Paged? {
      OutsideTlb(m.tlb, f, m.hier.ram, p.walked, p.dir.roots, p.edited, k, data);
    }
  }

  lemma OutsideTlb(tlb: Tlb, f: Flat, ram: Ram, walked: set<nat>, rs: Roots, edited: set<nat>, k: nat, data: word)
    requires k < RAM_WORDS && Mirrors(f, ram, walked) && TlbOk(tlb, ram, rs, edited)
    requires !AnyTableWord(Words32(f), rs, k)
    ensures TlbOk(tlb, ram[k := data], rs, edited)
  {
    AgreeingSpaces(f, ram, walked, rs);
    TableWordSame(Words32(f), ram, rs.user, k);
    TableWordSame(Words32(f), ram, rs.other, k);
    OutsideSpaces(ram, rs, k, data);
    TlbOkSame(tlb, ram, ram[k := data], rs, edited);
  }

  lemma StoreRelated(m: Memory, f: Flat, p: Paging, ctl: Control, op: Op)
    requires op.StoreOp? && Related(m, f, p) && Allowed(f, p, ctl, op)
    ensures Perform(m, ctl, op).reply == RefPerform(f, ctl, op).reply
    ensures Related(Perform(m, ctl, op).mem, RefPerform(f, ctl, op).flat, PagingAfter(f, p, ctl, op))
  {
    var u := RefTarget(f, ctl, op);
    var t := VirtToPhys(m.hier.ram, m.tlb, ctl, op.vaddr, true, false);
    TranslateRelated(m, f, p, ctl, op.vaddr, true, false);
    StoreIsWordWrite(m, ctl, op);
    if u.Address? && u.paddr < RAM_LIMIT {
      TranslateOffset(Words32(f), ctl, op.vaddr, true, false);
      SameOffset(u.paddr, op.vaddr);
      if WholeWord(op) {
        WholeStoreRelated(Translated1(m, t), f, p, ctl, op, u.paddr);
      } else {
        assert Reaches(f, ctl, op, u.paddr / 4);
        PartStoreRelated(Translated1(m, t), f, p, u.paddr, op);
      }
    }
  }

  lemma PerformRelated(m: Memory, f: Flat, p: Paging, ctl: Control, op: Op)
    requires Related(m, f, p) && Allowed(f, p, ctl, op)
    ensures Perform(m, ctl, op).reply == RefPerform(f, ctl, op).reply
    ensures Related(Perform(m, ctl, op).mem, RefPerform(f, ctl, op).flat, PagingAfter(f, p, ctl, op))
  {
    match op
    case FetchOp(v) => FetchRelated(m, f, p, ctl, v);
    case LoadOp(FullWord, v) => LoadRelated(m, f, p, ctl, v);
    case LoadOp(_, v) => SubLoadRelated(m, f, p, ctl, op);
    case StoreOp(_, v, x) => StoreRelated(m, f, p, ctl, op);
  }

  /** What is so after a flush: the directory `next` is in use and nothing counts as edited. */
  ghost function PagingFlushed(f: Flat, p: Paging, next: Directory): Paging {
    Paging(next, p.walked + TableWords(f, next), {})
  }

  lemma FlushRelated(m: Memory, f: Flat, p: Paging, next: Directory)
    requires Related(m, f, p) && Usable(f, next, {})
    ensures Related(m.(tlb := TlbFlush(m.tlb)), f, PagingFlushed(f, p, next))
  {
    CoherentMore(m, f, p.walked, PagingFlushed(f, p, next).walked);
  }

  // ---------------------------------------------------------------- whole runs

  /** A memory access, or a TLB flush after which the directory `next` is in use. */
  datatype Step = Access(ctl: Control, op: Op) | FlushStep(next: Directory)

  function Take(m: Memory, s: Step): Accessed {
    match s
    case Access(ctl, op) => Perform(m, ctl, op)
    case FlushStep(_) => Accessed(m.(tlb := TlbFlush(m.tlb)), Done)
  }

  /** The reference takes no notice of a flush. */
  function RefTake(f: Flat, s: Step): FlatAccessed {
    match s
    case Access(ctl, op) => RefPerform(f, ctl, op)
    case FlushStep(_) => FlatAccessed(f, Done)
  }

  function Replies(m: Memory, steps: seq<Step>): (rs: seq<Reply>)
    ensures |rs| == |steps|
    decreases |steps|
  {
    if |steps| == 0 then []
    else
      var a := Take(m, steps[0]);
      [a.reply] + Replies(a.mem, steps[1..])
  }

  function RefReplies(f: Flat, steps: seq<Step>): (rs: seq<Reply>)
    ensures |rs| == |steps|
    decreases |steps|
  {
    if |steps| == 0 then []
    else
      var a := RefTake(f, steps[0]);
      [a.reply] + RefReplies(a.flat, steps[1..])
  }

  ghost predicate StepAllowed(f: Flat, p: Paging, s: Step) {
    match s
    case Access(ctl, op) => Allowed(f, p, ctl, op)
    case FlushStep(next) => Usable(f, next, {})
  }

  ghost function PagingNext(f: Flat, p: Paging, s: Step): Paging {
    match s
    case Access(ctl, op) => PagingAfter(f, p, ctl, op)
    case FlushStep(next) => PagingFlushed(f, p, next)
  }

  /** What the run may do, in terms of the reference alone. */
  ghost predicate AllowedRun(f: Flat, p: Paging, steps: seq<Step>)
    decreases |steps|
  {
    |steps| == 0 ||
    (StepAllowed(f, p, steps[0]) && AllowedRun(RefTake(f, steps[0]).flat, PagingNext(f, p, steps[0]), steps[1..]))
  }

  lemma StepRelated(m: Memory, f: Flat, p: Paging, s: Step)
    requires Related(m, f, p) && StepAllowed(f, p, s)
    ensures Take(m, s).reply == RefTake(f, s).reply
    ensures Related(Take(m, s).mem, RefTake(f, s).flat, PagingNext(f, p, s))
  {
    match s
    case Access(ctl, op) => PerformRelated(m, f, p, ctl, op);
    case FlushStep(next) => FlushRelated(m, f, p, next);
  }

  /** From any related state, any allowed run of fetches, loads and stores of every width and of
      flushes, in any mix of modes, replies exactly as the reference does. */
  lemma {:induction false} RunRelated(m: Memory, f: Flat, p: Paging, steps: seq<Step>)
    requires Related(m, f, p) && AllowedRun(f, p, steps)
    ensures Replies(m, steps) == RefReplies(f, steps)
    decreases |steps|
  {
    if |steps| != 0 {
      StepRelated(m, f, p, steps[0]);
      RunRelated(Take(m, steps[0]).mem, RefTake(f, steps[0]).flat, PagingNext(f, p, steps[0]), steps[1..]);
    }
  }

  /** `memory_init`: no valid line in either cache, no valid TLB entry. */
  ghost predicate Initial(m: Memory) {
    && (forall i, w :: 0 <= i < 16 && 0 <= w < 4 ==> !m.hier.icache[i][w].valid && !m.hier.dcache[i][w].valid)
    && Flushed(m.tlb)
  }

  /** The byte image of RAM, most significant byte of each word first. */
  function Image(ram: Ram): (f: Flat)
    ensures forall a :: 0 <= a < RAM_LIMIT ==> f[a] == Lane(ram[a / 4], 3 - a % 4)
  {
    seq(RAM_LIMIT, a requires 0 <= a < RAM_LIMIT => Lane(ram[a / 4], 3 - a % 4))
  }

  lemma ImageWord(ram: Ram, k: nat)
    requires k < RAM_WORDS
    ensures FlatWord(Image(ram), k) == ram[k]
  {
    JoinLanes(ram[k]);
  }

  /** The start of a run, with `dir` in use. */
  ghost function PagingInitial(f: Flat, dir: Directory): Paging {
    Paging(dir, TableWords(f, dir), {})
  }

  lemma InitialRelated(m: Memory, dir: Directory)
    requires Initial(m) && Usable(Image(m.hier.ram), dir, {})
    ensures Related(m, Image(m.hier.ram), PagingInitial(Image(m.hier.ram), dir))
  {
    forall k: nat | k < RAM_WORDS
      ensures FlatWord(Image(m.hier.ram), k) == m.hier.ram[k]
    {
      ImageWord(m.hier.ram, k);
    }
  }

  /** The whole memory hierarchy, from reset, is a flat big-endian byte memory holding the image of RAM,
      seen at every moment through the page tables this byte memory itself holds. The guest may write
      its page tables, map pages on demand without a flush, turn paging on and off and switch between
      any number of address spaces; regions whose valid entries it overwrites are off limits until the
      next flush. */
  lemma {:induction false} EndToEnd(m: Memory, dir: Directory, steps: seq<Step>)
    requires Initial(m) && Usable(Image(m.hier.ram), dir, {})
    requires AllowedRun(Image(m.hier.ram), PagingInitial(Image(m.hier.ram), dir), steps)
    ensures Replies(m, steps) == RefReplies(Image(m.hier.ram), steps)
  {
    InitialRelated(m, dir);
    RunRelated(m, Image(m.hier.ram), PagingInitial(Image(m.hier.ram), dir), steps);
  }
}
