/** When a run of translations through the TLB returns what bare walks return. */
module TlbRefinement {
  import opened Words
  import opened Cache
  import opened Mmu

  datatype Request = Request(ctl: Control, vaddr: word, write: bool, exec: bool)

  function Walked(ram: Ram, r: Request): Result {
    Translate(ram, r.ctl, r.vaddr, r.write, r.exec)
  }

  /** The results of a run of translations through the TLB. */
  function Run(ram: Ram, tlb: Tlb, reqs: seq<Request>): (results: seq<Result>)
    ensures |results| == |reqs|
    decreases |reqs|
  {
    if |reqs| == 0 then []
    else
      var r := reqs[0];
      var t := VirtToPhys(ram, tlb, r.ctl, r.vaddr, r.write, r.exec);
      [t.result] + Run(t.ram, t.tlb, reqs[1..])
  }

  /** The directory user mode walks and the one every other mode walks: PDTR and KPDTR. */
  datatype Roots = Roots(user: word, other: word)

  function RootFor(rs: Roots, psr: word): word {
    if User(psr) then rs.user else rs.other
  }

  /** Every paged request of the run walks the directory of its mode. */
  ghost predicate Rooted(reqs: seq<Request>, rs: Roots) {
    forall k :: 0 <= k < |reqs| && MmuMode(reqs[k].ctl.psr) == 2 ==> Root(reqs[k].ctl) == RootFor(rs, reqs[k].ctl.psr)
  }

  ghost predicate Flushed(tlb: Tlb) {
    forall i :: 0 <= i < 16 ==> !PteValid(tlb[i].pte)
  }

  /** From this flushed TLB, every run of translations, in any mix of modes, returns what bare walks of
      `ram` return. */
  ghost predicate RefinesWalk(ram: Ram, rs: Roots, tlb: Tlb) {
    forall reqs: seq<Request> :: Rooted(reqs, rs) ==>
      forall k :: 0 <= k < |reqs| ==> Run(ram, tlb, reqs)[k] == Walked(ram, reqs[k])
  }

  // ---------------------------------------------------------------- what the tables say

  /** `vaddr` has a valid second-level entry. */
  predicate HasLeaf(ram: Ram, root: word, vaddr: word) {
    HasTable(ram, root, vaddr) && PteValid(ram[LeafSlot(ram, root, vaddr)])
  }

  function Leaf(ram: Ram, root: word, vaddr: word): word
    requires HasLeaf(ram, root, vaddr)
  {
    ram[LeafSlot(ram, root, vaddr)]
  }

  /** The tables lead from `v` to an entry that maps it: a leaf, or a first-level entry with PE set. */
  predicate HasEntry(ram: Ram, root: word, v: word) {
    && TableInRam(root) && PteValid(L1Entry(ram, root, v))
    && (PageExtension(L1Entry(ram, root, v)) || HasLeaf(ram, root, v))
  }

  function Entry(ram: Ram, root: word, v: word): word
    requires HasEntry(ram, root, v)
  {
    if PageExtension(L1Entry(ram, root, v)) then L1Entry(ram, root, v) else Leaf(ram, root, v)
  }

  /** The number of the page of a 4 MB mapping through `pte`, or of a 4 KB mapping. */
  function LargePage(pte: word, a: word): nat {
    pte / LARGE * 1024 + a / PAGE % 1024
  }

  /** The physical page the tables map `v` to. */
  function PageOf(ram: Ram, root: word, v: word): nat
    requires HasEntry(ram, root, v)
  {
    if PageExtension(L1Entry(ram, root, v)) then LargePage(Entry(ram, root, v), v) else Entry(ram, root, v) / PAGE
  }

  /** Both levels permit the access. */
  predicate Grants(ram: Ram, root: word, v: word, psr: word, write: bool, exec: bool)
    requires HasEntry(ram, root, v)
  {
    Permits(L1Entry(ram, root, v), psr, write, exec) && Permits(Entry(ram, root, v), psr, write, exec)
  }

  // ---------------------------------------------------------------- the condition on the tables

  /** In the mode of `psr` the tables map `a` to `page` and permit the access. */
  predicate Serves(ram: Ram, rs: Roots, psr: word, a: word, write: bool, exec: bool, page: nat) {
    var root := RootFor(rs, psr);
    HasEntry(ram, root, a) && Grants(ram, root, a, psr, write, exec) && PageOf(ram, root, a) == page
  }

  /** Kept for `v`, the entry `pte` is used for `a`: for its page, or by PE for its 4 MB region. */
  predicate UsedFor(pte: word, v: word, a: word) {
    a / LARGE == v / LARGE && (PageExtension(pte) || a / PAGE == v / PAGE)
  }

  /** The page `pte` stands for at `a`, told by its own PE bit. */
  function PageThrough(pte: word, a: word): nat {
    if PageExtension(pte) then LargePage(pte, a) else pte / PAGE
  }

  /** Whatever mode meets `pte` kept for `v`: where it is used and permits an access, the tables of that
      mode map the address to the same page and permit the access too. */
  ghost predicate EntryServes(ram: Ram, rs: Roots, pte: word, v: word) {
    forall a: word, psr: word, write, exec :: UsedFor(pte, v, a) && Permits(pte, psr, write, exec) ==>
      Serves(ram, rs, psr, a, write, exec, PageThrough(pte, a))
  }

  /** The mode of `psr` can read `v`, and so have its entry kept. */
  predicate Readable(ram: Ram, rs: Roots, psr: word, v: word) {
    HasEntry(ram, RootFor(rs, psr), v) && Grants(ram, RootFor(rs, psr), v, psr, false, false)
  }

  /** Every entry that some mode can read through serves every mode that may use it; the `edited`
      regions are exempt. */
  ghost predicate SpacesOk(ram: Ram, rs: Roots, edited: set<nat> := {}) {
    forall psr: word, v: word :: Readable(ram, rs, psr, v) && v / LARGE !in edited ==>
      EntryServes(ram, rs, Entry(ram, RootFor(rs, psr), v), v)
  }

  // ---------------------------------------------------------------- walks and the TLB in these terms

  /** Two addresses under one first-level entry share it; in one page they share the leaf. */
  lemma SamePage(ram: Ram, root: word, u: word, v: word)
    requires TableInRam(root) && u / LARGE == v / LARGE
    ensures L1Entry(ram, root, u) == L1Entry(ram, root, v)
    ensures u / PAGE == v / PAGE ==> HasLeaf(ram, root, u) == HasLeaf(ram, root, v)
    ensures u / PAGE == v / PAGE && HasLeaf(ram, root, v) ==> Leaf(ram, root, u) == Leaf(ram, root, v)
  {
  }

  lemma PageParts(n: nat, r: nat)
    requires r < PAGE
    ensures (n * PAGE + r) / PAGE == n && (n * PAGE + r) % PAGE == r
  {
  }

  lemma LargeParts(pte: word, u: word)
    ensures LargeAddress(pte, u) == LargePage(pte, u) * PAGE + u % PAGE
  {
    var p := u / PAGE;
    assert u % LARGE == p % 1024 * PAGE + u % PAGE;
  }

  function HitAddress(pte: word, u: word): word {
    if PageExtension(pte) then LargeAddress(pte, u) else SmallAddress(pte, u)
  }

  lemma HitParts(pte: word, u: word)
    ensures HitAddress(pte, u) == PageThrough(pte, u) * PAGE + u % PAGE
    ensures HitAddress(pte, u) / PAGE == PageThrough(pte, u) && HitAddress(pte, u) % PAGE == u % PAGE
  {
    LargeParts(pte, u);
    PageParts(PageThrough(pte, u), u % PAGE);
  }

  /** A walk gives an address exactly if its tables map the address and grant the access. */
  lemma TranslateServes(ram: Ram, ctl: Control, rs: Roots, a: word, write: bool, exec: bool)
    requires MmuMode(ctl.psr) == 2 && Root(ctl) == RootFor(rs, ctl.psr)
    ensures var r, root := Translate(ram, ctl, a, write, exec), Root(ctl);
      if HasEntry(ram, root, a) && Grants(ram, root, a, ctl.psr, write, exec)
      then r == Address(PageOf(ram, root, a) * PAGE + a % PAGE) else !r.Address?
  {
    if TableInRam(Root(ctl)) && PageExtension(L1Entry(ram, Root(ctl), a)) {
      LargeParts(L1Entry(ram, Root(ctl), a), a);
    }
  }

  lemma ReadingIsLeast(pte: word, psr: word, write: bool, exec: bool)
    requires Permits(pte, psr, write, exec)
    ensures Permits(pte, psr, false, false)
  {
  }

  // ---------------------------------------------------------------- tables equal up to R and D

  predicate SameGrants(m: Ram, m': Ram, root: word, v: word)
    requires HasEntry(m, root, v) && HasEntry(m', root, v)
  {
    && SameEntry(Entry(m, root, v), Entry(m', root, v))
    && SameEntry(L1Entry(m, root, v), L1Entry(m', root, v))
  }

  lemma EntrySame(m: Ram, m': Ram, root: word, v: word)
    requires SameTables(m, m', root)
    ensures HasLeaf(m, root, v) == HasLeaf(m', root, v)
    ensures HasLeaf(m, root, v) ==> SameEntry(Leaf(m, root, v), Leaf(m', root, v))
    ensures HasEntry(m, root, v) == HasEntry(m', root, v)
    ensures HasEntry(m, root, v) ==> SameGrants(m, m', root, v) && PageOf(m, root, v) == PageOf(m', root, v)
  {
    assert SameEntriesAt(m, m', root, v);
    SameTablesSameSlots(m, m', root, v);
    if TableInRam(root) {
      SameEntryFields(L1Entry(m, root, v), L1Entry(m', root, v));
    }
    if HasTable(m, root, v) {
      SameEntryFields(m[LeafSlot(m, root, v)], m'[LeafSlot(m, root, v)]);
    }
  }

  lemma GrantsSame(m: Ram, m': Ram, root: word, v: word, psr: word, write: bool, exec: bool)
    requires SameTables(m, m', root) && HasEntry(m, root, v) && HasEntry(m', root, v)
    ensures Grants(m, root, v, psr, write, exec) == Grants(m', root, v, psr, write, exec)
  {
    EntrySame(m, m', root, v);
    SameEntryFields(L1Entry(m, root, v), L1Entry(m', root, v));
    SameEntryFields(Entry(m, root, v), Entry(m', root, v));
  }

  ghost predicate SameSpaces(m: Ram, m': Ram, rs: Roots) {
    SameTables(m, m', rs.user) && SameTables(m, m', rs.other)
  }

  lemma ReadableSame(m: Ram, m': Ram, rs: Roots, psr: word, v: word)
    requires SameSpaces(m, m', rs)
    ensures Readable(m, rs, psr, v) == Readable(m', rs, psr, v)
  {
    var root := RootFor(rs, psr);
    EntrySame(m, m', root, v);
    if HasEntry(m, root, v) {
      GrantsSame(m, m', root, v, psr, false, false);
    }
  }

  lemma EntryServesSame(m: Ram, m': Ram, rs: Roots, pte: word, pte': word, v: word)
    requires SameSpaces(m, m', rs) && SameEntry(pte, pte') && EntryServes(m, rs, pte, v)
    ensures EntryServes(m', rs, pte', v)
  {
    SameEntryFields(pte, pte');
    forall a: word, psr: word, write, exec | UsedFor(pte', v, a) && Permits(pte', psr, write, exec)
      ensures Serves(m', rs, psr, a, write, exec, PageThrough(pte', a))
    {
      assert UsedFor(pte, v, a) && Permits(pte, psr, write, exec);
      assert Serves(m, rs, psr, a, write, exec, PageThrough(pte, a));
      EntrySame(m, m', RootFor(rs, psr), a);
      GrantsSame(m, m', RootFor(rs, psr), a, psr, write, exec);
    }
  }

  lemma SpacesOkSame(m: Ram, m': Ram, rs: Roots, edited: set<nat> := {})
    requires SameSpaces(m, m', rs) && SpacesOk(m, rs, edited)
    ensures SpacesOk(m', rs, edited)
  {
    forall psr: word, v: word | Readable(m', rs, psr, v) && v / LARGE !in edited
      ensures EntryServes(m', rs, Entry(m', RootFor(rs, psr), v), v)
    {
      var root := RootFor(rs, psr);
      ReadableSame(m, m', rs, psr, v);
      EntrySame(m, m', root, v);
      EntryServesSame(m, m', rs, Entry(m, root, v), Entry(m', root, v), v);
    }
  }

  lemma WriteBackSpaces(ram: Ram, ctl: Control, vaddr: word, write: bool, exec: bool, rs: Roots)
    ensures SameSpaces(ram, WriteBack(ram, WalkTables(ram, ctl, vaddr, write, exec), write), rs)
  {
    WriteBackSame(ram, ctl, vaddr, write, exec, rs.user);
    WriteBackSame(ram, ctl, vaddr, write, exec, rs.other);
  }

  // ---------------------------------------------------------------- sufficiency

  /** The TLB entry is the one the tables of the mode of `psr` have for its address, up to R and D. */
  predicate KeptFor(e: TlbEntry, ram: Ram, rs: Roots, psr: word) {
    Readable(ram, rs, psr, e.pageNum) && SameEntry(e.pte, Entry(ram, RootFor(rs, psr), e.pageNum))
  }

  ghost predicate EntryOk(e: TlbEntry, i: nat, ram: Ram, rs: Roots) {
    PteValid(e.pte) ==> TlbIndex(e.pageNum) == i && exists psr: word :: KeptFor(e, ram, rs, psr)
  }

  ghost predicate TlbOk(tlb: Tlb, ram: Ram, rs: Roots, edited: set<nat> := {}) {
    forall i :: 0 <= i < 16 && tlb[i].pageNum / LARGE !in edited ==> EntryOk(tlb[i], i, ram, rs)
  }

  lemma EntryOkSame(e: TlbEntry, i: nat, m: Ram, m': Ram, rs: Roots)
    requires SameSpaces(m, m', rs) && EntryOk(e, i, m, rs)
    ensures EntryOk(e, i, m', rs)
  {
    if PteValid(e.pte) {
      var psr: word :| KeptFor(e, m, rs, psr);
      ReadableSame(m, m', rs, psr, e.pageNum);
      EntrySame(m, m', RootFor(rs, psr), e.pageNum);
      assert KeptFor(e, m', rs, psr);
    }
  }

  lemma TlbOkSame(tlb: Tlb, m: Ram, m': Ram, rs: Roots, edited: set<nat> := {})
    requires SameSpaces(m, m', rs) && TlbOk(tlb, m, rs, edited)
    ensures TlbOk(tlb, m', rs, edited)
  {
    forall i: nat | i < 16 && tlb[i].pageNum / LARGE !in edited
      ensures EntryOk(tlb[i], i, m', rs)
    {
      EntryOkSame(tlb[i], i, m, m', rs);
    }
  }

  lemma HitAgrees(ram: Ram, tlb: Tlb, ctl: Control, rs: Roots, vaddr: word, write: bool, exec: bool,
                  edited: set<nat> := {})
    requires MmuMode(ctl.psr) == 2 && Root(ctl) == RootFor(rs, ctl.psr) && vaddr / LARGE !in edited
    requires SpacesOk(ram, rs, edited) && TlbOk(tlb, ram, rs, edited)
    requires TlbGet(tlb, ctl.psr, vaddr, write, exec) != RAM_LIMIT
    ensures Translate(ram, ctl, vaddr, write, exec) == Address(TlbGet(tlb, ctl.psr, vaddr, write, exec))
  {
    var i := TlbIndex(vaddr);
    var e := tlb[i];
    assert EntryOk(e, i, ram, rs);
    var psr: word :| KeptFor(e, ram, rs, psr);
    var pte := Entry(ram, RootFor(rs, psr), e.pageNum);
    SameEntryFields(e.pte, pte);
    assert EntryServes(ram, rs, pte, e.pageNum);
    assert UsedFor(pte, e.pageNum, vaddr) && Permits(pte, ctl.psr, write, exec);
    assert Serves(ram, rs, ctl.psr, vaddr, write, exec, PageThrough(pte, vaddr));
    TranslateServes(ram, ctl, rs, vaddr, write, exec);
    HitParts(pte, vaddr);
  }

  lemma FillKept(ram: Ram, ctl: Control, rs: Roots, vaddr: word, write: bool, exec: bool)
    requires Root(ctl) == RootFor(rs, ctl.psr)
    ensures var walk := WalkTables(ram, ctl, vaddr, write, exec);
      && (walk.Large? ==> KeptFor(TlbEntry(vaddr, walk.pte), ram, rs, ctl.psr))
      && (walk.Small? ==> KeptFor(TlbEntry(vaddr, SetRD(walk.pte, write)), ram, rs, ctl.psr))
  {
    var walk := WalkTables(ram, ctl, vaddr, write, exec);
    if walk.Large? || walk.Small? {
      ReadingIsLeast(L1Entry(ram, Root(ctl), vaddr), ctl.psr, write, exec);
      ReadingIsLeast(walk.pte, ctl.psr, write, exec);
      SetRDAgrees(walk.pte, write);
    }
  }

  lemma FillOk(ram: Ram, tlb: Tlb, ctl: Control, rs: Roots, vaddr: word, write: bool, exec: bool,
               edited: set<nat> := {})
    requires Root(ctl) == RootFor(rs, ctl.psr) && TlbOk(tlb, ram, rs, edited)
    ensures var walk := WalkTables(ram, ctl, vaddr, write, exec);
      TlbOk(TlbFill(tlb, walk, vaddr, write), WriteBack(ram, walk, write), rs, edited)
  {
    var walk := WalkTables(ram, ctl, vaddr, write, exec);
    var tlb' := TlbFill(tlb, walk, vaddr, write);
    FillKept(ram, ctl, rs, vaddr, write, exec);
    forall i: nat | i < 16 && tlb'[i].pageNum / LARGE !in edited
      ensures EntryOk(tlb'[i], i, ram, rs)
    {
      assert tlb'[i] == tlb[i] ==> EntryOk(tlb[i], i, ram, rs);
    }
    WriteBackSpaces(ram, ctl, vaddr, write, exec, rs);
    TlbOkSame(tlb', ram, WriteBack(ram, walk, write), rs, edited);
  }

  /** One translation through the TLB: the bare result, and everything needed for the next one. */
  lemma StepRefines(ram: Ram, tlb: Tlb, ctl: Control, rs: Roots, vaddr: word, write: bool, exec: bool,
                    edited: set<nat> := {})
    requires MmuMode(ctl.psr) == 2 ==> Root(ctl) == RootFor(rs, ctl.psr) && vaddr / LARGE !in edited
    requires SpacesOk(ram, rs, edited) && TlbOk(tlb, ram, rs, edited)
    ensures var t := VirtToPhys(ram, tlb, ctl, vaddr, write, exec);
      && t.result == Translate(ram, ctl, vaddr, write, exec)
      && SameSpaces(ram, t.ram, rs) && SpacesOk(t.ram, rs, edited) && TlbOk(t.tlb, t.ram, rs, edited)
  {
    var t := VirtToPhys(ram, tlb, ctl, vaddr, write, exec);
    if MmuMode(ctl.psr) == 2 {
      if TlbGet(tlb, ctl.psr, vaddr, write, exec) != RAM_LIMIT {
        HitAgrees(ram, tlb, ctl, rs, vaddr, write, exec, edited);
      } else {
        WriteBackSpaces(ram, ctl, vaddr, write, exec, rs);
        FillOk(ram, tlb, ctl, rs, vaddr, write, exec, edited);
      }
    }
    SpacesOkSame(ram, t.ram, rs, edited);
  }

  lemma {:induction false} RunRefines(ram: Ram, tlb: Tlb, reqs: seq<Request>, rs: Roots)
    requires Rooted(reqs, rs) && SpacesOk(ram, rs) && TlbOk(tlb, ram, rs)
    ensures forall k :: 0 <= k < |reqs| ==> Run(ram, tlb, reqs)[k] == Walked(ram, reqs[k])
    decreases |reqs|
  {
    if reqs != [] {
      var r, rest := reqs[0], reqs[1..];
      var t := VirtToPhys(ram, tlb, r.ctl, r.vaddr, r.write, r.exec);
      StepRefines(ram, tlb, r.ctl, rs, r.vaddr, r.write, r.exec);
      assert Rooted(rest, rs);
      RunRefines(t.ram, t.tlb, rest, rs);
      forall k | 0 < k < |reqs|
        ensures Run(ram, tlb, reqs)[k] == Walked(ram, reqs[k])
      {
        var q := reqs[k];
        assert rest[k - 1] == q;
        SameTablesSameWalk(ram, t.ram, q.ctl, q.vaddr, q.write, q.exec);
      }
    }
  }

  // ---------------------------------------------------------------- necessity

  /** A PSR in two-level mode with the current mode of `psr`. */
  function InMode(psr: word): (r: word)
    ensures MmuMode(r) == 2 && Cmod(r) == Cmod(psr)
  {
    2 + 0x20 * Cmod(psr)
  }

  /** An address in the page of `u` whose page offset is 4. */
  function Inside(u: word): (r: word)
    ensures r / PAGE == u / PAGE && r / LARGE == u / LARGE && r % PAGE == 4
  {
    var r := u / PAGE * PAGE + 4;
    assert r / PAGE == u / PAGE;
    assert r / PAGE / 1024 == r / LARGE && u / PAGE / 1024 == u / LARGE;
    r
  }

  /** The two-request run: a read of `v` in one mode, then an access to `u` in another. */
  function ReadThen(rs: Roots, psr: word, v: word, psr': word, u: word, write: bool, exec: bool): (reqs: seq<Request>)
    ensures Rooted(reqs, rs) && |reqs| == 2
  {
    [Request(Control(InMode(psr), rs.user, rs.other), v, false, false),
     Request(Control(InMode(psr'), rs.user, rs.other), u, write, exec)]
  }

  lemma RunReadThen(ram: Ram, tlb: Tlb, r: Request, r': Request)
    ensures var t := VirtToPhys(ram, tlb, r.ctl, r.vaddr, r.write, r.exec);
      Run(ram, tlb, [r, r'])[1] == VirtToPhys(t.ram, t.tlb, r'.ctl, r'.vaddr, r'.write, r'.exec).result
  {
    assert [r, r'][1..] == [r'];
  }

  lemma EntryHits(tlb: Tlb, pte: word, v: word, u: word, psr: word, write: bool, exec: bool)
    requires tlb[TlbIndex(v)].pageNum == v && SameEntry(tlb[TlbIndex(v)].pte, pte) && PteValid(pte)
    requires UsedFor(pte, v, u) && u % PAGE == 4 && Permits(pte, psr, write, exec)
    ensures TlbGet(tlb, psr, u, write, exec) == HitAddress(pte, u) != RAM_LIMIT
  {
    SameEntryFields(tlb[TlbIndex(v)].pte, pte);
    HitParts(pte, u);
  }

  /** A read from a flushed TLB has its entry kept. */
  lemma ReadKeeps(ram: Ram, rs: Roots, tlb: Tlb, psr: word, v: word)
    requires Flushed(tlb) && Readable(ram, rs, psr, v)
    ensures var t := VirtToPhys(ram, tlb, Control(InMode(psr), rs.user, rs.other), v, false, false);
      var e := t.tlb[TlbIndex(v)];
      e.pageNum == v && SameEntry(e.pte, Entry(ram, RootFor(rs, psr), v))
  {
    var ctl := Control(InMode(psr), rs.user, rs.other);
    var walk := WalkTables(ram, ctl, v, false, false);
    assert walk.Large? || walk.Small?;
    assert walk.pte == Entry(ram, RootFor(rs, psr), v);
    SetRDAgrees(walk.pte, false);
  }

  /** So an access the entry permits, where it is used, is answered from it. */
  lemma KeptEntryHits(ram: Ram, rs: Roots, tlb: Tlb, psr: word, v: word, psr': word, u: word, write: bool, exec: bool)
    requires Flushed(tlb) && Readable(ram, rs, psr, v) && u % PAGE == 4
    requires var pte := Entry(ram, RootFor(rs, psr), v); UsedFor(pte, v, u) && Permits(pte, psr', write, exec)
    ensures Run(ram, tlb, ReadThen(rs, psr, v, psr', u, write, exec))[1] ==
      Address(HitAddress(Entry(ram, RootFor(rs, psr), v), u))
  {
    var reqs := ReadThen(rs, psr, v, psr', u, write, exec);
    var t := VirtToPhys(ram, tlb, reqs[0].ctl, v, false, false);
    ReadKeeps(ram, rs, tlb, psr, v);
    EntryHits(t.tlb, Entry(ram, RootFor(rs, psr), v), v, u, InMode(psr'), write, exec);
    RunReadThen(ram, tlb, reqs[0], reqs[1]);
  }

  ghost predicate Differs(ram: Ram, tlb: Tlb, rs: Roots, reqs: seq<Request>) {
    Rooted(reqs, rs) && |reqs| == 2 && Run(ram, tlb, reqs)[1] != Walked(ram, reqs[1])
  }

  lemma ServesInside(ram: Ram, rs: Roots, psr: word, a: word, write: bool, exec: bool, page: nat)
    ensures Serves(ram, rs, psr, a, write, exec, page) == Serves(ram, rs, psr, Inside(a), write, exec, page)
  {
    if TableInRam(RootFor(rs, psr)) {
      SamePage(ram, RootFor(rs, psr), Inside(a), a);
    }
  }

  /** An entry one mode can read through, used in a mode it does not serve: two requests, the second
      of which is answered wrongly. */
  lemma UnservedDiffers(ram: Ram, rs: Roots, tlb: Tlb, psr: word, v: word, psr': word, a: word,
                        write: bool, exec: bool)
    requires Flushed(tlb) && Readable(ram, rs, psr, v)
    requires var pte := Entry(ram, RootFor(rs, psr), v);
      && UsedFor(pte, v, a) && Permits(pte, psr', write, exec)
      && !Serves(ram, rs, psr', a, write, exec, PageThrough(pte, a))
    ensures Differs(ram, tlb, rs, ReadThen(rs, psr, v, psr', Inside(a), write, exec))
  {
    var pte, u := Entry(ram, RootFor(rs, psr), v), Inside(a);
    var ctl := Control(InMode(psr'), rs.user, rs.other);
    KeptEntryHits(ram, rs, tlb, psr, v, psr', u, write, exec);
    ServesInside(ram, rs, psr', a, write, exec, PageThrough(pte, a));
    TranslateServes(ram, ctl, rs, u, write, exec);
    HitParts(pte, u);
    if HasEntry(ram, Root(ctl), u) {
      PageParts(PageOf(ram, Root(ctl), u), u % PAGE);
    }
  }

  /** From a flushed TLB, translations agree with bare walks over every run, in any mix of user mode,
      which walks PDTR, and the modes that walk KPDTR, if and only if every entry that some mode can
      read through serves every mode that may use it. */
  lemma TlbRefinesWalkIff(ram: Ram, rs: Roots, tlb: Tlb)
    requires Flushed(tlb)
    ensures RefinesWalk(ram, rs, tlb) <==> SpacesOk(ram, rs)
  {
    if SpacesOk(ram, rs) {
      assert TlbOk(tlb, ram, rs);
      forall reqs: seq<Request> | Rooted(reqs, rs)
        ensures forall k :: 0 <= k < |reqs| ==> Run(ram, tlb, reqs)[k] == Walked(ram, reqs[k])
      {
        RunRefines(ram, tlb, reqs, rs);
      }
    } else {
      var psr: word, v: word :|
        Readable(ram, rs, psr, v) && !EntryServes(ram, rs, Entry(ram, RootFor(rs, psr), v), v);
      var pte := Entry(ram, RootFor(rs, psr), v);
      var a: word, psr': word, write, exec :| UsedFor(pte, v, a) && Permits(pte, psr', write, exec)
        && !Serves(ram, rs, psr', a, write, exec, PageThrough(pte, a));
      UnservedDiffers(ram, rs, tlb, psr, v, psr', a, write, exec);
    }
  }

  // ---------------------------------------------------------------- one directory for all modes

  /** Whatever `q` permits, `p` permits. */
  ghost predicate Covers(p: word, q: word) {
    forall psr: word, write, exec :: Permits(q, psr, write, exec) ==> Permits(p, psr, write, exec)
  }

  /** The page of `u` is where a 4 MB mapping through `pte` would put it, and permits all `pte` does. */
  ghost predicate LinearAt(ram: Ram, root: word, pte: word, u: word) {
    && HasLeaf(ram, root, u)
    && Leaf(ram, root, u) / PAGE == LargePage(pte, u)
    && Covers(Leaf(ram, root, u), pte)
  }

  ghost predicate LeafOk(ram: Ram, root: word, v: word)
    requires HasLeaf(ram, root, v)
  {
    && Covers(L1Entry(ram, root, v), Leaf(ram, root, v))
    && (PageExtension(Leaf(ram, root, v)) ==>
          forall u: word :: u / LARGE == v / LARGE ==> LinearAt(ram, root, Leaf(ram, root, v), u))
  }

  /** Each first-level entry permits what its leaves permit, and a leaf with PE set sits in a
      4 MB region mapped linearly with at least its own permissions. */
  ghost predicate TablesOk(ram: Ram, root: word) {
    forall v: word :: HasLeaf(ram, root, v) ==> LeafOk(ram, root, v)
  }

  lemma KernelReads(pte: word)
    ensures Permits(pte, 2, false, false)
  {
  }

  /** A leaf of tables in order serves every mode that walks these tables. */
  lemma LeafServes(ram: Ram, root: word, v: word, rs: Roots)
    requires HasLeaf(ram, root, v) && LeafOk(ram, root, v) && rs == Roots(root, root)
    ensures EntryServes(ram, rs, Leaf(ram, root, v), v)
  {
    var pte := Leaf(ram, root, v);
    forall a: word, psr: word, write, exec | UsedFor(pte, v, a) && Permits(pte, psr, write, exec)
      ensures Serves(ram, rs, psr, a, write, exec, PageThrough(pte, a))
    {
      SamePage(ram, root, a, v);
      if PageExtension(pte) {
        assert LinearAt(ram, root, pte, a);
      }
    }
  }

  lemma LargeServes(ram: Ram, root: word, v: word, rs: Roots)
    requires HasEntry(ram, root, v) && PageExtension(L1Entry(ram, root, v)) && rs == Roots(root, root)
    ensures EntryServes(ram, rs, L1Entry(ram, root, v), v)
  {
    var pte := L1Entry(ram, root, v);
    forall a: word, psr: word, write, exec | UsedFor(pte, v, a) && Permits(pte, psr, write, exec)
      ensures Serves(ram, rs, psr, a, write, exec, PageThrough(pte, a))
    {
      SamePage(ram, root, a, v);
    }
  }

  lemma ServedLeafOk(ram: Ram, root: word, v: word)
    requires HasLeaf(ram, root, v) && EntryServes(ram, Roots(root, root), Leaf(ram, root, v), v)
    ensures LeafOk(ram, root, v)
  {
    var pte, rs := Leaf(ram, root, v), Roots(root, root);
    forall psr: word, write, exec | Permits(pte, psr, write, exec)
      ensures Permits(L1Entry(ram, root, v), psr, write, exec)
    {
      assert UsedFor(pte, v, v);
      assert Permits(pte, psr, write, exec);
      assert Serves(ram, rs, psr, v, write, exec, PageThrough(pte, v));
    }
    if PageExtension(pte) {
      forall u: word | u / LARGE == v / LARGE
        ensures LinearAt(ram, root, pte, u)
      {
        KernelReads(pte);
        SamePage(ram, root, u, v);
        assert UsedFor(pte, v, u);
        assert Serves(ram, rs, 2, u, false, false, PageThrough(pte, u));
        forall psr: word, write, exec | Permits(pte, psr, write, exec)
          ensures Permits(Leaf(ram, root, u), psr, write, exec)
        {
          assert Serves(ram, rs, psr, u, write, exec, PageThrough(pte, u));
        }
      }
    }
  }

  /** For one directory the condition says, entry by entry, what its tables must look like. */
  lemma OneRootIff(ram: Ram, root: word)
    ensures SpacesOk(ram, Roots(root, root)) <==> TablesOk(ram, root)
  {
    var rs := Roots(root, root);
    if TablesOk(ram, root) {
      forall psr: word, v: word | Readable(ram, rs, psr, v)
        ensures EntryServes(ram, rs, Entry(ram, RootFor(rs, psr), v), v)
      {
        if PageExtension(L1Entry(ram, root, v)) {
          LargeServes(ram, root, v, rs);
        } else {
          LeafServes(ram, root, v, rs);
        }
      }
    }
    if SpacesOk(ram, rs) {
      forall v: word | HasLeaf(ram, root, v)
        ensures LeafOk(ram, root, v)
      {
        KernelReads(L1Entry(ram, root, v));
        KernelReads(Leaf(ram, root, v));
        assert Readable(ram, rs, 2, v);
        ServedLeafOk(ram, root, v);
      }
    }
  }

  /** Any leaf that breaks it has a run that shows it. */
  lemma BadLeafDiffers(ram: Ram, root: word, tlb: Tlb, v: word)
    requires HasLeaf(ram, root, v) && !LeafOk(ram, root, v) && Flushed(tlb)
    ensures exists reqs :: Differs(ram, tlb, Roots(root, root), reqs)
  {
    var rs, pte := Roots(root, root), Leaf(ram, root, v);
    if EntryServes(ram, rs, pte, v) {
      ServedLeafOk(ram, root, v);
      assert false;
    }
    var a: word, psr': word, write, exec :| UsedFor(pte, v, a) && Permits(pte, psr', write, exec)
      && !Serves(ram, rs, psr', a, write, exec, PageThrough(pte, a));
    KernelReads(L1Entry(ram, root, v));
    KernelReads(pte);
    UnservedDiffers(ram, rs, tlb, 2, v, psr', a, write, exec);
  }

  // ---------------------------------------------------------------- two directories

  /** The directories hold the same first-level entries, up to R and D. */
  ghost predicate RootsAgree(ram: Ram, rs: Roots) {
    && (TableInRam(rs.user) <==> TableInRam(rs.other))
    && (TableInRam(rs.user) ==> forall v: word :: SameEntry(L1Entry(ram, rs.user, v), L1Entry(ram, rs.other, v)))
  }

  lemma AgreeingEntry(ram: Ram, rs: Roots, v: word)
    requires RootsAgree(ram, rs)
    ensures HasEntry(ram, rs.user, v) == HasEntry(ram, rs.other, v)
    ensures HasEntry(ram, rs.user, v) ==>
      && SameEntry(Entry(ram, rs.user, v), Entry(ram, rs.other, v))
      && SameEntry(L1Entry(ram, rs.user, v), L1Entry(ram, rs.other, v))
      && PageOf(ram, rs.user, v) == PageOf(ram, rs.other, v)
  {
    if TableInRam(rs.user) {
      SameEntryFields(L1Entry(ram, rs.user, v), L1Entry(ram, rs.other, v));
    }
  }

  lemma AgreeingServes(ram: Ram, rs: Roots, psr: word, a: word, write: bool, exec: bool, page: nat)
    requires RootsAgree(ram, rs)
    ensures Serves(ram, rs, psr, a, write, exec, page) ==
      Serves(ram, Roots(rs.other, rs.other), psr, a, write, exec, page)
  {
    AgreeingEntry(ram, rs, a);
    if HasEntry(ram, rs.user, a) {
      SameEntryFields(L1Entry(ram, rs.user, a), L1Entry(ram, rs.other, a));
      SameEntryFields(Entry(ram, rs.user, a), Entry(ram, rs.other, a));
    }
  }

  lemma AgreeingEntryServes(ram: Ram, rs: Roots, pte: word, pte': word, v: word)
    requires RootsAgree(ram, rs) && SameEntry(pte, pte') && EntryServes(ram, Roots(rs.other, rs.other), pte', v)
    ensures EntryServes(ram, rs, pte, v)
  {
    SameEntryFields(pte, pte');
    forall a: word, q: word, write, exec | UsedFor(pte, v, a) && Permits(pte, q, write, exec)
      ensures Serves(ram, rs, q, a, write, exec, PageThrough(pte, a))
    {
      assert UsedFor(pte', v, a) && Permits(pte', q, write, exec);
      assert Serves(ram, Roots(rs.other, rs.other), q, a, write, exec, PageThrough(pte', a));
      AgreeingServes(ram, rs, q, a, write, exec, PageThrough(pte, a));
    }
  }

  lemma AgreeingReadable(ram: Ram, rs: Roots, psr: word, v: word)
    requires RootsAgree(ram, rs) && Readable(ram, rs, psr, v)
    ensures Readable(ram, Roots(rs.other, rs.other), psr, v)
    ensures SameEntry(Entry(ram, RootFor(rs, psr), v), Entry(ram, rs.other, v))
  {
    AgreeingEntry(ram, rs, v);
    AgreeingServes(ram, rs, psr, v, false, false, PageOf(ram, RootFor(rs, psr), v));
  }

  /** Where the directories agree, the condition is that of either of them. */
  lemma AgreeingRootsOk(ram: Ram, rs: Roots)
    requires RootsAgree(ram, rs) && TablesOk(ram, rs.other)
    ensures SpacesOk(ram, rs)
  {
    OneRootIff(ram, rs.other);
    forall psr: word, v: word | Readable(ram, rs, psr, v)
      ensures EntryServes(ram, rs, Entry(ram, RootFor(rs, psr), v), v)
    {
      AgreeingReadable(ram, rs, psr, v);
      AgreeingEntryServes(ram, rs, Entry(ram, RootFor(rs, psr), v), Entry(ram, rs.other, v), v);
    }
  }

  // ---------------------------------------------------------------- failing inputs

  /** RAM with one first-level entry at the directory 0, leading to a table at 0x1000 with one leaf. */
  function OneLeaf(l1: word, leaf: word): (ram: Ram)
    ensures ram[0] == l1 && ram[0x400] == leaf && (forall k :: 1 <= k < RAM_WORDS && k != 0x400 ==> ram[k] == 0)
  {
    seq(RAM_WORDS, k => if k == 0 then l1 else if k == 0x400 then leaf else 0)
  }

  /** First-level privileges are not kept in the TLB: a kernel-only first-level entry over a leaf open
      to users, and two requests of which the second is let through by the TLB alone. */
  lemma FirstLevelPrivilegeLost(tlb: Tlb)
    requires Flushed(tlb)
    ensures exists reqs :: Differs(OneLeaf(0x1001, 0x2031), tlb, Roots(0, 0), reqs)
  {
    var ram := OneLeaf(0x1001, 0x2031);
    assert Slot1(0, 0) == 0 && LeafSlot(ram, 0, 0) == 0x400;
    assert L1Entry(ram, 0, 0) == 0x1001 && Leaf(ram, 0, 0) == 0x2031;
    assert Permits(0x2031, 0x62, false, false) && !Permits(0x1001, 0x62, false, false);
    BadLeafDiffers(ram, 0, tlb, 0);
  }

  /** A leaf with PE set is taken for a 4 MB page: after a request for its own page, a request for the
      next page is translated although no leaf maps it. */
  lemma LeafTakenForLargePage(tlb: Tlb)
    requires Flushed(tlb)
    ensures exists reqs :: Differs(OneLeaf(0x1031, 0x2131), tlb, Roots(0, 0), reqs)
  {
    var ram := OneLeaf(0x1031, 0x2131);
    assert Slot1(0, 0) == 0 && LeafSlot(ram, 0, 0) == 0x400;
    assert L1Entry(ram, 0, 0) == 0x1031 && Leaf(ram, 0, 0) == 0x2131;
    var u: word := 0x1004;
    assert L1Entry(ram, 0, u) == 0x1031 && LeafSlot(ram, 0, u) == 0x401;
    assert !HasLeaf(ram, 0, u);
    assert !LinearAt(ram, 0, 0x2131, u);
    BadLeafDiffers(ram, 0, tlb, 0);
  }

  /** Entering the kernel does not flush: what a user read of address 4 leaves in the TLB answers the
      kernel's read of it, though the kernel's own directory maps nothing. */
  lemma UserEntrySurvives(tlb: Tlb, rs: Roots, user: word, kernel: word)
    requires Flushed(tlb) && rs == Roots(0, 0x2000) && user == 0x62 && kernel == 2
    ensures var ram, reqs := OneLeaf(0x1031, 0x3031), ReadThen(rs, user, 4, kernel, 4, false, false);
      && Rooted(reqs, rs)
      && Run(ram, tlb, reqs)[1] == Address(0x3004) && Walked(ram, reqs[1]) == Fault(PAGE_FAULT)
  {
    var ram, v: word := OneLeaf(0x1031, 0x3031), 4;
    assert Slot1(0, v) == 0 && L1Entry(ram, 0, v) == 0x1031;
    assert LeafSlot(ram, 0, v) == 0x400 && Leaf(ram, 0, v) == 0x3031;
    assert Slot1(0x2000, v) == 0x800;
    UserMode(user);
    assert Entry(ram, 0, v) == 0x3031;
    assert Readable(ram, rs, user, v);
    KeptEntryHits(ram, rs, tlb, user, v, kernel, v, false, false);
  }

  lemma UserMode(psr: word)
    requires psr == 0x62
    ensures User(psr) && !Kernel(psr)
  {
  }
}
