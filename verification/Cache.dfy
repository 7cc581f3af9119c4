/** The two level-1 caches of cache.h: 16 sets of 4 ways, 16 words a line. */
module Cache {
  import opened Words

  /** `MEMORY_MAX_ADDR`: guest RAM occupies the addresses below it. */
  const RAM_LIMIT: int := 0x0800_0000
  const RAM_WORDS: int := 0x0200_0000

  type Ram = m: seq<word> | |m| == RAM_WORDS witness seq(RAM_WORDS, _ => 0)

  type Data = d: seq<word> | |d| == 16 witness seq(16, _ => 0)

  datatype Line = Line(valid: bool, tag: word, last: word, data: Data)

  const EMPTY_LINE := Line(false, 0, 0, seq(16, _ => 0))

  /** The four ways of one cache index. */
  type Set = s: seq<Line> | |s| == 4 witness seq(4, _ => EMPTY_LINE)

  type L1 = c: seq<Set> | |c| == 16 witness seq(16, _ => seq(4, _ => EMPTY_LINE))

  /** `CACHE_L1_TAG`, `CACHE_L1_INDEX`, `CACHE_L1_WORD`. */
  function Tag(paddr: word): word {
    paddr / 1024 * 1024
  }

  function Index(paddr: word): (i: nat)
    ensures i < 16
  {
    paddr / 64 % 16
  }

  function WordOf(paddr: word): (j: nat)
    ensures j < 16
  {
    paddr / 4 % 16
  }

  predicate TagOk(tag: word) {
    tag % 1024 == 0 && tag < RAM_LIMIT
  }

  /** The first RAM word of the line with tag `tag` in set `i`. */
  function Base(tag: word, i: nat): (b: nat)
    requires TagOk(tag) && i < 16
    ensures b + 16 <= RAM_WORDS
  {
    tag / 4 + 16 * i
  }

  lemma SplitAddress(paddr: word)
    requires paddr < RAM_LIMIT
    ensures TagOk(Tag(paddr)) && Base(Tag(paddr), Index(paddr)) == paddr / 64 * 16
    ensures Base(Tag(paddr), Index(paddr)) + WordOf(paddr) == paddr / 4
  {
    var q := paddr / 64;
    assert paddr / 4 / 16 == q && paddr / 1024 == q / 16;
    assert paddr / 4 == 16 * q + WordOf(paddr);
  }

  /** Two lines that share a RAM word have the same tag and set. */
  lemma BaseInjective(tag: word, i: nat, j: nat, tag': word, i': nat, j': nat)
    requires TagOk(tag) && TagOk(tag') && i < 16 && j < 16 && i' < 16 && j' < 16
    requires Base(tag, i) + j == Base(tag', i') + j'
    ensures tag == tag' && i == i' && j == j'
  {
    var t, t' := tag / 1024, tag' / 1024;
    assert tag == 1024 * t && tag' == 1024 * t';
    assert 256 * (t - t') == 16 * (i' - i) + (j' - j);
    assert t == t';
  }

  // ---------------------------------------------------------------- operations

  /** First way at or after `w` that is valid and carries the tag; 4 if there is none. */
  function FindWay(s: Set, tag: word, w: nat): (r: nat)
    requires w <= 4
    ensures w <= r <= 4
    ensures r < 4 ==> s[r].valid && s[r].tag == tag
    ensures forall k :: w <= k < r ==> !(s[k].valid && s[k].tag == tag)
    decreases 4 - w
  {
    if w == 4 || (s[w].valid && s[w].tag == tag) then w else FindWay(s, tag, w + 1)
  }

  /** First way at or after `w` that carries the tag, valid or not. */
  function FindTag(s: Set, tag: word, w: nat): (r: nat)
    requires w <= 4
    ensures w <= r <= 4
    ensures r < 4 ==> s[r].tag == tag
    ensures forall k :: w <= k < r ==> s[k].tag != tag
    decreases 4 - w
  {
    if w == 4 || s[w].tag == tag then w else FindTag(s, tag, w + 1)
  }

  /** `cache_tick - last_access` in 32-bit arithmetic. */
  function Age(l: Line, tick: word): word {
    Wrap(tick - l.last)
  }

  /** The victim scan from way `w` on, with the loop's `oldest` and `target`. */
  function Victim(s: Set, tick: word, w: nat, oldest: word, target: nat): (r: nat)
    requires w <= 4 && target < 4
    ensures r < 4
    ensures r == target || w <= r
    ensures (exists k :: w <= k < 4 && !s[k].valid) ==>
              w <= r && !s[r].valid && forall k :: w <= k < r ==> s[k].valid
    ensures (forall k :: w <= k < 4 ==> s[k].valid) ==>
              && (forall k :: w <= k < 4 ==>
                    Age(s[k], tick) <= oldest || (w <= r && Age(s[k], tick) <= Age(s[r], tick)))
              && (w <= r ==> r == target || Age(s[r], tick) > oldest)
    decreases 4 - w
  {
    if w == 4 then target
    else if !s[w].valid then w
    else if Age(s[w], tick) > oldest then Victim(s, tick, w + 1, Age(s[w], tick), w)
    else Victim(s, tick, w + 1, oldest, target)
  }

  /** The line of RAM that holds `paddr`. */
  function Refill(ram: Ram, paddr: word): Data
    requires paddr < RAM_LIMIT
  {
    ram[paddr / 64 * 16 .. paddr / 64 * 16 + 16]
  }

  datatype Probe = Probe(l1: L1, tick: word, value: word)

  /** `memory_cache_l1_read` below `MEMORY_MAX_ADDR`, on either cache. */
  function Read(c: L1, tick: word, ram: Ram, paddr: word): Probe
    requires paddr < RAM_LIMIT
  {
    var i, s := Index(paddr), c[Index(paddr)];
    var w := FindWay(s, Tag(paddr), 0);
    if w < 4 then
      Probe(c[i := s[w := s[w].(last := tick)]], Wrap(tick + 1), s[w].data[WordOf(paddr)])
    else
      var t := Victim(s, tick, 0, 0, 0);
      var d := Refill(ram, paddr);
      Probe(c[i := s[t := Line(true, Tag(paddr), tick, d)]], Wrap(tick + 1), d[WordOf(paddr)])
  }

  /** The invalidation loop of `memory_cache_l1_write` on the instruction cache. */
  function Drop(c: L1, paddr: word): L1 {
    var i, s := Index(paddr), c[Index(paddr)];
    var w := FindTag(s, Tag(paddr), 0);
    if w < 4 then c[i := s[w := s[w].(valid := false)]] else c
  }

  /** RAM, both caches and the shared access counter. */
  datatype Hierarchy = Hierarchy(ram: Ram, icache: L1, dcache: L1, tick: word)

  /** `memory_cache_l1_write` below `MEMORY_MAX_ADDR`. */
  function Write(h: Hierarchy, paddr: word, data: word): Hierarchy
    requires paddr < RAM_LIMIT
  {
    var ram: Ram := h.ram[paddr / 4 := data];
    var icache := Drop(h.icache, paddr);
    var i, s := Index(paddr), h.dcache[Index(paddr)];
    var w := FindWay(s, Tag(paddr), 0);
    if w < 4 then
      Hierarchy(ram, icache, h.dcache[i := s[w := s[w].(data := s[w].data[WordOf(paddr) := data])]], h.tick)
    else
      var p := Read(h.dcache, h.tick, ram, paddr);
      Hierarchy(ram, icache, p.l1, p.tick)
  }

  // ---------------------------------------------------------------- invariants

  /** `c` is `m` with some of the Referenced (2) and Dirty (4) bits of `m` missing. */
  predicate AgreesUpToRD(c: word, m: word) {
    c / 8 == m / 8 && c % 2 == m % 2 && c / 2 % 2 <= m / 2 % 2 && c / 4 % 2 <= m / 4 % 2
  }

  /** No way below a valid way carries the valid way's tag, whether or not it is valid itself. */
  predicate TagsDistinct(s: Set) {
    forall v, w :: 0 <= w < v < 4 && s[v].valid ==> s[w].tag != s[v].tag
  }

  /** RAM word `k` has the cached value `c`, exactly unless a page walk has written word `k`. */
  predicate WordCoherent(c: word, ram: Ram, k: nat, walked: set<nat>)
    requires k < RAM_WORDS
  {
    AgreesUpToRD(c, ram[k]) && (k !in walked ==> c == ram[k])
  }

  ghost predicate DataCoherent(d: Data, base: nat, ram: Ram, walked: set<nat>)
    requires base + 16 <= RAM_WORDS
  {
    forall j: nat :: j < 16 ==> WordCoherent(d[j], ram, base + j, walked)
  }

  ghost predicate LineCoherent(l: Line, i: nat, ram: Ram, walked: set<nat>)
    requires i < 16
  {
    l.valid ==> TagOk(l.tag) && DataCoherent(l.data, Base(l.tag, i), ram, walked)
  }

  ghost predicate SetCoherent(s: Set, i: nat, ram: Ram, walked: set<nat>)
    requires i < 16
  {
    TagsDistinct(s) && forall v :: 0 <= v < 4 ==> LineCoherent(s[v], i, ram, walked)
  }

  ghost predicate Coherent(c: L1, ram: Ram, walked: set<nat>) {
    forall i :: 0 <= i < 16 ==> SetCoherent(c[i], i, ram, walked)
  }

  lemma RefillCoherent(ram: Ram, base: nat, walked: set<nat>)
    requires base + 16 <= RAM_WORDS
    ensures DataCoherent(ram[base..base + 16], base, ram, walked)
  {
  }

  lemma HitCoherent(s: Set, i: nat, w: nat, tick: word, ram: Ram, walked: set<nat>)
    requires i < 16 && w < 4 && SetCoherent(s, i, ram, walked)
    ensures SetCoherent(s[w := s[w].(last := tick)], i, ram, walked)
  {
    var s' := s[w := s[w].(last := tick)];
    forall v: nat | v < 4
      ensures LineCoherent(s'[v], i, ram, walked)
    {
      assert LineCoherent(s[v], i, ram, walked);
    }
  }

  lemma MissCoherent(s: Set, tick: word, ram: Ram, paddr: word, walked: set<nat>)
    requires paddr < RAM_LIMIT && SetCoherent(s, Index(paddr), ram, walked) && FindWay(s, Tag(paddr), 0) == 4
    ensures SetCoherent(s[Victim(s, tick, 0, 0, 0) := Line(true, Tag(paddr), tick, Refill(ram, paddr))],
                        Index(paddr), ram, walked)
    ensures WordCoherent(Refill(ram, paddr)[WordOf(paddr)], ram, paddr / 4, walked)
  {
    var i, t := Index(paddr), Victim(s, tick, 0, 0, 0);
    var l := Line(true, Tag(paddr), tick, Refill(ram, paddr));
    SplitAddress(paddr);
    RefillCoherent(ram, Base(Tag(paddr), i), walked);
    var s' := s[t := l];
    forall v: nat | v < 4
      ensures LineCoherent(s'[v], i, ram, walked)
    {
      assert v != t ==> LineCoherent(s[v], i, ram, walked);
    }
  }

  /** A read keeps every line coherent and returns what RAM holds (up to R/D where a walk wrote). */
  lemma ReadCoherent(c: L1, tick: word, ram: Ram, paddr: word, walked: set<nat>)
    requires paddr < RAM_LIMIT && Coherent(c, ram, walked)
    ensures Coherent(Read(c, tick, ram, paddr).l1, ram, walked)
    ensures WordCoherent(Read(c, tick, ram, paddr).value, ram, paddr / 4, walked)
  {
    var i, s := Index(paddr), c[Index(paddr)];
    var w := FindWay(s, Tag(paddr), 0);
    assert SetCoherent(s, i, ram, walked);
    if w < 4 {
      SplitAddress(paddr);
      assert LineCoherent(s[w], i, ram, walked);
      assert WordCoherent(s[w].data[WordOf(paddr)], ram, Base(Tag(paddr), i) + WordOf(paddr), walked);
      HitCoherent(s, i, w, tick, ram, walked);
    } else {
      MissCoherent(s, tick, ram, paddr, walked);
    }
  }

  /** A line with another tag or in another set does not hold the word at `paddr`. */
  lemma OtherLine(tag: word, i: nat, paddr: word)
    requires TagOk(tag) && i < 16 && paddr < RAM_LIMIT && !(tag == Tag(paddr) && i == Index(paddr))
    ensures !(Base(tag, i) <= paddr / 4 < Base(tag, i) + 16)
  {
    SplitAddress(paddr);
    var base := Base(tag, i);
    if base <= paddr / 4 < base + 16 {
      BaseInjective(tag, i, paddr / 4 - base, Tag(paddr), Index(paddr), WordOf(paddr));
    }
  }

  /** Changing one RAM word leaves data that does not hold it coherent. */
  lemma KeepData(d: Data, base: nat, ram: Ram, walked: set<nat>, slot: nat, v: word)
    requires base + 16 <= RAM_WORDS && slot < RAM_WORDS && DataCoherent(d, base, ram, walked)
    requires !(base <= slot < base + 16)
    ensures DataCoherent(d, base, ram[slot := v], walked - {slot})
  {
    forall j: nat | j < 16
      ensures WordCoherent(d[j], ram[slot := v], base + j, walked - {slot})
    {
      assert WordCoherent(d[j], ram, base + j, walked);
    }
  }

  lemma OtherLineCoherent(l: Line, i: nat, ram: Ram, walked: set<nat>, paddr: word, v: word)
    requires i < 16 && paddr < RAM_LIMIT && LineCoherent(l, i, ram, walked)
    requires l.valid ==> !(l.tag == Tag(paddr) && i == Index(paddr))
    ensures LineCoherent(l, i, ram[paddr / 4 := v], walked - {paddr / 4})
  {
    if l.valid {
      OtherLine(l.tag, i, paddr);
      KeepData(l.data, Base(l.tag, i), ram, walked, paddr / 4, v);
    }
  }

  /** After the invalidation loop no valid line of the set carries the stored word. */
  lemma DropComplete(c: L1, paddr: word, v: nat)
    requires TagsDistinct(c[Index(paddr)]) && v < 4
    ensures TagsDistinct(Drop(c, paddr)[Index(paddr)])
    ensures Drop(c, paddr)[Index(paddr)][v].valid ==> Drop(c, paddr)[Index(paddr)][v].tag != Tag(paddr)
  {
    var s := c[Index(paddr)];
    var w := FindTag(s, Tag(paddr), 0);
    if w < 4 && w < v && s[v].valid {
      assert s[w].tag != s[v].tag;
    }
  }

  lemma DropCoherent(c: L1, paddr: word, ram: Ram, walked: set<nat>, data: word)
    requires paddr < RAM_LIMIT && Coherent(c, ram, walked)
    ensures Coherent(Drop(c, paddr), ram[paddr / 4 := data], walked - {paddr / 4})
  {
    var d := Drop(c, paddr);
    var ram' := ram[paddr / 4 := data];
    forall i: nat | i < 16
      ensures SetCoherent(d[i], i, ram', walked - {paddr / 4})
    {
      assert SetCoherent(c[i], i, ram, walked);
      forall v: nat | v < 4
        ensures LineCoherent(d[i][v], i, ram', walked - {paddr / 4})
      {
        if i == Index(paddr) {
          DropComplete(c, paddr, v);
        }
        assert LineCoherent(c[i][v], i, ram, walked);
        assert LineCoherent(d[i][v], i, ram, walked);
        OtherLineCoherent(d[i][v], i, ram, walked, paddr, data);
      }
      if i == Index(paddr) {
        DropComplete(c, paddr, 0);
      }
    }
  }

  lemma UpdateData(d: Data, base: nat, ram: Ram, walked: set<nat>, j0: nat, v: word)
    requires base + 16 <= RAM_WORDS && j0 < 16 && DataCoherent(d, base, ram, walked)
    ensures DataCoherent(d[j0 := v], base, ram[base + j0 := v], walked - {base + j0})
  {
    var d', ram' := d[j0 := v], ram[base + j0 := v];
    forall j: nat | j < 16
      ensures WordCoherent(d'[j], ram', base + j, walked - {base + j0})
    {
      assert WordCoherent(d[j], ram, base + j, walked);
    }
  }

  lemma UpdatedLineCoherent(l: Line, i: nat, ram: Ram, walked: set<nat>, paddr: word, data: word)
    requires paddr < RAM_LIMIT && i == Index(paddr) && l.tag == Tag(paddr)
    requires LineCoherent(l, i, ram, walked)
    ensures LineCoherent(l.(data := l.data[WordOf(paddr) := data]), i, ram[paddr / 4 := data],
                         walked - {paddr / 4})
  {
    SplitAddress(paddr);
    if l.valid {
      UpdateData(l.data, Base(l.tag, i), ram, walked, WordOf(paddr), data);
    }
  }

  lemma WriteDataCoherent(h: Hierarchy, paddr: word, data: word, walked: set<nat>)
    requires paddr < RAM_LIMIT && Coherent(h.dcache, h.ram, walked)
    ensures Coherent(Write(h, paddr, data).dcache, h.ram[paddr / 4 := data], walked - {paddr / 4})
  {
    var c, ram' := h.dcache, h.ram[paddr / 4 := data];
    var i0, s0 := Index(paddr), h.dcache[Index(paddr)];
    var w := FindWay(s0, Tag(paddr), 0);
    var c' := if w < 4 then c[i0 := s0[w := s0[w].(data := s0[w].data[WordOf(paddr) := data])]] else c;
    assert SetCoherent(s0, i0, h.ram, walked);
    forall i: nat | i < 16
      ensures SetCoherent(c'[i], i, ram', walked - {paddr / 4})
    {
      assert SetCoherent(c[i], i, h.ram, walked);
      forall v: nat | v < 4
        ensures LineCoherent(c'[i][v], i, ram', walked - {paddr / 4})
      {
        assert LineCoherent(c[i][v], i, h.ram, walked);
        if i == i0 && v == w {
          UpdatedLineCoherent(c[i][v], i, h.ram, walked, paddr, data);
        } else {
          assert i == i0 && w < v && s0[v].valid && s0[w].valid ==> s0[w].tag != s0[v].tag;
          assert i == i0 && v < w && w < 4 ==> s0[v].tag != s0[w].tag;
          OtherLineCoherent(c[i][v], i, h.ram, walked, paddr, data);
        }
      }
    }
    if w == 4 {
      ReadCoherent(c', h.tick, ram', paddr, walked - {paddr / 4});
    }
  }

  /** A store keeps both caches coherent with the RAM it has just written through to, and leaves no
      stale copy of the stored word even if walks had updated it. */
  lemma WriteCoherent(h: Hierarchy, paddr: word, data: word, walked: set<nat>)
    requires paddr < RAM_LIMIT && Coherent(h.icache, h.ram, walked) && Coherent(h.dcache, h.ram, walked)
    ensures var h' := Write(h, paddr, data);
      && h'.ram == h.ram[paddr / 4 := data]
      && Coherent(h'.icache, h'.ram, walked - {paddr / 4})
      && Coherent(h'.dcache, h'.ram, walked - {paddr / 4})
  {
    DropCoherent(h.icache, paddr, h.ram, walked, data);
    WriteDataCoherent(h, paddr, data, walked);
  }

  /** Allowing more words to lag behind RAM. */
  lemma CoherentWeaken(c: L1, ram: Ram, walked: set<nat>, more: set<nat>)
    requires Coherent(c, ram, walked) && walked <= more
    ensures Coherent(c, ram, more)
  {
    forall i: nat, v: nat | i < 16 && v < 4
      ensures TagsDistinct(c[i]) && LineCoherent(c[i][v], i, ram, more)
    {
      assert SetCoherent(c[i], i, ram, walked);
      assert LineCoherent(c[i][v], i, ram, walked);
      if c[i][v].valid {
        WeakenData(c[i][v].data, Base(c[i][v].tag, i), ram, walked, more);
      }
    }
  }

  lemma WeakenData(d: Data, base: nat, ram: Ram, walked: set<nat>, more: set<nat>)
    requires base + 16 <= RAM_WORDS && DataCoherent(d, base, ram, walked) && walked <= more
    ensures DataCoherent(d, base, ram, more)
  {
    forall j: nat | j < 16
      ensures WordCoherent(d[j], ram, base + j, more)
    {
      assert WordCoherent(d[j], ram, base + j, walked);
    }
  }

  lemma AgreesTransitive(c: word, m: word, m': word)
    requires AgreesUpToRD(c, m) && AgreesUpToRD(m, m')
    ensures AgreesUpToRD(c, m')
  {
  }

  lemma WalkData(d: Data, base: nat, ram: Ram, walked: set<nat>, slot: nat, x: word)
    requires base + 16 <= RAM_WORDS && slot < RAM_WORDS && AgreesUpToRD(ram[slot], x)
    requires DataCoherent(d, base, ram, walked)
    ensures DataCoherent(d, base, ram[slot := x], walked + {slot})
  {
    forall j: nat | j < 16
      ensures WordCoherent(d[j], ram[slot := x], base + j, walked + {slot})
    {
      assert WordCoherent(d[j], ram, base + j, walked);
      if base + j == slot {
        AgreesTransitive(d[j], ram[slot], x);
      }
    }
  }

  /** A page walk that only adds Referenced and Dirty bits to word `slot` behind the caches. */
  lemma WalkCoherent(c: L1, ram: Ram, walked: set<nat>, slot: nat, x: word)
    requires slot < RAM_WORDS && AgreesUpToRD(ram[slot], x) && Coherent(c, ram, walked)
    ensures Coherent(c, ram[slot := x], walked + {slot})
  {
    forall i: nat, v: nat | i < 16 && v < 4
      ensures TagsDistinct(c[i]) && LineCoherent(c[i][v], i, ram[slot := x], walked + {slot})
    {
      assert SetCoherent(c[i], i, ram, walked);
      assert LineCoherent(c[i][v], i, ram, walked);
      if c[i][v].valid {
        WalkData(c[i][v].data, Base(c[i][v].tag, i), ram, walked, slot, x);
      }
    }
  }
}
