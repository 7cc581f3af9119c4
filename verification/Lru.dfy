/** The data cache against the recency stack, over whole runs and in real time. */
module Lru {
  import opened Words
  import opened Cache
  import opened Recency

  /** Unbounded time: the number of ticks so far and the time each way of the set was last used. */
  datatype Clock = Clock(now: nat, used: seq<nat>)

  /** The way a read of `tag` uses: the hit, or the victim. */
  function Chosen(s: Set, tick: word, tag: word): (x: nat)
    ensures x < 4
  {
    var w := FindWay(s, tag, 0);
    if w < 4 then w else Victim(s, tick, 0, 0, 0)
  }

  predicate Full(s: Set) {
    forall w :: 0 <= w < 4 ==> s[w].valid
  }

  /** Whenever the set must evict, every resident line was used less than 2^32 ticks ago. */
  predicate AgesOk(s: Set, tag: word, clk: Clock)
    requires |clk.used| == 4
  {
    FindWay(s, tag, 0) == 4 && Full(s) ==> forall w :: 0 <= w < 4 ==> clk.now - clk.used[w] < WORD_LIMIT
  }

  /** The age of a way as the 32-bit subtraction of the scan gives it. */
  function ShownAge(clk: Clock, w: nat): nat
    requires w < |clk.used|
  {
    (clk.now - clk.used[w]) % WORD_LIMIT
  }

  /** Way `x` is the first one of the greatest shown age. */
  predicate StandsOut(clk: Clock, x: nat)
    requires |clk.used| == 4
  {
    && x < 4
    && (forall w :: 0 <= w < 4 ==> ShownAge(clk, w) <= ShownAge(clk, x))
    && (forall w :: 0 <= w < x ==> ShownAge(clk, w) < ShownAge(clk, x))
  }

  /** Whenever the set must evict, the way really used longest ago stands out. */
  predicate EvictsOldest(s: Set, tag: word, clk: Clock)
    requires |clk.used| == 4
  {
    FindWay(s, tag, 0) == 4 && Full(s) ==>
      exists x :: 0 <= x < 4 && StandsOut(clk, x) && forall w :: 0 <= w < 4 ==> clk.used[x] <= clk.used[w]
  }

  /** `order` lists the ways below `k`, each once. */
  ghost predicate Lists(order: seq<nat>, k: nat) {
    && |order| == k
    && (forall i :: 0 <= i < k ==> order[i] < k)
    && (forall w: nat :: w < k ==> w in order)
  }

  /** Earlier ways of `order` were used later. */
  ghost predicate LatestFirst(order: seq<nat>, used: seq<nat>)
    requires forall i :: 0 <= i < |order| ==> order[i] < |used|
  {
    forall i, j :: 0 <= i < j < |order| ==> used[order[i]] > used[order[j]]
  }

  /** The stored stamps are the real times modulo 2^32, and the real times are past. */
  ghost predicate Stamped(s: Set, tick: word, clk: Clock) {
    && |clk.used| == 4 && tick == clk.now % WORD_LIMIT
    && forall w :: 0 <= w < 4 && s[w].valid ==>
         clk.used[w] < clk.now && s[w].last == clk.used[w] % WORD_LIMIT
  }

  /** `order` lists the valid ways, which are the lowest ones, from the most recently used. */
  ghost predicate Tracks(s: Set, tick: word, clk: Clock, order: seq<nat>) {
    && TagsDistinct(s) && Stamped(s, tick, clk)
    && |order| <= 4 && Lists(order, |order|) && LatestFirst(order, clk.used)
    && forall w :: 0 <= w < 4 ==> (s[w].valid <==> w < |order|)
  }

  lemma MoveToFront(order: seq<nat>, i: nat, used: seq<nat>, now: nat)
    requires |order| <= |used| && Lists(order, |order|) && LatestFirst(order, used) && i < |order|
    requires forall w :: 0 <= w < |order| ==> used[w] < now
    ensures var order' := [order[i]] + (order[..i] + order[i + 1..]);
      Lists(order', |order|) && LatestFirst(order', used[order[i] := now])
  {
    var order' := [order[i]] + (order[..i] + order[i + 1..]);
    assert order == order[..i] + [order[i]] + order[i + 1..];
    forall w: nat | w < |order|
      ensures w in order'
    {
      assert w in order;
    }
  }

  lemma AddToFront(order: seq<nat>, used: seq<nat>, now: nat)
    requires |order| < |used| && Lists(order, |order|) && LatestFirst(order, used)
    requires forall w :: 0 <= w < |order| ==> used[w] < now
    ensures Lists([|order|] + order, |order| + 1) && LatestFirst([|order|] + order, used[|order| := now])
  {
    forall w: nat | w < |order| + 1
      ensures w in [|order|] + order
    {
      if w < |order| { assert w in order; }
    }
  }

  function Tags(s: Set, order: seq<nat>): (ts: seq<word>)
    requires forall i :: 0 <= i < |order| ==> order[i] < 4
    ensures |ts| == |order| && forall i :: 0 <= i < |order| ==> ts[i] == s[order[i]].tag
  {
    seq(|order|, i requires 0 <= i < |order| => s[order[i]].tag)
  }

  lemma RealAge(l: Line, tick: word, now: nat, used: nat)
    requires tick == now % WORD_LIMIT && l.last == used % WORD_LIMIT && used < now
    ensures Age(l, tick) == (now - used) % WORD_LIMIT
  {
    var a, b := now / WORD_LIMIT, used / WORD_LIMIT;
    assert now - used == (a - b) * WORD_LIMIT + (tick - l.last);
    ModuloShift(tick - l.last, a - b);
  }

  lemma ModuloShift(x: int, k: int)
    ensures (x + k * WORD_LIMIT) % WORD_LIMIT == x % WORD_LIMIT
  {
    assert (x + k * WORD_LIMIT) / WORD_LIMIT == x / WORD_LIMIT + k;
  }

  /** Of the ways below `w`, `r` is the first one of the greatest age. */
  predicate FirstOldest(s: Set, tick: word, w: nat, r: nat)
    requires w <= 4
  {
    && r < w && (forall k :: 0 <= k < w ==> Age(s[k], tick) <= Age(s[r], tick))
    && (forall k :: 0 <= k < r ==> Age(s[k], tick) < Age(s[r], tick))
  }

  /** The scan takes the first way of the greatest age. */
  lemma {:induction false} VictimFirst(s: Set, tick: word, w: nat, oldest: word, target: nat)
    requires w <= 4 && target < 4 && Full(s)
    requires if w == 0 then target == 0 && oldest == 0
             else FirstOldest(s, tick, w, target) && oldest == Age(s[target], tick)
    ensures FirstOldest(s, tick, 4, Victim(s, tick, w, oldest, target))
    decreases 4 - w
  {
    if w < 4 {
      assert s[w].valid;
      if Age(s[w], tick) > oldest {
        VictimFirst(s, tick, w + 1, Age(s[w], tick), w);
      } else {
        VictimFirst(s, tick, w + 1, oldest, target);
      }
    }
  }

  /** The victim is the way that stands out, and only one does. */
  lemma VictimStandsOut(s: Set, tick: word, clk: Clock)
    requires Stamped(s, tick, clk) && Full(s)
    ensures StandsOut(clk, Victim(s, tick, 0, 0, 0))
    ensures forall x :: 0 <= x < 4 && StandsOut(clk, x) ==> x == Victim(s, tick, 0, 0, 0)
  {
    forall w: nat | w < 4
      ensures Age(s[w], tick) == ShownAge(clk, w)
    {
      assert s[w].valid;
      RealAge(s[w], tick, clk.now, clk.used[w]);
    }
    VictimFirst(s, tick, 0, 0, 0);
  }

  /** Where the oldest way stands out, it is the victim. */
  lemma VictimIsOldest(s: Set, tick: word, clk: Clock, order: seq<nat>, tag: word)
    requires Tracks(s, tick, clk, order) && Full(s) && FindWay(s, tag, 0) == 4
    ensures |order| == 4 && (EvictsOldest(s, tag, clk) <==> Victim(s, tick, 0, 0, 0) == order[3])
  {
    assert s[3].valid;
    VictimStandsOut(s, tick, clk);
    OldestIsLast(order, clk.used);
    var r := Victim(s, tick, 0, 0, 0);
    if EvictsOldest(s, tag, clk) {
      var x :| 0 <= x < 4 && StandsOut(clk, x) && forall w :: 0 <= w < 4 ==> clk.used[x] <= clk.used[w];
      assert clk.used[x] <= clk.used[order[3]];
      assert x == order[3] && x == r;
    }
    if r == order[3] {
      assert StandsOut(clk, r);
    }
  }

  lemma OldestIsLast(order: seq<nat>, used: seq<nat>)
    requires |order| == 4 == |used| && Lists(order, 4) && LatestFirst(order, used)
    ensures forall w :: 0 <= w < 4 && w != order[3] ==> used[order[3]] < used[w]
  {
    forall w: nat | w < 4 && w != order[3]
      ensures used[order[3]] < used[w]
    {
      assert w in order;
      var j :| 0 <= j < 4 && order[j] == w;
    }
  }

  /** Ages below 2^32 are shown as they are. */
  lemma SmallAgesStandOut(s: Set, tick: word, clk: Clock, order: seq<nat>, tag: word)
    requires Tracks(s, tick, clk, order) && AgesOk(s, tag, clk)
    ensures EvictsOldest(s, tag, clk)
  {
    if FindWay(s, tag, 0) == 4 && Full(s) {
      assert s[3].valid;
      OldestIsLast(order, clk.used);
      var x := order[3];
      forall w: nat | w < 4
        ensures ShownAge(clk, w) == clk.now - clk.used[w] && (w != x ==> clk.used[x] < clk.used[w])
      {
        assert s[w].valid && w in order;
        var j :| 0 <= j < 4 && order[j] == w;
      }
      assert StandsOut(clk, x);
    }
  }

  ghost predicate TouchedAt(s: Set, s': Set, x: nat, tag: word, tick: word) {
    && x < 4 && s'[x].valid && s'[x].tag == tag && s'[x].last == tick
    && forall w :: 0 <= w < 4 && w != x ==> s'[w] == s[w]
  }

  lemma TouchStamped(s: Set, s': Set, tick: word, clk: Clock, x: nat, tag: word)
    requires Stamped(s, tick, clk) && TouchedAt(s, s', x, tag, tick)
    ensures Stamped(s', Wrap(tick + 1), Clock(clk.now + 1, clk.used[x := clk.now]))
  {
  }

  lemma TouchDistinct(s: Set, s': Set, tick: word, x: nat, tag: word)
    requires TagsDistinct(s) && x == Chosen(s, tick, tag) && TouchedAt(s, s', x, tag, tick)
    ensures TagsDistinct(s')
  {
  }

  lemma TagsNoRepeats(s: Set, clk: Clock, order: seq<nat>)
    requires |order| <= 4 && Lists(order, |order|) && |clk.used| == 4 && LatestFirst(order, clk.used)
    requires TagsDistinct(s) && forall w :: 0 <= w < |order| ==> s[w].valid
    ensures NoRepeats(Tags(s, order))
  {
    forall i, j | 0 <= i < j < |order|
      ensures Tags(s, order)[i] != Tags(s, order)[j]
    {
      assert order[i] != order[j];
    }
  }

  /** A read of a line in the set moves its way, or the victim's, to the front of the order. */
  lemma TouchTracks(s: Set, s': Set, tick: word, clk: Clock, order: seq<nat>, tag: word)
    returns (order': seq<nat>)
    requires Tracks(s, tick, clk, order) && EvictsOldest(s, tag, clk)
    requires TouchedAt(s, s', Chosen(s, tick, tag), tag, tick)
    ensures Tracks(s', Wrap(tick + 1), Clock(clk.now + 1, clk.used[Chosen(s, tick, tag) := clk.now]), order')
    ensures Tags(s', order') == Touch(Tags(s, order), tag)
  {
    var x := Chosen(s, tick, tag);
    TouchStamped(s, s', tick, clk, x, tag);
    TouchDistinct(s, s', tick, x, tag);
    if FindWay(s, tag, 0) < 4 {
      assert x in order;
      var i :| 0 <= i < |order| && order[i] == x;
      MoveToFront(order, i, clk.used, clk.now);
      order' := [order[i]] + (order[..i] + order[i + 1..]);
      HitTags(s, s', tick, clk, order, i, tag);
    } else if !Full(s) {
      assert x == |order|;
      AddToFront(order, clk.used, clk.now);
      order' := [x] + order;
      MissTags(s, s', order, |order|, order', x, tag);
    } else {
      VictimIsOldest(s, tick, clk, order, tag);
      MoveToFront(order, 3, clk.used, clk.now);
      order' := [x] + order[..3];
      assert order' == [order[3]] + (order[..3] + order[4..]);
      MissTags(s, s', order, 3, order', x, tag);
    }
  }

  lemma SameTags(s: Set, s': Set, order: seq<nat>)
    requires forall i :: 0 <= i < |order| ==> order[i] < 4
    requires forall w :: 0 <= w < 4 ==> s'[w].tag == s[w].tag
    ensures Tags(s', order) == Tags(s, order)
  {
  }

  /** The tags of an order with its way `i` moved to the front. */
  lemma TagsMoved(s: Set, order: seq<nat>, i: nat)
    requires i < |order| && forall j :: 0 <= j < |order| ==> order[j] < 4
    ensures var ts := Tags(s, order);
      Tags(s, [order[i]] + (order[..i] + order[i + 1..])) == [ts[i]] + (ts[..i] + ts[i + 1..])
  {
  }

  lemma HitTags(s: Set, s': Set, tick: word, clk: Clock, order: seq<nat>, i: nat, tag: word)
    requires Tracks(s, tick, clk, order) && i < |order| && s[order[i]].tag == tag
    requires forall w :: 0 <= w < 4 ==> s'[w].tag == s[w].tag
    ensures Tags(s', [order[i]] + (order[..i] + order[i + 1..])) == Touch(Tags(s, order), tag)
  {
    TagsNoRepeats(s, clk, order);
    var ts, ts' := Tags(s, order), Tags(s', [order[i]] + (order[..i] + order[i + 1..]));
    WithoutAt(ts, i);
    SameTags(s, s', order);
    TagsMoved(s', order, i);
    assert Tags(s', order) == ts;
  }

  lemma MissTags(s: Set, s': Set, order: seq<nat>, kept: nat, order': seq<nat>, x: nat, tag: word)
    requires |order| <= 4 && Lists(order, |order|) && x < 4
    requires kept <= |order| && order' == [x] + order[..kept] && (kept == |order| < 4 || (kept == 3 && |order| == 4))
    requires forall i :: 0 <= i < kept ==> order[i] != x
    requires s'[x].tag == tag && forall w :: 0 <= w < 4 && w != x ==> s'[w] == s[w]
    requires forall i :: 0 <= i < |order| ==> s[order[i]].tag != tag
    ensures Tags(s', order') == Touch(Tags(s, order), tag)
  {
    WithoutAbsent(Tags(s, order), tag);
    assert Tags(s', order') == [tag] + Tags(s, order)[..kept];
  }

  // ---------------------------------------------------------------- whole runs

  datatype CacheOp =
    | DataRead(paddr: word)
    | DataWrite(paddr: word, data: word)
    | InsnRead(paddr: word)

  function Apply(h: Hierarchy, op: CacheOp): Hierarchy
    requires op.paddr < RAM_LIMIT
  {
    match op
    case DataRead(p) => var r := Read(h.dcache, h.tick, h.ram, p); h.(dcache := r.l1, tick := r.tick)
    case DataWrite(p, x) => Write(h, p, x)
    case InsnRead(p) => var r := Read(h.icache, h.tick, h.ram, p); h.(icache := r.l1, tick := r.tick)
  }

  /** The access reads a data line: it is a data read, or a write that misses. */
  predicate ReadsLine(h: Hierarchy, op: CacheOp) {
    op.DataRead? || (op.DataWrite? && FindWay(h.dcache[Index(op.paddr)], Tag(op.paddr), 0) == 4)
  }

  /** Real time after the access, for the ways of data set `i`. */
  function Tick(h: Hierarchy, clk: Clock, op: CacheOp, i: nat): (r: Clock)
    requires i < 16 && |clk.used| == 4
    ensures |r.used| == 4
  {
    if ReadsLine(h, op) && Index(op.paddr) == i then
      Clock(clk.now + 1, clk.used[Chosen(h.dcache[i], h.tick, Tag(op.paddr)) := clk.now])
    else if ReadsLine(h, op) || op.InsnRead? then Clock(clk.now + 1, clk.used)
    else clk
  }

  function Final(h: Hierarchy, ops: seq<CacheOp>): Hierarchy
    requires forall k :: 0 <= k < |ops| ==> ops[k].paddr < RAM_LIMIT
    decreases |ops|
  {
    if |ops| == 0 then h else Final(Apply(h, ops[0]), ops[1..])
  }

  /** Every real age is below 2^32 whenever set `i` must evict. */
  predicate RunAgesOk(h: Hierarchy, clk: Clock, ops: seq<CacheOp>, i: nat)
    requires i < 16 && |clk.used| == 4 && forall k :: 0 <= k < |ops| ==> ops[k].paddr < RAM_LIMIT
    decreases |ops|
  {
    |ops| == 0 ||
    (&& (ReadsLine(h, ops[0]) && Index(ops[0].paddr) == i ==> AgesOk(h.dcache[i], Tag(ops[0].paddr), clk))
     && RunAgesOk(Apply(h, ops[0]), Tick(h, clk, ops[0], i), ops[1..], i))
  }

  /** The lines of set `i` a run uses: those it reads, and those it writes while they are not among
      the last four. Defined without the cache. */
  function Uses(history: seq<word>, ops: seq<CacheOp>, i: nat): seq<word>
    decreases |ops|
  {
    if |ops| == 0 then history else Uses(Use(history, ops[0], i), ops[1..], i)
  }

  function Use(history: seq<word>, op: CacheOp, i: nat): seq<word> {
    var t := Tag(op.paddr);
    if Index(op.paddr) == i && (op.DataRead? || (op.DataWrite? && t !in Recent(history))) then history + [t]
    else history
  }

  lemma FoundInTags(s: Set, order: seq<nat>, tag: word)
    requires |order| <= 4 && Lists(order, |order|) && forall w :: 0 <= w < 4 ==> (s[w].valid <==> w < |order|)
    ensures FindWay(s, tag, 0) < 4 <==> tag in Tags(s, order)
  {
    var w := FindWay(s, tag, 0);
    if w < 4 {
      assert w in order;
      var i :| 0 <= i < |order| && order[i] == w;
      assert Tags(s, order)[i] == tag;
    }
  }

  /** The effect of one access on the tags and stamps of data set `i`. */
  lemma ApplySet(h: Hierarchy, op: CacheOp, i: nat)
    requires i < 16 && op.paddr < RAM_LIMIT
    ensures var s, s', t := h.dcache[i], Apply(h, op).dcache[i], Tag(op.paddr);
      if ReadsLine(h, op) && Index(op.paddr) == i then TouchedAt(s, s', Chosen(s, h.tick, t), t, h.tick)
      else forall w :: 0 <= w < 4 ==> s'[w].(data := s[w].data) == s[w]
    ensures Apply(h, op).tick == if ReadsLine(h, op) || op.InsnRead? then Wrap(h.tick + 1) else h.tick
  {
  }

  /** One access keeps set `i` of the data cache in step with the recency stack. */
  lemma ApplyTracks(h: Hierarchy, clk: Clock, order: seq<nat>, history: seq<word>, op: CacheOp, i: nat)
    returns (order': seq<nat>)
    requires i < 16 && op.paddr < RAM_LIMIT
    requires Tracks(h.dcache[i], h.tick, clk, order) && Tags(h.dcache[i], order) == Recent(history)
    requires ReadsLine(h, op) && Index(op.paddr) == i ==> EvictsOldest(h.dcache[i], Tag(op.paddr), clk)
    ensures Tracks(Apply(h, op).dcache[i], Apply(h, op).tick, Tick(h, clk, op, i), order')
    ensures Tags(Apply(h, op).dcache[i], order') == Recent(Use(history, op, i))
  {
    if ReadsLine(h, op) && Index(op.paddr) == i {
      order' := UsedTracks(h, clk, order, history, op, i);
    } else {
      order' := order;
      UnusedTracks(h, clk, order, history, op, i);
    }
  }

  lemma UsedTracks(h: Hierarchy, clk: Clock, order: seq<nat>, history: seq<word>, op: CacheOp, i: nat)
    returns (order': seq<nat>)
    requires i < 16 && op.paddr < RAM_LIMIT && ReadsLine(h, op) && Index(op.paddr) == i
    requires Tracks(h.dcache[i], h.tick, clk, order) && Tags(h.dcache[i], order) == Recent(history)
    requires EvictsOldest(h.dcache[i], Tag(op.paddr), clk)
    ensures Tracks(Apply(h, op).dcache[i], Apply(h, op).tick, Tick(h, clk, op, i), order')
    ensures Tags(Apply(h, op).dcache[i], order') == Recent(Use(history, op, i))
  {
    var s, s', t := h.dcache[i], Apply(h, op).dcache[i], Tag(op.paddr);
    ApplySet(h, op, i);
    UsedRecorded(h, order, history, op, i);
    order' := TouchTracks(s, s', h.tick, clk, order, t);
    TouchRecent(history, t);
  }

  lemma UnusedTracks(h: Hierarchy, clk: Clock, order: seq<nat>, history: seq<word>, op: CacheOp, i: nat)
    requires i < 16 && op.paddr < RAM_LIMIT && !(ReadsLine(h, op) && Index(op.paddr) == i)
    requires Tracks(h.dcache[i], h.tick, clk, order) && Tags(h.dcache[i], order) == Recent(history)
    ensures Tracks(Apply(h, op).dcache[i], Apply(h, op).tick, Tick(h, clk, op, i), order)
    ensures Tags(Apply(h, op).dcache[i], order) == Recent(Use(history, op, i))
  {
    ApplySet(h, op, i);
    UsedRecorded(h, order, history, op, i);
    UntouchedTracks(h.dcache[i], Apply(h, op).dcache[i], h.tick, Apply(h, op).tick, clk, Tick(h, clk, op, i), order);
  }

  /** The reference history grows exactly when the cache reads a line of the set. */
  lemma UsedRecorded(h: Hierarchy, order: seq<nat>, history: seq<word>, op: CacheOp, i: nat)
    requires i < 16 && |order| <= 4 && Lists(order, |order|)
    requires forall w :: 0 <= w < 4 ==> (h.dcache[i][w].valid <==> w < |order|)
    requires Tags(h.dcache[i], order) == Recent(history)
    ensures Use(history, op, i)
         == if ReadsLine(h, op) && Index(op.paddr) == i then history + [Tag(op.paddr)] else history
  {
    FoundInTags(h.dcache[i], order, Tag(op.paddr));
  }

  lemma UntouchedTracks(s: Set, s': Set, tick: word, tick': word, clk: Clock, clk': Clock, order: seq<nat>)
    requires Tracks(s, tick, clk, order)
    requires forall w :: 0 <= w < 4 ==> s'[w].(data := s[w].data) == s[w]
    requires (clk' == clk && tick' == tick) || (clk' == Clock(clk.now + 1, clk.used) && tick' == Wrap(tick + 1))
    ensures Tracks(s', tick', clk', order) && Tags(s', order) == Tags(s, order)
  {
    forall w | 0 <= w < 4
      ensures s'[w].tag == s[w].tag && s'[w].valid == s[w].valid && s'[w].last == s[w].last
    {
      assert s'[w].(data := s[w].data) == s[w];
    }
    assert Tags(s', order) == Tags(s, order);
  }

  lemma {:induction false} RunTracks(h: Hierarchy, clk: Clock, order: seq<nat>, history: seq<word>,
                                     ops: seq<CacheOp>, i: nat)
    returns (clk': Clock, order': seq<nat>)
    requires i < 16 && forall k :: 0 <= k < |ops| ==> ops[k].paddr < RAM_LIMIT
    requires Tracks(h.dcache[i], h.tick, clk, order) && Tags(h.dcache[i], order) == Recent(history)
    requires RunAgesOk(h, clk, ops, i)
    ensures Tracks(Final(h, ops).dcache[i], Final(h, ops).tick, clk', order')
    ensures Tags(Final(h, ops).dcache[i], order') == Recent(Uses(history, ops, i))
    decreases |ops|
  {
    if |ops| == 0 {
      clk', order' := clk, order;
    } else {
      if ReadsLine(h, ops[0]) && Index(ops[0].paddr) == i {
        SmallAgesStandOut(h.dcache[i], h.tick, clk, order, Tag(ops[0].paddr));
      }
      var order1 := ApplyTracks(h, clk, order, history, ops[0], i);
      clk', order' := RunTracks(Apply(h, ops[0]), Tick(h, clk, ops[0], i), order1,
                                Use(history, ops[0], i), ops[1..], i);
    }
  }

  /** From reset, after any run in which no line of the set is older than 2^32 ticks when the set must
      evict, the set holds exactly the last four distinct lines it read or missed on a write. */
  lemma {:induction false} HoldsLastFour(h: Hierarchy, ops: seq<CacheOp>, i: nat, t: word)
    requires i < 16 && forall k :: 0 <= k < |ops| ==> ops[k].paddr < RAM_LIMIT
    requires h.tick == 0 && forall w :: 0 <= w < 4 ==> !h.dcache[i][w].valid
    requires RunAgesOk(h, Clock(0, [0, 0, 0, 0]), ops, i)
    ensures var s := Final(h, ops).dcache[i];
      && TagsDistinct(s)
      && ((exists w :: 0 <= w < 4 && s[w].valid && s[w].tag == t) <==> t in Recent(Uses([], ops, i)))
  {
    var clk, order := RunTracks(h, Clock(0, [0, 0, 0, 0]), [], [], ops, i);
    FoundInTags(Final(h, ops).dcache[i], order, t);
  }
}
