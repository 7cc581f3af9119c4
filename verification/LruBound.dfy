/** The age bound of the data cache: said of the access history alone, and what happens beyond it. */
module LruBound {
  import opened Words
  import opened Cache
  import opened Recency
  import opened Lru

  // ---------------------------------------------------------------- the bound on the history

  /** The access uses a line of set `i`. */
  predicate UsesLine(history: seq<word>, op: CacheOp, i: nat) {
    Index(op.paddr) == i && (op.DataRead? || (op.DataWrite? && Tag(op.paddr) !in Recent(history)))
  }

  /** Whenever the run uses a line that is not among the last four, each of these was last used (`at`)
      fewer than 2^32 accesses ago. Said without the cache. */
  predicate HistoryAgesOk(history: seq<word>, at: map<word, nat>, ops: seq<CacheOp>, i: nat, k: nat)
    decreases |ops|
  {
    |ops| == 0 ||
    (var op, t := ops[0], Tag(ops[0].paddr);
     && (UsesLine(history, op, i) && t !in Recent(history) && |Recent(history)| == 4 ==>
           forall u :: u in Recent(history) ==> u in at && k - at[u] < WORD_LIMIT)
     && HistoryAgesOk(Use(history, op, i), if UsesLine(history, op, i) then at[t := k] else at, ops[1..], i, k + 1))
  }

  /** No valid way is older in ticks than its line is in accesses. */
  predicate NoOlder(s: Set, clk: Clock, at: map<word, nat>, k: nat)
    requires |clk.used| == 4
  {
    forall w :: 0 <= w < 4 && s[w].valid ==> s[w].tag in at && clk.now - clk.used[w] <= k - at[s[w].tag]
  }

  lemma AgesFromHistory(s: Set, tick: word, clk: Clock, order: seq<nat>, history: seq<word>,
                        at: map<word, nat>, t: word, k: nat)
    requires Tracks(s, tick, clk, order) && Tags(s, order) == Recent(history) && NoOlder(s, clk, at, k)
    requires t !in Recent(history) && |Recent(history)| == 4 ==>
               forall u :: u in Recent(history) ==> u in at && k - at[u] < WORD_LIMIT
    ensures AgesOk(s, t, clk)
  {
    if FindWay(s, t, 0) == 4 && Full(s) {
      FoundInTags(s, order, t);
      assert s[3].valid;
      forall w: nat | w < 4
        ensures clk.now - clk.used[w] < WORD_LIMIT
      {
        assert s[w].valid && w in order;
        var j :| 0 <= j < |order| && order[j] == w;
        assert Tags(s, order)[j] == s[w].tag;
      }
    }
  }

  lemma StaysNoOlder(h: Hierarchy, clk: Clock, order: seq<nat>, history: seq<word>, at: map<word, nat>,
                     op: CacheOp, i: nat, k: nat)
    requires i < 16 && op.paddr < RAM_LIMIT && Tracks(h.dcache[i], h.tick, clk, order)
    requires Tags(h.dcache[i], order) == Recent(history) && NoOlder(h.dcache[i], clk, at, k)
    requires TagsDistinct(Apply(h, op).dcache[i])
    ensures NoOlder(Apply(h, op).dcache[i], Tick(h, clk, op, i),
                    if UsesLine(history, op, i) then at[Tag(op.paddr) := k] else at, k + 1)
  {
    var s, s', t := h.dcache[i], Apply(h, op).dcache[i], Tag(op.paddr);
    ApplySet(h, op, i);
    FoundInTags(s, order, t);
    assert UsesLine(history, op, i) <==> ReadsLine(h, op) && Index(op.paddr) == i;
    if UsesLine(history, op, i) {
      var x := Chosen(s, h.tick, t);
      forall w: nat | w < 4 && w != x && s'[w].valid
        ensures s'[w].tag != t
      {
        if w < x {
          assert s'[w].tag != s'[x].tag;
        }
      }
    } else {
      forall w: nat | w < 4
        ensures s'[w].tag == s[w].tag && s'[w].valid == s[w].valid
      {
        assert s'[w].(data := s[w].data) == s[w];
      }
    }
  }

  lemma {:induction false} HistoryBoundsAges(h: Hierarchy, clk: Clock, order: seq<nat>, history: seq<word>,
                                             at: map<word, nat>, ops: seq<CacheOp>, i: nat, k: nat)
    requires i < 16 && forall j :: 0 <= j < |ops| ==> ops[j].paddr < RAM_LIMIT
    requires Tracks(h.dcache[i], h.tick, clk, order) && Tags(h.dcache[i], order) == Recent(history)
    requires NoOlder(h.dcache[i], clk, at, k) && HistoryAgesOk(history, at, ops, i, k)
    ensures RunAgesOk(h, clk, ops, i)
    decreases |ops|
  {
    if |ops| != 0 {
      var op, t := ops[0], Tag(ops[0].paddr);
      FoundInTags(h.dcache[i], order, t);
      if ReadsLine(h, op) && Index(op.paddr) == i {
        AgesFromHistory(h.dcache[i], h.tick, clk, order, history, at, t, k);
        SmallAgesStandOut(h.dcache[i], h.tick, clk, order, t);
      }
      var order' := ApplyTracks(h, clk, order, history, op, i);
      StaysNoOlder(h, clk, order, history, at, op, i, k);
      HistoryBoundsAges(Apply(h, op), Tick(h, clk, op, i), order', Use(history, op, i),
                        if UsesLine(history, op, i) then at[t := k] else at, ops[1..], i, k + 1);
    }
  }

  /** From reset, a set holds exactly the last four distinct lines it read or missed on a write, if the
      access history never needs a line that is 2^32 accesses old to be told from a new one. */
  lemma {:induction false} HistoryHoldsLastFour(h: Hierarchy, ops: seq<CacheOp>, i: nat, t: word)
    requires i < 16 && forall k :: 0 <= k < |ops| ==> ops[k].paddr < RAM_LIMIT
    requires h.tick == 0 && forall w :: 0 <= w < 4 ==> !h.dcache[i][w].valid
    requires HistoryAgesOk([], map[], ops, i, 0)
    ensures var s := Final(h, ops).dcache[i];
      && TagsDistinct(s)
      && ((exists w :: 0 <= w < 4 && s[w].valid && s[w].tag == t) <==> t in Recent(Uses([], ops, i)))
  {
    HistoryBoundsAges(h, Clock(0, [0, 0, 0, 0]), [], [], map[], ops, i, 0);
    HoldsLastFour(h, ops, i, t);
  }

  /** Any run of at most 2^32 accesses meets the bound. */
  lemma {:induction false} ShortRunAges(history: seq<word>, at: map<word, nat>, ops: seq<CacheOp>, i: nat, k: nat)
    requires k + |ops| <= WORD_LIMIT && forall u :: u in history ==> u in at
    ensures HistoryAgesOk(history, at, ops, i, k)
    decreases |ops|
  {
    DistinctElements(history);
    if |ops| != 0 {
      var used := UsesLine(history, ops[0], i);
      ShortRunAges(Use(history, ops[0], i), if used then at[Tag(ops[0].paddr) := k] else at, ops[1..], i, k + 1);
    }
  }

  // ---------------------------------------------------------------- beyond the bound

  /** Line `v` of set 0 that the run below uses. */
  function LineAddress(v: nat): word
    requires v <= 4
  {
    1024 * v
  }

  /** Reads of a line in another set, to let time pass. */
  function Idle(n: nat): seq<CacheOp> {
    seq(n, _ => DataRead(64))
  }

  function Fill(): seq<CacheOp> {
    [DataRead(LineAddress(0)), DataRead(LineAddress(1)), DataRead(LineAddress(2)), DataRead(LineAddress(3))]
  }

  /** The first `n` ways of set 0 hold the first `n` lines, each read one tick after the one before. */
  predicate Filled(h: Hierarchy, n: nat)
    requires n <= 4
  {
    && h.tick == n
    && (forall v :: 0 <= v < n ==> h.dcache[0][v].valid && h.dcache[0][v].tag == 1024 * v && h.dcache[0][v].last == v)
    && (forall v :: n <= v < 4 ==> !h.dcache[0][v].valid)
  }

  lemma FillNext(h: Hierarchy, n: nat)
    requires n < 4 && Filled(h, n)
    ensures Filled(Apply(h, DataRead(LineAddress(n))), n + 1)
  {
    LineFields(n);
    FreshVictim(h.dcache[0], n);
    ReadFills(h, n);
  }

  lemma FreshVictim(s: Set, n: nat)
    requires n < 4 && (forall v :: 0 <= v < n ==> s[v].valid && s[v].tag == 1024 * v)
    requires forall v :: n <= v < 4 ==> !s[v].valid
    ensures FindWay(s, 1024 * n, 0) == 4 && Victim(s, n, 0, 0, 0) == n
  {
    FirstFree(s, n, n, 0, 0, 0);
  }

  lemma ReadFills(h: Hierarchy, n: nat)
    requires n < 4 && FindWay(h.dcache[0], 1024 * n, 0) == 4 && Victim(h.dcache[0], n, 0, 0, 0) == n
    requires h.tick == n && Index(LineAddress(n)) == 0 && Tag(LineAddress(n)) == 1024 * n
    ensures var h' := Apply(h, DataRead(LineAddress(n)));
      && h'.tick == n + 1
      && h'.dcache[0][n].valid && h'.dcache[0][n].tag == 1024 * n && h'.dcache[0][n].last == n
      && forall v :: 0 <= v < 4 && v != n ==> h'.dcache[0][v] == h.dcache[0][v]
  {
  }

  lemma LineFields(v: nat)
    requires v <= 4
    ensures Index(LineAddress(v)) == 0 && Tag(LineAddress(v)) == 1024 * v && LineAddress(v) < RAM_LIMIT
  {
  }

  lemma {:induction false} FirstFree(s: Set, tick: word, n: nat, w: nat, oldest: word, target: nat)
    requires w <= n < 4 && target < 4 && !s[n].valid && forall v :: 0 <= v < n ==> s[v].valid
    ensures Victim(s, tick, w, oldest, target) == n
    decreases n - w
  {
    if w < n {
      var age := Age(s[w], tick);
      FirstFree(s, tick, n, w + 1, if age > oldest then age else oldest, if age > oldest then w else target);
    }
  }

  lemma {:induction false} IdleKeeps(h: Hierarchy, n: nat)
    ensures Final(h, Idle(n)).dcache[0] == h.dcache[0] && Final(h, Idle(n)).tick == Wrap(h.tick + n)
    decreases n
  {
    if n != 0 {
      assert Idle(n)[1..] == Idle(n - 1);
      IdleOnce(h);
      IdleKeeps(Apply(h, DataRead(64)), n - 1);
      WrapNext(h.tick, n - 1);
    }
  }

  lemma IdleOnce(h: Hierarchy)
    ensures Apply(h, DataRead(64)).dcache[0] == h.dcache[0] && Apply(h, DataRead(64)).tick == Wrap(h.tick + 1)
  {
  }

  lemma WrapNext(t: word, n: nat)
    ensures Wrap(Wrap(t + 1) + n) == Wrap(t + (n + 1))
  {
  }

  lemma {:induction false} FinalConcat(h: Hierarchy, a: seq<CacheOp>, b: seq<CacheOp>)
    requires forall k :: 0 <= k < |a| ==> a[k].paddr < RAM_LIMIT
    requires forall k :: 0 <= k < |b| ==> b[k].paddr < RAM_LIMIT
    ensures Final(h, a + b) == Final(Final(h, a), b)
    decreases |a|
  {
    if |a| == 0 {
      assert a + b == b;
    } else {
      assert (a + b)[1..] == a[1..] + b;
      FinalConcat(Apply(h, a[0]), a[1..], b);
    }
  }

  lemma {:induction false} UsesConcat(history: seq<word>, a: seq<CacheOp>, b: seq<CacheOp>, i: nat)
    ensures Uses(history, a + b, i) == Uses(Uses(history, a, i), b, i)
    decreases |a|
  {
    if |a| == 0 {
      assert a + b == b;
    } else {
      assert (a + b)[1..] == a[1..] + b;
      UsesConcat(Use(history, a[0], i), a[1..], b, i);
    }
  }

  lemma {:induction false} IdleUsesNothing(history: seq<word>, n: nat)
    ensures Uses(history, Idle(n), 0) == history
    decreases n
  {
    if n != 0 {
      assert Idle(n)[1..] == Idle(n - 1);
      IdleUsesNothing(history, n - 1);
    }
  }

  /** Four lines, a pause of `n` reads elsewhere, a fifth line. */
  function PauseRun(n: nat): (ops: seq<CacheOp>)
    ensures forall k :: 0 <= k < |ops| ==> ops[k].paddr < RAM_LIMIT
  {
    Fill() + Idle(n) + [DataRead(LineAddress(4))]
  }

  lemma FinalCons(h: Hierarchy, op: CacheOp, rest: seq<CacheOp>)
    requires op.paddr < RAM_LIMIT && forall k :: 0 <= k < |rest| ==> rest[k].paddr < RAM_LIMIT
    ensures Final(h, [op] + rest) == Final(Apply(h, op), rest)
  {
    assert ([op] + rest)[1..] == rest;
  }

  lemma FillState(h: Hierarchy)
    requires Filled(h, 0)
    ensures Filled(Final(h, Fill()), 4)
  {
    var a, b := DataRead(LineAddress(0)), DataRead(LineAddress(1));
    var c, d := DataRead(LineAddress(2)), DataRead(LineAddress(3));
    var h1 := Apply(h, a);
    var h2 := Apply(h1, b);
    var h3 := Apply(h2, c);
    FillNext(h, 0);
    FillNext(h1, 1);
    FillNext(h2, 2);
    FillNext(h3, 3);
    FinalCons(h3, d, []);
    FinalCons(h2, c, [d]);
    FinalCons(h1, b, [c, d]);
    FinalCons(h, a, [b, c, d]);
    assert [d] + [] == [d] && [c] + [d] == [c, d] && [b] + [c, d] == [b, c, d] && [a] + [b, c, d] == Fill();
  }

  /** With the counter back at zero the oldest line looks brand new: the second oldest goes. */
  lemma SecondOldestGoes(h: Hierarchy)
    requires h.tick == 0
    requires forall v :: 0 <= v < 4 ==>
      h.dcache[0][v].valid && h.dcache[0][v].tag == 1024 * v && h.dcache[0][v].last == v
    ensures var s := Apply(h, DataRead(LineAddress(4))).dcache[0];
      s[0] == h.dcache[0][0] && s[1].tag == 4096
  {
    var s := h.dcache[0];
    LineFields(4);
    assert Age(s[0], 0) == 0 && Age(s[1], 0) == WORD_LIMIT - 1;
    assert Age(s[2], 0) == WORD_LIMIT - 2 && Age(s[3], 0) == WORD_LIMIT - 3;
    assert FindWay(s, 4096, 0) == 4;
    assert Victim(s, 0, 0, 0, 0) == 1;
  }

  lemma PauseRunUses(n: nat)
    ensures Uses([], PauseRun(n), 0) == [0, 1024, 2048, 3072, 4096]
  {
    var f := Fill();
    LineFields(0);
    LineFields(1);
    LineFields(2);
    LineFields(3);
    LineFields(4);
    assert f[1..][1..][1..][1..] == [];
    assert Uses([], f, 0) == Uses([0], f[1..], 0) == Uses([0, 1024], f[1..][1..], 0)
        == Uses([0, 1024, 2048], f[1..][1..][1..], 0) == [0, 1024, 2048, 3072];
    UsesConcat([], f, Idle(n), 0);
    IdleUsesNothing([0, 1024, 2048, 3072], n);
    UsesConcat([], f + Idle(n), [DataRead(LineAddress(4))], 0);
  }

  /** The last four distinct lines of five distinct ones. */
  lemma LastFourOfFive(a: word, b: word, c: word, d: word, e: word)
    requires NoRepeats([a, b, c, d, e])
    ensures Recent([a, b, c, d, e]) == [e, d, c, b]
  {
    var s := [a, b, c, d, e];
    assert s[0] == a && s[1] == b && s[2] == c && s[3] == d && s[4] == e;
    DistinctPush([], a);
    DistinctPush([a], b);
    DistinctPush([a, b], c);
    DistinctPush([a, b, c], d);
    DistinctPush([a, b, c, d], e);
    assert [] + [a] == [a] && [a] + [b] == [a, b] && [a, b] + [c] == [a, b, c];
    assert [a, b, c] + [d] == [a, b, c, d] && [a, b, c, d] + [e] == s;
    assert Distinct(s) == [e, d, c, b, a];
  }

  lemma DistinctPush(history: seq<word>, t: word)
    requires t !in history
    ensures Distinct(history + [t]) == [t] + Distinct(history)
  {
    DistinctElements(history);
    assert (history + [t])[..|history|] == history;
    WithoutAbsent(Distinct(history), t);
  }

  lemma RunInParts(h: Hierarchy, n: nat)
    ensures Final(h, PauseRun(n)) ==
      Apply(Final(Final(h, Fill()), Idle(n)), DataRead(LineAddress(4)))
  {
    var f, last := Fill(), [DataRead(LineAddress(4))];
    FinalConcat(h, f, Idle(n));
    FinalConcat(h, f + Idle(n), last);
    assert last[1..] == [];
  }

  /** The set after the four lines and a pause that brings the counter back to zero. */
  lemma SetAfterPause(h: Hierarchy, n: nat)
    requires Filled(h, 0) && Wrap(4 + n) == 0
    ensures Filled(Final(h, Fill()), 4)
    ensures var h' := Final(Final(h, Fill()), Idle(n));
      h'.tick == 0 && h'.dcache[0] == Final(h, Fill()).dcache[0]
  {
    FillState(h);
    IdleKeeps(Final(h, Fill()), n);
  }

  lemma OldestStays(h: Hierarchy, n: nat)
    requires Filled(h, 0) && Wrap(4 + n) == 0
    ensures var s := Final(h, PauseRun(n)).dcache[0]; s[0].valid && s[0].tag == 0
  {
    SetAfterPause(h, n);
    RunInParts(h, n);
    SecondOldestGoes(Final(Final(h, Fill()), Idle(n)));
  }

  lemma NotAmongLast(n: nat)
    ensures Recent(Uses([], PauseRun(n), 0)) == [4096, 3072, 2048, 1024]
  {
    PauseRunUses(n);
    LastFourOfFive(0, 1024, 2048, 3072, 4096);
  }

  /** The bound is needed: from reset, if the pause brings the 32-bit counter back to zero, as 2^32 - 4
      reads do, the run leaves the oldest line in the set and so not the last four. */
  lemma {:induction false} WrappedAgeSurvives(h: Hierarchy, n: nat)
    requires h.tick == 0 && forall w :: 0 <= w < 4 ==> !h.dcache[0][w].valid
    requires Wrap(4 + n) == 0
    ensures var s := Final(h, PauseRun(n)).dcache[0];
      && s[0].valid && s[0].tag == 0
      && Recent(Uses([], PauseRun(n), 0)) == [4096, 3072, 2048, 1024]
  {
    OldestStays(h, n);
    NotAmongLast(n);
  }
}
