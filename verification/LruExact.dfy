/** When a set of the data cache holds its last four lines throughout a run: exactly. */
module LruExact {
  import opened Words
  import opened Cache
  import opened Recency
  import opened Lru

  /** The set holds exactly the last four distinct lines of the history. */
  ghost predicate HoldsRecent(s: Set, history: seq<word>) {
    forall t: word :: (exists w :: 0 <= w < 4 && s[w].valid && s[w].tag == t) <==> t in Recent(history)
  }

  /** At every eviction of the run the line really used longest ago has the greatest age modulo 2^32,
      the first such way counting. */
  predicate RunEvictsOldest(h: Hierarchy, clk: Clock, ops: seq<CacheOp>, i: nat)
    requires i < 16 && |clk.used| == 4 && forall k :: 0 <= k < |ops| ==> ops[k].paddr < RAM_LIMIT
    decreases |ops|
  {
    |ops| == 0 ||
    (&& (ReadsLine(h, ops[0]) && Index(ops[0].paddr) == i ==> EvictsOldest(h.dcache[i], Tag(ops[0].paddr), clk))
     && RunEvictsOldest(Apply(h, ops[0]), Tick(h, clk, ops[0], i), ops[1..], i))
  }

  /** The set holds the last four lines now and after every access of the run. */
  ghost predicate HoldsThroughout(h: Hierarchy, history: seq<word>, ops: seq<CacheOp>, i: nat)
    requires i < 16 && forall k :: 0 <= k < |ops| ==> ops[k].paddr < RAM_LIMIT
    decreases |ops|
  {
    && HoldsRecent(h.dcache[i], history)
    && (|ops| == 0 || HoldsThroughout(Apply(h, ops[0]), Use(history, ops[0], i), ops[1..], i))
  }

  lemma TracksHolds(s: Set, tick: word, clk: Clock, order: seq<nat>, history: seq<word>)
    requires Tracks(s, tick, clk, order) && Tags(s, order) == Recent(history)
    ensures HoldsRecent(s, history)
  {
    forall t: word
      ensures (exists w :: 0 <= w < 4 && s[w].valid && s[w].tag == t) <==> t in Recent(history)
    {
      FoundInTags(s, order, t);
    }
  }

  /** If another way is evicted than the oldest, the oldest line stays where a fourth should be gone. */
  lemma WrongVictimShows(h: Hierarchy, clk: Clock, order: seq<nat>, history: seq<word>, op: CacheOp, i: nat)
    requires i < 16 && op.paddr < RAM_LIMIT
    requires Tracks(h.dcache[i], h.tick, clk, order) && Tags(h.dcache[i], order) == Recent(history)
    requires ReadsLine(h, op) && Index(op.paddr) == i && !EvictsOldest(h.dcache[i], Tag(op.paddr), clk)
    ensures !HoldsRecent(Apply(h, op).dcache[i], Use(history, op, i))
  {
    var s, s', t := h.dcache[i], Apply(h, op).dcache[i], Tag(op.paddr);
    VictimIsOldest(s, h.tick, clk, order, t);
    ApplySet(h, op, i);
    FoundInTags(s, order, t);
    var last := order[3];
    assert s'[last] == s[last] && s[last].valid;
    assert Tags(s, order)[3] == s[last].tag;
    TagsNoRepeats(s, clk, order);
    WithoutAbsent(Recent(history), t);
    TouchRecent(history, t);
    assert Recent(history + [t]) == [t] + Recent(history)[..3];
    LastDropped(Recent(history), t);
    assert s[last].tag !in Recent(history + [t]);
  }

  lemma LastDropped(ts: seq<word>, t: word)
    requires |ts| == 4 && NoRepeats(ts) && t !in ts
    ensures ts[3] !in [t] + ts[..3]
  {
  }

  lemma {:induction false} ThroughoutIff(h: Hierarchy, clk: Clock, order: seq<nat>, history: seq<word>,
                                         ops: seq<CacheOp>, i: nat)
    requires i < 16 && forall k :: 0 <= k < |ops| ==> ops[k].paddr < RAM_LIMIT
    requires Tracks(h.dcache[i], h.tick, clk, order) && Tags(h.dcache[i], order) == Recent(history)
    ensures HoldsThroughout(h, history, ops, i) <==> RunEvictsOldest(h, clk, ops, i)
    decreases |ops|
  {
    TracksHolds(h.dcache[i], h.tick, clk, order, history);
    if |ops| != 0 {
      var op, t := ops[0], Tag(ops[0].paddr);
      if ReadsLine(h, op) && Index(op.paddr) == i && !EvictsOldest(h.dcache[i], t, clk) {
        WrongVictimShows(h, clk, order, history, op, i);
      } else {
        var order' := ApplyTracks(h, clk, order, history, op, i);
        ThroughoutIff(Apply(h, op), Tick(h, clk, op, i), order', Use(history, op, i), ops[1..], i);
      }
    }
  }

  lemma {:induction false} PrefixesIff(h: Hierarchy, history: seq<word>, ops: seq<CacheOp>, i: nat)
    requires i < 16 && forall k :: 0 <= k < |ops| ==> ops[k].paddr < RAM_LIMIT
    ensures HoldsThroughout(h, history, ops, i) <==>
      forall n :: 0 <= n <= |ops| ==> HoldsRecent(Final(h, ops[..n]).dcache[i], Uses(history, ops[..n], i))
    decreases |ops|
  {
    if |ops| != 0 {
      var h1, history1, rest := Apply(h, ops[0]), Use(history, ops[0], i), ops[1..];
      PrefixesIff(h1, history1, rest, i);
      forall n: nat | n < |ops|
        ensures Final(h, ops[..n + 1]) == Final(h1, rest[..n])
        ensures Uses(history, ops[..n + 1], i) == Uses(history1, rest[..n], i)
      {
        assert ops[..n + 1][1..] == rest[..n];
      }
      if forall n :: 0 <= n <= |ops| ==> HoldsRecent(Final(h, ops[..n]).dcache[i], Uses(history, ops[..n], i)) {
        assert HoldsRecent(Final(h, ops[..0]).dcache[i], Uses(history, ops[..0], i));
        forall n: nat | n <= |rest|
          ensures HoldsRecent(Final(h1, rest[..n]).dcache[i], Uses(history1, rest[..n], i))
        {
          assert HoldsRecent(Final(h, ops[..n + 1]).dcache[i], Uses(history, ops[..n + 1], i));
        }
      }
      if HoldsThroughout(h, history, ops, i) {
        forall n: nat | n <= |ops|
          ensures HoldsRecent(Final(h, ops[..n]).dcache[i], Uses(history, ops[..n], i))
        {
          if n != 0 {
            assert HoldsRecent(Final(h1, rest[..n - 1]).dcache[i], Uses(history1, rest[..n - 1], i));
          }
        }
      }
    } else {
      assert ops[..0] == ops;
    }
  }

  /** From reset, every prefix of the run leaves the set with exactly its last four lines if and only if
      at every eviction the really oldest line is the first of the greatest age modulo 2^32. */
  lemma {:induction false} LastFourIff(h: Hierarchy, ops: seq<CacheOp>, i: nat)
    requires i < 16 && forall k :: 0 <= k < |ops| ==> ops[k].paddr < RAM_LIMIT
    requires h.tick == 0 && forall w :: 0 <= w < 4 ==> !h.dcache[i][w].valid
    ensures RunEvictsOldest(h, Clock(0, [0, 0, 0, 0]), ops, i) <==>
      forall n :: 0 <= n <= |ops| ==> HoldsRecent(Final(h, ops[..n]).dcache[i], Uses([], ops[..n], i))
  {
    ThroughoutIff(h, Clock(0, [0, 0, 0, 0]), [], [], ops, i);
    PrefixesIff(h, [], ops, i);
  }
}
