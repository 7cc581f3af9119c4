/** The data cache replaces the least recently used line: each set is a recency stack. */
module Recency {
  import opened Words

  // ---------------------------------------------------------------- the reference: last distinct lines

  function Without(s: seq<word>, x: word): seq<word> {
    if |s| == 0 then []
    else if s[0] == x then Without(s[1..], x)
    else [s[0]] + Without(s[1..], x)
  }

  function Take(s: seq<word>, n: nat): seq<word> {
    if n < |s| then s[..n] else s
  }

  ghost predicate NoRepeats(s: seq<word>) {
    forall i, j :: 0 <= i < j < |s| ==> s[i] != s[j]
  }

  /** The distinct elements of a history, most recently used first. */
  function Distinct(history: seq<word>): seq<word> {
    if |history| == 0 then []
    else
      var t := history[|history| - 1];
      [t] + Without(Distinct(history[..|history| - 1]), t)
  }

  /** The last four distinct lines of a history. */
  function Recent(history: seq<word>): seq<word> {
    Take(Distinct(history), 4)
  }

  lemma {:induction false} WithoutAbsent(s: seq<word>, x: word)
    requires x !in s
    ensures Without(s, x) == s
  {
    if |s| != 0 {
      WithoutAbsent(s[1..], x);
    }
  }

  lemma {:induction false} WithoutAt(s: seq<word>, i: nat)
    requires NoRepeats(s) && i < |s|
    ensures Without(s, s[i]) == s[..i] + s[i + 1..]
  {
    if i == 0 {
      assert s[0] !in s[1..];
      WithoutAbsent(s[1..], s[0]);
    } else {
      WithoutAt(s[1..], i - 1);
      assert s[1..][..i - 1] + s[1..][i..] == s[1..i] + s[i + 1..];
    }
  }

  lemma WithoutNoRepeats(s: seq<word>, x: word)
    requires NoRepeats(s)
    ensures NoRepeats(Without(s, x)) && x !in Without(s, x)
    ensures forall y :: y in Without(s, x) <==> y in s && y != x
  {
    if x in s {
      var i :| 0 <= i < |s| && s[i] == x;
      WithoutAt(s, i);
      assert s == s[..i] + [x] + s[i + 1..];
    } else {
      WithoutAbsent(s, x);
    }
  }

  /** `Distinct` lists exactly the lines of the history, once each. */
  lemma {:induction false} DistinctElements(history: seq<word>)
    ensures NoRepeats(Distinct(history))
    ensures forall t :: t in Distinct(history) <==> t in history
  {
    if |history| != 0 {
      var n := |history| - 1;
      DistinctElements(history[..n]);
      WithoutNoRepeats(Distinct(history[..n]), history[n]);
      assert history == history[..n] + [history[n]];
    }
  }

  /** Position `k` holds the last use of line `t`. */
  predicate LastUse(history: seq<word>, t: word, k: nat) {
    k < |history| && history[k] == t && t !in history[k + 1..]
  }

  lemma LastUseInPrefix(history: seq<word>, n: nat, x: word, k: nat)
    requires |history| == n + 1 && history[n] != x && LastUse(history, x, k)
    ensures LastUse(history[..n], x, k)
  {
    assert history[k + 1..] == history[..n][k + 1..] + [history[n]];
  }

  /** Removing an element keeps the order of the others. */
  lemma WithoutKeepsOrder(s: seq<word>, x: word, i: nat, j: nat) returns (i': nat, j': nat)
    requires NoRepeats(s) && i < j < |Without(s, x)|
    ensures i' < j' < |s| && s[i'] == Without(s, x)[i] && s[j'] == Without(s, x)[j]
  {
    if x in s {
      var k :| 0 <= k < |s| && s[k] == x;
      WithoutAt(s, k);
      i', j' := if i < k then i else i + 1, if j < k then j else j + 1;
    } else {
      WithoutAbsent(s, x);
      i', j' := i, j;
    }
  }

  /** An earlier line of `Distinct` was used later. */
  lemma {:induction false} DistinctOrder(history: seq<word>, i: nat, j: nat, ki: nat, kj: nat)
    requires i < j < |Distinct(history)|
    requires LastUse(history, Distinct(history)[i], ki) && LastUse(history, Distinct(history)[j], kj)
    ensures ki > kj
    decreases |history|
  {
    var n, d := |history| - 1, Distinct(history);
    DistinctElements(history);
    assert d[0] == history[n];
    assert d[j] != d[0];
    LastUseInPrefix(history, n, d[j], kj);
    if i != 0 {
      assert d[i] != d[0];
      LastUseInPrefix(history, n, d[i], ki);
      var p := history[..n];
      DistinctElements(p);
      var e := Without(Distinct(p), history[n]);
      assert d == [history[n]] + e;
      assert d[i] == e[i - 1] && d[j] == e[j - 1];
      var i', j' := WithoutKeepsOrder(Distinct(p), history[n], i - 1, j - 1);
      DistinctOrder(p, i', j', ki, kj);
    }
  }

  /** The recency stack of one set: touch a line, keep four. */
  function Touch(stack: seq<word>, t: word): seq<word> {
    Take([t] + Without(stack, t), 4)
  }

  lemma TakeWithout(d: seq<word>, t: word)
    requires NoRepeats(d)
    ensures Take(Without(Take(d, 4), t), 3) == Take(Without(d, t), 3)
  {
    var s := Take(d, 4);
    if t in s {
      var i :| 0 <= i < |s| && s[i] == t;
      WithoutAt(s, i);
      WithoutAt(d, i);
    } else {
      WithoutAbsent(s, t);
      if t in d {
        var i :| 0 <= i < |d| && d[i] == t;
        assert 4 <= i;
        WithoutAt(d, i);
        assert Without(d, t)[..3] == d[..3];
      } else {
        WithoutAbsent(d, t);
      }
    }
  }

  lemma TakeCons(t: word, s: seq<word>)
    ensures Take([t] + s, 4) == [t] + Take(s, 3)
  {
  }

  /** Keeping only four lines at every step loses nothing. */
  lemma TouchRecent(history: seq<word>, t: word)
    ensures Touch(Recent(history), t) == Recent(history + [t])
  {
    var d := Distinct(history);
    DistinctElements(history);
    assert (history + [t])[..|history|] == history;
    TakeWithout(d, t);
    TakeCons(t, Without(Take(d, 4), t));
    TakeCons(t, Without(d, t));
  }
}
