/** `memory_vm_memcpy`: copying guest bytes inside word-swapped host memory. */
module BlockCopy {
  import opened Words

  /** The host byte that holds guest byte `a`, in either direction: bytes are mirrored in each word. */
  function Mirror(a: nat): (h: nat)
    ensures h / 4 == a / 4 && h % 4 == 3 - a % 4
  {
    a / 4 * 4 + (3 - a % 4)
  }

  /** `i ^ 2`. */
  function FlipBit1(i: nat): (j: nat)
    ensures j / 4 == i / 4 && j % 4 == (i % 4 + 2) % 4
  {
    if i % 4 < 2 then i + 2 else i - 2
  }

  /** The host bytes the two phases copy, relative to the start of the region. */
  predicate HostCopied(n: nat, h: nat) {
    h < n / 4 * 4 || (h / 4 == n / 4 && FlipBit1(h) < n)
  }

  /** The guest bytes that end up copied. */
  predicate GuestCopied(n: nat, a: nat) {
    HostCopied(n, Mirror(a))
  }

  /** Copying `n` guest bytes copies exactly the first `n` guest bytes if and only if `n` is even:
      the `i ^ 2` of the tail picks the right host byte only for pairs. */
  lemma CopiesExactlyIff(n: nat)
    ensures (forall a: nat :: GuestCopied(n, a) <==> a < n) <==> n % 4 == 0 || n % 4 == 2
  {
    forall a: nat
      ensures GuestCopied(n, a) <==> a / 4 < n / 4 || (a / 4 == n / 4 && Tail(n % 4, a % 4))
    {
      CopiedGuest(n, a);
    }
    if n % 4 == 0 || n % 4 == 2 {
      forall a: nat
        ensures GuestCopied(n, a) <==> a < n
      {
        CopiedGuest(n, a);
        assert a == a / 4 * 4 + a % 4 && n == n / 4 * 4 + n % 4;
      }
    } else {
      var last := n / 4 * 4 + (n % 4 - 1);
      CopiedGuest(n, last);
      assert last / 4 == n / 4 && last % 4 == n % 4 - 1;
    }
  }

  /** Which bytes of the last, partial word a tail of `r` bytes copies. */
  predicate Tail(r: nat, g: nat) {
    match r
    case 0 => false
    case 1 => g == 1
    case 2 => g == 0 || g == 1
    case _ => g == 0 || g == 1 || g == 3
  }

  lemma CopiedGuest(n: nat, a: nat)
    ensures GuestCopied(n, a) <==> a / 4 < n / 4 || (a / 4 == n / 4 && Tail(n % 4, a % 4))
  {
    var h := Mirror(a);
    var q, k := n / 4, n % 4;
    assert n == 4 * q + k && h == 4 * (a / 4) + (3 - a % 4);
    assert FlipBit1(h) == 4 * (a / 4) + (1 + 4 - a % 4) % 4;
  }

  /** `i ^ 2` inside the word that starts at `whole`. */
  function FlipIn(whole: nat, i: nat): (j: nat)
    requires whole <= i < whole + 4
    ensures whole <= j < whole + 4
  {
    if i < whole + 2 then i + 2 else i - 2
  }

  lemma FlipInWord(whole: nat, i: nat)
    requires whole % 4 == 0 && whole <= i < whole + 4
    ensures FlipBit1(i) == FlipIn(whole, i)
  {
  }

  /** The host bytes copied once the tail loop has reached `i`, `whole` bytes being whole words. */
  predicate TailCopied(whole: nat, i: nat, h: nat) {
    h < whole || (whole <= h < whole + 4 && FlipIn(whole, h) < i)
  }

  lemma TailCopiedAll(n: nat, h: nat)
    ensures HostCopied(n, h) <==> TailCopied(n / 4 * 4, n, h)
  {
    var whole := n / 4 * 4;
    if whole <= h < whole + 4 {
      FlipInWord(whole, h);
    }
  }

  /** `n` rounded up to whole words. */
  function Padded(n: nat): (r: nat)
    ensures n <= r < n + 4 && r == if n % 4 == 0 then n / 4 * 4 else n / 4 * 4 + 4
  {
    (n + 3) / 4 * 4
  }

  /** Two word-aligned regions of host memory, `n` bytes rounded up, that do not overlap. */
  predicate Apart(length: nat, dest: nat, src: nat, n: nat) {
    && dest + Padded(n) <= length && src + Padded(n) <= length
    && (dest + Padded(n) <= src || src + Padded(n) <= dest)
  }

  /** Host byte `h` once the tail loop has reached `i`. */
  function MovedValue(before: seq<byte>, dest: nat, src: nat, whole: nat, i: nat, padded: nat, h: nat): byte
    requires src + padded <= |before| && h < |before|
  {
    if dest <= h < dest + padded && TailCopied(whole, i, h - dest) then before[src + (h - dest)] else before[h]
  }

  ghost predicate Moved(before: seq<byte>, after: seq<byte>, dest: nat, src: nat, whole: nat, i: nat, padded: nat)
    requires |before| == |after| && src + padded <= |before|
  {
    forall h: nat :: h < |before| ==> after[h] == MovedValue(before, dest, src, whole, i, padded, h)
  }

  lemma MovedByte(before: seq<byte>, middle: seq<byte>, dest: nat, src: nat, whole: nat, i: nat, padded: nat)
    requires |before| == |middle| && dest + padded <= |before| && src + padded <= |before|
    requires dest + padded <= src || src + padded <= dest
    requires whole <= i < whole + 4 == padded
    requires Moved(before, middle, dest, src, whole, i, padded)
    ensures var j := FlipIn(whole, i);
      Moved(before, middle[dest + j := middle[src + j]], dest, src, whole, i + 1, padded)
  {
    var j := FlipIn(whole, i);
    assert middle[src + j] == before[src + j];
  }

  lemma MovedEnd(before: seq<byte>, after: seq<byte>, dest: nat, src: nat, n: nat, h: nat)
    requires |before| == |after| && Apart(|before|, dest, src, n) && h < |before|
    requires Moved(before, after, dest, src, n / 4 * 4, n, Padded(n))
    ensures after[h] == if dest <= h && HostCopied(n, h - dest)
                        then before[MovedFrom(|before|, dest, src, n, h)] else before[h]
  {
    if dest <= h {
      TailCopiedAll(n, h - dest);
    }
  }

  /** The byte loop of `memcpy` on the first `whole` bytes. */
  method CopyWords(host: array<byte>, dest: nat, src: nat, whole: nat)
    requires dest + whole <= host.Length && src + whole <= host.Length
    requires dest + whole <= src || src + whole <= dest
    modifies host
    ensures forall h: nat :: h < host.Length ==>
      host[h] == MovedValue(old(host[..]), dest, src, whole, whole, whole, h)
  {
    ghost var before := host[..];
    var i := 0;
    while i < whole
      invariant i <= whole
      invariant forall h: nat :: h < host.Length ==> host[h] == MovedValue(before, dest, src, i, i, whole, h)
    {
      host[dest + i] := host[src + i];
      i := i + 1;
    }
  }

  /** The byte loop that is left for a partial word. */
  method CopyTail(host: array<byte>, ghost before: seq<byte>, dest: nat, src: nat, n: nat)
    requires dest % 4 == 0 && src % 4 == 0 && Apart(host.Length, dest, src, n) && |before| == host.Length
    requires Moved(before, host[..], dest, src, n / 4 * 4, n / 4 * 4, Padded(n))
    modifies host
    ensures Moved(before, host[..], dest, src, n / 4 * 4, n, Padded(n))
  {
    var whole := n / 4 * 4;
    var i := whole;
    while i < n
      invariant whole <= i <= n && Moved(before, host[..], dest, src, whole, i, Padded(n))
    {
      var j := FlipBit1(i);
      FlipInWord(whole, i);
      ghost var middle := host[..];
      MovedByte(before, middle, dest, src, whole, i, Padded(n));
      host[dest + j] := host[src + j];
      assert host[..] == middle[dest + j := middle[src + j]];
      i := i + 1;
    }
  }

  /** `memory_vm_memcpy`: the bytes `HostCopied` names are copied, every other host byte stays. */
  method Memcpy(host: array<byte>, dest: nat, src: nat, n: nat)
    requires dest % 4 == 0 && src % 4 == 0 && Apart(host.Length, dest, src, n)
    modifies host
    ensures forall h: nat :: h < host.Length ==>
      host[h] == if dest <= h && HostCopied(n, h - dest) then old(host[..])[MovedFrom(host.Length, dest, src, n, h)]
                 else old(host[h])
  {
    ghost var before := host[..];
    var whole := n / 4 * 4;
    CopyWords(host, dest, src, whole);
    CopyTail(host, before, dest, src, n);
    forall h: nat | h < host.Length
      ensures host[h] == if dest <= h && HostCopied(n, h - dest)
                         then before[MovedFrom(host.Length, dest, src, n, h)] else before[h]
    {
      MovedEnd(before, host[..], dest, src, n, h);
    }
  }

  /** The source of a copied host byte. */
  function MovedFrom(length: nat, dest: nat, src: nat, n: nat, h: nat): (k: nat)
    requires Apart(length, dest, src, n) && dest <= h && HostCopied(n, h - dest)
    ensures k < length
  {
    TailCopiedAll(n, h - dest);
    src + (h - dest)
  }

  /** The guest's byte `a` of the host memory. */
  function GuestByte(host: seq<byte>, a: nat): byte
    requires Mirror(a) < |host|
  {
    host[Mirror(a)]
  }

  /** Whatever `Memcpy` leaves, in the guest's order of bytes: for an even count the first `n` bytes of
      the destination are those of the source, and no other guest byte has changed. */
  lemma GuestMemcpy(before: seq<byte>, after: seq<byte>, dest: nat, src: nat, n: nat, a: nat)
    requires |before| == |after| && |before| % 4 == 0 && a < |before|
    requires dest % 4 == 0 && src % 4 == 0 && Apart(|before|, dest, src, n) && n % 2 == 0
    requires forall h: nat :: h < |before| ==>
      after[h] == if dest <= h && HostCopied(n, h - dest) then before[MovedFrom(|before|, dest, src, n, h)]
                  else before[h]
    ensures Mirror(a) < |before| && (dest <= a < dest + n ==> Mirror(src + (a - dest)) < |before|)
    ensures GuestByte(after, a) ==
      if dest <= a < dest + n then GuestByte(before, src + (a - dest)) else GuestByte(before, a)
  {
    MirrorInside(|before|, a);
    if dest <= a {
      GuestMoved(|before|, dest, src, n, a);
    } else {
      MirrorBelow(dest, a);
    }
  }

  lemma GuestMoved(length: nat, dest: nat, src: nat, n: nat, a: nat)
    requires dest % 4 == 0 && src % 4 == 0 && Apart(length, dest, src, n) && n % 2 == 0 && dest <= a
    ensures dest <= Mirror(a) && (HostCopied(n, Mirror(a) - dest) <==> a < dest + n)
    ensures a < dest + n ==> MovedFrom(length, dest, src, n, Mirror(a)) == Mirror(src + (a - dest))
  {
    var o := a - dest;
    MirrorShift(dest, o);
    MirrorShift(src, o);
    EvenCopied(n, o);
    assert a == dest + o && Mirror(a) - dest == Mirror(o);
  }

  lemma EvenCopied(n: nat, o: nat)
    requires n % 2 == 0
    ensures HostCopied(n, Mirror(o)) <==> o < n
  {
    CopiesExactlyIff(n);
    assert n % 4 == 0 || n % 4 == 2;
    assert GuestCopied(n, o) <==> o < n;
  }

  lemma MirrorInside(length: nat, a: nat)
    requires length % 4 == 0 && a < length
    ensures Mirror(a) < length
  {
    assert a / 4 < length / 4;
  }

  lemma MirrorBelow(dest: nat, a: nat)
    requires dest % 4 == 0 && a < dest
    ensures Mirror(a) < dest
  {
    MirrorInside(dest, a);
  }

  lemma MirrorShift(base: nat, o: nat)
    requires base % 4 == 0
    ensures Mirror(base + o) == base + Mirror(o)
  {
    assert (base + o) / 4 == base / 4 + o / 4;
  }
}
