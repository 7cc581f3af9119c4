/** Condition flags (flags.h), branch conditions (operands.h) and multi-word arithmetic (instructions.h). */
module Flags {
  import opened Words

  /** The `FLAGS` union of registers.h. */
  datatype Flags = Flags(invalid: bool, reserved: nat, sign: bool, overflow: bool, carry: bool,
                         parity: bool, zero: bool)

  /** `msb`. */
  predicate Msb(x: word) {
    x / 0x8000_0000 == 1
  }

  /** `make_flags`. */
  function MakeFlags(value: word): Flags {
    Flags(false, 0, Msb(value), false, false, value % 2 == 0, value == 0)
  }

  /** `make_flags_add`: overflow is the top bit of `(dest ^ result) & (src ^ result)`. */
  function MakeFlagsAdd(result: word, dest: word, src: word): Flags {
    MakeFlags(result).(overflow := Msb(dest) != Msb(result) && Msb(src) != Msb(result),
                       carry := (dest + src) / WORD_LIMIT == 1)
  }

  /** `make_flags_sub`: carry adds the negated source, with a special case for zero. */
  function MakeFlagsSub(result: word, dest: word, src: word): Flags {
    MakeFlags(result).(overflow := Msb(dest) != Msb(result) && Msb(dest) != Msb(src),
                       carry := src == 0 || (dest + Wrap(0 - src)) / WORD_LIMIT == 1)
  }

  /** `check_condition` on valid flags. */
  predicate Holds(f: Flags, condition: nat)
    requires condition < 16
  {
    match condition
    case 0 => true
    case 1 => f.zero
    case 2 => !f.zero
    case 3 => f.sign
    case 4 => !f.sign
    case 5 => f.parity
    case 6 => !f.parity
    case 7 => f.overflow
    case 8 => f.carry
    case 9 => !f.carry
    case 10 => f.carry && !f.zero
    case 11 => !f.carry || f.zero
    case 12 => f.sign == f.overflow
    case 13 => f.sign != f.overflow
    case 14 => !(f.sign != f.overflow || f.zero)
    case 15 => f.sign != f.overflow || f.zero
  }

  /** What a condition asks about the two operands of the compare before it. */
  predicate Asked(condition: nat, a: word, b: word)
    requires condition < 16
  {
    match condition
    case 0 => true
    case 1 => a == b
    case 2 => a != b
    case 3 => Wrap(a - b) >= 0x8000_0000
    case 4 => Wrap(a - b) < 0x8000_0000
    case 5 => (a - b) % 2 == 0
    case 6 => (a - b) % 2 != 0
    case 7 => !(-0x8000_0000 <= Signed(a) - Signed(b) < 0x8000_0000)
    case 8 => a >= b
    case 9 => a < b
    case 10 => a > b
    case 11 => a <= b
    case 12 => Signed(a) >= Signed(b)
    case 13 => Signed(a) < Signed(b)
    case 14 => Signed(a) > Signed(b)
    case 15 => Signed(a) <= Signed(b)
  }

  lemma WrapDifference(a: word, b: word)
    ensures Wrap(a - b) == if a >= b then a - b else a - b + WORD_LIMIT
    ensures Wrap(0 - b) == if b == 0 then 0 else WORD_LIMIT - b
  {
  }

  lemma SignBits(x: word)
    ensures Msb(x) <==> x >= 0x8000_0000
  {
  }

  /** After `cmp a, b` every one of the sixteen conditions decides what it names, for all operands. */
  lemma CompareDecides(a: word, b: word, condition: nat)
    requires condition < 16
    ensures Holds(MakeFlagsSub(Wrap(a - b), a, b), condition) <==> Asked(condition, a, b)
  {
    WrapDifference(a, b);
    SignBits(a);
    SignBits(b);
    SignBits(Wrap(a - b));
  }

  /** After `add`, carry is unsigned overflow and overflow is signed overflow. */
  lemma AddFlags(a: word, b: word)
    ensures var f := MakeFlagsAdd(Wrap(a + b), a, b);
      && (f.carry <==> a + b >= WORD_LIMIT)
      && (f.overflow <==> !(-0x8000_0000 <= Signed(a) + Signed(b) < 0x8000_0000))
      && (!f.overflow ==> Signed(Wrap(a + b)) == Signed(a) + Signed(b))
  {
    assert Wrap(a + b) == if a + b < WORD_LIMIT then a + b else a + b - WORD_LIMIT;
    SignBits(a);
    SignBits(b);
    SignBits(Wrap(a + b));
  }

  // ---------------------------------------------------------------- multi-word arithmetic

  /** The results of `add`, `addc`, `mull`, `mulh` and `umulh`. */
  function Add(a: word, b: word): word { Wrap(a + b) }

  function Addc(a: word, b: word): word {
    if MakeFlagsAdd(Wrap(a + b), a, b).carry then 1 else 0
  }

  function Mull(a: word, b: word): word { Wrap(Signed(a) * Signed(b)) }

  function Mulh(a: word, b: word): word { Wrap(Signed(a) * Signed(b) / WORD_LIMIT) }

  function Umulh(a: word, b: word): word {
    MulBound(a, b);
    a * b / WORD_LIMIT
  }

  lemma MulBound(a: word, b: word)
    ensures 0 <= a * b < WORD_LIMIT * WORD_LIMIT
    ensures 0 <= a * b / WORD_LIMIT < WORD_LIMIT
  {
    MulMonotone(b, WORD_LIMIT - 1, a);
    MulMonotone(a, WORD_LIMIT - 1, WORD_LIMIT - 1);
    DivideBelow(a * b, WORD_LIMIT);
  }

  lemma MulMonotone(x: int, y: int, z: nat)
    requires x <= y
    ensures x * z <= y * z && z * x <= z * y
  {
  }

  lemma DivideBelow(x: nat, n: nat)
    requires x < n * WORD_LIMIT
    ensures x / WORD_LIMIT < n
  {
  }

  /** A multi-word number, least significant word first. */
  function Value(ws: seq<word>): nat {
    if |ws| == 0 then 0 else ws[0] + WORD_LIMIT * Value(ws[1..])
  }

  function Power(n: nat): (p: nat)
    ensures p > 0
  {
    if n == 0 then 1 else WORD_LIMIT * Power(n - 1)
  }

  datatype Sum = Sum(words: seq<word>, carry: word)

  /** The instruction sequence for n-word addition: per word two `add`s and two `addc`s. */
  function AddWords(a: seq<word>, b: seq<word>, carry: word): (r: Sum)
    requires |a| == |b| && carry <= 1
    ensures |r.words| == |a| && r.carry <= 1
    decreases |a|
  {
    if |a| == 0 then Sum([], carry)
    else
      var partial := Add(a[0], b[0]);
      var carryOut := Add(Addc(a[0], b[0]), Addc(partial, carry));
      assert carryOut <= 1 by { LimbAdds(a[0], b[0], carry); }
      var rest := AddWords(a[1..], b[1..], carryOut);
      Sum([Add(partial, carry)] + rest.words, rest.carry)
  }

  lemma LimbAdds(a: word, b: word, carry: word)
    requires carry <= 1
    ensures var partial := Add(a, b);
      var carryOut := Add(Addc(a, b), Addc(partial, carry));
      carryOut <= 1 && Add(partial, carry) + carryOut * WORD_LIMIT == a + b + carry
  {
    AddFlags(a, b);
    var partial := Add(a, b);
    AddFlags(partial, carry);
    assert partial == if a + b < WORD_LIMIT then a + b else a + b - WORD_LIMIT;
  }

  /** `add`/`addc` compose to exact addition on any number of words. */
  lemma {:induction false} AddWordsExact(a: seq<word>, b: seq<word>, carry: word)
    requires |a| == |b| && carry <= 1
    ensures var r := AddWords(a, b, carry);
      Value(r.words) + r.carry * Power(|a|) == Value(a) + Value(b) + carry
    decreases |a|
  {
    if |a| != 0 {
      var partial := Add(a[0], b[0]);
      var carryOut := Add(Addc(a[0], b[0]), Addc(partial, carry));
      LimbAdds(a[0], b[0], carry);
      AddWordsExact(a[1..], b[1..], carryOut);
      var r, rest := AddWords(a, b, carry), AddWords(a[1..], b[1..], carryOut);
      assert r.words[1..] == rest.words;
      CarryUp(rest.carry, |a|);
      AddLimb(r.words[0], Value(rest.words), carryOut, rest.carry * Power(|a| - 1), a[0], b[0], carry,
              Value(a[1..]), Value(b[1..]));
    }
  }

  lemma CarryUp(c: nat, n: nat)
    requires n > 0
    ensures c * Power(n) == WORD_LIMIT * (c * Power(n - 1))
  {
    var p := Power(n - 1);
    assert Power(n) == WORD_LIMIT * p;
    assert c * (WORD_LIMIT * p) == WORD_LIMIT * (c * p);
  }

  /** The lowest words and the rest of a sum, put together. */
  lemma AddLimb(w: int, v: int, out: int, top: int, a: int, b: int, carry: int, x: int, y: int)
    requires w + out * WORD_LIMIT == a + b + carry && v + top == x + y + out
    ensures w + WORD_LIMIT * v + WORD_LIMIT * top == a + WORD_LIMIT * x + (b + WORD_LIMIT * y) + carry
  {
  }

  lemma {:induction false} ValueBound(ws: seq<word>)
    ensures Value(ws) < Power(|ws|)
  {
    if |ws| != 0 {
      ValueBound(ws[1..]);
    }
  }

  /** So the words are the sum modulo 2^(32n), and the last carry its overflow. */
  lemma AddWordsModulo(a: seq<word>, b: seq<word>)
    requires |a| == |b|
    ensures Value(AddWords(a, b, 0).words) == (Value(a) + Value(b)) % Power(|a|)
    ensures AddWords(a, b, 0).carry == (Value(a) + Value(b)) / Power(|a|)
  {
    var r := AddWords(a, b, 0);
    AddWordsExact(a, b, 0);
    ValueBound(r.words);
    var x, p, q, v := Value(a) + Value(b), Power(|a|), r.carry, Value(r.words);
    DivisionUnique(x, p, q, v);
  }

  lemma DivisionUnique(x: nat, p: nat, q: nat, r: nat)
    requires p > 0 && r < p && x == r + q * p
    ensures x / p == q && x % p == r
  {
    var q' := x / p;
    assert x == q' * p + x % p;
    if q < q' {
      MulMonotone(q + 1, q', p);
    } else if q' < q {
      MulMonotone(q' + 1, q, p);
    }
  }

  lemma WrapShift(x: int, k: int)
    ensures Wrap(x + k * WORD_LIMIT) == Wrap(x)
  {
    assert (x + k * WORD_LIMIT) / WORD_LIMIT == x / WORD_LIMIT + k;
  }

  /** `umulh` and `mull` give the exact unsigned 64-bit product. */
  lemma UnsignedProduct(a: word, b: word)
    ensures a * b == Umulh(a, b) * WORD_LIMIT + Mull(a, b)
  {
    MulBound(a, b);
    var i, j := if a < 0x8000_0000 then 0 else 1, if b < 0x8000_0000 then 0 else 1;
    var k := i * j * WORD_LIMIT - i * b - j * a;
    assert Signed(a) * Signed(b) == a * b + k * WORD_LIMIT;
    WrapShift(a * b, k);
  }

  /** `mulh` and `mull` give the exact signed 64-bit product. */
  lemma SignedProduct(a: word, b: word)
    ensures Signed(a) * Signed(b) == Signed(Mulh(a, b)) * WORD_LIMIT + Mull(a, b)
  {
    var p := Signed(a) * Signed(b);
    SignedBound(Signed(a), Signed(b));
    assert p == p / WORD_LIMIT * WORD_LIMIT + Wrap(p);
  }

  lemma SignedBound(x: int, y: int)
    requires -0x8000_0000 <= x < 0x8000_0000 && -0x8000_0000 <= y < 0x8000_0000
    ensures -0x8000_0000 <= x * y / WORD_LIMIT < 0x8000_0000
  {
    var m: nat := 0x8000_0000;
    var n: nat := if x >= 0 then x else -x;
    MulMonotone(0 - m, y, n);
    MulMonotone(y, m, n);
    MulMonotone(n, m, m);
    assert n * y == if x >= 0 then x * y else -(x * y);
    SmallQuotient(x * y);
  }

  lemma SmallQuotient(p: int)
    requires -0x8000_0000 * 0x8000_0000 <= p <= 0x8000_0000 * 0x8000_0000
    ensures -0x8000_0000 <= p / WORD_LIMIT < 0x8000_0000
  {
  }
}
