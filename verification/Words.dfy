/** Machine words, bytes and the byte lanes of a little-endian host word. */
module Words {

  /** One more than the largest 32-bit word. */
  const WORD_LIMIT: int := 0x1_0000_0000

  type word = x: int | 0 <= x < 0x1_0000_0000

  type byte = x: int | 0 <= x < 0x100

  /** Truncation of an arbitrary integer to `uint32_t`. */
  function Wrap(x: int): word {
    x % WORD_LIMIT
  }

  /** The `int32_t` reading of a word. */
  function Signed(x: word): int {
    if x < 0x8000_0000 then x else x - WORD_LIMIT
  }

  /** Byte `lane` of a word as the host stores it: lane 0 is the least significant byte. */
  function Lane(w: word, lane: nat): byte
    requires lane < 4
  {
    if lane == 0 then w % 0x100
    else if lane == 1 then w / 0x100 % 0x100
    else if lane == 2 then w / 0x1_0000 % 0x100
    else w / 0x100_0000
  }

  /** The word whose bytes are given most significant first. */
  function Join(b0: byte, b1: byte, b2: byte, b3: byte): word {
    0x100_0000 * b0 + 0x1_0000 * b1 + 0x100 * b2 + b3
  }

  lemma LaneJoin(b0: byte, b1: byte, b2: byte, b3: byte)
    ensures Lane(Join(b0, b1, b2, b3), 3) == b0
    ensures Lane(Join(b0, b1, b2, b3), 2) == b1
    ensures Lane(Join(b0, b1, b2, b3), 1) == b2
    ensures Lane(Join(b0, b1, b2, b3), 0) == b3
  {
    var w := Join(b0, b1, b2, b3);
    assert w / 0x100_0000 == b0;
    assert w / 0x1_0000 == 0x100 * b0 + b1;
    assert w / 0x100 == 0x1_0000 * b0 + 0x100 * b1 + b2;
  }

  lemma JoinLanes(w: word)
    ensures w == Join(Lane(w, 3), Lane(w, 2), Lane(w, 1), Lane(w, 0))
  {
    assert w / 0x100 / 0x100 == w / 0x1_0000;
    assert w / 0x1_0000 / 0x100 == w / 0x100_0000;
  }

  /** `tmp.u8[lane] = b` on a little-endian host. */
  function SetLane(w: word, lane: nat, b: byte): word
    requires lane < 4
  {
    Join(if lane == 3 then b else Lane(w, 3), if lane == 2 then b else Lane(w, 2),
         if lane == 1 then b else Lane(w, 1), if lane == 0 then b else Lane(w, 0))
  }

  lemma LaneSetLane(w: word, lane: nat, b: byte, other: nat)
    requires lane < 4 && other < 4
    ensures Lane(SetLane(w, lane, b), other) == if other == lane then b else Lane(w, other)
  {
    LaneJoin(if lane == 3 then b else Lane(w, 3), if lane == 2 then b else Lane(w, 2),
             if lane == 1 then b else Lane(w, 1), if lane == 0 then b else Lane(w, 0));
  }

  /** `tmp.u16[half]`: half 0 is the low half. */
  function Half(w: word, half: nat): (r: word)
    requires half < 2
    ensures r < 0x1_0000
  {
    if half == 0 then w % 0x1_0000 else w / 0x1_0000
  }

  /** `tmp.u16[half] = (unsigned short)v`. */
  function SetHalf(w: word, half: nat, v: word): word
    requires half < 2
  {
    if half == 0 then w / 0x1_0000 * 0x1_0000 + v % 0x1_0000
    else v % 0x1_0000 * 0x1_0000 + w % 0x1_0000
  }

  /** `__builtin_bswap32`. */
  function Swap(w: word): word {
    Join(Lane(w, 0), Lane(w, 1), Lane(w, 2), Lane(w, 3))
  }

  lemma LaneSwap(w: word, lane: nat)
    requires lane < 4
    ensures Lane(Swap(w), lane) == Lane(w, 3 - lane)
  {
    LaneJoin(Lane(w, 0), Lane(w, 1), Lane(w, 2), Lane(w, 3));
  }
}
