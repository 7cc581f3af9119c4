/** The reference memory: one big-endian byte array behind a pure translation. */
module FlatMemory {
  import opened Words
  import opened Cache
  import opened Mmu
  import opened LoadStore

  type Flat = f: seq<byte> | |f| == RAM_LIMIT witness seq(RAM_LIMIT, _ => 0)

  function FlatWord(f: Flat, k: nat): word
    requires k < RAM_WORDS
  {
    Join(f[4 * k], f[4 * k + 1], f[4 * k + 2], f[4 * k + 3])
  }

  function StoreBytes(f: Flat, p: word, width: Width, src: word): Flat
    requires p < RAM_LIMIT
  {
    match width
    case Byte => f[p := src % 0x100]
    case HalfWord => f[p / 2 * 2 := src / 0x100 % 0x100][p / 2 * 2 + 1 := src % 0x100]
    case FullWord =>
      f[p / 4 * 4 := src / 0x100_0000][p / 4 * 4 + 1 := src / 0x1_0000 % 0x100]
       [p / 4 * 4 + 2 := src / 0x100 % 0x100][p / 4 * 4 + 3 := src % 0x100]
  }

  function LoadBytes(f: Flat, p: word, width: Width): word
    requires p < RAM_LIMIT
  {
    match width
    case Byte => f[p]
    case HalfWord => 0x100 * f[p / 2 * 2] + f[p / 2 * 2 + 1]
    case FullWord => Join(f[p / 4 * 4], f[p / 4 * 4 + 1], f[p / 4 * 4 + 2], f[p / 4 * 4 + 3])
  }

  datatype FlatAccessed = FlatAccessed(flat: Flat, reply: Reply)

  function OpWidth(op: Op): Width {
    if op.FetchOp? then FullWord else op.width
  }

  /** Translation of the accessed byte through the tables of `tables`. */
  function Target(tables: Ram, ctl: Control, op: Op): Result {
    Translate(tables, ctl, op.vaddr, op.StoreOp?, op.FetchOp?)
  }

  function FlatPerform(f: Flat, tables: Ram, ctl: Control, op: Op): FlatAccessed {
    var r := Target(tables, ctl, op);
    if !r.Address? then FlatAccessed(f, Refused(r))
    else if r.paddr >= RAM_LIMIT then
      FlatAccessed(f, Device(if OpWidth(op) == FullWord then r.paddr else WordAddress(r.paddr)))
    else if op.StoreOp? then FlatAccessed(StoreBytes(f, r.paddr, op.width, op.src), Done)
    else FlatAccessed(f, Data(LoadBytes(f, r.paddr, OpWidth(op))))
  }

  // ---------------------------------------------------------------- bytes and lanes

  /** Byte `o` of word `q` is at address `4 * q + o`, and nowhere else. */
  lemma PutByte(f: Flat, q: nat, o: nat, b: byte, k: nat, i: nat)
    requires q < RAM_WORDS && o < 4 && k < RAM_WORDS && i < 4
    ensures f[4 * q + o := b][4 * k + i] == if k == q && i == o then b else f[4 * k + i]
  {
  }

  lemma PutByteWord(f: Flat, q: nat, o: nat, b: byte, k: nat)
    requires q < RAM_WORDS && o < 4 && k < RAM_WORDS
    ensures FlatWord(f[4 * q + o := b], k) ==
            if k == q then
              Join(if o == 0 then b else f[4 * q], if o == 1 then b else f[4 * q + 1],
                   if o == 2 then b else f[4 * q + 2], if o == 3 then b else f[4 * q + 3])
            else FlatWord(f, k)
  {
    PutByte(f, q, o, b, k, 0);
    PutByte(f, q, o, b, k, 1);
    PutByte(f, q, o, b, k, 2);
    PutByte(f, q, o, b, k, 3);
  }

  /** The word and the offset of an address. */
  lemma SplitOffset(p: word) returns (q: nat, o: nat)
    requires p < RAM_LIMIT
    ensures q < RAM_WORDS && o < 4 && p == 4 * q + o && p / 4 == q && p % 4 == o && p / 4 * 4 == 4 * q
    ensures p / 2 * 2 == 4 * q + (if o < 2 then 0 else 2) && p / 2 % 2 == o / 2
  {
    q, o := p / 4, p % 4;
    assert p / 2 == 2 * q + o / 2;
  }

  lemma HalfJoin(b0: byte, b1: byte, b2: byte, b3: byte)
    ensures Half(Join(b0, b1, b2, b3), 1) == 0x100 * b0 + b1
    ensures Half(Join(b0, b1, b2, b3), 0) == 0x100 * b2 + b3
  {
  }

  lemma LoadFromWord(f: Flat, p: word)
    requires p < RAM_LIMIT
    ensures LoadBytes(f, p, Byte) == Lane(FlatWord(f, p / 4), 3 - p % 4)
    ensures LoadBytes(f, p, HalfWord) == Half(FlatWord(f, p / 4), 1 - p / 2 % 2)
    ensures LoadBytes(f, p, FullWord) == FlatWord(f, p / 4)
  {
    var q, o := SplitOffset(p);
    LaneJoin(f[4 * q], f[4 * q + 1], f[4 * q + 2], f[4 * q + 3]);
    HalfJoin(f[4 * q], f[4 * q + 1], f[4 * q + 2], f[4 * q + 3]);
  }

  lemma StoreByteWord(f: Flat, p: word, src: word, k: nat)
    requires p < RAM_LIMIT && k < RAM_WORDS
    ensures FlatWord(StoreBytes(f, p, Byte, src), k) ==
            if k == p / 4 then SetLane(FlatWord(f, k), 3 - p % 4, src % 0x100) else FlatWord(f, k)
  {
    var q, o := SplitOffset(p);
    PutByteWord(f, q, o, src % 0x100, k);
    LaneJoin(f[4 * q], f[4 * q + 1], f[4 * q + 2], f[4 * q + 3]);
  }

  lemma SetHalfJoin(b0: byte, b1: byte, b2: byte, b3: byte, v: word)
    ensures SetHalf(Join(b0, b1, b2, b3), 1, v) == Join(v / 0x100 % 0x100, v % 0x100, b2, b3)
    ensures SetHalf(Join(b0, b1, b2, b3), 0, v) == Join(b0, b1, v / 0x100 % 0x100, v % 0x100)
  {
    HalfJoin(b0, b1, b2, b3);
    assert v % 0x1_0000 == 0x100 * (v / 0x100 % 0x100) + v % 0x100;
  }

  lemma StoreHalfWord(f: Flat, p: word, src: word, k: nat)
    requires p < RAM_LIMIT && k < RAM_WORDS
    ensures FlatWord(StoreBytes(f, p, HalfWord, src), k) ==
            if k == p / 4 then SetHalf(FlatWord(f, k), 1 - p / 2 % 2, src) else FlatWord(f, k)
  {
    var q, o := SplitOffset(p);
    var h, hi, lo := if o < 2 then 0 else 2, src / 0x100 % 0x100, src % 0x100;
    PutByteWord(f, q, h, hi, k);
    PutByteWord(f[4 * q + h := hi], q, h + 1, lo, k);
    PutByte(f, q, h, hi, q, 0);
    PutByte(f, q, h, hi, q, 2);
    SetHalfJoin(f[4 * q], f[4 * q + 1], f[4 * q + 2], f[4 * q + 3], src);
  }

  lemma PutWord(f: Flat, q: nat, b0: byte, b1: byte, b2: byte, b3: byte, k: nat)
    requires q < RAM_WORDS && k < RAM_WORDS
    ensures FlatWord(f[4 * q := b0][4 * q + 1 := b1][4 * q + 2 := b2][4 * q + 3 := b3], k) ==
            if k == q then Join(b0, b1, b2, b3) else FlatWord(f, k)
  {
  }

  lemma StoreFullWord(f: Flat, p: word, src: word, k: nat)
    requires p < RAM_LIMIT && k < RAM_WORDS
    ensures FlatWord(StoreBytes(f, p, FullWord, src), k) == if k == p / 4 then src else FlatWord(f, k)
  {
    var q, o := SplitOffset(p);
    PutWord(f, q, src / 0x100_0000, src / 0x1_0000 % 0x100, src / 0x100 % 0x100, src % 0x100, k);
    JoinLanes(src);
  }
}
