/** The two device ring buffers: the SCI receive FIFO (dps.c) and the keyboard scancode FIFO
    (monitor.c, gci.c). */
module Fifos {
  import opened Words
  import opened Bits

  // ---------------------------------------------------------------- ring contents

  /** The bytes of a ring from `start` up to, not including, `end`. */
  function Ring(buf: seq<byte>, start: nat, end: nat): (q: seq<byte>)
    requires start < |buf| && end < |buf|
    ensures |q| == if start <= end then end - start else end + |buf| - start
  {
    if start <= end then buf[start..end] else buf[start..] + buf[..end]
  }

  function Bump(i: nat, size: nat): nat {
    if i + 1 >= size then 0 else i + 1
  }

  /** Writing at `end` and moving it on appends, while the ring has a free slot. */
  lemma RingPush(buf: seq<byte>, start: nat, end: nat, b: byte)
    requires start < |buf| && end < |buf| && Bump(end, |buf|) != start
    ensures Ring(buf[end := b], start, Bump(end, |buf|)) == Ring(buf, start, end) + [b]
  {
    var buf', end' := buf[end := b], Bump(end, |buf|);
    if start <= end {
      if end' == 0 {
        assert buf'[start..] + buf'[..0] == buf[start..end] + [b];
      } else {
        assert buf'[start..end'] == buf[start..end] + [b];
      }
    } else {
      assert buf'[start..] == buf[start..];
      assert buf'[..end'] == buf[..end] + [b];
    }
  }

  lemma Associative(a: seq<byte>, b: seq<byte>, c: seq<byte>)
    ensures (a + b) + c == a + (b + c)
  {
  }

  /** Moving `start` on removes the oldest byte. */
  lemma RingPop(buf: seq<byte>, start: nat, end: nat)
    requires start < |buf| && end < |buf| && start != end
    ensures Ring(buf, start, end) == [buf[start]] + Ring(buf, Bump(start, |buf|), end)
  {
    if start < end {
      assert buf[start..end] == [buf[start]] + buf[start + 1..end];
    } else if start + 1 < |buf| {
      assert buf[start..] == [buf[start]] + buf[start + 1..];
      Associative([buf[start]], buf[start + 1..], buf[..end]);
    } else {
      assert buf[start..] == [buf[start]];
      assert buf[0..end] == buf[..end];
    }
  }

  /** Pushing onto a ring without a free slot, then moving `start` on, drops the oldest byte. */
  lemma RingPushFull(buf: seq<byte>, start: nat, end: nat, b: byte)
    requires |buf| > 1 && start < |buf| && end < |buf| && Bump(end, |buf|) == start
    ensures |Ring(buf, start, end)| == |buf| - 1
    ensures Ring(buf[end := b], Bump(start, |buf|), start) == (Ring(buf, start, end) + [b])[1..]
  {
    var q, rest := Ring(buf, start, end), Ring(buf, Bump(start, |buf|), end);
    RingPop(buf, start, end);
    RingPush(buf, Bump(start, |buf|), end, b);
    assert q + [b] == [buf[start]] + (rest + [b]);
  }

  lemma AppendNext(q: seq<byte>, bytes: seq<byte>, i: nat)
    requires i < |bytes|
    ensures (q + bytes[..i]) + [bytes[i]] == q + bytes[..i + 1]
  {
    assert bytes[..i + 1] == bytes[..i] + [bytes[i]];
  }

  /** `FIFO_USED`. */
  lemma FifoUsed(buf: seq<byte>, start: nat, end: nat)
    requires start < |buf| && end < |buf|
    ensures (end + |buf| - start) % |buf| == |Ring(buf, start, end)|
  {
    if start <= end {
      DivisionBySize(|buf|, end - start);
    }
  }

  lemma DivisionBySize(size: nat, r: nat)
    requires r < size
    ensures (size + r) % size == r
  {
  }

  /** Two conserving steps compose. */
  lemma Chain(q: seq<byte>, i: seq<byte>, o: seq<byte>, q1: seq<byte>, i1: seq<byte>, o1: seq<byte>, q2: seq<byte>)
    requires q + i == o + q1 && q1 + i1 == o1 + q2
    ensures q + (i + i1) == (o + o1) + q2
  {
    assert q + (i + i1) == (q + i) + i1;
    assert (o + q1) + i1 == o + (q1 + i1);
    assert o + (o1 + q2) == (o + o1) + q2;
  }

  /** A byte that left a queue: read by the guest, or dropped. */
  datatype Left = Left(code: byte, read: bool)

  function Codes(left: seq<Left>): (cs: seq<byte>)
    ensures |cs| == |left| && forall i :: 0 <= i < |left| ==> cs[i] == left[i].code
  {
    seq(|left|, i requires 0 <= i < |left| => left[i].code)
  }

  lemma CodesConcat(a: seq<Left>, b: seq<Left>)
    ensures Codes(a + b) == Codes(a) + Codes(b)
  {
  }

  // ---------------------------------------------------------------- SCI receive FIFO

  const SCI_SIZE: nat := 17        // SCI_FIFO_RX_SIZE
  const RXD_VALID: word := 0x8000_0000

  predicate ReceiveEnabled(cfg: word) { cfg / 2 % 2 == 1 }

  predicate ClearsReceive(cfg: word) { cfg / 0x1000 % 2 == 0 && cfg / 0x2000 % 2 == 1 }

  datatype SciOp =
    | Receive(available: seq<byte>)
    | ReadRxd(interrupts: bool, available: seq<byte>)
    | Configure(cfg: word)

  datatype SciState = SciState(queue: seq<byte>, cfg: word)

  /** The bytes one `dps_sci_recv` takes from those available: at most the free space. */
  function Taken(s: SciState, available: seq<byte>): seq<byte>
    requires |s.queue| <= 16
  {
    if !ReceiveEnabled(s.cfg) then []
    else if |available| <= 16 - |s.queue| then available
    else available[..16 - |s.queue|]
  }

  /** The bytes an operation takes from the socket. */
  function Received(s: SciState, op: SciOp): seq<byte>
    requires |s.queue| <= 16
  {
    match op
    case Receive(available) => Taken(s, available)
    case ReadRxd(interrupts, available) => if s.queue == [] && !interrupts then Taken(s, available) else []
    case Configure(_) => []
  }

  /** The bytes an operation hands to the guest. */
  function Delivered(s: SciState, op: SciOp): seq<byte>
    requires |s.queue| <= 16
  {
    var q := s.queue + Received(s, op);
    if op.ReadRxd? && ReceiveEnabled(s.cfg) && q != [] then [q[0]] else []
  }

  /** The reference queue. */
  function SciStep(s: SciState, op: SciOp): (r: SciState)
    requires |s.queue| <= 16
    ensures |r.queue| <= 16
  {
    if op.Configure? then
      SciState(if ClearsReceive(op.cfg) then [] else s.queue,
               op.cfg - op.cfg / 0x1000 % 2 * 0x1000 - op.cfg / 0x2000 % 2 * 0x2000)
    else s.(queue := (s.queue + Received(s, op))[|Delivered(s, op)|..])
  }

  function SciRun(s: SciState, ops: seq<SciOp>): (r: SciState)
    requires |s.queue| <= 16
    ensures |r.queue| <= 16
    decreases |ops|
  {
    if |ops| == 0 then s else SciRun(SciStep(s, ops[0]), ops[1..])
  }

  function AllReceived(s: SciState, ops: seq<SciOp>): seq<byte>
    requires |s.queue| <= 16
    decreases |ops|
  {
    if |ops| == 0 then [] else Received(s, ops[0]) + AllReceived(SciStep(s, ops[0]), ops[1..])
  }

  /** The bytes an operation removes from the front, oldest first: read by the guest, or cleared. */
  function Removes(s: SciState, op: SciOp): (left: seq<Left>)
    requires |s.queue| <= 16
    ensures !op.Configure? ==> |left| == |Delivered(s, op)|
  {
    var gone := if op.Configure? && ClearsReceive(op.cfg) then s.queue else Delivered(s, op);
    seq(|gone|, i requires 0 <= i < |gone| => Left(gone[i], !op.Configure?))
  }

  function AllRemoved(s: SciState, ops: seq<SciOp>): seq<Left>
    requires |s.queue| <= 16
    decreases |ops|
  {
    if |ops| == 0 then [] else Removes(s, ops[0]) + AllRemoved(SciStep(s, ops[0]), ops[1..])
  }

  /** Over any run of receptions, reads and configurations, every byte taken from the socket leaves the
      FIFO in arrival order, read by the guest or cleared, or is still queued; the queue never exceeds
      sixteen bytes. */
  lemma {:induction false} SciConserves(s: SciState, ops: seq<SciOp>)
    requires |s.queue| <= 16
    ensures s.queue + AllReceived(s, ops) == Codes(AllRemoved(s, ops)) + SciRun(s, ops).queue
    ensures |SciRun(s, ops).queue| <= 16
    decreases |ops|
  {
    if |ops| == 0 {
      assert Codes(AllRemoved(s, ops)) == [];
    } else {
      var s1, i, l := SciStep(s, ops[0]), Received(s, ops[0]), Removes(s, ops[0]);
      SciConserves(s1, ops[1..]);
      SciStepConserves(s, ops[0]);
      CodesConcat(l, AllRemoved(s1, ops[1..]));
      Chain(s.queue, i, Codes(l), s1.queue, AllReceived(s1, ops[1..]), Codes(AllRemoved(s1, ops[1..])),
            SciRun(s, ops).queue);
    }
  }

  /** The operations in the masks of dps.h: REN lets bytes in, RCLR without TCLR empties the queue, both are
      dropped from the register, and a read takes the oldest byte. */
  lemma SciMasks(s: SciState, cfg: word, op: SciOp)
    requires |s.queue| <= 16
    ensures var r := SciStep(s, Configure(cfg));
      && r.queue == (if And(cfg, 0x2000) != 0 && And(cfg, 0x1000) == 0 then [] else s.queue)
      && r.cfg == And(cfg, 0xffff_cfff)
    ensures And(s.cfg, 0x2) == 0 ==> Received(s, op) == [] && Delivered(s, op) == []
    ensures And(s.cfg, 0x2) != 0 && op.ReadRxd? && s.queue != [] ==>
      Delivered(s, op) == [s.queue[0]] && SciStep(s, op).queue == s.queue[1..]
  {
    ClearMasks(cfg);
    EnableMask(s.cfg);
  }

  lemma EnableMask(cfg: word)
    ensures And(cfg, 0x2) != 0 <==> ReceiveEnabled(cfg)
  {
    Powers();
    AndField(cfg, 1, 1, 2, 2, 0x2);
  }

  lemma ClearMasks(cfg: word)
    ensures And(cfg, 0x1000) != 0 <==> cfg / 0x1000 % 2 == 1
    ensures And(cfg, 0x2000) != 0 <==> cfg / 0x2000 % 2 == 1
    ensures And(cfg, 0xffff_cfff) == cfg - cfg / 0x1000 % 2 * 0x1000 - cfg / 0x2000 % 2 * 0x2000
  {
    Powers();
    assert Pow2(13) == 2 * Pow2(12);
    AndField(cfg, 12, 1, 0x1000, 2, 0x1000);
    AndField(cfg, 13, 1, 0x2000, 2, 0x2000);
    AndDisjoint(cfg, 0x1000, 0x2000);
    AndComplement(cfg, 0x3000, 32);
  }

  lemma SciStepConserves(s: SciState, op: SciOp)
    requires |s.queue| <= 16
    ensures s.queue + Received(s, op) == Codes(Removes(s, op)) + SciStep(s, op).queue
  {
    var q := s.queue + Received(s, op);
    if op.ReadRxd? && Delivered(s, op) != [] {
      assert q == [q[0]] + q[1..];
    }
  }

  class Sci {
    const fifo: array<byte>
    var start: nat
    var end: nat
    var cfg: word
    var rxd: word

    ghost predicate Valid()
      reads this
    {
      fifo.Length == SCI_SIZE && start < SCI_SIZE && end < SCI_SIZE
    }

    ghost function State(): SciState
      requires Valid()
      reads this, fifo
      ensures |State().queue| <= 16
    {
      SciState(Ring(fifo[..], start, end), cfg)
    }

    constructor ()
      ensures Valid() && State() == SciState([], 0) && fresh(fifo)
    {
      fifo := new byte[SCI_SIZE](_ => 0);
      start, end, cfg, rxd := 0, 0, 0, 0;
    }

    /** One byte into the ring. */
    method Put(b: byte)
      requires Valid() && |State().queue| < 16
      modifies fifo, `end
      ensures Valid() && State() == old(State()).(queue := old(State()).queue + [b])
    {
      ghost var before := fifo[..];
      RingPush(before, start, end, b);
      fifo[end] := b;
      assert fifo[..] == before[end := b];
      end := end + 1;
      if end >= SCI_SIZE {
        end := 0;
      }
    }

    method PutAll(bytes: seq<byte>)
      requires Valid() && |State().queue| + |bytes| <= 16
      modifies fifo, `end
      ensures Valid() && State() == old(State()).(queue := old(State()).queue + bytes)
    {
      ghost var q := State().queue;
      var i := 0;
      assert q + bytes[..0] == q;
      while i < |bytes|
        invariant i <= |bytes| && Valid() && State() == old(State()).(queue := q + bytes[..i])
      {
        Put(bytes[i]);
        AppendNext(q, bytes, i);
        i := i + 1;
      }
      assert bytes[..i] == bytes;
    }

    /** The oldest byte out of the ring. */
    method Get() returns (c: byte)
      requires Valid() && State().queue != []
      modifies `start
      ensures Valid() && old(State()).queue == [c] + State().queue && State().cfg == old(State()).cfg
    {
      RingPop(fifo[..], start, end);
      c := fifo[start];
      start := start + 1;
      if start >= SCI_SIZE {
        start := 0;
      }
    }

    /** `dps_sci_recv`, the socket holding `available`. */
    method Recv(available: seq<byte>) returns (any: bool)
      requires Valid()
      modifies fifo, `end
      ensures Valid() && State() == old(State()).(queue := old(State()).queue + Taken(old(State()), available))
      ensures any <==> Taken(old(State()), available) != []
    {
      if !ReceiveEnabled(cfg) {
        assert State().queue + [] == State().queue;
        return false;
      }
      var length := (end + SCI_SIZE - start) % SCI_SIZE;
      FifoUsed(fifo[..], start, end);
      var request := SCI_SIZE - length - 1;
      var received := if |available| <= request then |available| else request;
      PutAll(available[..received]);
      any := received > 0;
    }

    /** `dps_sci_rxd_read`. */
    method RxdRead(interrupts: bool, available: seq<byte>)
      requires Valid()
      modifies fifo, this
      ensures Valid() && State() == SciStep(old(State()), ReadRxd(interrupts, available))
      ensures var d := Delivered(old(State()), ReadRxd(interrupts, available));
        rxd == if d == [] then 0 else RXD_VALID + d[0]
    {
      ghost var s := State();
      assert s.queue + [] == s.queue;
      if !ReceiveEnabled(cfg) {
        rxd := 0;
        return;
      }
      if start == end && !interrupts {
        var _ := Recv(available);
      }
      if start != end {
        var c := Get();
        rxd := RXD_VALID + c;
      } else {
        rxd := 0;
      }
    }

    /** `dps_sci_cfg_write`, after the guest stored `value`: a transmit clear hides a receive clear. */
    method CfgWrite(value: word)
      requires Valid()
      modifies this
      ensures Valid() && State() == SciStep(old(State()), Configure(value))
    {
      cfg := value;
      if cfg / 0x1000 % 2 == 1 {
      } else if cfg / 0x2000 % 2 == 1 {
        start := 0;
        end := 0;
      }
      cfg := cfg - cfg / 0x1000 % 2 * 0x1000 - cfg / 0x2000 % 2 * 0x2000;
    }
  }

  // ---------------------------------------------------------------- keyboard scancode FIFO

  const KMC_SIZE: nat := 128       // KMC_FIFO_SCANCODE_SIZE
  const SCANCODE_VALID: word := 0x100

  /** Push onto the reference queue: 127 bytes, dropping the oldest when full. */
  function KmcPush(q: seq<byte>, b: byte): seq<byte> {
    if |q| < 127 then q + [b] else (q + [b])[1..]
  }

  function KmcPushAll(q: seq<byte>, bs: seq<byte>): seq<byte>
    decreases |bs|
  {
    if |bs| == 0 then q else KmcPushAll(KmcPush(q, bs[0]), bs[1..])
  }

  function LastN(s: seq<byte>, n: nat): seq<byte> {
    if |s| <= n then s else s[|s| - n..]
  }

  /** However many scancodes arrive, the queue holds the newest 127 in order. */
  lemma {:induction false} KmcKeepsNewest(q: seq<byte>, bs: seq<byte>)
    requires |q| <= 127
    ensures KmcPushAll(q, bs) == LastN(q + bs, 127)
    decreases |bs|
  {
    if |bs| == 0 {
      assert q + bs == q;
    } else {
      KmcKeepsNewest(KmcPush(q, bs[0]), bs[1..]);
      assert q + bs == (q + [bs[0]]) + bs[1..];
      if |q| == 127 {
        assert (q + [bs[0]])[1..] + bs[1..] == (q + bs)[1..];
        assert LastN(q + bs, 127) == LastN((q + bs)[1..], 127);
      }
    }
  }

  datatype KmcOp = Scancodes(codes: seq<byte>) | ReadKey

  function KmcStep(q: seq<byte>, op: KmcOp): (r: seq<byte>)
    requires |q| <= 127
    ensures |r| <= 127
  {
    match op
    case Scancodes(codes) => KmcKeepsNewest(q, codes); KmcPushAll(q, codes)
    case ReadKey => if q == [] then [] else q[1..]
  }

  /** The bytes an operation removes from the front, oldest first. */
  function Leaves(q: seq<byte>, op: KmcOp): seq<Left>
    requires |q| <= 127
  {
    match op
    case Scancodes(codes) =>
      var all := q + codes;
      seq(|all| - |LastN(all, 127)|, i requires 0 <= i < |all| - |LastN(all, 127)| => Left(all[i], false))
    case ReadKey => if q == [] then [] else [Left(q[0], true)]
  }

  function KmcRun(q: seq<byte>, ops: seq<KmcOp>): (r: seq<byte>)
    requires |q| <= 127
    ensures |r| <= 127
    decreases |ops|
  {
    if |ops| == 0 then q else KmcRun(KmcStep(q, ops[0]), ops[1..])
  }

  function AllLeft(q: seq<byte>, ops: seq<KmcOp>): seq<Left>
    requires |q| <= 127
    decreases |ops|
  {
    if |ops| == 0 then [] else Leaves(q, ops[0]) + AllLeft(KmcStep(q, ops[0]), ops[1..])
  }

  function AllPushed(ops: seq<KmcOp>): seq<byte> {
    if |ops| == 0 then []
    else (if ops[0].Scancodes? then ops[0].codes else []) + AllPushed(ops[1..])
  }

  /** Over any run every scancode leaves in arrival order, read or dropped, or is still queued. */
  lemma {:induction false} KmcConserves(q: seq<byte>, ops: seq<KmcOp>)
    requires |q| <= 127
    ensures q + AllPushed(ops) == Codes(AllLeft(q, ops)) + KmcRun(q, ops)
    decreases |ops|
  {
    if |ops| == 0 {
      assert Codes(AllLeft(q, ops)) == [];
    } else {
      var q1, l := KmcStep(q, ops[0]), Leaves(q, ops[0]);
      var pushed := if ops[0].Scancodes? then ops[0].codes else [];
      KmcStepConserves(q, ops[0]);
      KmcConserves(q1, ops[1..]);
      CodesConcat(l, AllLeft(q1, ops[1..]));
      Chain(q, pushed, Codes(l), q1, AllPushed(ops[1..]), Codes(AllLeft(q1, ops[1..])), KmcRun(q, ops));
    }
  }

  lemma KmcStepConserves(q: seq<byte>, op: KmcOp)
    requires |q| <= 127
    ensures q + (if op.Scancodes? then op.codes else []) == Codes(Leaves(q, op)) + KmcStep(q, op)
  {
    match op
    case Scancodes(codes) => KmcKeepsNewest(q, codes);
    case ReadKey =>
  }

  // ---------------------------------------------------------------- keyboard interrupt

  /** `int_dispatch` and `int_issued`. */
  datatype Latch = Latch(dispatch: bool, issued: bool)

  /** A batch of scancodes, an interrupt check of the loop, a guest read of the interrupt factor. */
  datatype KmcEvent = Arrive(count: nat) | Check | Acknowledged

  predicate Raises(l: Latch, e: KmcEvent) {
    e.Check? && l.dispatch && !l.issued
  }

  function LatchStep(l: Latch, e: KmcEvent): Latch {
    match e
    case Arrive(n) => l.(dispatch := l.dispatch || n > 0)
    case Check => if Raises(l, e) then Latch(false, true) else l
    case Acknowledged => l.(issued := false)
  }

  /** The flags after the first `k` events of a run from reset. */
  function LatchAt(events: seq<KmcEvent>, k: nat): Latch
    requires k <= |events|
  {
    if k == 0 then Latch(false, false) else LatchStep(LatchAt(events, k - 1), events[k - 1])
  }

  /** The interrupt is raised at event `k`. */
  predicate RaisedAt(events: seq<KmcEvent>, k: nat)
    requires k < |events|
  {
    Raises(LatchAt(events, k), events[k])
  }

  /** Scancodes have arrived at `p` and no interrupt has been raised between there and `k`. */
  predicate NewsAt(events: seq<KmcEvent>, p: nat, k: nat)
    requires k <= |events|
  {
    p < k && events[p].Arrive? && events[p].count > 0 && forall r :: p < r < k ==> !RaisedAt(events, r)
  }

  /** The interrupt raised at `r` has not been acknowledged before `k`. */
  predicate OpenAt(events: seq<KmcEvent>, r: nat, k: nat)
    requires k <= |events|
  {
    r < k && RaisedAt(events, r) && forall a :: r < a < k ==> !events[a].Acknowledged?
  }

  ghost predicate HasNews(events: seq<KmcEvent>, k: nat)
    requires k <= |events|
  {
    exists p :: NewsAt(events, p, k)
  }

  ghost predicate HasOpen(events: seq<KmcEvent>, k: nat)
    requires k <= |events|
  {
    exists r :: OpenAt(events, r, k)
  }

  lemma {:induction false} LatchMeaning(events: seq<KmcEvent>, k: nat)
    requires k <= |events|
    ensures LatchAt(events, k).dispatch <==> HasNews(events, k)
    ensures LatchAt(events, k).issued <==> HasOpen(events, k)
  {
    if k != 0 {
      LatchMeaning(events, k - 1);
      NewsNext(events, k - 1, k);
      OpenNext(events, k - 1, k);
    }
  }

  lemma NewsNext(events: seq<KmcEvent>, k: nat, k': nat)
    requires k < |events| && k' == k + 1
    ensures HasNews(events, k') <==>
              (events[k].Arrive? && events[k].count > 0) || (HasNews(events, k) && !RaisedAt(events, k))
  {
    if events[k].Arrive? && events[k].count > 0 {
      assert NewsAt(events, k, k');
    }
    if HasNews(events, k) && !RaisedAt(events, k) {
      var p :| NewsAt(events, p, k);
      assert NewsAt(events, p, k');
    }
    if HasNews(events, k') {
      var p :| NewsAt(events, p, k');
      assert p == k || (NewsAt(events, p, k) && !RaisedAt(events, k));
    }
  }

  lemma OpenNext(events: seq<KmcEvent>, k: nat, k': nat)
    requires k < |events| && k' == k + 1
    ensures HasOpen(events, k') <==>
              RaisedAt(events, k) || (HasOpen(events, k) && !events[k].Acknowledged?)
  {
    if RaisedAt(events, k) {
      assert OpenAt(events, k, k');
    }
    if HasOpen(events, k) && !events[k].Acknowledged? {
      var r :| OpenAt(events, r, k);
      assert OpenAt(events, r, k');
    }
    if HasOpen(events, k') {
      var r :| OpenAt(events, r, k');
      assert r == k || (OpenAt(events, r, k) && !events[k].Acknowledged?);
    }
  }

  /** Over any run, a check raises the interrupt exactly if scancodes have arrived since it was last
      raised and every earlier interrupt has been acknowledged. */
  lemma {:induction false} RaisedIff(events: seq<KmcEvent>, k: nat)
    requires k < |events|
    ensures RaisedAt(events, k) <==> events[k].Check? && HasNews(events, k) && !HasOpen(events, k)
  {
    LatchMeaning(events, k);
  }

  /** So between two interrupts lie an acknowledgement and a new batch. */
  lemma RaisedApart(events: seq<KmcEvent>, i: nat, j: nat)
    requires i < j < |events| && RaisedAt(events, i) && RaisedAt(events, j)
    ensures exists a :: i < a < j && events[a].Acknowledged?
    ensures exists p :: i < p < j && events[p].Arrive? && events[p].count > 0
  {
    RaisedIff(events, j);
    assert !OpenAt(events, i, j);
    var p: nat :| NewsAt(events, p, j);
    assert i < p;
  }

  class Kmc {
    const fifo: array<byte>
    var start: nat
    var end: nat
    var device: word
    var dispatch: bool
    var issued: bool

    ghost predicate Valid()
      reads this
    {
      fifo.Length == KMC_SIZE && start < KMC_SIZE && end < KMC_SIZE
    }

    ghost function Queue(): (q: seq<byte>)
      requires Valid()
      reads this, fifo
      ensures |q| <= 127
    {
      Ring(fifo[..], start, end)
    }

    ghost function Flags(): Latch
      reads this
    {
      Latch(dispatch, issued)
    }

    constructor ()
      ensures Valid() && Queue() == [] && fresh(fifo) && Flags() == LatchAt([], 0)
    {
      fifo := new byte[KMC_SIZE](_ => 0);
      start, end, device, dispatch, issued := 0, 0, 0, false, false;
    }

    /** The KEYBOARD_SCANCODE loop of `monitor_method_recv`. */
    method Push(objects: seq<int>)
      requires Valid()
      modifies fifo, `start, `end, `dispatch
      ensures Valid()
      ensures Queue() == KmcPushAll(old(Queue()), seq(|objects|, k requires 0 <= k < |objects| => objects[k] % 0x100))
      ensures Flags() == LatchStep(old(Flags()), Arrive(|objects|))
    {
      ghost var codes: seq<byte> := seq(|objects|, k requires 0 <= k < |objects| => objects[k] % 0x100);
      var i := 0;
      while i < |objects|
        invariant i <= |objects| && Valid()
        invariant KmcPushAll(old(Queue()), codes) == KmcPushAll(Queue(), codes[i..])
        invariant dispatch == (old(dispatch) || i > 0)
      {
        var scancode: byte := objects[i] % 0x100;
        PushCode(scancode);
        dispatch := true;
        assert codes[i..][1..] == codes[i + 1..];
        i := i + 1;
      }
    }

    method PushCode(scancode: byte)
      requires Valid()
      modifies fifo, `start, `end
      ensures Valid() && Queue() == KmcPush(old(Queue()), scancode)
    {
      ghost var before := fifo[..];
      ghost var full := Bump(end, KMC_SIZE) == start;
      if full {
        RingPushFull(before, start, end, scancode);
      } else {
        RingPush(before, start, end, scancode);
      }
      fifo[end] := scancode;
      assert fifo[..] == before[end := scancode];
      end := end + 1;
      if end >= KMC_SIZE {
        end := 0;
      }
      if start == end {
        start := start + 1;
        if start >= KMC_SIZE {
          start := 0;
        }
      }
    }

    /** `gci_kmc_read`. */
    method Read()
      requires Valid()
      modifies `start, `device
      ensures Valid() && Queue() == KmcStep(old(Queue()), ReadKey)
      ensures device == if old(Queue()) == [] then 0 else SCANCODE_VALID + old(Queue())[0]
    {
      if start == end {
        device := 0;
      } else {
        RingPop(fifo[..], start, end);
        device := fifo[start] + SCANCODE_VALID;
        start := start + 1;
        if start >= KMC_SIZE {
          start := 0;
        }
      }
    }

    /** `gci_kmc_interrupt`. */
    method Interrupt() returns (raised: bool)
      modifies `dispatch, `issued
      ensures raised == Raises(old(Flags()), Check) && Flags() == LatchStep(old(Flags()), Check)
    {
      if dispatch && !issued {
        dispatch := false;
        issued := true;
        return true;
      }
      return false;
    }

    /** The read of the node's interrupt factor. */
    method Acknowledge()
      modifies `issued
      ensures Flags() == LatchStep(old(Flags()), Acknowledged)
    {
      issued := false;
    }
  }
}
