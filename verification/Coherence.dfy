/** What the caches hold after any run, whatever the page tables are and however they change. */
module Coherence {
  import opened Words
  import opened Cache
  import opened Mmu
  import opened LoadStore
  import opened Refinement

  /** The address the access translates: sub-word loads translate the word. */
  function TranslatedAddress(op: Op): word {
    if op.LoadOp? && op.width != FullWord then WordAddress(op.vaddr) else op.vaddr
  }

  function TranslationOf(m: Memory, ctl: Control, op: Op): Translated {
    VirtToPhys(m.hier.ram, m.tlb, ctl, TranslatedAddress(op), op.StoreOp?, op.FetchOp?)
  }

  /** The words whose value the page walk of the access changed. */
  ghost function UpdatedByWalk(m: Memory, ctl: Control, op: Op): set<nat> {
    set k: nat | k < RAM_WORDS && TranslationOf(m, ctl, op).ram[k] != m.hier.ram[k]
  }

  predicate Aligned(op: Op) {
    op.StoreOp? && op.width == FullWord ==> op.vaddr % 4 == 0
  }

  ghost predicate BothCoherent(m: Memory, walked: set<nat>) {
    Coherent(m.hier.icache, m.hier.ram, walked) && Coherent(m.hier.dcache, m.hier.ram, walked)
  }

  lemma TranslationCoherent(m: Memory, ctl: Control, op: Op, walked: set<nat>)
    requires BothCoherent(m, walked)
    ensures BothCoherent(Translated1(m, TranslationOf(m, ctl, op)), walked + UpdatedByWalk(m, ctl, op))
  {
    var t := TranslationOf(m, ctl, op);
    var ram, updated := m.hier.ram, UpdatedByWalk(m, ctl, op);
    if t.ram == ram {
      assert updated == {};
      assert walked + updated == walked;
    } else {
      var walk := WalkTables(ram, ctl, TranslatedAddress(op), op.StoreOp?, op.FetchOp?);
      var x := SetRD(walk.pte, op.StoreOp?);
      SetRDAgrees(walk.pte, op.StoreOp?);
      assert updated == {walk.slot};
      WalkCoherent(m.hier.icache, ram, walked, walk.slot, x);
      WalkCoherent(m.hier.dcache, ram, walked, walk.slot, x);
    }
  }

  lemma FetchCoherent(m: Memory, ctl: Control, pc: word, walked: set<nat>)
    requires BothCoherent(m, walked)
    ensures BothCoherent(Fetch(m, ctl, pc).mem, walked + UpdatedByWalk(m, ctl, FetchOp(pc)))
  {
    var t, walked' := TranslationOf(m, ctl, FetchOp(pc)), walked + UpdatedByWalk(m, ctl, FetchOp(pc));
    TranslationCoherent(m, ctl, FetchOp(pc), walked);
    if t.result.Address? && t.result.paddr < RAM_LIMIT {
      ReadCoherent(m.hier.icache, m.hier.tick, t.ram, t.result.paddr, walked');
    }
  }

  lemma Load32Coherent(m: Memory, ctl: Control, vaddr: word, walked: set<nat>)
    requires BothCoherent(m, walked)
    ensures BothCoherent(Load32(m, ctl, vaddr).mem, walked + UpdatedByWalk(m, ctl, LoadOp(FullWord, vaddr)))
  {
    var op := LoadOp(FullWord, vaddr);
    var t, walked' := TranslationOf(m, ctl, op), walked + UpdatedByWalk(m, ctl, op);
    TranslationCoherent(m, ctl, op, walked);
    if t.result.Address? && t.result.paddr < RAM_LIMIT {
      ReadCoherent(m.hier.dcache, m.hier.tick, t.ram, t.result.paddr, walked');
    }
  }

  lemma WriteBoth(m: Memory, paddr: word, data: word, walked: set<nat>)
    requires BothCoherent(m, walked) && paddr < RAM_LIMIT
    ensures BothCoherent(m.(hier := Write(m.hier, paddr, data)), walked)
  {
    var h := Write(m.hier, paddr, data);
    WriteCoherent(m.hier, paddr, data, walked);
    CoherentWeaken(h.icache, h.ram, walked - {paddr / 4}, walked);
    CoherentWeaken(h.dcache, h.ram, walked - {paddr / 4}, walked);
  }

  lemma PlacedAligned(pte: word, vaddr: word)
    requires vaddr % 4 == 0
    ensures LargeAddress(pte, vaddr) % 4 == 0 && SmallAddress(pte, vaddr) % 4 == 0
  {
    PlacedLarge(pte / LARGE, vaddr);
    PlacedSmall(pte / PAGE, vaddr);
    SameOffset(LargeAddress(pte, vaddr), vaddr);
    SameOffset(SmallAddress(pte, vaddr), vaddr);
  }

  /** Whatever the TLB and the tables hold, translation keeps word alignment. */
  lemma AlignedTarget(ram: Ram, tlb: Tlb, ctl: Control, vaddr: word, write: bool, exec: bool)
    requires vaddr % 4 == 0
    ensures var r := VirtToPhys(ram, tlb, ctl, vaddr, write, exec).result; r.Address? ==> r.paddr % 4 == 0
  {
    PlacedAligned(tlb[TlbIndex(vaddr)].pte, vaddr);
    var walk := WalkTables(ram, ctl, vaddr, write, exec);
    if walk.Large? || walk.Small? {
      PlacedAligned(walk.pte, vaddr);
    }
  }

  lemma StoreCoherent(m: Memory, ctl: Control, op: Op, walked: set<nat>)
    requires op.StoreOp? && BothCoherent(m, walked)
    requires var r := TranslationOf(m, ctl, op).result;
      r.Address? && op.width == FullWord ==> r.paddr % 4 == 0
    ensures BothCoherent(Perform(m, ctl, op).mem, walked + UpdatedByWalk(m, ctl, op))
  {
    var t, walked' := TranslationOf(m, ctl, op), walked + UpdatedByWalk(m, ctl, op);
    TranslationCoherent(m, ctl, op, walked);
    StoreIsWordWrite(m, ctl, op);
    if t.result.Address? && t.result.paddr < RAM_LIMIT {
      var p := t.result.paddr;
      WordAddressRange(p);
      WriteBoth(Translated1(m, t), WordAddress(p), StoredWord(t.ram[p / 4], op), walked');
    }
  }

  /** One access of any kind keeps both caches coherent; only words a walk updated may lag behind
      RAM, and those only by missing Referenced or Dirty bits. */
  lemma PerformCoherent(m: Memory, ctl: Control, op: Op, walked: set<nat>)
    requires BothCoherent(m, walked) && Aligned(op)
    ensures BothCoherent(Perform(m, ctl, op).mem, walked + UpdatedByWalk(m, ctl, op))
  {
    match op
    case FetchOp(v) => FetchCoherent(m, ctl, v, walked);
    case LoadOp(_, v) =>
      Load32Coherent(m, ctl, TranslatedAddress(op), walked);
      assert TranslationOf(m, ctl, op) == TranslationOf(m, ctl, LoadOp(FullWord, TranslatedAddress(op)));
      assert UpdatedByWalk(m, ctl, op) == UpdatedByWalk(m, ctl, LoadOp(FullWord, TranslatedAddress(op)));
    case StoreOp(width, v, _) =>
      if width == FullWord {
        AlignedTarget(m.hier.ram, m.tlb, ctl, v, true, false);
      }
      StoreCoherent(m, ctl, op, walked);
  }

  /** The words the walk of a step changed; a flush walks nothing. */
  ghost function Updated(m: Memory, s: Step): set<nat> {
    if s.Access? then UpdatedByWalk(m, s.ctl, s.op) else {}
  }

  predicate StepAligned(s: Step) {
    s.Access? ==> Aligned(s.op)
  }

  lemma StepCoherent(m: Memory, s: Step, walked: set<nat>)
    requires BothCoherent(m, walked) && StepAligned(s)
    ensures BothCoherent(Take(m, s).mem, walked + Updated(m, s))
  {
    match s
    case Access(ctl, op) => PerformCoherent(m, ctl, op, walked);
    case FlushStep(_) => assert walked + Updated(m, s) == walked;
  }

  function After(m: Memory, steps: seq<Step>): Memory
    decreases |steps|
  {
    if |steps| == 0 then m else After(Take(m, steps[0]).mem, steps[1..])
  }

  /** The words whose value some page walk of the run changed. */
  ghost function UpdatedByWalks(m: Memory, steps: seq<Step>): set<nat>
    decreases |steps|
  {
    if |steps| == 0 then {}
    else Updated(m, steps[0])
         + UpdatedByWalks(Take(m, steps[0]).mem, steps[1..])
  }

  lemma {:induction false} RunCoherent(m: Memory, steps: seq<Step>, walked: set<nat>)
    requires BothCoherent(m, walked) && forall k :: 0 <= k < |steps| ==> StepAligned(steps[k])
    ensures BothCoherent(After(m, steps), walked + UpdatedByWalks(m, steps))
    decreases |steps|
  {
    if |steps| == 0 {
      assert walked + UpdatedByWalks(m, steps) == walked;
    } else {
      var s, updated := steps[0], Updated(m, steps[0]);
      StepCoherent(m, s, walked);
      RunCoherent(Take(m, s).mem, steps[1..], walked + updated);
      assert walked + updated + UpdatedByWalks(Take(m, s).mem, steps[1..])
          == walked + UpdatedByWalks(m, steps);
    }
  }

  /** In every state reachable from reset, each valid cached word is the RAM word, except that it may
      miss Referenced and Dirty bits a walk set; a tag matches at most one valid way of its set. */
  lemma {:induction false} ReachableCoherent(m: Memory, steps: seq<Step>)
    requires Initial(m) && forall k :: 0 <= k < |steps| ==> StepAligned(steps[k])
    ensures BothCoherent(After(m, steps), UpdatedByWalks(m, steps))
  {
    RunCoherent(m, steps, {});
    assert {} + UpdatedByWalks(m, steps) == UpdatedByWalks(m, steps);
  }

  /** What coherence says of one cached word. */
  lemma {:induction false} CachedWord(m: Memory, steps: seq<Step>, c: L1, i: nat, v: nat, j: nat)
    requires Initial(m) && forall k :: 0 <= k < |steps| ==> StepAligned(steps[k])
    requires c == After(m, steps).hier.icache || c == After(m, steps).hier.dcache
    requires i < 16 && v < 4 && j < 16 && c[i][v].valid
    ensures var l, ram := c[i][v], After(m, steps).hier.ram;
      && TagOk(l.tag)
      && AgreesUpToRD(l.data[j], ram[Base(l.tag, i) + j])
      && (Base(l.tag, i) + j !in UpdatedByWalks(m, steps) ==> l.data[j] == ram[Base(l.tag, i) + j])
      && forall w :: 0 <= w < 4 && w != v && c[i][w].valid ==> c[i][w].tag != l.tag
  {
    ReachableCoherent(m, steps);
    var ram, walked := After(m, steps).hier.ram, UpdatedByWalks(m, steps);
    assert SetCoherent(c[i], i, ram, walked);
    assert LineCoherent(c[i][v], i, ram, walked);
    assert WordCoherent(c[i][v].data[j], ram, Base(c[i][v].tag, i) + j, walked);
  }

  /** After a store anywhere in a run from reset, no valid instruction line holds the stored word,
      although the invalidation ignores `valid` and stops at the first tag match. */
  lemma {:induction false} StoreInvalidates(m: Memory, steps: seq<Step>, ctl: Control, op: Op, v: nat)
    requires Initial(m) && forall k :: 0 <= k < |steps| ==> StepAligned(steps[k])
    requires op.StoreOp? && Aligned(op) && v < 4
    requires var t := TranslationOf(After(m, steps), ctl, op); t.result.Address? && t.result.paddr < RAM_LIMIT
    ensures var p := TranslationOf(After(m, steps), ctl, op).result.paddr;
      var l := Perform(After(m, steps), ctl, op).mem.hier.icache[Index(p)][v];
      l.valid ==> l.tag != Tag(p)
  {
    var m1 := After(m, steps);
    var p := TranslationOf(m1, ctl, op).result.paddr;
    ReachableCoherent(m, steps);
    assert SetCoherent(m1.hier.icache[Index(p)], Index(p), m1.hier.ram, UpdatedByWalks(m, steps));
    DropComplete(m1.hier.icache, p, v);
    StoreIsWordWrite(m1, ctl, op);
    SameLine(p);
  }

  lemma SameLine(p: word)
    ensures Tag(WordAddress(p)) == Tag(p) && Index(WordAddress(p)) == Index(p)
  {
    var q := p / 4;
    assert p / 64 == q / 16 && p / 1024 == q / 256;
    assert 4 * q / 64 == q / 16 && 4 * q / 1024 == q / 256;
  }
}
