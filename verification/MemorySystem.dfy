/** The memory hierarchy as the simulator runs it: global arrays updated in place, proved against the
    value-level operations of Cache, Mmu and LoadStore. */
module MemorySystem {
  import opened Words
  import opened Cache
  import opened Mmu
  import opened LoadStore
  import opened HostMemory
  import opened Refinement

  /** The fault registers a translation may set: `memory_is_fault`, FI0R and FI1R. */
  datatype FaultLatch = FaultLatch(num: Vector, fi0r: word, fi1r: word)

  /** `memory_page_fault` and `memory_page_protection_fault`: only the former clears FI1R. */
  function Latch(f: FaultLatch, r: Result, vaddr: word): (l: FaultLatch)
    ensures r.Fault? ==> l.num == r.num && l.fi0r == vaddr && l.fi1r == (if r.num == 40 then 0 else f.fi1r)
    ensures !r.Fault? ==> l == f
  {
    if !r.Fault? then f
    else if r.num == PAGE_FAULT then FaultLatch(PAGE_FAULT, vaddr, 0)
    else FaultLatch(r.num, vaddr, f.fi1r)
  }

  class System {
    const vm: Vm
    const icache: array<Set>
    const dcache: array<Set>
    const tlb: array<TlbEntry>
    var tick: word
    var fault: FaultLatch

    ghost predicate Valid()
    {
      && vm.Valid() && icache.Length == 16 && dcache.Length == 16 && tlb.Length == 16
      && icache != dcache && icache as object != tlb && dcache as object != tlb
      && vm.pages as object != icache && vm.pages as object != dcache && vm.pages as object != tlb
    }

    /** The value of the whole memory hierarchy. */
    ghost function View(): Memory
      requires Valid()
      reads this, vm, vm.pages, icache, dcache, tlb
    {
      Memory(Hierarchy(vm.Ram(), icache[..], dcache[..], tick), tlb[..])
    }

    /** `memory_init`. The tags and stamps start as C's zero-initialised globals. */
    constructor ()
      ensures Valid() && fresh(vm.pages) && fresh(icache) && fresh(dcache) && fresh(tlb) && fresh(vm)
      ensures Initial(View()) && tick == 0 && fault == FaultLatch(0, 0, 0)
      ensures forall k :: 0 <= k < RAM_WORDS ==> View().hier.ram[k] == 0
    {
      var v := new Vm();
      var ic := new Set[16](_ => seq(4, _ => EMPTY_LINE));
      var dc := new Set[16](_ => seq(4, _ => EMPTY_LINE));
      var tl := new TlbEntry[16](_ => TlbEntry(0, 0));
      vm, icache, dcache, tlb := v, ic, dc, tl;
      tick := 0;
      fault := FaultLatch(0, 0, 0);
    }

    // -------------------------------------------------------------- cache.h

    /** The hit search of `memory_cache_l1_read`. */
    method Search(cache: array<Set>, i: nat, tag: word) returns (w: nat)
      requires cache.Length == 16 && i < 16
      ensures w == FindWay(cache[i], tag, 0)
    {
      w := 0;
      while w < 4 && !(cache[i][w].tag == tag && cache[i][w].valid)
        invariant w <= 4 && FindWay(cache[i], tag, 0) == FindWay(cache[i], tag, w)
      {
        w := w + 1;
      }
    }

    /** The victim search: the first invalid way, or the first way of the greatest age. */
    method FindVictim(cache: array<Set>, i: nat) returns (target: nat)
      requires cache.Length == 16 && i < 16
      ensures target == Victim(cache[i], tick, 0, 0, 0)
    {
      var ways := cache[i];
      var oldest: word := 0;
      target := 0;
      var w := 0;
      while w < 4
        invariant w <= 4 && target < 4
        invariant Victim(ways, tick, 0, 0, 0) == Victim(ways, tick, w, oldest, target)
      {
        if !ways[w].valid {
          target := w;
          break;
        }
        var last := Age(ways[w], tick);
        if last > oldest {
          oldest, target := last, w;
        }
        w := w + 1;
      }
    }

    /** The refill loop: sixteen words copied from RAM into the line's data. */
    method RefillLine(cache: array<Set>, i: nat, t: nat, paddr: word)
      requires Valid() && (cache == icache || cache == dcache) && i < 16 && t < 4 && paddr < RAM_LIMIT
      modifies cache, vm.pages
      ensures vm.Ram() == old(vm.Ram())
      ensures cache[..] == old(cache[..])[i := old(cache[i])[t := old(cache[i])[t].(data := Refill(vm.Ram(), paddr))]]
    {
      var j := 0;
      ghost var d := Refill(vm.Ram(), paddr);
      var base := paddr / 64 * 64;
      while j < 16
        invariant j <= 16 && vm.Ram() == old(vm.Ram())
        invariant forall n :: 0 <= n < 16 && n != i ==> cache[n] == old(cache[n])
        invariant forall w :: 0 <= w < 4 && w != t ==> cache[i][w] == old(cache[i])[w]
        invariant cache[i][t].(data := d) == old(cache[i])[t].(data := d)
        invariant cache[i][t].data[..j] == d[..j]
      {
        var x := vm.ReadWord(base + 4 * j);
        assert (base + 4 * j) / 4 == paddr / 64 * 16 + j;
        var line := cache[i][t];
        cache[i] := cache[i][t := line.(data := line.data[j := x])];
        j := j + 1;
      }
      assert cache[i][t].data == d;
      assert cache[i] == old(cache[i])[t := old(cache[i])[t].(data := d)];
    }

    /** The miss path: the victim's state is overwritten, then its line refilled. */
    method Replace(cache: array<Set>, paddr: word) returns (t: nat)
      requires Valid() && (cache == icache || cache == dcache) && paddr < RAM_LIMIT
      modifies cache, vm.pages, `tick
      ensures vm.Ram() == old(vm.Ram()) && tick == Wrap(old(tick) + 1)
      ensures var i, c := Index(paddr), old(cache[..]);
        && t == Victim(c[i], old(tick), 0, 0, 0)
        && cache[..] == c[i := c[i][t := Line(true, Tag(paddr), old(tick), Refill(vm.Ram(), paddr))]]
    {
      var i := Index(paddr);
      ghost var c := cache[..];
      t := FindVictim(cache, i);
      cache[i] := cache[i][t := cache[i][t].(valid := true, last := tick, tag := Tag(paddr))];
      tick := Wrap(tick + 1);
      RefillLine(cache, i, t, paddr);
      LineReplaced(c, i, t, Tag(paddr), old(tick), Refill(vm.Ram(), paddr));
    }

    /** `memory_cache_l1_read` below `MEMORY_MAX_ADDR`. */
    method CacheRead(cache: array<Set>, paddr: word) returns (value: word)
      requires Valid() && (cache == icache || cache == dcache) && paddr < RAM_LIMIT
      modifies cache, vm.pages, `tick
      ensures vm.Ram() == old(vm.Ram())
      ensures Probe(cache[..], tick, value) == Read(old(cache[..]), old(tick), old(vm.Ram()), paddr)
    {
      var i := Index(paddr);
      var w := Search(cache, i, Tag(paddr));
      if w < 4 {
        cache[i] := cache[i][w := cache[i][w].(last := tick)];
        tick := Wrap(tick + 1);
      } else {
        w := Replace(cache, paddr);
      }
      value := cache[i][w].data[WordOf(paddr)];
    }

    /** The invalidation loop of `memory_cache_l1_write`, which ignores `valid` and stops at the
        first tag match. */
    method Invalidate(paddr: word)
      requires Valid()
      modifies icache
      ensures icache[..] == Drop(old(icache[..]), paddr)
    {
      var i, tag := Index(paddr), Tag(paddr);
      var w := 0;
      while w < 4
        invariant w <= 4 && icache[..] == old(icache[..])
        invariant FindTag(old(icache[i]), tag, 0) == FindTag(old(icache[i]), tag, w)
      {
        if icache[i][w].tag == tag {
          icache[i] := icache[i][w := icache[i][w].(valid := false)];
          break;
        }
        w := w + 1;
      }
    }

    /** `memory_cache_l1_write` below `MEMORY_MAX_ADDR`. */
    method CacheWrite(paddr: word, data: word)
      requires Valid() && paddr < RAM_LIMIT
      modifies icache, dcache, vm.pages, `tick
      ensures View().hier == Write(old(View().hier), paddr, data)
    {
      var i := Index(paddr);
      Invalidate(paddr);
      vm.WriteWord(paddr, data);
      var w := Search(dcache, i, Tag(paddr));
      if w < 4 {
        dcache[i] := dcache[i][w := dcache[i][w].(data := dcache[i][w].data[WordOf(paddr) := data])];
      } else {
        var _ := CacheRead(dcache, paddr);
      }
    }

    // -------------------------------------------------------------- tlb.h, mmu.h, memory.c

    /** `memory_tlb_flush`. */
    method FlushTlb()
      requires Valid()
      modifies tlb
      ensures tlb[..] == TlbFlush(old(tlb[..]))
    {
      var i := 0;
      while i < 16
        invariant i <= 16
        invariant forall k :: 0 <= k < 16 ==> tlb[k] == if k < i then old(tlb[k]).(pte := 0) else old(tlb[k])
      {
        tlb[i] := tlb[i].(pte := 0);
        i := i + 1;
      }
    }

    /** `memory_page_walk_L2`. */
    method PageWalk(ctl: Control, vaddr: word, write: bool, exec: bool) returns (r: Result)
      requires Valid()
      modifies tlb, vm.pages, `fault
      ensures var w := WalkTables(old(vm.Ram()), ctl, vaddr, write, exec);
        && r == WalkResult(w, vaddr)
        && vm.Ram() == WriteBack(old(vm.Ram()), w, write)
        && tlb[..] == TlbFill(old(tlb[..]), w, vaddr, write)
        && fault == Latch(old(fault), r, vaddr)
    {
      var pdt := if User(ctl.psr) then ctl.pdtr else ctl.kpdtr;
      if !TableInRam(pdt) {
        return TableOutsideRam;
      }
      var pte := vm.ReadWord(pdt + 4 * (vaddr / LARGE));
      assert (pdt + 4 * (vaddr / LARGE)) / 4 == Slot1(pdt, vaddr);
      if !PteValid(pte) {
        fault := FaultLatch(PAGE_FAULT, vaddr, 0);
        return Fault(PAGE_FAULT);
      }
      if !Permits(pte, ctl.psr, write, exec) {
        fault := fault.(num := PROTECTION_FAULT, fi0r := vaddr);
        return Fault(PROTECTION_FAULT);
      }
      if PageExtension(pte) {
        tlb[TlbIndex(vaddr)] := TlbEntry(vaddr, pte);
        return Address(LargeAddress(pte, vaddr));
      }
      if pte / PAGE * PAGE >= RAM_LIMIT {
        return TableOutsideRam;
      }
      r := WalkLeaf(ctl, pte, vaddr, write, exec);
    }

    /** The second level of `memory_page_walk_L2`, under the first-level entry `l1`. */
    method WalkLeaf(ctl: Control, l1: word, vaddr: word, write: bool, exec: bool) returns (r: Result)
      requires Valid() && l1 / PAGE * PAGE < RAM_LIMIT
      modifies tlb, vm.pages, `fault
      ensures var w := LeafWalk(old(vm.Ram()), ctl.psr, l1, vaddr, write, exec);
        && r == WalkResult(w, vaddr)
        && vm.Ram() == WriteBack(old(vm.Ram()), w, write)
        && tlb[..] == TlbFill(old(tlb[..]), w, vaddr, write)
        && fault == Latch(old(fault), r, vaddr)
    {
      var entry := l1 / PAGE * PAGE + 4 * (vaddr / PAGE % 1024);
      LeafAddress(l1, vaddr);
      var pte := vm.ReadWord(entry);
      if !PteValid(pte) {
        fault := FaultLatch(PAGE_FAULT, vaddr, 0);
        return Fault(PAGE_FAULT);
      }
      if !Permits(pte, ctl.psr, write, exec) {
        fault := fault.(num := PROTECTION_FAULT, fi0r := vaddr);
        return Fault(PROTECTION_FAULT);
      }
      pte := SetRD(pte, write);
      vm.WriteWord(entry, pte);
      tlb[TlbIndex(vaddr)] := TlbEntry(vaddr, pte);
      SetRDFrame(old(vm.Ram())[entry / 4], write);
      r := Address(SmallAddress(pte, vaddr));
    }

    /** `memory_tlb_get`. */
    method LookupTlb(psr: word, vaddr: word, write: bool, exec: bool) returns (paddr: word)
      requires Valid()
      ensures paddr == TlbGet(tlb[..], psr, vaddr, write, exec)
    {
      var e := tlb[TlbIndex(vaddr)];
      if !PteValid(e.pte) {
        return RAM_LIMIT;
      }
      if e.pageNum / LARGE != vaddr / LARGE {
        return RAM_LIMIT;
      }
      if PageExtension(e.pte) {
        paddr := LargeAddress(e.pte, vaddr);
      } else if e.pageNum / PAGE == vaddr / PAGE {
        paddr := SmallAddress(e.pte, vaddr);
      } else {
        return RAM_LIMIT;
      }
      if !Permits(e.pte, psr, write, exec) {
        return RAM_LIMIT;
      }
    }

    /** `memory_addr_virt2phy`. */
    method VirtualToPhysical(ctl: Control, vaddr: word, write: bool, exec: bool) returns (r: Result)
      requires Valid()
      modifies tlb, vm.pages, `fault
      ensures Translated(vm.Ram(), tlb[..], r) == VirtToPhys(old(vm.Ram()), old(tlb[..]), ctl, vaddr, write, exec)
      ensures fault == Latch(old(fault), r, vaddr)
    {
      if MmuMode(ctl.psr) == 0 {
        return Address(vaddr);
      }
      if MmuMode(ctl.psr) != 2 {
        return UnsupportedMode;
      }
      var hit := LookupTlb(ctl.psr, vaddr, write, exec);
      if hit != RAM_LIMIT {
        return Address(hit);
      }
      r := PageWalk(ctl, vaddr, write, exec);
    }

    // -------------------------------------------------------------- load_store.h, fetch.h

    /** `memory_ld32`. */
    method Ld32(ctl: Control, vaddr: word) returns (reply: Reply)
      requires Valid()
      modifies this, vm.pages, dcache, tlb
      ensures Accessed(View(), reply) == Load32(old(View()), ctl, vaddr)
      ensures fault == LatchReply(old(fault), reply, vaddr)
    {
      var r := VirtualToPhysical(ctl, vaddr, false, false);
      if !r.Address? {
        return Refused(r);
      }
      if r.paddr >= RAM_LIMIT {
        return Device(r.paddr);
      }
      var value := CacheRead(dcache, r.paddr);
      reply := Data(value);
    }

    /** `memory_ld16`. */
    method Ld16(ctl: Control, vaddr: word) returns (reply: Reply)
      requires Valid()
      modifies this, vm.pages, dcache, tlb
      ensures Accessed(View(), reply) == Load16(old(View()), ctl, vaddr)
      ensures fault == LatchReply(old(fault), reply, WordAddress(vaddr))
    {
      reply := Ld32(ctl, WordAddress(vaddr));
      if reply.Data? {
        reply := Data(Half(reply.value, 1 - vaddr / 2 % 2));
      }
    }

    /** `memory_ld8`. */
    method Ld8(ctl: Control, vaddr: word) returns (reply: Reply)
      requires Valid()
      modifies this, vm.pages, dcache, tlb
      ensures Accessed(View(), reply) == Load8(old(View()), ctl, vaddr)
      ensures fault == LatchReply(old(fault), reply, WordAddress(vaddr))
    {
      reply := Ld32(ctl, WordAddress(vaddr));
      if reply.Data? {
        reply := Data(Lane(reply.value, 3 - vaddr % 4));
      }
    }

    /** `instruction_fetch`. */
    method FetchInstruction(ctl: Control, pc: word) returns (reply: Reply)
      requires Valid()
      modifies this, vm.pages, icache, tlb
      ensures Accessed(View(), reply) == Fetch(old(View()), ctl, pc)
      ensures fault == LatchReply(old(fault), reply, pc)
    {
      var r := VirtualToPhysical(ctl, pc, false, true);
      if !r.Address? {
        return Refused(r);
      }
      if r.paddr >= RAM_LIMIT {
        return Device(r.paddr);
      }
      var value := CacheRead(icache, r.paddr);
      reply := Data(value);
    }

    /** `memory_st32`; the instructions pass it aligned addresses. */
    method St32(ctl: Control, vaddr: word, src: word) returns (reply: Reply)
      requires Valid() && vaddr % 4 == 0
      modifies this, vm.pages, icache, dcache, tlb
      ensures Accessed(View(), reply) == Store32(old(View()), ctl, vaddr, src)
      ensures fault == LatchReply(old(fault), reply, vaddr)
    {
      var r := VirtualToPhysical(ctl, vaddr, true, false);
      if !r.Address? {
        return Refused(r);
      }
      if r.paddr >= RAM_LIMIT {
        return Device(r.paddr);
      }
      CacheWrite(r.paddr, src);
      reply := Done;
    }

    /** `memory_st16`: merges the half into the word RAM holds, then writes the word. */
    method St16(ctl: Control, vaddr: word, src: word) returns (reply: Reply)
      requires Valid()
      modifies this, vm.pages, icache, dcache, tlb
      ensures Accessed(View(), reply) == Store16(old(View()), ctl, vaddr, src)
      ensures fault == LatchReply(old(fault), reply, vaddr)
    {
      var r := VirtualToPhysical(ctl, vaddr, true, false);
      if !r.Address? {
        return Refused(r);
      }
      var p := WordAddress(r.paddr);
      if p >= RAM_LIMIT {
        return Device(p);
      }
      var tmp := vm.ReadWord(p);
      tmp := SetHalf(tmp, 1 - vaddr / 2 % 2, src);
      CacheWrite(p, tmp);
      reply := Done;
    }

    /** `memory_st8`: merges the byte into the word RAM holds, then writes the word. */
    method St8(ctl: Control, vaddr: word, src: word) returns (reply: Reply)
      requires Valid()
      modifies this, vm.pages, icache, dcache, tlb
      ensures Accessed(View(), reply) == Store8(old(View()), ctl, vaddr, src)
      ensures fault == LatchReply(old(fault), reply, vaddr)
    {
      var r := VirtualToPhysical(ctl, vaddr, true, false);
      if !r.Address? {
        return Refused(r);
      }
      var p := WordAddress(r.paddr);
      if p >= RAM_LIMIT {
        return Device(p);
      }
      var tmp := vm.ReadWord(p);
      tmp := SetLane(tmp, 3 - vaddr % 4, src % 0x100);
      CacheWrite(p, tmp);
      reply := Done;
    }

    /** The load of one width. */
    method Ld(ctl: Control, width: Width, vaddr: word) returns (reply: Reply)
      requires Valid()
      modifies this, vm.pages, dcache, tlb
      ensures Accessed(View(), reply) == Perform(old(View()), ctl, LoadOp(width, vaddr))
      ensures fault == LatchReply(old(fault), reply, if width == FullWord then vaddr else WordAddress(vaddr))
    {
      match width {
        case Byte => reply := Ld8(ctl, vaddr);
        case HalfWord => reply := Ld16(ctl, vaddr);
        case FullWord => reply := Ld32(ctl, vaddr);
      }
    }

    /** The store of one width. */
    method St(ctl: Control, width: Width, vaddr: word, src: word) returns (reply: Reply)
      requires Valid() && (width == FullWord ==> vaddr % 4 == 0)
      modifies this, vm.pages, icache, dcache, tlb
      ensures Accessed(View(), reply) == Perform(old(View()), ctl, StoreOp(width, vaddr, src))
      ensures fault == LatchReply(old(fault), reply, vaddr)
    {
      match width {
        case Byte => reply := St8(ctl, vaddr, src);
        case HalfWord => reply := St16(ctl, vaddr, src);
        case FullWord => reply := St32(ctl, vaddr, src);
      }
    }
  }

  /** The fault registers after an access that replied `reply`. */
  function LatchReply(f: FaultLatch, reply: Reply, vaddr: word): FaultLatch {
    if reply.Faulted? then Latch(f, Fault(reply.num), vaddr) else f
  }

  /** A line given its new fields and then its data is the new line. */
  lemma LineReplaced(c: seq<Set>, i: nat, t: nat, tag: word, last: word, d: Data)
    requires i < |c| && t < 4
    ensures var c1 := c[i := c[i][t := c[i][t].(valid := true, last := last, tag := tag)]];
      c1[i := c1[i][t := c1[i][t].(data := d)]] == c[i := c[i][t := Line(true, tag, last, d)]]
  {
    var s := c[i];
    var s1 := s[t := s[t].(valid := true, last := last, tag := tag)];
    var s2 := s1[t := s1[t].(data := d)];
    assert s2 == s[t := Line(true, tag, last, d)];
    assert c[i := s1][i := s2] == c[i := s2];
  }

  lemma LeafAddress(l1: word, vaddr: word)
    requires l1 / PAGE * PAGE < RAM_LIMIT
    ensures var entry := l1 / PAGE * PAGE + 4 * (vaddr / PAGE % 1024);
      entry < RAM_LIMIT && entry / 4 == Slot2(l1, vaddr)
  {
    var n, o := l1 / PAGE, vaddr / PAGE % 1024;
    assert n * PAGE + 4 * o == 4 * (n * 1024 + o);
  }

  /** The Referenced and Dirty bits lie below the frame bits. */
  lemma SetRDFrame(pte: word, write: bool)
    ensures SetRD(pte, write) / PAGE == pte / PAGE
  {
    SetRDAgrees(pte, write);
    SameEntryFields(pte, SetRD(pte, write));
  }
}
