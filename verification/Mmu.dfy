/** Address translation of mmu.h, tlb.h and memory.c: privileges, the two-level walk, the TLB. */
module Mmu {
  import opened Words
  import opened Cache

  const LARGE: int := 0x40_0000  // bytes under one first-level entry
  const PAGE: int := 0x1000      // bytes under one second-level entry

  /** An interrupt descriptor number. */
  type Vector = n: nat | n < 128

  const PAGE_FAULT: Vector := 40        // IDT_PAGEFAULT_NUM
  const PROTECTION_FAULT: Vector := 41  // IDT_INVALID_PRIV_NUM

  /** The registers the MMU reads. */
  datatype Control = Control(psr: word, pdtr: word, kpdtr: word)

  function MmuMode(psr: word): word { psr % 4 }

  function Cmod(psr: word): word { psr / 0x20 % 4 }

  predicate Kernel(psr: word) { Cmod(psr) == 0 }

  predicate User(psr: word) { Cmod(psr) == 3 }

  /** The page directory the walk starts from: PDTR in user mode, KPDTR in every other mode. */
  function Root(ctl: Control): word {
    if User(ctl.psr) then ctl.pdtr else ctl.kpdtr
  }

  predicate PteValid(pte: word) { pte % 2 == 1 }

  predicate Executable(pte: word) { pte / 8 % 2 == 1 }

  function Protection(pte: word): word { pte / 0x10 % 4 }

  predicate PageExtension(pte: word) { pte / 0x100 % 2 == 1 }

  /** `memory_check_privilege`. */
  predicate Permits(pte: word, psr: word, write: bool, exec: bool) {
    if exec && !Executable(pte) then false
    else match Protection(pte)
      case 0 => Kernel(psr)
      case 1 => Kernel(psr) && !write
      case 2 => Kernel(psr) || !write
      case _ => true
  }

  function LargeAddress(pte: word, vaddr: word): word {
    pte / LARGE * LARGE + vaddr % LARGE
  }

  function SmallAddress(pte: word, vaddr: word): word {
    pte / PAGE * PAGE + vaddr % PAGE
  }

  function SetReferenced(pte: word): word {
    if pte / 2 % 2 == 0 then pte + 2 else pte
  }

  function SetDirty(pte: word): word {
    if pte / 4 % 2 == 0 then pte + 4 else pte
  }

  /** The entry with Referenced set, and Dirty too for a write. */
  function SetRD(pte: word, write: bool): word {
    if write then SetDirty(SetReferenced(pte)) else SetReferenced(pte)
  }

  /** A page table the walk can index without leaving RAM. */
  predicate TableInRam(base: word) {
    base % PAGE == 0 && base < RAM_LIMIT
  }

  /** The RAM word holding the first-level entry of `vaddr`. */
  function Slot1(root: word, vaddr: word): (k: nat)
    requires TableInRam(root)
    ensures k < RAM_WORDS
  {
    root / 4 + vaddr / LARGE
  }

  /** The RAM word holding the second-level entry of `vaddr` under the first-level entry `pte`. */
  function Slot2(pte: word, vaddr: word): (k: nat)
    requires pte / PAGE * PAGE < RAM_LIMIT
    ensures k < RAM_WORDS
  {
    pte / PAGE * 1024 + vaddr / PAGE % 1024
  }

  // ---------------------------------------------------------------- the walk

  datatype Walk =
    | Large(pte: word)
    | Small(slot: nat, pte: word)
    | Denied(num: Vector)
    | OutsideRam

  /** The second level of the walk, under the first-level entry `l1`. */
  function LeafWalk(ram: Ram, psr: word, l1: word, vaddr: word, write: bool, exec: bool): (r: Walk)
    requires l1 / PAGE * PAGE < RAM_LIMIT
    ensures r.Small? ==> r.slot < RAM_WORDS && r.pte == ram[r.slot]
    ensures r.Denied? ==> r.num == PAGE_FAULT || r.num == PROTECTION_FAULT
  {
    var l2 := ram[Slot2(l1, vaddr)];
    if !PteValid(l2) then Denied(PAGE_FAULT)
    else if !Permits(l2, psr, write, exec) then Denied(PROTECTION_FAULT)
    else Small(Slot2(l1, vaddr), l2)
  }

  /** What `memory_page_walk_L2` finds. */
  function WalkTables(ram: Ram, ctl: Control, vaddr: word, write: bool, exec: bool): (r: Walk)
    ensures r.Small? ==> r.slot < RAM_WORDS && r.pte == ram[r.slot]
    ensures r.Denied? ==> r.num == PAGE_FAULT || r.num == PROTECTION_FAULT
  {
    if !TableInRam(Root(ctl)) then OutsideRam
    else
      var l1 := ram[Slot1(Root(ctl), vaddr)];
      if !PteValid(l1) then Denied(PAGE_FAULT)
      else if !Permits(l1, ctl.psr, write, exec) then Denied(PROTECTION_FAULT)
      else if PageExtension(l1) then Large(l1)
      else if l1 / PAGE * PAGE >= RAM_LIMIT then OutsideRam
      else
        LeafWalk(ram, ctl.psr, l1, vaddr, write, exec)
  }

  datatype Result =
    | Address(paddr: word)
    | Fault(num: Vector)
    | TableOutsideRam
    | UnsupportedMode

  function WalkResult(walk: Walk, vaddr: word): Result {
    match walk
    case Large(pte) => Address(LargeAddress(pte, vaddr))
    case Small(_, pte) => Address(SmallAddress(pte, vaddr))
    case Denied(num) => Fault(num)
    case OutsideRam => TableOutsideRam
  }

  /** The pure translation: the walk without a TLB, without its side effects. */
  function Translate(ram: Ram, ctl: Control, vaddr: word, write: bool, exec: bool): Result {
    match MmuMode(ctl.psr)
    case 0 => Address(vaddr)
    case 2 => WalkResult(WalkTables(ram, ctl, vaddr, write, exec), vaddr)
    case _ => UnsupportedMode
  }

  /** The walk's write-back of Referenced and Dirty. */
  function WriteBack(ram: Ram, walk: Walk, write: bool): Ram
    requires walk.Small? ==> walk.slot < RAM_WORDS
  {
    if walk.Small? then ram[walk.slot := SetRD(walk.pte, write)] else ram
  }

  // ---------------------------------------------------------------- the TLB

  datatype TlbEntry = TlbEntry(pageNum: word, pte: word)

  type Tlb = t: seq<TlbEntry> | |t| == 16 witness seq(16, _ => TlbEntry(0, 0))

  function TlbIndex(vaddr: word): (i: nat)
    ensures i < 16
  {
    vaddr / LARGE % 16
  }

  /** `memory_tlb_get`; a miss is the address `MEMORY_MAX_ADDR`. */
  function TlbGet(tlb: Tlb, psr: word, vaddr: word, write: bool, exec: bool): word {
    var e := tlb[TlbIndex(vaddr)];
    if !PteValid(e.pte) then RAM_LIMIT
    else if e.pageNum / LARGE != vaddr / LARGE then RAM_LIMIT
    else if PageExtension(e.pte) then
      if Permits(e.pte, psr, write, exec) then LargeAddress(e.pte, vaddr) else RAM_LIMIT
    else if e.pageNum / PAGE == vaddr / PAGE then
      if Permits(e.pte, psr, write, exec) then SmallAddress(e.pte, vaddr) else RAM_LIMIT
    else RAM_LIMIT
  }

  function TlbFlush(tlb: Tlb): (r: Tlb)
    ensures forall i :: 0 <= i < 16 ==> r[i] == tlb[i].(pte := 0)
  {
    seq(16, i requires 0 <= i < 16 => tlb[i].(pte := 0))
  }

  /** The TLB after the walk has cached what it found. */
  function TlbFill(tlb: Tlb, walk: Walk, vaddr: word, write: bool): Tlb {
    match walk
    case Large(pte) => tlb[TlbIndex(vaddr) := TlbEntry(vaddr, pte)]
    case Small(_, pte) => tlb[TlbIndex(vaddr) := TlbEntry(vaddr, SetRD(pte, write))]
    case _ => tlb
  }

  datatype Translated = Translated(ram: Ram, tlb: Tlb, result: Result)

  /** `memory_addr_virt2phy`. */
  function VirtToPhys(ram: Ram, tlb: Tlb, ctl: Control, vaddr: word, write: bool, exec: bool): Translated {
    match MmuMode(ctl.psr)
    case 0 => Translated(ram, tlb, Address(vaddr))
    case 2 =>
      var hit := TlbGet(tlb, ctl.psr, vaddr, write, exec);
      if hit != RAM_LIMIT then Translated(ram, tlb, Address(hit))
      else
        var walk := WalkTables(ram, ctl, vaddr, write, exec);
        Translated(WriteBack(ram, walk, write), TlbFill(tlb, walk, vaddr, write), WalkResult(walk, vaddr))
    case _ => Translated(ram, tlb, UnsupportedMode)
  }

  // ---------------------------------------------------------------- meaning of the tables

  /** The two entries differ at most in Referenced and Dirty. */
  predicate SameEntry(p: word, q: word) {
    p / 8 == q / 8 && p % 2 == q % 2
  }

  lemma SameEntryFields(p: word, q: word)
    requires SameEntry(p, q)
    ensures PteValid(p) == PteValid(q) && PageExtension(p) == PageExtension(q)
    ensures p / PAGE == q / PAGE && p / LARGE == q / LARGE
    ensures Executable(p) == Executable(q) && Protection(p) == Protection(q)
    ensures forall psr, write, exec :: Permits(p, psr, write, exec) == Permits(q, psr, write, exec)
  {
    assert p / 0x10 == p / 8 / 2 && q / 0x10 == q / 8 / 2;
    assert p / 0x100 == p / 8 / 0x20 && q / 0x100 == q / 8 / 0x20;
    assert p / PAGE == p / 8 / 0x200 && q / PAGE == q / 8 / 0x200;
    assert p / LARGE == p / 8 / 0x8_0000 && q / LARGE == q / 8 / 0x8_0000;
  }

  lemma LowBits(p: int, q: int, r: int)
    requires p == 8 * q + r && 0 <= r < 8
    ensures p / 8 == q && p % 2 == r % 2 && p / 2 % 2 == r / 2 % 2 && p / 4 % 2 == r / 4
  {
    assert p / 2 == 4 * q + r / 2;
    assert p / 4 == 2 * q + r / 4;
  }

  lemma SetReferencedBits(p: word)
    ensures var p' := SetReferenced(p);
      p' / 8 == p / 8 && p' % 2 == p % 2 && p' / 2 % 2 == 1 && p' / 4 % 2 == p / 4 % 2
  {
    var q, r := p / 8, p % 8;
    LowBits(p, q, r);
    LowBits(SetReferenced(p), q, if r / 2 % 2 == 0 then r + 2 else r);
  }

  lemma SetDirtyBits(p: word)
    ensures var p' := SetDirty(p);
      p' / 8 == p / 8 && p' % 2 == p % 2 && p' / 2 % 2 == p / 2 % 2 && p' / 4 % 2 == 1
  {
    var q, r := p / 8, p % 8;
    LowBits(p, q, r);
    LowBits(SetDirty(p), q, if r / 4 == 0 then r + 4 else r);
  }

  lemma SetRDAgrees(pte: word, write: bool)
    ensures AgreesUpToRD(pte, SetRD(pte, write)) && SameEntry(pte, SetRD(pte, write))
    ensures SetRD(SetRD(pte, write), write) == SetRD(pte, write)
  {
    SetReferencedBits(pte);
    SetDirtyBits(SetReferenced(pte));
  }

  function L1Entry(ram: Ram, root: word, vaddr: word): word
    requires TableInRam(root)
  {
    ram[Slot1(root, vaddr)]
  }

  /** The first-level entry of `vaddr` leads to a second-level table in RAM. */
  predicate HasTable(ram: Ram, root: word, vaddr: word) {
    && TableInRam(root)
    && var l1 := L1Entry(ram, root, vaddr);
       PteValid(l1) && !PageExtension(l1) && l1 / PAGE * PAGE < RAM_LIMIT
  }

  /** The RAM word of the second-level entry of `vaddr`. */
  function LeafSlot(ram: Ram, root: word, vaddr: word): (k: nat)
    requires HasTable(ram, root, vaddr)
    ensures k < RAM_WORDS
  {
    Slot2(L1Entry(ram, root, vaddr), vaddr)
  }

  /** RAM word `k` is an entry of the tables under `root`. */
  ghost predicate TableWord(ram: Ram, root: word, k: nat) {
    exists v: word :: EntryOf(ram, root, v, k)
  }

  predicate EntryOf(ram: Ram, root: word, v: word, k: nat) {
    TableInRam(root) && (k == Slot1(root, v) || (HasTable(ram, root, v) && k == LeafSlot(ram, root, v)))
  }

  predicate SameEntriesAt(m: Ram, m': Ram, root: word, v: word) {
    TableInRam(root) ==>
      && SameEntry(L1Entry(m, root, v), L1Entry(m', root, v))
      && (HasTable(m, root, v) ==> SameEntry(m[LeafSlot(m, root, v)], m'[LeafSlot(m, root, v)]))
  }

  /** The tables under `root` differ at most in Referenced and Dirty bits. */
  ghost predicate SameTables(m: Ram, m': Ram, root: word) {
    forall v: word :: SameEntriesAt(m, m', root, v)
  }

  lemma SameTablesSameSlots(m: Ram, m': Ram, root: word, v: word)
    requires SameTables(m, m', root)
    ensures HasTable(m, root, v) == HasTable(m', root, v)
    ensures HasTable(m, root, v) ==> LeafSlot(m, root, v) == LeafSlot(m', root, v)
  {
    assert SameEntriesAt(m, m', root, v);
    if TableInRam(root) {
      SameEntryFields(L1Entry(m, root, v), L1Entry(m', root, v));
    }
  }

  /** Writing a word that no table under `root` contains leaves the tables as they are. */
  lemma OutsideTables(ram: Ram, root: word, k: nat, x: word)
    requires k < RAM_WORDS && !TableWord(ram, root, k)
    ensures SameTables(ram, ram[k := x], root)
  {
    var ram': Ram := ram[k := x];
    forall v: word
      ensures SameEntriesAt(ram, ram', root, v)
    {
      assert !EntryOf(ram, root, v, k);
    }
  }

  lemma TableWordSame(m: Ram, m': Ram, root: word, k: nat)
    requires SameTables(m, m', root)
    ensures TableWord(m, root, k) == TableWord(m', root, k)
  {
    if TableWord(m, root, k) {
      var v: word :| EntryOf(m, root, v, k);
      SameTablesSameSlots(m, m', root, v);
      assert EntryOf(m', root, v, k);
    }
    if TableWord(m', root, k) {
      var v: word :| EntryOf(m', root, v, k);
      SameTablesSameSlots(m, m', root, v);
      assert EntryOf(m, root, v, k);
    }
  }

  /** Referenced and Dirty bits mean nothing to a walk, for any address, access and mode. */
  lemma SameTablesSameWalk(m: Ram, m': Ram, ctl: Control, vaddr: word, write: bool, exec: bool)
    requires MmuMode(ctl.psr) == 2 ==> SameTables(m, m', Root(ctl))
    ensures Translate(m, ctl, vaddr, write, exec) == Translate(m', ctl, vaddr, write, exec)
    ensures MmuMode(ctl.psr) == 2 ==>
      var w, w' := WalkTables(m, ctl, vaddr, write, exec), WalkTables(m', ctl, vaddr, write, exec);
      && WalkResult(w, vaddr) == WalkResult(w', vaddr)
      && w.Small? == w'.Small? && (w.Small? ==> w.slot == w'.slot)
  {
    var root := Root(ctl);
    if MmuMode(ctl.psr) == 2 && TableInRam(root) {
      assert SameEntriesAt(m, m', root, vaddr);
      SameEntryFields(L1Entry(m, root, vaddr), L1Entry(m', root, vaddr));
      if HasTable(m, root, vaddr) {
        SameEntryFields(m[LeafSlot(m, root, vaddr)], m'[LeafSlot(m, root, vaddr)]);
      }
    }
  }

  lemma WriteBackSame(ram: Ram, ctl: Control, vaddr: word, write: bool, exec: bool, root: word)
    ensures SameTables(ram, WriteBack(ram, WalkTables(ram, ctl, vaddr, write, exec), write), root)
  {
    var walk := WalkTables(ram, ctl, vaddr, write, exec);
    if walk.Small? {
      SetRDAgrees(walk.pte, write);
    }
  }

  /** The write-back of one walk changes no other translation, privilege result or fault, and
      repeating the walk changes nothing more, wherever the tables lie and even if they overlap. */
  lemma WriteBackKeepsMeaning(ram: Ram, ctl: Control, vaddr: word, write: bool, exec: bool,
                              ctl': Control, vaddr': word, write': bool, exec': bool)
    requires MmuMode(ctl.psr) == 2
    ensures var walk := WalkTables(ram, ctl, vaddr, write, exec);
      var ram' := WriteBack(ram, walk, write);
      var again := WalkTables(ram', ctl, vaddr, write, exec);
      && Translate(ram', ctl', vaddr', write', exec') == Translate(ram, ctl', vaddr', write', exec')
      && WalkResult(again, vaddr) == WalkResult(walk, vaddr)
      && WriteBack(ram', again, write) == ram'
  {
    var walk := WalkTables(ram, ctl, vaddr, write, exec);
    var ram' := WriteBack(ram, walk, write);
    WriteBackSame(ram, ctl, vaddr, write, exec, Root(ctl'));
    SameTablesSameWalk(ram, ram', ctl', vaddr', write', exec');
    WriteBackSame(ram, ctl, vaddr, write, exec, Root(ctl));
    SameTablesSameWalk(ram, ram', ctl, vaddr, write, exec);
    if walk.Small? {
      SetRDAgrees(walk.pte, write);
    }
  }
}
