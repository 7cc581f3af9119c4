/** Page privileges and page walks in the terms of the C masks. */
module Privilege {
  import opened Words
  import opened Cache
  import opened Mmu
  import opened Bits

  /** What a page's PP and EX bits grant: kernel mode everything but writing a read-only page, the other
      modes only what is open to them; executing needs EX in every mode. */
  lemma PermitsIff(pte: word, psr: word, write: bool, exec: bool)
    ensures And(psr, 0x60) == 0 ==>
      (Permits(pte, psr, write, exec) <==> (exec ==> And(pte, 0x8) != 0) && !(write && And(pte, 0x30) == 0x10))
    ensures And(psr, 0x60) != 0 ==>
      (Permits(pte, psr, write, exec) <==>
         (exec ==> And(pte, 0x8) != 0) && (And(pte, 0x30) == 0x30 || (And(pte, 0x30) == 0x20 && !write)))
  {
    PteMasks(pte);
    PsrMasks(psr);
  }

  // ---------------------------------------------------------------- the walk in masks

  /** `memory_check_privilege`, by the masks. */
  predicate Granted(pte: word, psr: word, write: bool, exec: bool) {
    && (exec ==> And(pte, 0x8) != 0)
    && if And(psr, 0x60) == 0 then !(write && And(pte, 0x30) == 0x10)
       else And(pte, 0x30) == 0x30 || (And(pte, 0x30) == 0x20 && !write)
  }

  /** The result of a walk and the RAM it leaves. */
  datatype Walked = Walked(result: Result, ram: Ram)

  /** Frame OR offset, for both page sizes, and the entry with R and D set. */
  function MaskedSmall(pte: word, vaddr: word): word {
    AddressMasks(pte, vaddr);
    Or(And(pte, 0xffff_f000), And(vaddr, 0xfff))
  }

  function MaskedLarge(pte: word, vaddr: word): word {
    AddressMasks(pte, vaddr);
    Or(And(pte, 0xffc0_0000), And(vaddr, 0x3f_ffff))
  }

  function MaskedRD(pte: word, write: bool): word {
    SetRDMasks(pte, write);
    Or(Or(pte, 0x2), if write then 0x4 else 0)
  }

  /** The words of the two entries of an address. */
  function MaskedSlot1(pdt: word, vaddr: word): (k: nat)
    requires TableInRam(pdt)
    ensures k < RAM_WORDS
  {
    Slot1Masks(pdt, vaddr);
    pdt / 4 + Shr(And(vaddr, 0xffc0_0000), 22)
  }

  lemma Slot1Masks(pdt: word, vaddr: word)
    requires TableInRam(pdt)
    ensures pdt / 4 + Shr(And(vaddr, 0xffc0_0000), 22) == Slot1(pdt, vaddr)
  {
    IndexMasks(vaddr);
  }

  function MaskedSlot2(pte: word, vaddr: word): (k: nat)
    requires pte / PAGE * PAGE < RAM_LIMIT
    ensures k < RAM_WORDS
  {
    SlotMasks(pte, vaddr);
    And(pte, 0xffff_f000) / 4 + Shr(And(vaddr, 0x3f_f000), 12)
  }

  lemma SlotMasks(pte: word, vaddr: word)
    requires pte / PAGE * PAGE < RAM_LIMIT
    ensures And(pte, 0xffff_f000) / 4 + Shr(And(vaddr, 0x3f_f000), 12) == Slot2(pte, vaddr)
  {
    AndPage(pte);
    IndexMasks(vaddr);
    assert pte / PAGE * PAGE == 4 * (pte / PAGE * 1024);
  }

  lemma MaskedIs(pte: word, vaddr: word, write: bool)
    ensures MaskedSmall(pte, vaddr) == SmallAddress(pte, vaddr) && MaskedLarge(pte, vaddr) == LargeAddress(pte, vaddr)
    ensures MaskedRD(pte, write) == SetRD(pte, write)
  {
    AddressMasks(pte, vaddr);
    SetRDMasks(pte, write);
  }

  /** `memory_page_walk_L2` below the first-level entry `l1`, for tables in RAM. */
  function MaskedLeaf(ram: Ram, psr: word, l1: word, vaddr: word, write: bool, exec: bool): Walked
    requires l1 / PAGE * PAGE < RAM_LIMIT
  {
    var slot := MaskedSlot2(l1, vaddr);
    var pte := ram[slot];
    if And(pte, 0x1) == 0 then Walked(Fault(40), ram)
    else if !Granted(pte, psr, write, exec) then Walked(Fault(41), ram)
    else Walked(Address(MaskedSmall(pte, vaddr)), ram[slot := MaskedRD(pte, write)])
  }

  /** `memory_page_walk_L2` for a directory and tables in RAM. */
  function MaskedWalk(ram: Ram, ctl: Control, vaddr: word, write: bool, exec: bool): Walked {
    var pdt := if And(ctl.psr, 0x60) == 0x60 then ctl.pdtr else ctl.kpdtr;
    if !TableInRam(pdt) then Walked(TableOutsideRam, ram)
    else
      var pte := ram[MaskedSlot1(pdt, vaddr)];
      if And(pte, 0x1) == 0 then Walked(Fault(40), ram)
      else if !Granted(pte, ctl.psr, write, exec) then Walked(Fault(41), ram)
      else if And(pte, 0x100) != 0 then Walked(Address(MaskedLarge(pte, vaddr)), ram)
      else if pte / PAGE * PAGE >= RAM_LIMIT then Walked(TableOutsideRam, ram)
      else MaskedLeaf(ram, ctl.psr, pte, vaddr, write, exec)
  }

  lemma GrantedIs(pte: word, psr: word, write: bool, exec: bool)
    ensures Granted(pte, psr, write, exec) == Permits(pte, psr, write, exec)
  {
    PermitsIff(pte, psr, write, exec);
  }

  lemma LeafInMasks(ram: Ram, psr: word, l1: word, vaddr: word, write: bool, exec: bool)
    requires l1 / PAGE * PAGE < RAM_LIMIT
    ensures var w := LeafWalk(ram, psr, l1, vaddr, write, exec);
      MaskedLeaf(ram, psr, l1, vaddr, write, exec) == Walked(WalkResult(w, vaddr), WriteBack(ram, w, write))
  {
    var pte := ram[Slot2(l1, vaddr)];
    SlotMasks(l1, vaddr);
    PteMasks(pte);
    GrantedIs(pte, psr, write, exec);
    MaskedIs(pte, vaddr, write);
  }

  lemma FirstLevelMasks(ctl: Control, vaddr: word)
    ensures (if And(ctl.psr, 0x60) == 0x60 then ctl.pdtr else ctl.kpdtr) == Root(ctl)
    ensures TableInRam(Root(ctl)) ==> MaskedSlot1(Root(ctl), vaddr) == Slot1(Root(ctl), vaddr)
  {
    PsrMasks(ctl.psr);
    if TableInRam(Root(ctl)) {
      Slot1Masks(Root(ctl), vaddr);
    }
  }

  /** The walk, its vectors and its write-back are those of the mask expressions, for every root, mode,
      address and access. */
  lemma WalkInMasks(ram: Ram, ctl: Control, vaddr: word, write: bool, exec: bool)
    ensures var w := WalkTables(ram, ctl, vaddr, write, exec);
      MaskedWalk(ram, ctl, vaddr, write, exec) == Walked(WalkResult(w, vaddr), WriteBack(ram, w, write))
    ensures And(ctl.psr, 0x3) == 2 ==>
      Translate(ram, ctl, vaddr, write, exec) == MaskedWalk(ram, ctl, vaddr, write, exec).result
  {
    FirstLevelMasks(ctl, vaddr);
    PsrMasks(ctl.psr);
    if TableInRam(Root(ctl)) {
      var pte := ram[Slot1(Root(ctl), vaddr)];
      PteMasks(pte);
      GrantedIs(pte, ctl.psr, write, exec);
      MaskedIs(pte, vaddr, write);
      if pte / PAGE * PAGE < RAM_LIMIT {
        LeafInMasks(ram, ctl.psr, pte, vaddr, write, exec);
      }
    }
  }
}
