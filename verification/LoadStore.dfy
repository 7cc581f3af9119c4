/** Guest loads, stores and fetches of load_store.h and fetch.h on top of the MMU and the caches. */
module LoadStore {
  import opened Words
  import opened Cache
  import opened Mmu

  /** RAM, caches and TLB. */
  datatype Memory = Memory(hier: Hierarchy, tlb: Tlb)

  /** A hierarchy just reset: nothing cached, no TLB entry. */
  function Cold(ram: Ram): Memory {
    var empty: L1 := seq(16, _ => seq(4, _ => EMPTY_LINE));
    Memory(Hierarchy(ram, empty, empty, 0), seq(16, _ => TlbEntry(0, 0)))
  }

  /** What a guest access comes back with. `Device` is an uncached access at or above
      `MEMORY_MAX_ADDR`; `Stuck` is a walk outside RAM or an unsupported MMU mode. */
  datatype Reply =
    | Data(value: word)
    | Done
    | Faulted(num: Vector)
    | Device(paddr: word)
    | Stuck

  datatype Accessed = Accessed(mem: Memory, reply: Reply)

  /** The low two address bits cleared. */
  function WordAddress(vaddr: word): word {
    vaddr / 4 * 4
  }

  function Translated1(m: Memory, t: Translated): Memory {
    Memory(m.hier.(ram := t.ram), t.tlb)
  }

  function Refused(r: Result): Reply
    requires !r.Address?
  {
    if r.Fault? then Faulted(r.num) else Stuck
  }

  /** `memory_ld32`. */
  function Load32(m: Memory, ctl: Control, vaddr: word): Accessed {
    var t := VirtToPhys(m.hier.ram, m.tlb, ctl, vaddr, false, false);
    var m' := Translated1(m, t);
    if !t.result.Address? then Accessed(m', Refused(t.result))
    else if t.result.paddr >= RAM_LIMIT then Accessed(m', Device(t.result.paddr))
    else
      var p := Read(m.hier.dcache, m.hier.tick, t.ram, t.result.paddr);
      Accessed(m'.(hier := m'.hier.(dcache := p.l1, tick := p.tick)), Data(p.value))
  }

  /** `memory_ld16`: the mirrored half of the word. */
  function Load16(m: Memory, ctl: Control, vaddr: word): Accessed {
    var a := Load32(m, ctl, WordAddress(vaddr));
    if a.reply.Data? then a.(reply := Data(Half(a.reply.value, 1 - vaddr / 2 % 2))) else a
  }

  /** `memory_ld8`: the mirrored byte of the word. */
  function Load8(m: Memory, ctl: Control, vaddr: word): Accessed {
    var a := Load32(m, ctl, WordAddress(vaddr));
    if a.reply.Data? then a.(reply := Data(Lane(a.reply.value, 3 - vaddr % 4))) else a
  }

  /** `memory_st32`. */
  function Store32(m: Memory, ctl: Control, vaddr: word, src: word): Accessed {
    var t := VirtToPhys(m.hier.ram, m.tlb, ctl, vaddr, true, false);
    var m' := Translated1(m, t);
    if !t.result.Address? then Accessed(m', Refused(t.result))
    else if t.result.paddr >= RAM_LIMIT then Accessed(m', Device(t.result.paddr))
    else Accessed(m'.(hier := Write(m'.hier, t.result.paddr, src)), Done)
  }

  /** `memory_st16`: the word comes from the physical address, the half from the virtual one. */
  function Store16(m: Memory, ctl: Control, vaddr: word, src: word): Accessed {
    var t := VirtToPhys(m.hier.ram, m.tlb, ctl, vaddr, true, false);
    var m' := Translated1(m, t);
    if !t.result.Address? then Accessed(m', Refused(t.result))
    else
      var p := WordAddress(t.result.paddr);
      if p >= RAM_LIMIT then Accessed(m', Device(p))
      else Accessed(m'.(hier := Write(m'.hier, p, SetHalf(t.ram[p / 4], 1 - vaddr / 2 % 2, src))), Done)
  }

  /** `memory_st8`. */
  function Store8(m: Memory, ctl: Control, vaddr: word, src: word): Accessed {
    var t := VirtToPhys(m.hier.ram, m.tlb, ctl, vaddr, true, false);
    var m' := Translated1(m, t);
    if !t.result.Address? then Accessed(m', Refused(t.result))
    else
      var p := WordAddress(t.result.paddr);
      if p >= RAM_LIMIT then Accessed(m', Device(p))
      else Accessed(m'.(hier := Write(m'.hier, p, SetLane(t.ram[p / 4], 3 - vaddr % 4, src % 0x100))), Done)
  }

  /** `instruction_fetch`. */
  function Fetch(m: Memory, ctl: Control, pc: word): Accessed {
    var t := VirtToPhys(m.hier.ram, m.tlb, ctl, pc, false, true);
    var m' := Translated1(m, t);
    if !t.result.Address? then Accessed(m', Refused(t.result))
    else if t.result.paddr >= RAM_LIMIT then Accessed(m', Device(t.result.paddr))
    else
      var p := Read(m.hier.icache, m.hier.tick, t.ram, t.result.paddr);
      Accessed(m'.(hier := m'.hier.(icache := p.l1, tick := p.tick)), Data(p.value))
  }

  datatype Width = Byte | HalfWord | FullWord

  datatype Op =
    | FetchOp(vaddr: word)
    | LoadOp(width: Width, vaddr: word)
    | StoreOp(width: Width, vaddr: word, src: word)

  function Perform(m: Memory, ctl: Control, op: Op): Accessed {
    match op
    case FetchOp(v) => Fetch(m, ctl, v)
    case LoadOp(Byte, v) => Load8(m, ctl, v)
    case LoadOp(HalfWord, v) => Load16(m, ctl, v)
    case LoadOp(FullWord, v) => Load32(m, ctl, v)
    case StoreOp(Byte, v, x) => Store8(m, ctl, v, x)
    case StoreOp(HalfWord, v, x) => Store16(m, ctl, v, x)
    case StoreOp(FullWord, v, x) => Store32(m, ctl, v, x)
  }
}
