/** The memory-mapped I/O decoder of io.c over the node sizes gci.c sets up. */
module IoDecode {
  import opened Words

  const DPS_SIZE: nat := 0x200
  const HUB_SIZE: nat := 0x400     // GCI_HUB_SIZE
  const NODE_SIZE: nat := 0x400    // GCI_NODE_SIZE
  const NODE_MAX: nat := 4
  const NODES_BASE: nat := 0x600   // DPS_SIZE + GCI_HUB_SIZE
  const UTIM64_SIZE: nat := 0x7f
  const SCI_TXD: nat := 0x100
  const SCI_RXD: nat := 0x104
  const SCI_CFG: nat := 0x108
  const LS_FLAGS: nat := 0x1fc
  const IRF_OFFSET: nat := 8       // GCI_NODE_IRF_OFFSET

  /** The host cell an I/O offset names; `Nowhere` is the null pointer. */
  datatype Cell =
    | Dps(offset: nat)
    | Hub(offset: nat)
    | NodeInfo(node: nat, offset: nat)
    | DeviceArea(node: nat, offset: nat)
    | Nowhere

  /** The sizes in `gci_hub_nodes`. */
  type Sizes = s: seq<nat> | |s| == NODE_MAX witness [0, 0, 0, 0]

  /** The scan of the nodes from node `i`, which starts at offset `p`. */
  function Scan(sizes: Sizes, offset: nat, i: nat, p: nat): Cell
    requires i <= NODE_MAX && p <= offset
    decreases NODE_MAX - i
  {
    if i == NODE_MAX then Nowhere
    else if offset < p + NODE_SIZE then NodeInfo(i, offset - p)
    else if offset < p + sizes[i] then DeviceArea(i, offset - (p + NODE_SIZE))
    else Scan(sizes, offset, i + 1, p + sizes[i])
  }

  /** Where `io_addr_get` points for an offset from IOSR. */
  function Locate(sizes: Sizes, offset: nat): Cell {
    if offset < DPS_SIZE then Dps(offset)
    else if offset < DPS_SIZE + HUB_SIZE then Hub(offset - DPS_SIZE)
    else Scan(sizes, offset, 0, NODES_BASE)
  }

  // ---------------------------------------------------------------- the reference map

  /** Offset of node `i`. */
  function NodeBase(sizes: Sizes, i: nat): (b: nat)
    requires i <= NODE_MAX
    ensures b >= NODES_BASE
  {
    if i == 0 then NODES_BASE else NodeBase(sizes, i - 1) + sizes[i - 1]
  }

  /** The first `count` nodes exist, with room for their node information; the rest have size zero. */
  predicate Configured(sizes: Sizes, count: nat) {
    && count <= NODE_MAX
    && (forall i :: 0 <= i < count ==> sizes[i] >= NODE_SIZE)
    && (forall i :: count <= i < NODE_MAX ==> sizes[i] == 0)
  }

  /** The cells of the configured regions. */
  predicate InBounds(sizes: Sizes, count: nat, c: Cell)
    requires count <= NODE_MAX
  {
    match c
    case Dps(o) => o < DPS_SIZE
    case Hub(o) => o < HUB_SIZE
    case NodeInfo(i, o) => i < count && o < NODE_SIZE
    case DeviceArea(i, o) => i < count && NODE_SIZE + o < sizes[i]
    case Nowhere => false
  }

  /** The one offset of a cell. */
  function OffsetOf(sizes: Sizes, c: Cell): nat
    requires !c.Nowhere? && ((c.NodeInfo? || c.DeviceArea?) ==> c.node < NODE_MAX)
  {
    match c
    case Dps(o) => o
    case Hub(o) => DPS_SIZE + o
    case NodeInfo(i, o) => NodeBase(sizes, i) + o
    case DeviceArea(i, o) => NodeBase(sizes, i) + NODE_SIZE + o
  }

  lemma {:induction false} BasesGrow(sizes: Sizes, i: nat, j: nat)
    requires i <= j <= NODE_MAX
    ensures NodeBase(sizes, i) <= NodeBase(sizes, j)
    ensures i < j ==> NodeBase(sizes, i) + sizes[i] <= NodeBase(sizes, j)
    decreases j
  {
    if i < j {
      BasesGrow(sizes, i, j - 1);
    }
  }

  /** Every offset below the end of the last node lands in bounds, at the cell with that offset. */
  lemma {:induction false} ScanFinds(sizes: Sizes, count: nat, offset: nat, i: nat)
    requires Configured(sizes, count) && i <= count
    requires NodeBase(sizes, i) <= offset < NodeBase(sizes, count)
    ensures var c := Scan(sizes, offset, i, NodeBase(sizes, i));
      InBounds(sizes, count, c) && OffsetOf(sizes, c) == offset
    decreases count - i
  {
    if i < count && offset >= NodeBase(sizes, i) + sizes[i] {
      ScanFinds(sizes, count, offset, i + 1);
    }
  }

  /** The scan started at or before a node finds every cell of that node. */
  lemma {:induction false} ScanReaches(sizes: Sizes, count: nat, c: Cell, i: nat)
    requires Configured(sizes, count) && (c.NodeInfo? || c.DeviceArea?) && InBounds(sizes, count, c)
    requires i <= c.node && NodeBase(sizes, i) <= OffsetOf(sizes, c)
    ensures Scan(sizes, OffsetOf(sizes, c), i, NodeBase(sizes, i)) == c
    decreases c.node - i
  {
    BasesGrow(sizes, i, c.node);
    if i < c.node {
      BasesGrow(sizes, i + 1, c.node);
      ScanReaches(sizes, count, c, i + 1);
    }
  }

  /** Decoding is a bijection between the offsets below the end of the last node and the cells of the
      configured regions: it never returns null, is one-to-one, and reaches every cell. */
  lemma DecodeBijection(sizes: Sizes, count: nat)
    requires Configured(sizes, count)
    ensures forall offset: nat :: offset < NodeBase(sizes, count) ==>
      InBounds(sizes, count, Locate(sizes, offset)) && OffsetOf(sizes, Locate(sizes, offset)) == offset
    ensures forall c :: InBounds(sizes, count, c) ==>
      OffsetOf(sizes, c) < NodeBase(sizes, count) && Locate(sizes, OffsetOf(sizes, c)) == c
  {
    forall offset: nat | offset < NodeBase(sizes, count)
      ensures InBounds(sizes, count, Locate(sizes, offset)) && OffsetOf(sizes, Locate(sizes, offset)) == offset
    {
      if offset >= NODES_BASE {
        ScanFinds(sizes, count, offset, 0);
      }
    }
    forall c | InBounds(sizes, count, c)
      ensures OffsetOf(sizes, c) < NodeBase(sizes, count) && Locate(sizes, OffsetOf(sizes, c)) == c
    {
      if c.NodeInfo? || c.DeviceArea? {
        BasesGrow(sizes, c.node, count);
        BasesGrow(sizes, 0, c.node);
        ScanReaches(sizes, count, c, 0);
      } else {
        BasesGrow(sizes, 0, count);
      }
    }
  }

  // ---------------------------------------------------------------- side effects

  /** What `io_load` does before the cell is read. */
  datatype LoadEffect =
    | Utim64Read | RxdRead | LsFlagsRead | Acknowledge(node: nat) | DeviceRead(node: nat, offset: nat) | NoLoadEffect

  /** What `io_store` does after the cell is written. */
  datatype StoreEffect = Utim64Write | TxdWrite | CfgWrite | DeviceWrite(node: nat, offset: nat) | NoStoreEffect

  /** The effect the decoded cell calls for. */
  function LoadEffectOf(c: Cell): LoadEffect {
    match c
    case Dps(o) =>
      if o < UTIM64_SIZE then Utim64Read else if o == SCI_RXD then RxdRead
      else if o == LS_FLAGS then LsFlagsRead else NoLoadEffect
    case NodeInfo(i, o) => if o == IRF_OFFSET then Acknowledge(i) else NoLoadEffect
    case DeviceArea(i, o) => DeviceRead(i, o)
    case _ => NoLoadEffect
  }

  function StoreEffectOf(c: Cell): StoreEffect {
    match c
    case Dps(o) =>
      if o < UTIM64_SIZE then Utim64Write else if o == SCI_TXD then TxdWrite
      else if o == SCI_CFG then CfgWrite else NoStoreEffect
    case DeviceArea(i, o) => DeviceWrite(i, o)
    case _ => NoStoreEffect
  }

  /** The nodes end within the 32-bit address space, so the scan position does not wrap. */
  predicate Fits(sizes: Sizes) {
    NODES_BASE + sizes[0] + sizes[1] + sizes[2] + sizes[3] <= WORD_LIMIT
  }

  /** The decoder's own view: addresses at or above IOSR, word aligned. */
  datatype Decoded = Decoded(cell: Cell) | BadAddress

  /** The GCI part of `io_addr_get`. */
  method ScanCell(sizes: Sizes, offset: nat) returns (c: Cell)
    requires offset >= NODES_BASE
    ensures c == Scan(sizes, offset, 0, NODES_BASE)
  {
    ghost var target := Scan(sizes, offset, 0, NODES_BASE);
    var p: nat, i := NODES_BASE, 0;
    while i < NODE_MAX
      invariant i <= NODE_MAX && p <= offset && target == Scan(sizes, offset, i, p)
    {
      if offset < p + NODE_SIZE {
        return NodeInfo(i, offset - p);
      } else if offset < p + sizes[i] {
        return DeviceArea(i, offset - (p + NODE_SIZE));
      } else {
        p := p + sizes[i];
      }
      i := i + 1;
    }
    c := Nowhere;
  }

  /** `io_addr_get`. */
  method IoAddrGet(iosr: word, sizes: Sizes, addr: word) returns (d: Decoded)
    requires Fits(sizes)
    ensures d == if addr < iosr || addr % 4 != 0 then BadAddress else Decoded(Locate(sizes, addr - iosr))
  {
    if addr < iosr {
      return BadAddress;
    } else if addr % 4 != 0 {
      return BadAddress;
    }
    var offset := addr - iosr;
    if offset < DPS_SIZE {
      d := Decoded(Dps(offset));
    } else if offset < DPS_SIZE + HUB_SIZE {
      d := Decoded(Hub(offset - DPS_SIZE));
    } else {
      var c := ScanCell(sizes, offset);
      d := Decoded(c);
    }
  }

  /** The GCI part of `io_load`. */
  method ScanLoad(sizes: Sizes, offset: nat) returns (e: LoadEffect)
    requires offset >= NODES_BASE
    ensures e == LoadEffectOf(Scan(sizes, offset, 0, NODES_BASE))
  {
    ghost var target := Scan(sizes, offset, 0, NODES_BASE);
    var p: nat, i := NODES_BASE, 0;
    while i < NODE_MAX
      invariant i <= NODE_MAX && p <= offset && target == Scan(sizes, offset, i, p)
    {
      if offset < p + NODE_SIZE {
        return if offset == p + IRF_OFFSET then Acknowledge(i) else NoLoadEffect;
      } else if offset < p + sizes[i] {
        p := p + NODE_SIZE;
        return DeviceRead(i, offset - p);
      } else {
        p := p + sizes[i];
      }
      i := i + 1;
    }
    e := NoLoadEffect;
  }

  /** `io_load`: its own loop picks the node and offset that `io_addr_get` decodes. */
  method IoLoad(iosr: word, sizes: Sizes, addr: word) returns (e: LoadEffect)
    requires iosr <= addr && addr % 4 == 0 && Fits(sizes)
    ensures e == LoadEffectOf(Locate(sizes, addr - iosr))
  {
    var offset := addr - iosr;
    e := NoLoadEffect;
    if offset < UTIM64_SIZE {
      e := Utim64Read;
    } else if offset == SCI_RXD {
      e := RxdRead;
    } else if offset == LS_FLAGS {
      e := LsFlagsRead;
    } else if offset > DPS_SIZE + HUB_SIZE {
      e := ScanLoad(sizes, offset);
    }
  }

  /** The GCI part of `io_store`. */
  method ScanStore(sizes: Sizes, offset: nat) returns (e: StoreEffect)
    requires offset >= NODES_BASE
    ensures e == StoreEffectOf(Scan(sizes, offset, 0, NODES_BASE))
  {
    ghost var target := Scan(sizes, offset, 0, NODES_BASE);
    var p: nat, i := NODES_BASE, 0;
    while i < NODE_MAX
      invariant i <= NODE_MAX && p <= offset && target == Scan(sizes, offset, i, p)
    {
      if offset < p + NODE_SIZE {
        return NoStoreEffect;
      } else if offset < p + sizes[i] {
        p := p + NODE_SIZE;
        return DeviceWrite(i, offset - p);
      } else {
        p := p + sizes[i];
      }
      i := i + 1;
    }
    e := NoStoreEffect;
  }

  /** `io_store`: likewise. */
  method IoStore(iosr: word, sizes: Sizes, addr: word) returns (e: StoreEffect)
    requires iosr <= addr && addr % 4 == 0 && Fits(sizes)
    ensures e == StoreEffectOf(Locate(sizes, addr - iosr))
  {
    var offset := addr - iosr;
    e := NoStoreEffect;
    if offset < UTIM64_SIZE {
      e := Utim64Write;
    } else if offset == SCI_TXD {
      e := TxdWrite;
    } else if offset == SCI_CFG {
      e := CfgWrite;
    } else if offset > DPS_SIZE + HUB_SIZE {
      e := ScanStore(sizes, offset);
    }
  }

  // ---------------------------------------------------------------- the configuration at init

  const KMC_AREA: nat := 4
  const DISPLAY_AREA: nat := 0xc000 + 640 * 480 * 4
  const MMCC_AREA: nat := 0x240

  /** What `gci_init` leaves in `gci_hub_nodes`, and the IOSR that `dps_init` and it subtract down to. */
  method GciInit() returns (sizes: Sizes, iosr: word)
    ensures Configured(sizes, 3) && sizes == InitSizes()
    ensures iosr == WORD_LIMIT - NodeBase(sizes, 3)
    ensures iosr == 0xffec_6bbc && sizes == [0x404, 0x13_8400, 0x640, 0]
  {
    var top := WORD_LIMIT - DPS_SIZE;
    var spaceSize := HUB_SIZE;
    sizes := [NODE_SIZE + KMC_AREA, 0, 0, 0];
    spaceSize := spaceSize + sizes[0];
    sizes := sizes[1 := NODE_SIZE + DISPLAY_AREA];
    spaceSize := spaceSize + sizes[1];
    sizes := sizes[2 := NODE_SIZE + MMCC_AREA];
    spaceSize := spaceSize + sizes[2];
    assert sizes == InitSizes();
    InitBase();
    iosr := top - spaceSize;
  }

  function InitSizes(): Sizes {
    [NODE_SIZE + KMC_AREA, NODE_SIZE + DISPLAY_AREA, NODE_SIZE + MMCC_AREA, 0]
  }

  lemma InitBase()
    ensures NodeBase(InitSizes(), 3) ==
      NODES_BASE + (NODE_SIZE + KMC_AREA) + (NODE_SIZE + DISPLAY_AREA) + (NODE_SIZE + MMCC_AREA)
    ensures NodeBase(InitSizes(), 3) < WORD_LIMIT
  {
    var s := InitSizes();
    assert NodeBase(s, 1) == NODES_BASE + s[0];
    assert NodeBase(s, 2) == NodeBase(s, 1) + s[1];
    assert NodeBase(s, 3) == NodeBase(s, 2) + s[2];
  }

  /** With the initial sizes, every word-aligned address from IOSR to the top of the address space
      decodes to a cell in bounds, and two addresses decode to the same cell only if they are equal. */
  lemma IoSpaceExact(iosr: word, addr: word, addr': word)
    requires iosr == WORD_LIMIT - NodeBase(InitSizes(), 3) && addr >= iosr && addr' >= iosr
    ensures InBounds(InitSizes(), 3, Locate(InitSizes(), addr - iosr))
    ensures Locate(InitSizes(), addr - iosr) == Locate(InitSizes(), addr' - iosr) ==> addr == addr'
  {
    DecodeBijection(InitSizes(), 3);
  }

  /** What a load at each offset of the initial I/O space brings about: timers, serial port, the
      acknowledgements of the three devices, keyboard, display and card. */
  lemma IoLoadMap(offset: nat)
    requires offset < 0x13_9444 && offset % 4 == 0
    ensures LoadEffectOf(Locate(InitSizes(), offset)) ==
      if offset < 0x80 then Utim64Read
      else if offset == 0x104 then RxdRead
      else if offset == 0x1fc then LsFlagsRead
      else if offset == 0x608 then Acknowledge(0)
      else if offset == 0xa0c then Acknowledge(1)
      else if offset == 0x13_8e0c then Acknowledge(2)
      else if offset == 0xa00 then DeviceRead(0, 0)
      else if 0xe04 <= offset < 0x13_8e04 then DeviceRead(1, offset - 0xe04)
      else if 0x13_9204 <= offset then DeviceRead(2, offset - 0x13_9204)
      else NoLoadEffect
  {
    ScanMap(offset);
  }

  /** And a store. */
  lemma IoStoreMap(offset: nat)
    requires offset < 0x13_9444 && offset % 4 == 0
    ensures StoreEffectOf(Locate(InitSizes(), offset)) ==
      if offset < 0x80 then Utim64Write
      else if offset == 0x100 then TxdWrite
      else if offset == 0x108 then CfgWrite
      else if offset == 0xa00 then DeviceWrite(0, 0)
      else if 0xe04 <= offset < 0x13_8e04 then DeviceWrite(1, offset - 0xe04)
      else if 0x13_9204 <= offset then DeviceWrite(2, offset - 0x13_9204)
      else NoStoreEffect
  {
    ScanMap(offset);
  }

  lemma ScanMap(offset: nat)
    requires offset < 0x13_9444
    ensures offset >= 0x600 ==>
      Locate(InitSizes(), offset) ==
        if offset < 0xa00 then NodeInfo(0, offset - 0x600)
        else if offset < 0xa04 then DeviceArea(0, offset - 0xa00)
        else if offset < 0xe04 then NodeInfo(1, offset - 0xa04)
        else if offset < 0x13_8e04 then DeviceArea(1, offset - 0xe04)
        else if offset < 0x13_9204 then NodeInfo(2, offset - 0x13_8e04)
        else DeviceArea(2, offset - 0x13_9204)
  {
    var s := InitSizes();
    if offset >= 0x600 {
      assert Locate(s, offset) == Scan(s, offset, 0, 0x600);
      if offset >= 0xa04 {
        assert Scan(s, offset, 0, 0x600) == Scan(s, offset, 1, 0xa04);
      }
      if offset >= 0x13_8e04 {
        assert Scan(s, offset, 1, 0xa04) == Scan(s, offset, 2, 0x13_8e04);
      }
    }
  }
}
