/** The section copy loop of main.c and the endian conversion that follows it. */
module Loader {
  import opened Words
  import opened Cache
  import opened Mmu
  import opened HostMemory
  import opened LoadStore
  import opened FlatMemory
  import opened Refinement

  /** Byte `a` of guest RAM as the little-endian host lays it out. */
  function HostByte(ram: Ram, a: nat): byte
    requires a < RAM_LIMIT
  {
    Lane(ram[a / 4], a % 4)
  }

  /** The bytes of RAM after `data` has been copied to address `addr`. */
  ghost predicate Copied(before: Ram, after: Ram, addr: nat, data: seq<byte>)
    requires addr + |data| <= RAM_LIMIT
  {
    forall a: nat :: a < RAM_LIMIT ==>
      HostByte(after, a) == if addr <= a < addr + |data| then data[a - addr] else HostByte(before, a)
  }

  lemma PutHostByte(ram: Ram, a: nat, b: byte, c: nat)
    requires a < RAM_LIMIT && c < RAM_LIMIT
    ensures HostByte(ram[a / 4 := SetLane(ram[a / 4], a % 4, b)], c) == if c == a then b else HostByte(ram, c)
  {
    if c / 4 == a / 4 {
      LaneSetLane(ram[a / 4], a % 4, b, c % 4);
      assert a == a / 4 * 4 + a % 4 && c == c / 4 * 4 + c % 4;
    }
  }

  lemma PutExtends(before: Ram, ram: Ram, addr: nat, data: seq<byte>, j: nat)
    requires addr + |data| <= RAM_LIMIT && j < |data| && Copied(before, ram, addr, data[..j])
    ensures var a := addr + j;
      Copied(before, ram[a / 4 := SetLane(ram[a / 4], a % 4, data[j])], addr, data[..j + 1])
  {
    var a := addr + j;
    var ram' := ram[a / 4 := SetLane(ram[a / 4], a % 4, data[j])];
    forall c: nat | c < RAM_LIMIT
      ensures HostByte(ram', c) ==
              if addr <= c < addr + j + 1 then data[..j + 1][c - addr] else HostByte(before, c)
    {
      PutHostByte(ram, a, data[j], c);
    }
  }

  lemma CopiedCompose(r0: Ram, r1: Ram, r2: Ram, addr: nat, data: seq<byte>, i: nat, j: nat)
    requires i <= j <= |data| && addr + |data| <= RAM_LIMIT
    requires Copied(r0, r1, addr, data[..i]) && Copied(r1, r2, addr + i, data[i..j])
    ensures Copied(r0, r2, addr, data[..j])
  {
    forall c: nat | c < RAM_LIMIT
      ensures HostByte(r2, c) == if addr <= c < addr + j then data[..j][c - addr] else HostByte(r0, c)
    {
      assert HostByte(r1, c) == if addr <= c < addr + i then data[..i][c - addr] else HostByte(r0, c);
    }
  }

  /** The offset of a byte inside its host page and word. */
  lemma ByteIndex(addr: nat, j: nat)
    requires addr % PAGE_SIZE + j < PAGE_SIZE
    ensures var o := addr % PAGE_SIZE + j;
      (addr + j) % 4 == o % 4 && (addr + j) / 4 == addr / PAGE_SIZE * PAGE_WORDS + o / 4
  {
    var n, o := addr / PAGE_SIZE, addr % PAGE_SIZE + j;
    assert addr + j == 4 * (n * PAGE_WORDS) + o;
  }

  /** One byte of `memcpy` into page `n`, seen in RAM. */
  lemma CopyByte(before: Ram, t: PageTable, n: nat, words: PageWords, addr: word, bytes: seq<byte>, j: nat)
    requires addr + |bytes| <= RAM_LIMIT && j < |bytes|
    requires addr % PAGE_SIZE + |bytes| <= PAGE_SIZE && n == addr / PAGE_SIZE < PAGE_ENTRIES
    requires t[n] == Present(words) && Copied(before, RamOf(t), addr, bytes[..j])
    ensures var o := addr % PAGE_SIZE + j;
      var words' := words[o / 4 := SetLane(words[o / 4], o % 4, bytes[j])];
      Copied(before, RamOf(t[n := Present(words')]), addr, bytes[..j + 1])
  {
    var o, a := addr % PAGE_SIZE + j, addr + j;
    ByteIndex(addr, j);
    InPage(n, o / 4);
    StoreInPage(t, n, words, o / 4, SetLane(words[o / 4], o % 4, bytes[j]));
    assert RamOf(t)[a / 4] == words[o / 4];
    PutExtends(before, RamOf(t), addr, bytes, j);
  }

  lemma InPage(n: nat, o: nat)
    requires o < PAGE_WORDS
    ensures (n * PAGE_WORDS + o) / PAGE_WORDS == n && (n * PAGE_WORDS + o) % PAGE_WORDS == o
  {
  }

  /** `memcpy(allocp, bytes, n)` into one host page. */
  method CopyIntoPage(vm: Vm, addr: word, bytes: seq<byte>)
    requires vm.Valid() && addr < RAM_LIMIT && addr % PAGE_SIZE + |bytes| <= PAGE_SIZE
    requires addr + |bytes| <= RAM_LIMIT
    modifies vm.pages
    ensures Copied(old(vm.Ram()), vm.Ram(), addr, bytes)
  {
    var n, words := vm.PhysToVm(addr);
    ghost var before := vm.Ram();
    var j := 0;
    while j < |bytes|
      invariant j <= |bytes| && vm.pages[n] == Present(words)
      invariant Copied(before, vm.Ram(), addr, bytes[..j])
    {
      var o := addr % PAGE_SIZE + j;
      ghost var t := vm.pages[..];
      CopyByte(before, t, n, words, addr, bytes, j);
      words := words[o / 4 := SetLane(words[o / 4], o % 4, bytes[j])];
      vm.pages[n] := Present(words);
      assert vm.pages[..] == t[n := Present(words)];
      j := j + 1;
    }
    assert bytes[..j] == bytes;
  }

  /** Where the copy loop leaves `buffer_addr`: the end of the last page it touched. */
  function NextAddress(addr: nat, size: nat): nat {
    if size == 0 then addr else (addr + size + PAGE_SIZE - 1) / PAGE_SIZE * PAGE_SIZE
  }

  lemma RoundUp(addr: nat, x: nat)
    requires addr % PAGE_SIZE == 0 && addr - PAGE_SIZE < x <= addr
    ensures (x + PAGE_SIZE - 1) / PAGE_SIZE * PAGE_SIZE == addr
  {
    var q := addr / PAGE_SIZE;
    assert addr == q * PAGE_SIZE;
  }

  lemma NextPage(addr: nat)
    ensures var size := PAGE_SIZE - (addr - addr / PAGE_SIZE * PAGE_SIZE);
      0 < size <= PAGE_SIZE && addr % PAGE_SIZE == PAGE_SIZE - size && (addr + size) % PAGE_SIZE == 0
  {
    var q := addr / PAGE_SIZE;
    assert addr == q * PAGE_SIZE + addr % PAGE_SIZE;
    assert addr + PAGE_SIZE - addr % PAGE_SIZE == (q + 1) * PAGE_SIZE;
  }

  /** The copy loop for one data chunk that lies in RAM: it ends, and writes exactly the chunk. */
  method LoadChunk(vm: Vm, bufferAddr: nat, data: seq<byte>) returns (next: nat)
    requires vm.Valid() && bufferAddr + |data| <= RAM_LIMIT
    modifies vm.pages
    ensures Copied(old(vm.Ram()), vm.Ram(), bufferAddr, data)
    ensures next == NextAddress(bufferAddr, |data|)
  {
    ghost var before := vm.Ram();
    var i, size, addr := 0, 0, bufferAddr;
    ghost var done := 0;
    assert data[..0] == [];
    while i < |data|
      invariant addr == bufferAddr + i && (i == 0 || addr % PAGE_SIZE == 0)
      invariant i != 0 ==> i < |data| + PAGE_SIZE && |data| != 0
      invariant done == (if i <= |data| then i else |data|) && Copied(before, vm.Ram(), bufferAddr, data[..done])
      decreases |data| - i
    {
      var remaining := |data| - i;
      size := PAGE_SIZE - (addr - addr / PAGE_SIZE * PAGE_SIZE);
      NextPage(addr);
      ghost var middle := vm.Ram();
      var n := if size <= remaining then size else remaining;
      done := i + n;
      CopyIntoPage(vm, addr, data[i..i + n]);
      CopiedCompose(before, middle, vm.Ram(), bufferAddr, data, i, done);
      i := i + size;
      addr := addr + size;
    }
    assert data[..|data|] == data;
    next := addr;
    if |data| != 0 {
      RoundUp(addr, bufferAddr + |data|);
    }
  }

  /** A second chunk would follow the first one exactly when the first is empty or ends on a page
      boundary: the loop advances `buffer_addr` by whole pages. */
  lemma NextAddressContiguous(addr: nat, size: nat)
    ensures NextAddress(addr, size) == addr + size <==> size == 0 || (addr + size) % PAGE_SIZE == 0
  {
  }

  // ---------------------------------------------------------------- endian conversion

  /** Every word byte-swapped. */
  function Swapped(ram: Ram): (r: Ram)
    ensures forall k :: 0 <= k < RAM_WORDS ==> r[k] == Swap(ram[k])
  {
    seq(RAM_WORDS, k requires 0 <= k < RAM_WORDS => Swap(ram[k]))
  }

  function SwappedPage(p: Page): Page {
    if p.Present? then Present(seq(PAGE_WORDS, o requires 0 <= o < PAGE_WORDS => Swap(p.words[o]))) else p
  }

  /** `memory_vm_page_convert_endian`. */
  method ConvertPage(vm: Vm, n: nat)
    requires vm.Valid() && n < PAGE_ENTRIES && vm.pages[n].Present?
    modifies vm.pages
    ensures vm.pages[..] == old(vm.pages[..])[n := SwappedPage(old(vm.pages[n]))]
  {
    ghost var before := vm.pages[n].words;
    var i := 0;
    while i < PAGE_WORDS
      invariant 0 <= i <= PAGE_WORDS && vm.pages[n].Present?
      invariant forall m :: 0 <= m < PAGE_ENTRIES && m != n ==> vm.pages[m] == old(vm.pages[m])
      invariant forall o :: 0 <= o < PAGE_WORDS ==>
                  vm.pages[n].words[o] == if o < i then Swap(before[o]) else before[o]
    {
      var words := vm.pages[n].words;
      vm.pages[n] := Present(words[i := Swap(words[i])]);
      i := i + 1;
    }
    assert vm.pages[n].words == SwappedPage(Present(before)).words;
    assert vm.pages[..] == old(vm.pages[..])[n := SwappedPage(old(vm.pages[n]))];
  }

  lemma SwapZero()
    ensures Swap(0) == 0
  {
  }

  lemma SwappedPresent(p: PageWords, o: nat)
    requires o < PAGE_WORDS
    ensures PageWord(SwappedPage(Present(p)), o) == Swap(p[o])
  {
  }

  lemma SwappedWord(p: Page, o: nat)
    requires o < PAGE_WORDS
    ensures PageWord(SwappedPage(p), o) == Swap(PageWord(p, o))
  {
    match p
    case Absent => SwapZero();
    case Present(words) => SwappedPresent(words, o);
  }

  lemma SwappedTable(t: PageTable, t': PageTable)
    requires forall n :: 0 <= n < PAGE_ENTRIES ==> t'[n] == SwappedPage(t[n])
    ensures RamOf(t') == Swapped(RamOf(t))
  {
    forall k: nat | k < RAM_WORDS
      ensures RamOf(t')[k] == Swapped(RamOf(t))[k]
    {
      var n, o := k / PAGE_WORDS, k % PAGE_WORDS;
      SwappedWord(t[n], o);
      assert t'[n] == SwappedPage(t[n]);
    }
  }

  /** `memory_vm_convert_endian`: swaps every allocated page, which swaps every word of RAM. */
  method ConvertEndian(vm: Vm)
    requires vm.Valid()
    modifies vm.pages
    ensures vm.Ram() == Swapped(old(vm.Ram()))
  {
    ghost var before := vm.pages[..];
    var i := 0;
    while i < PAGE_ENTRIES
      invariant 0 <= i <= PAGE_ENTRIES
      invariant forall n :: 0 <= n < PAGE_ENTRIES ==>
                  vm.pages[n] == if n < i then SwappedPage(before[n]) else before[n]
    {
      if vm.pages[i].Present? {
        ConvertPage(vm, i);
      }
      i := i + 1;
    }
    SwappedTable(before, vm.pages[..]);
  }

  /** After conversion the guest's big-endian byte `a` is the host byte the loader wrote. */
  lemma ConvertedByte(ram: Ram, a: nat)
    requires a < RAM_LIMIT
    ensures Image(Swapped(ram))[a] == HostByte(ram, a)
  {
    LaneSwap(ram[a / 4], 3 - a % 4);
  }

  function Size(width: Width): nat {
    match width case Byte => 1 case HalfWord => 2 case FullWord => 4
  }

  /** The big-endian value of the file bytes from offset `o`. */
  function FileValue(data: seq<byte>, o: nat, width: Width): word
    requires o + Size(width) <= |data|
  {
    match width
    case Byte => data[o]
    case HalfWord => 0x100 * data[o] + data[o + 1]
    case FullWord => Join(data[o], data[o + 1], data[o + 2], data[o + 3])
  }

  lemma ValueFromBytes(f: Flat, p: word, data: seq<byte>, o: nat, width: Width)
    requires p + Size(width) <= RAM_LIMIT && p % Size(width) == 0 && o + Size(width) <= |data|
    requires f[p] == data[o] && (width != Byte ==> f[p + 1] == data[o + 1])
    requires width == FullWord ==> f[p + 2] == data[o + 2] && f[p + 3] == data[o + 3]
    ensures LoadBytes(f, p, width) == FileValue(data, o, width)
  {
    assert width == HalfWord ==> p / 2 * 2 == p;
    assert width == FullWord ==> p / 4 * 4 == p;
  }

  /** The converted image of RAM holds the section's bytes in file order. */
  lemma LoadedBytes(before: Ram, loaded: Ram, addr: nat, data: seq<byte>)
    requires addr + |data| <= RAM_LIMIT && Copied(before, loaded, addr, data)
    ensures forall j :: 0 <= j < |data| ==> Image(Swapped(loaded))[addr + j] == data[j]
  {
    forall j | 0 <= j < |data|
      ensures Image(Swapped(loaded))[addr + j] == data[j]
    {
      ConvertedByte(loaded, addr + j);
    }
  }

  lemma LoadedValue(f: Flat, addr: nat, data: seq<byte>, o: nat, width: Width)
    requires addr + |data| <= RAM_LIMIT && forall j :: 0 <= j < |data| ==> f[addr + j] == data[j]
    requires o + Size(width) <= |data| && (addr + o) % Size(width) == 0
    ensures LoadBytes(f, addr + o, width) == FileValue(data, o, width)
  {
    assert f[addr + o] == data[o];
    assert width != Byte ==> f[addr + (o + 1)] == data[o + 1];
    assert width == FullWord ==> f[addr + (o + 2)] == data[o + 2] && f[addr + (o + 3)] == data[o + 3];
    ValueFromBytes(f, addr + o, data, o, width);
  }

  /** The first direct-mode load after start-up reads flat memory. */
  lemma FirstLoad(m: Memory, ctl: Control, width: Width, vaddr: word)
    requires Initial(m) && MmuMode(ctl.psr) == 0 && vaddr < RAM_LIMIT && vaddr % Size(width) == 0
    ensures Perform(m, ctl, LoadOp(width, vaddr)).reply == Data(LoadBytes(Image(m.hier.ram), vaddr, width))
  {
    var op, steps := LoadOp(width, vaddr), [Access(ctl, LoadOp(width, vaddr))];
    var f := Image(m.hier.ram);
    assert steps[1..] == [] && Allowed(f, PagingInitial(f, Direct), ctl, op);
    EndToEnd(m, Direct, steps);
    assert Replies(m, steps)[0] == Perform(m, ctl, op).reply;
    assert RefReplies(f, steps)[0] == RefPerform(f, ctl, op).reply;
  }

  /** From the loaded and converted RAM, a direct-mode load of any width anywhere in the section
      returns the file's bytes in big-endian order. */
  lemma LoadedSection(before: Ram, loaded: Ram, addr: nat, data: seq<byte>, m: Memory, ctl: Control,
                      o: nat, width: Width)
    requires addr + |data| <= RAM_LIMIT && Copied(before, loaded, addr, data)
    requires Initial(m) && m.hier.ram == Swapped(loaded) && MmuMode(ctl.psr) == 0
    requires o + Size(width) <= |data| && (addr + o) % Size(width) == 0
    ensures Perform(m, ctl, LoadOp(width, addr + o)).reply == Data(FileValue(data, o, width))
  {
    LoadedBytes(before, loaded, addr, data);
    LoadedValue(Image(m.hier.ram), addr, data, o, width);
    FirstLoad(m, ctl, width, addr + o);
  }
}
