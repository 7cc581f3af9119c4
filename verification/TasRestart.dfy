/** Re-execution of a `tas` whose store faulted: exact when it still knows its address. */
module TasRestart {
  import opened Words
  import opened Cache
  import opened Mmu
  import opened LoadStore
  import opened Cpu
  import opened Interrupts
  import opened Stacks
  import opened Restart

  /** What a faulting store of `tas` leaves: the loaded zero in the destination. */
  function Cleared(c: Cpu, rd: Reg): Cpu {
    c.(gr := c.gr[rd := 0])
  }

  /** A `tas` whose store faults has loaded its destination. */
  lemma TasFaultLoads(m: Machine, dev: Devices, rd: Reg, vaddr: word)
    requires ExecTas(m, dev, rd, vaddr).Next? && ExecTas(m, dev, rd, vaddr).fault != 0
    ensures var c := ExecTas(m, dev, rd, vaddr).m.cpu;
      && (ExecLoad(m, dev, FullWord, rd, vaddr).fault == 0 ==> c.gr == Cleared(m.cpu, rd).gr)
      && (ExecLoad(m, dev, FullWord, rd, vaddr).fault != 0 ==> c.gr == m.cpu.gr)
      && c.spr == m.cpu.spr
  {
    var l := ExecLoad(m, dev, FullWord, rd, vaddr);
    LoadFrame(m, dev, FullWord, rd, vaddr);
    if l.fault == 0 {
      assert l.m.cpu.gr == m.cpu.gr[rd := l.m.cpu.gr[rd]];
      StoreFrame(l.m, dev, FullWord, 1, vaddr);
      StoreKeepsRegisters(l.m, dev, 1, vaddr);
    }
  }

  /** The operand does not need the register that was cleared. */
  predicate AddressKept(gr: Registers, rd: Reg, addr: Operand) {
    addr.Absolute? || addr.base != rd || gr[rd] == 0
  }

  /** Clearing the destination leaves the address of the operand as it was exactly then. */
  lemma AddressKeptIff(c: Cpu, rd: Reg, addr: Operand)
    requires EffectiveAddress(c.gr, addr, FullWord).Some?
    ensures EffectiveAddress(Cleared(c, rd).gr, addr, FullWord).Some?
    ensures AddressKept(c.gr, rd, addr) <==>
              EffectiveAddress(Cleared(c, rd).gr, addr, FullWord) == EffectiveAddress(c.gr, addr, FullWord)
  {
  }

  // ---------------------------------------------------------------- re-execution in any memory

  /** The outcomes agree; if both fault, up to general registers. */
  predicate TasAgree(e: Executed, e': Executed) {
    && e.Next? == e'.Next?
    && (e.Next? ==>
          && e.m.mem == e'.m.mem && e.fault == e'.fault
          && e.m.cpu == e'.m.cpu.(gr := e.m.cpu.gr) && (e.fault == 0 ==> e.m.cpu.gr == e'.m.cpu.gr))
  }

  /** The `tas` executed after its store has faulted does what it would have done before, in `mem`. */
  predicate Replays(c: Cpu, rd: Reg, addr: Operand, mem: Memory, dev: Devices) {
    TasAgree(Execute(Machine(Cleared(c, rd), mem), dev, Tas(rd, addr)),
             Execute(Machine(c, mem), dev, Tas(rd, addr)))
  }

  lemma ClearedLoad(c: Cpu, rd: Reg, mem: Memory, dev: Devices, vaddr: word)
    ensures var l, l' := ExecLoad(Machine(Cleared(c, rd), mem), dev, FullWord, rd, vaddr),
                         ExecLoad(Machine(c, mem), dev, FullWord, rd, vaddr);
      && l.Next? == l'.Next?
      && (l.Next? ==> l.fault == l'.fault && l.m.mem == l'.m.mem && l.m.cpu == l'.m.cpu.(gr := l.m.cpu.gr))
      && (l.Next? && l.fault == 0 ==> l.m.cpu.gr == l'.m.cpu.gr)
  {
  }

  lemma SameAddressReplays(c: Cpu, rd: Reg, addr: Operand, mem: Memory, dev: Devices)
    requires AddressKept(c.gr, rd, addr)
    ensures Replays(c, rd, addr, mem, dev)
  {
    var a := EffectiveAddress(c.gr, addr, FullWord);
    if a.Some? {
      AddressKeptIff(c, rd, addr);
      ClearedLoad(c, rd, mem, dev, a.value);
    }
  }

  /** The entry of a 4 MB page anyone may use. */
  function LargePte(frame: nat): word
    requires frame < 32
  {
    frame * LARGE + 0x139
  }

  /** A cold load through a 4 MB page that anyone may use. */
  lemma ColdLoad(ram: Ram, ctl: Control, v: word, frame: nat)
    requires MmuMode(ctl.psr) == 2 && TableInRam(Root(ctl)) && frame < 32
    requires ram[Slot1(Root(ctl), v)] == LargePte(frame)
    ensures frame * LARGE + v % LARGE < RAM_LIMIT
    ensures Perform(Cold(ram), ctl, LoadOp(FullWord, v)).reply == Data(ram[(frame * LARGE + v % LARGE) / 4])
  {
    var pte := LargePte(frame);
    LargeEntry(frame);
    assert WalkTables(ram, ctl, v, false, false) == Large(pte);
    assert VirtToPhys(ram, Cold(ram).tlb, ctl, v, false, false).result == Address(frame * LARGE + v % LARGE);
    ReadCoherent(Cold(ram).hier.dcache, 0, ram, frame * LARGE + v % LARGE, {});
  }

  lemma LargeEntry(frame: nat)
    requires frame < 32
    ensures var pte := LargePte(frame);
      PteValid(pte) && PageExtension(pte) && Protection(pte) == 3 && pte / LARGE == frame
  {
    var pte := LargePte(frame);
    assert pte / 0x10 == frame * 0x4_0000 + 0x13;
    assert pte / 0x100 == frame * 0x4000 + 1;
  }

  /** The frames given to the regions of `a` and `b`, away from the page directory. */
  function FrameA(root: word): (r: nat)
    ensures r < 32
  {
    (root / LARGE + 1) % 32
  }

  function FrameB(root: word, a: word, b: word): (r: nat)
    ensures r < 32
  {
    if a / LARGE == b / LARGE then FrameA(root) else (root / LARGE + 2) % 32
  }

  function TwoPagesWord(root: word, a: word, b: word, k: nat): word
    requires TableInRam(root) && k < RAM_WORDS
  {
    if k == Slot1(root, b) then LargePte(FrameB(root, a, b))
    else if k == Slot1(root, a) then LargePte(FrameA(root))
    else 4 * k + 1
  }

  /** RAM that maps the regions of `a` and `b` and has something else in every other word. */
  function TwoPages(root: word, a: word, b: word): (ram: Ram)
    requires TableInRam(root)
    ensures forall k :: 0 <= k < RAM_WORDS ==> ram[k] == TwoPagesWord(root, a, b, k)
  {
    seq(RAM_WORDS, k requires 0 <= k < RAM_WORDS => TwoPagesWord(root, a, b, k))
  }

  /** A word in another 4 MB frame than the directory is none of its entries. */
  lemma OtherFrame(root: word, frame: nat, v: word, u: word)
    requires TableInRam(root) && frame < 32 && frame != root / LARGE
    ensures (frame * LARGE + v % LARGE) / 4 != Slot1(root, u) && frame * LARGE + v % LARGE < RAM_LIMIT
  {
    var r, q := root / LARGE, frame * LARGE + v % LARGE;
    assert q / LARGE == frame;
    assert root / PAGE * PAGE == root && root / LARGE == root / PAGE / 1024;
    assert (root + 4 * (u / LARGE)) / PAGE == root / PAGE;
  }

  lemma PlainWord(root: word, a: word, b: word, frame: nat, v: word)
    requires TableInRam(root) && frame < 32 && frame != root / LARGE && v % 4 == 0
    ensures var q := frame * LARGE + v % LARGE; q < RAM_LIMIT && TwoPages(root, a, b)[q / 4] == q + 1
  {
    OtherFrame(root, frame, v, a);
    OtherFrame(root, frame, v, b);
    AlignedOffset(frame, v);
  }

  lemma AlignedOffset(frame: nat, v: word)
    requires v % 4 == 0
    ensures (frame * LARGE + v % LARGE) % 4 == 0
  {
    assert v == 4 * (v / 4);
    OffsetOfFour(v / 4);
  }

  lemma OffsetOfFour(q: nat)
    ensures 4 * q % LARGE == 4 * (q % 0x10_0000)
  {
    assert 4 * q == q / 0x10_0000 * LARGE + 4 * (q % 0x10_0000);
  }

  lemma FramesApart(root: word, a: word, b: word)
    requires TableInRam(root)
    ensures FrameA(root) != root / LARGE && FrameB(root, a, b) != root / LARGE
  {
    assert root / LARGE < 32;
  }

  lemma OneLoad(ctl: Control, a: word, b: word, frame: nat, v: word)
    requires MmuMode(ctl.psr) == 2 && TableInRam(Root(ctl)) && v % 4 == 0
    requires frame < 32 && frame != Root(ctl) / LARGE
    requires TwoPages(Root(ctl), a, b)[Slot1(Root(ctl), v)] == LargePte(frame)
    ensures Perform(Cold(TwoPages(Root(ctl), a, b)), ctl, LoadOp(FullWord, v)).reply ==
      Data(frame * LARGE + v % LARGE + 1)
  {
    PlainWord(Root(ctl), a, b, frame, v);
    ColdLoad(TwoPages(Root(ctl), a, b), ctl, v, frame);
  }

  /** In that RAM an aligned load of `a` reads its physical address plus one, and so for `b`. */
  lemma TwoPagesLoad(ctl: Control, a: word, b: word)
    requires MmuMode(ctl.psr) == 2 && TableInRam(Root(ctl)) && a % 4 == 0 && b % 4 == 0
    ensures var mem, root := Cold(TwoPages(Root(ctl), a, b)), Root(ctl);
      && Perform(mem, ctl, LoadOp(FullWord, a)).reply == Data(FrameA(root) * LARGE + a % LARGE + 1)
      && Perform(mem, ctl, LoadOp(FullWord, b)).reply == Data(FrameB(root, a, b) * LARGE + b % LARGE + 1)
  {
    var root := Root(ctl);
    FramesApart(root, a, b);
    assert TwoPagesWord(root, a, b, Slot1(root, a)) == LargePte(FrameA(root));
    OneLoad(ctl, a, b, FrameA(root), a);
    OneLoad(ctl, a, b, FrameB(root, a, b), b);
  }

  lemma DifferentPlaces(root: word, a: word, b: word)
    requires TableInRam(root) && a != b
    ensures FrameA(root) * LARGE + a % LARGE != FrameB(root, a, b) * LARGE + b % LARGE
  {
  }

  lemma TasLoads(m: Machine, dev: Devices, rd: Reg, addr: Operand, a: word, v: word)
    requires EffectiveAddress(m.cpu.gr, addr, FullWord) == Some(a) && v != 0
    requires Perform(m.mem, Ctl(m.cpu), LoadOp(FullWord, a)).reply == Data(v)
    ensures var e := Execute(m, dev, Tas(rd, addr));
      e.Next? && e.fault == 0 && e.m.cpu.gr == m.cpu.gr[rd := v]
  {
  }

  lemma DifferentLoads(c: Cpu, rd: Reg, addr: Operand, mem: Memory, dev: Devices, a: word, b: word, x: word, y: word)
    requires EffectiveAddress(c.gr, addr, FullWord) == Some(a)
    requires EffectiveAddress(Cleared(c, rd).gr, addr, FullWord) == Some(b)
    requires Perform(mem, Ctl(c), LoadOp(FullWord, a)).reply == Data(x)
    requires Perform(mem, Ctl(c), LoadOp(FullWord, b)).reply == Data(y)
    requires x != 0 && y != 0 && x != y
    ensures !Replays(c, rd, addr, mem, dev)
  {
    TasLoads(Machine(c, mem), dev, rd, addr, a, x);
    TasLoads(Machine(Cleared(c, rd), mem), dev, rd, addr, b, y);
    assert c.gr[rd := x][rd] != Cleared(c, rd).gr[rd := y][rd];
  }

  /** Where the address is lost, some memory shows it. */
  lemma LostAddressDiffers(c: Cpu, rd: Reg, addr: Operand, dev: Devices)
    requires MmuMode(c.psr) == 2 && TableInRam(Root(Ctl(c)))
    requires EffectiveAddress(c.gr, addr, FullWord).Some? && !AddressKept(c.gr, rd, addr)
    ensures exists mem :: !Replays(c, rd, addr, mem, dev)
  {
    AddressKeptIff(c, rd, addr);
    var a, b := EffectiveAddress(c.gr, addr, FullWord).value, EffectiveAddress(Cleared(c, rd).gr, addr, FullWord).value;
    var root, mem := Root(Ctl(c)), Cold(TwoPages(Root(Ctl(c)), a, b));
    AlignedOperand(c.gr, addr);
    AlignedOperand(Cleared(c, rd).gr, addr);
    TwoPagesLoad(Ctl(c), a, b);
    DifferentPlaces(root, a, b);
    DifferentLoads(c, rd, addr, mem, dev, a, b,
                   FrameA(root) * LARGE + a % LARGE + 1, FrameB(root, a, b) * LARGE + b % LARGE + 1);
  }

  lemma AlignedOperand(gr: Registers, addr: Operand)
    requires EffectiveAddress(gr, addr, FullWord).Some?
    ensures EffectiveAddress(gr, addr, FullWord).value % 4 == 0
  {
  }

  /** A faulting store means two-level paging with a directory in RAM. */
  lemma FaultsWhilePaging(m: Machine, dev: Devices, rd: Reg, vaddr: word)
    requires ExecTas(m, dev, rd, vaddr).Next? && ExecTas(m, dev, rd, vaddr).fault != 0
    ensures MmuMode(m.cpu.psr) == 2 && TableInRam(Root(Ctl(m.cpu)))
  {
  }

  /** `tas` is restartable, exactly. If its store faults, executing it again does what it would have
      done before, in every memory the handler may leave, if and only if its address does not depend
      on the destination register, or that register held zero. */
  lemma TasReplaysIff(m: Machine, dev: Devices, rd: Reg, addr: Operand)
    requires var e := Execute(m, dev, Tas(rd, addr)); e.Next? && e.fault != 0
    ensures (forall mem, again :: Replays(m.cpu, rd, addr, mem, again)) <==> AddressKept(m.cpu.gr, rd, addr)
  {
    if AddressKept(m.cpu.gr, rd, addr) {
      forall mem, again
        ensures Replays(m.cpu, rd, addr, mem, again)
      {
        SameAddressReplays(m.cpu, rd, addr, mem, again);
      }
    } else {
      FaultsWhilePaging(m, dev, rd, EffectiveAddress(m.cpu.gr, addr, FullWord).value);
      LostAddressDiffers(m.cpu, rd, addr, dev);
    }
  }

  // ---------------------------------------------------------------- after the handler

  predicate TasNext(m: Machine, dev: Devices, decode: word -> Insn, rd: Reg, addr: Operand) {
    InsnAt(m, dev, decode) == Some(Tas(rd, addr))
  }

  lemma TasLeft(m: Machine, dev: Devices, decode: word -> Insn, rd: Reg, addr: Operand)
    requires Steady(m.cpu) && Faults(m, dev, decode) && TasNext(m, dev, decode, rd, addr)
    ensures Left(m, dev, decode) == ChooseStack(m.cpu) || Left(m, dev, decode) == Cleared(ChooseStack(m.cpu), rd)
  {
    var m1 := m.(cpu := ChooseStack(m.cpu));
    var f := FetchWord(m1, dev);
    ChoosesBank(m.cpu);
    TasFaultLoads(m1.(mem := f.mem), dev, rd, EffectiveAddress(m.cpu.gr, addr, FullWord).value);
  }

  /** Iterations that agree, or both fault and differ at most in general registers as well. */
  predicate AgreeOrFault(r: Outcome, r': Outcome) {
    && r.Running? == r'.Running?
    && (r.Running? ==>
          && r.m.mem == r'.m.mem && Similar(r.m.cpu, r'.m.cpu.(gr := r.m.cpu.gr))
          && (r'.m.cpu.nmi.None? ==> r.m.cpu.gr == r'.m.cpu.gr))
  }

  lemma TasOutcome(m: Machine, m': Machine, dev: Devices, rd: Reg, addr: Operand)
    requires AddressKept(m'.cpu.gr, rd, addr) && m.mem == m'.mem
    requires Similar(m.cpu, m'.cpu) || Similar(m.cpu, Cleared(m'.cpu, rd))
    ensures var e, e' := Execute(m, dev, Tas(rd, addr)), Execute(m', dev, Tas(rd, addr));
      && e.Next? == e'.Next?
      && (e.Next? ==>
            && e.m.mem == e'.m.mem && e.fault == e'.fault && Similar(e.m.cpu, e'.m.cpu.(gr := e.m.cpu.gr))
            && (e.fault == 0 ==> e.m.cpu.gr == e'.m.cpu.gr))
  {
    if Similar(m.cpu, m'.cpu) {
      SimilarMemoryInsn(m, m', dev, Tas(rd, addr));
    } else {
      SimilarMemoryInsn(m, Machine(Cleared(m'.cpu, rd), m.mem), dev, Tas(rd, addr));
      SameAddressReplays(m'.cpu, rd, addr, m.mem, dev);
    }
  }

  lemma QuietFinish(e: Executed)
    requires e.Next? && e.fault == 0
    ensures Finish(e) ==
      match Advance(WriteBackSp(e.m.cpu))
      case None => Ended
      case Some(c) => Running(Machine(c, e.m.mem))
  {
  }

  lemma {:induction false} TasFinish(e: Executed, e': Executed)
    requires e.Next? == e'.Next? && (e.Next? && e.fault != 0 ==> MemoryFault(e.fault))
    requires e.Next? ==>
      && e.m.mem == e'.m.mem && e.fault == e'.fault && Similar(e.m.cpu, e'.m.cpu.(gr := e.m.cpu.gr))
      && (e.fault == 0 ==> e.m.cpu.gr == e'.m.cpu.gr)
    ensures AgreeOrFault(Finish(e), Finish(e'))
  {
    if e.Next? {
      if e.fault == 0 {
        QuietFinish(e);
        QuietFinish(e');
      } else {
        FaultyFinish(e.m, e'.m, e.fault);
      }
    }
  }

  lemma FaultyFinish(m: Machine, m': Machine, fault: Vector)
    requires MemoryFault(fault) && m.mem == m'.mem && Similar(m.cpu, m'.cpu.(gr := m.cpu.gr))
    ensures AgreeOrFault(Finish(Next(m, fault)), Finish(Next(m', fault)))
  {
  }

  lemma TasCycle(back: Machine, clean: Machine, dev: Devices, decode: word -> Insn, rd: Reg, addr: Operand)
    requires back.mem == clean.mem && TasNext(clean, dev, decode, rd, addr) && AddressKept(clean.cpu.gr, rd, addr)
    requires var c, c' := ChooseStack(back.cpu), ChooseStack(clean.cpu);
      Similar(c, c') || Similar(c, Cleared(c', rd))
    ensures AgreeOrFault(Cycle(back, dev, decode), Cycle(clean, dev, decode))
  {
    var m, m' := back.(cpu := ChooseStack(back.cpu)), clean.(cpu := ChooseStack(clean.cpu));
    var f := FetchWord(m', dev);
    assert FetchWord(m, dev) == f;
    TasOutcome(m.(mem := f.mem), m'.(mem := f.mem), dev, rd, addr);
    ExecuteFault(m.(mem := f.mem), dev, Tas(rd, addr));
    TasFinish(Body(m, dev, decode), Body(m', dev, decode));
  }

  /** After a handled fault of a `tas` that keeps its address, the re-executed `tas` does what it would
      have done with the page accessible all along. */
  lemma {:induction false} RestartedTas(m: Machine, dev: Devices, devs: seq<Devices>, devIb: Devices,
                                        again: Devices, decode: word -> Insn, rd: Reg, addr: Operand)
    requires HandledBy(m, dev, devs, devIb, decode) && TasNext(m, dev, decode, rd, addr)
    requires AddressKept(m.cpu.gr, rd, addr)
    requires TasNext(m.(mem := Back(m, dev, devs, devIb, decode).mem), again, decode, rd, addr)
    ensures var back := Back(m, dev, devs, devIb, decode);
      AgreeOrFault(Cycle(back, again, decode), Cycle(m.(mem := back.mem), again, decode))
  {
    var back := Back(m, dev, devs, devIb, decode);
    HandledFault(m, dev, devs, devIb, decode);
    TasLeft(m, dev, decode, rd, addr);
    TasCycle(back, m.(mem := back.mem), again, decode, rd, addr);
  }

  // ---------------------------------------------------------------- a failing input

  /** RAM whose first 4 MB the kernel may read but not write; word 0 is the page directory's entry. */
  function ReadOnly(): (ram: Ram)
    ensures ram[0] == 0x111 && forall k :: 1 <= k < RAM_WORDS ==> ram[k] == 0
  {
    seq(RAM_WORDS, k => if k == 0 then 0x111 else 0)
  }

  /** `tas` on the address in its own destination, in a read-only page: the fault replaces the address
      0x800 by 0, where the re-execution finds the page directory instead of the flag. */
  lemma TasLosesItsBase(c: Cpu, dev: Devices)
    requires MmuMode(c.psr) == 2 && Kernel(c.psr) && c.kpdtr == 0 && c.gr[1] == 0x800
    ensures var insn := Tas(1, Indirect(1, 0));
      var e := Execute(Machine(c, Cold(ReadOnly())), dev, insn);
      && e.Next? && e.fault == PROTECTION_FAULT && e.m.cpu.gr[1] == 0
      && EffectiveAddress(c.gr, insn.addr, FullWord) == Some(0x800)
      && EffectiveAddress(e.m.cpu.gr, insn.addr, FullWord) == Some(0)
  {
    BaseAddress(c.gr, 0x800);
    BaseAddress(c.gr[1 := 0], 0);
    ReadOnlyLoad(Ctl(c));
    ReadOnlyStore(Perform(Cold(ReadOnly()), Ctl(c), LoadOp(FullWord, 0x800)).mem, Ctl(c));
    TasStoreFaults(Machine(c, Cold(ReadOnly())), dev, 1, Indirect(1, 0), 0x800, PROTECTION_FAULT);
  }

  lemma BaseAddress(gr: Registers, a: word)
    requires gr[1] == a && a % 4 == 0
    ensures EffectiveAddress(gr, Indirect(1, 0), FullWord) == Some(a)
  {
  }

  lemma TasStoreFaults(m: Machine, dev: Devices, rd: Reg, addr: Operand, a: word, num: Vector)
    requires EffectiveAddress(m.cpu.gr, addr, FullWord) == Some(a)
    requires var l := Perform(m.mem, Ctl(m.cpu), LoadOp(FullWord, a));
      l.reply == Data(0) && Perform(l.mem, Ctl(m.cpu), StoreOp(FullWord, a, 1)).reply == Faulted(num)
    ensures var e := Execute(m, dev, Tas(rd, addr));
      e.Next? && e.fault == num && e.m.cpu.gr == m.cpu.gr[rd := 0]
  {
    AlignedOperand(m.cpu.gr, addr);
  }

  lemma ReadOnlyLoad(ctl: Control)
    requires MmuMode(ctl.psr) == 2 && Kernel(ctl.psr) && ctl.kpdtr == 0
    ensures var a := Perform(Cold(ReadOnly()), ctl, LoadOp(FullWord, 0x800));
      a.reply == Data(0) && a.mem.hier.ram == ReadOnly() && a.mem.tlb[0] == TlbEntry(0x800, 0x111)
  {
    var ram := ReadOnly();
    assert WalkTables(ram, ctl, 0x800, false, false) == Large(0x111);
    assert VirtToPhys(ram, Cold(ram).tlb, ctl, 0x800, false, false).result == Address(0x800);
    ReadCoherent(Cold(ram).hier.dcache, 0, ram, 0x800, {});
  }

  lemma ReadOnlyStore(mem: Memory, ctl: Control)
    requires MmuMode(ctl.psr) == 2 && Kernel(ctl.psr) && ctl.kpdtr == 0
    requires mem.hier.ram == ReadOnly() && mem.tlb[0] == TlbEntry(0x800, 0x111)
    ensures Perform(mem, ctl, StoreOp(FullWord, 0x800, 1)).reply == Faulted(PROTECTION_FAULT)
  {
    assert !Permits(0x111, ctl.psr, true, false);
    assert WalkTables(mem.hier.ram, ctl, 0x800, true, false) == Denied(PROTECTION_FAULT);
  }
}
