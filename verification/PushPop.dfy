/** `push` and `pop` through the whole memory hierarchy. */
module PushPop {
  import opened Words
  import opened Cache
  import opened Mmu
  import opened LoadStore
  import opened FlatMemory
  import opened Refinement
  import opened Cpu

  /** Where a page may be written it may be read, at the same address. */
  lemma ReadableIfWritable(ram: Ram, ctl: Control, vaddr: word)
    requires Translate(ram, ctl, vaddr, true, false).Address?
    ensures Translate(ram, ctl, vaddr, false, false) == Translate(ram, ctl, vaddr, true, false)
  {
  }

  lemma FlatReadBack(f: Flat, p: word, v: word)
    requires p < RAM_LIMIT
    ensures LoadBytes(StoreBytes(f, p, FullWord, v), p, FullWord) == v
  {
    LoadFromWord(StoreBytes(f, p, FullWord, v), p);
    StoreFullWord(f, p, v, p / 4);
  }

  /** A full-word store may take place and reaches a RAM word outside the page tables. */
  ghost predicate SlotWritable(f: Flat, p: Paging, ctl: Control, op: Op)
    requires WholeWord(op)
  {
    var t := RefTarget(f, ctl, op);
    Allowed(f, p, ctl, op) && t.Address? && t.paddr < RAM_LIMIT && t.paddr / 4 !in TableWords(f, p.dir)
  }

  /** The stack slot of the next `push` is ready. */
  ghost predicate SlotReady(c: Cpu, f: Flat, p: Paging, v: word) {
    SlotWritable(f, p, Ctl(c), StoreOp(FullWord, Wrap(c.spr - 4), v))
  }

  lemma {:induction false} PushExecutes(m: Machine, dev: Devices, src: Source)
    requires var op := StoreOp(FullWord, Wrap(m.cpu.spr - 4), SourceValue(m.cpu, src));
      op.vaddr % 4 == 0 && Perform(m.mem, Ctl(m.cpu), op).reply == Done
    ensures var top := Wrap(m.cpu.spr - 4);
      var a := Perform(m.mem, Ctl(m.cpu), StoreOp(FullWord, top, SourceValue(m.cpu, src)));
      Execute(m, dev, Push(src)) == Next(Machine(m.cpu.(spr := top), a.mem), 0)
  {
  }

  lemma PopExecutes(m: Machine, dev: Devices, rd: Reg, v: word)
    requires Perform(m.mem, Ctl(m.cpu), LoadOp(FullWord, m.cpu.spr)).reply == Data(v)
    ensures Execute(m, dev, Pop(rd)) ==
      Next(Machine(m.cpu.(gr := m.cpu.gr[rd := v], spr := Wrap(m.cpu.spr + 4)),
                   Perform(m.mem, Ctl(m.cpu), LoadOp(FullWord, m.cpu.spr)).mem), 0)
  {
  }

  lemma StoredOutside(f: Flat, p: Paging, ctl: Control, vaddr: word, v: word, a: word)
    requires var op := StoreOp(FullWord, vaddr, v); SlotWritable(f, p, ctl, op) && RefTarget(f, ctl, op) == Address(a)
    ensures var f' := RefPerform(f, ctl, StoreOp(FullWord, vaddr, v)).flat;
      && (forall k: nat :: k < RAM_WORDS ==> FlatWord(f', k) == if k == a / 4 then v else FlatWord(f, k))
      && Words32(f') == Words32(f)[a / 4 := v]
      && TableWords(f', p.dir) == TableWords(f, p.dir)
  {
    var f' := RefPerform(f, ctl, StoreOp(FullWord, vaddr, v)).flat;
    forall k: nat | k < RAM_WORDS
      ensures FlatWord(f', k) == if k == a / 4 then v else FlatWord(f, k)
    {
      StoreFullWord(f, a, v, k);
    }
    SameTableWords(f, f', p.dir, a / 4, v);
  }

  /** The word just stored may be read, unless it is a page-table word. */
  lemma LoadAllowed(f: Flat, p: Paging, ctl: Control, vaddr: word, v: word, a: word)
    requires var op := StoreOp(FullWord, vaddr, v); SlotWritable(f, p, ctl, op) && RefTarget(f, ctl, op) == Address(a)
    ensures var op := StoreOp(FullWord, vaddr, v);
      var f' := RefPerform(f, ctl, op).flat;
      && RefTarget(f', ctl, LoadOp(FullWord, vaddr)) == Address(a)
      && Allowed(f', PagingAfter(f, p, ctl, op), ctl, LoadOp(FullWord, vaddr))
  {
    var op := StoreOp(FullWord, vaddr, v);
    var f' := RefPerform(f, ctl, op).flat;
    StoredOutside(f, p, ctl, vaddr, v, a);
    ReadableIfWritable(Words32(f), ctl, vaddr);
    if p.dir.Paged? {
      OutsideSpaces(Words32(f), p.dir.roots, a / 4, v);
      NotThrough(f, p.dir, a / 4);
    }
    SameTablesSameWalk(Words32(f), Words32(f'), ctl, vaddr, false, false);
  }

  lemma NotThrough(f: Flat, dir: Directory, k: nat)
    requires dir.Paged? && k < RAM_WORDS && k !in TableWords(f, dir)
    ensures Through(Words32(f), dir.roots, k) == {}
  {
    forall v: word
      ensures !EntryOf(Words32(f), dir.roots.user, v, k) && !EntryOf(Words32(f), dir.roots.other, v, k)
    {
      assert !AnyTableWord(Words32(f), dir.roots, k);
    }
  }

  /** A word stored through the hierarchy is loaded back through it, at the same virtual address. */
  lemma StoreThenLoad(mem: Memory, f: Flat, p: Paging, ctl: Control, vaddr: word, v: word)
    requires Related(mem, f, p) && SlotWritable(f, p, ctl, StoreOp(FullWord, vaddr, v))
    ensures var a := Perform(mem, ctl, StoreOp(FullWord, vaddr, v));
      a.reply == Done && Perform(a.mem, ctl, LoadOp(FullWord, vaddr)).reply == Data(v)
  {
    var op := StoreOp(FullWord, vaddr, v);
    var a, mem1 := RefTarget(f, ctl, op).paddr, Perform(mem, ctl, op).mem;
    PerformRelated(mem, f, p, ctl, op);
    LoadAllowed(f, p, ctl, vaddr, v, a);
    PerformRelated(mem1, RefPerform(f, ctl, op).flat, PagingAfter(f, p, ctl, op), ctl, LoadOp(FullWord, vaddr));
    FlatReadBack(f, a, v);
  }

  /** The state after a push of `v` from registers `c`: `v` may be loaded back at SPR. */
  ghost predicate Lowered(m: Machine, c: Cpu, v: word) {
    && m.cpu == c.(spr := Wrap(c.spr - 4))
    && Perform(m.mem, Ctl(m.cpu), LoadOp(FullWord, m.cpu.spr)).reply == Data(v)
  }

  lemma PushDone(m: Machine, dev: Devices, f: Flat, p: Paging, src: Source)
    returns (m1: Machine)
    requires Related(m.mem, f, p) && SlotReady(m.cpu, f, p, SourceValue(m.cpu, src))
    ensures Execute(m, dev, Push(src)) == Next(m1, 0) && Lowered(m1, m.cpu, SourceValue(m.cpu, src))
  {
    var top, v := Wrap(m.cpu.spr - 4), SourceValue(m.cpu, src);
    StoreThenLoad(m.mem, f, p, Ctl(m.cpu), top, v);
    PushExecutes(m, dev, src);
    m1 := Machine(m.cpu.(spr := top), Perform(m.mem, Ctl(m.cpu), StoreOp(FullWord, top, v)).mem);
  }

  lemma PopDone(m: Machine, dev: Devices, rd: Reg, v: word, spr: word) returns (m1: Machine)
    requires Perform(m.mem, Ctl(m.cpu), LoadOp(FullWord, m.cpu.spr)).reply == Data(v) && m.cpu.spr == Wrap(spr - 4)
    ensures Execute(m, dev, Pop(rd)) == Next(m1, 0)
    ensures m1.cpu == m.cpu.(gr := m.cpu.gr[rd := v], spr := spr)
  {
    PopExecutes(m, dev, rd, v);
    m1 := Machine(m.cpu.(gr := m.cpu.gr[rd := v], spr := spr),
                  Perform(m.mem, Ctl(m.cpu), LoadOp(FullWord, m.cpu.spr)).mem);
    WrapBack(spr);
  }

  lemma WrapBack(spr: word)
    ensures Wrap(Wrap(spr - 4) + 4) == spr
  {
  }

  lemma PopAfter(c: Cpu, m: Machine, dev: Devices, rd: Reg, v: word) returns (m1: Machine)
    requires Lowered(m, c, v)
    ensures Execute(m, dev, Pop(rd)) == Next(m1, 0) && m1.cpu == c.(gr := c.gr[rd := v])
  {
    m1 := PopDone(m, dev, rd, v, c.spr);
  }

  /** `pop` after `push` returns the pushed word and the old SPR, from any state of caches and TLB that
      a run can reach, and leaves every other register alone. */
  lemma {:induction false} PushThenPop(m: Machine, dev: Devices, f: Flat, p: Paging, src: Source, rd: Reg)
    returns (m1: Machine, m2: Machine)
    requires Related(m.mem, f, p) && SlotReady(m.cpu, f, p, SourceValue(m.cpu, src))
    ensures Execute(m, dev, Push(src)) == Next(m1, 0) && Execute(m1, dev, Pop(rd)) == Next(m2, 0)
    ensures m2.cpu == m.cpu.(gr := m.cpu.gr[rd := SourceValue(m.cpu, src)])
  {
    var v := SourceValue(m.cpu, src);
    m1 := PushDone(m, dev, f, p, src);
    m2 := PopAfter(m.cpu, m1, dev, rd, v);
  }
}
