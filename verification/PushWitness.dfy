/** A concrete run in which a handled fault makes a `push` store four bytes too low. */
module PushWitness {
  import opened Words
  import opened Cache
  import opened Mmu
  import opened LoadStore
  import opened Cpu
  import opened Interrupts
  import opened Restart
  import opened RestartWitness

  const TOP: word := 0x40_0008

  /** Before the `push`, with the stack in the region that is not mapped. */
  predicate PushBegins(c: Cpu) {
    Ready(c) && c.pc == PUSHING && c.spr == TOP && c.flags.invalid
  }

  /** An address of the stack's region. */
  predicate OnStack(v: word) {
    v == 0x40_0000 || v == 0x40_0004
  }

  lemma StackStore(mem: Memory, ram: Ram, ctl: Control, v: word, x: word)
    requires InStep(mem, ram) && KernelPaged(ctl) && OnStack(v)
    ensures ram[1] == 0 ==> Perform(mem, ctl, StoreOp(FullWord, v, x)) == Accessed(mem, Faulted(PAGE_FAULT))
    ensures ram[1] == MAPPED_PTE ==> Perform(mem, ctl, StoreOp(FullWord, v, x)).reply == Done
  {
    PsrKept();
    KernelPte();
    assert v / LARGE == 1 && Slot1(0, v) == 1;
    if ram[1] == 0 {
      assert WalkTables(ram, ctl, v, true, false) == Denied(PAGE_FAULT);
    } else if ram[1] == MAPPED_PTE {
      assert Permits(MAPPED_PTE, ctl.psr, true, false);
      assert WalkTables(ram, ctl, v, true, false) == Large(MAPPED_PTE);
    }
  }

  lemma PushFetch(m: Machine, ram: Ram)
    requires InStep(m.mem, ram) && (ram == StartRam() || ram == MappedRam())
    requires var c := ChooseStack(m.cpu); KernelPaged(Ctl(c)) && c.pc == PUSHING
    ensures var c := ChooseStack(m.cpu);
      var a := Fetch(m.mem, Ctl(c), PUSHING);
      && InStep(a.mem, ram) && InsnAt(m, Quietly(), Decode) == Some(Decode(4))
      && BodyOf(m, Quietly(), Decode) == Execute(Machine(c, a.mem), Quietly(), Decode(4))
  {
    LowFetch(m.mem, ram, Ctl(ChooseStack(m.cpu)), PUSHING);
  }

  /** The outcome of the `push`, from the reply to its store. */
  lemma PushOutcome(m: Machine, v: word)
    requires v == Wrap(m.cpu.spr - 4) && OnStack(v)
    ensures var a := Perform(m.mem, Ctl(m.cpu), StoreOp(FullWord, v, 7));
      var low := m.cpu.(spr := v);
      && (a.reply == Done ==> Execute(m, Quietly(), Decode(4)) == Next(Machine(low, a.mem), 0))
      && (a.reply == Faulted(PAGE_FAULT) ==>
            Execute(m, Quietly(), Decode(4)) == Next(Machine(LatchFault(low, PAGE_FAULT, v), a.mem), PAGE_FAULT))
  {
  }

  lemma PushFaulting(m: Machine)
    requires PushBegins(m.cpu) && InStep(m.mem, StartRam())
    ensures var e := BodyOf(m, Quietly(), Decode);
      && e.Next? && e.fault == PAGE_FAULT && InStep(e.m.mem, StartRam())
      && e.m.cpu == LatchFault(m.cpu.(spr := 0x40_0004), PAGE_FAULT, 0x40_0004)
      && PushNext(m, Quietly(), Decode)
  {
    PsrKept();
    PushFetch(m, StartRam());
    var mem := Fetch(m.mem, Ctl(m.cpu), PUSHING).mem;
    StackStore(mem, StartRam(), Ctl(m.cpu), 0x40_0004, 7);
    PushOutcome(m.(mem := mem), 0x40_0004);
  }

  /** The fault of the `push` leads into the handler. */
  lemma PushEnters(m: Machine)
    requires PushBegins(m.cpu) && InStep(m.mem, StartRam())
    ensures EntersHandler(m) && PushNext(m, Quietly(), Decode)
  {
    PsrKept();
    PushFaulting(m);
  }

  /** With the region mapped the `push` completes. */
  lemma PushCompletes(m: Machine, top: word)
    requires var c := ChooseStack(m.cpu);
      KernelPaged(Ctl(c)) && c.pc == PUSHING && c.nextPc == NO_BRANCH && c.spr == top
    requires InStep(m.mem, MappedRam()) && OnStack(Wrap(top - 4))
    ensures PushNext(m, Quietly(), Decode) && Cycle(m, Quietly(), Decode).Running?
  {
    var c := ChooseStack(m.cpu);
    PushFetch(m, MappedRam());
    var mem := Fetch(m.mem, Ctl(c), PUSHING).mem;
    StackStore(mem, MappedRam(), Ctl(c), Wrap(top - 4), 7);
    var e := Execute(Machine(c, mem), Quietly(), Decode(4));
    PushRuns(c, mem, top, e);
    PlainCycle(m, Quietly(), Decode, e);
    IsPush(m);
  }

  lemma PushRuns(c: Cpu, mem: Memory, top: word, e: Executed)
    requires c.spr == top && OnStack(Wrap(top - 4)) && c.nextPc == NO_BRANCH
    requires Perform(mem, Ctl(c), StoreOp(FullWord, Wrap(top - 4), 7)).reply == Done
    requires e == Execute(Machine(c, mem), Quietly(), Decode(4))
    ensures e.Next? && e.fault == 0 && e.m.cpu.nextPc == NO_BRANCH
  {
    PushOutcome(Machine(c, mem), Wrap(top - 4));
  }

  lemma IsPush(m: Machine)
    requires InsnAt(m, Quietly(), Decode) == Some(Decode(4))
    ensures PushNext(m, Quietly(), Decode)
  {
  }

  lemma BackAtPush(m: Machine, back: Cpu)
    requires PushBegins(m.cpu) && InStep(m.mem, StartRam()) && Faults(m, Quietly(), Decode)
    requires Similar(ChooseStack(back), Left(m, Quietly(), Decode))
    ensures var c := ChooseStack(back);
      KernelPaged(Ctl(c)) && c.pc == PUSHING && c.nextPc == NO_BRANCH && c.spr == 0x40_0004
  {
    PsrKept();
    PushFaulting(m);
  }

  /** The run exists: the `push` faults, the handler maps the stack and returns, and the `push` done again
      ends at 0x400000, where without the fault it would have ended at 0x400004. */
  lemma PushMisplaced(m: Machine)
    requires PushBegins(m.cpu) && InStep(m.mem, StartRam())
    ensures var q := Quietly();
      && HandledBy(m, q, [q], q, Decode) && PushNext(m, q, Decode)
      && var back := Back(m, q, [q], q, Decode);
         var r, r' := Cycle(back, q, Decode), Cycle(m.(mem := back.mem), q, Decode);
         r.Running? && r.m.cpu.spr == 0x40_0000 && r'.Running? && r'.m.cpu.spr == 0x40_0004
  {
    var q := Quietly();
    PsrKept();
    PushEnters(m);
    HandlerReturns(m);
    var back := Back(m, q, [q], q, Decode);
    HandledFault(m, q, [q], q, Decode);
    BackAtPush(m, back.cpu);
    PushCompletes(back, 0x40_0004);
    PushCompletes(m.(mem := back.mem), TOP);
    RestartedPushTooLow(m, q, [q], q, q, Decode);
  }
}
