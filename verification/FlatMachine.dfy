/** The processor over the flat byte memory: what a program sees of the simulator, without caches,
    TLB or page-table write-back. */
module FlatMachine {
  import opened Words
  import opened Cache
  import opened Mmu
  import opened LoadStore
  import opened FlatMemory
  import opened Refinement
  import opened Cpu
  import opened Interrupts

  /** An instruction's outcome on processor and byte memory. */
  datatype Ran = Ran(cpu: Cpu, flat: Flat, fault: Vector) | Halted

  function FlatLoad(c: Cpu, f: Flat, dev: Devices, width: Width, rd: Reg, vaddr: word): Ran {
    match RefPerform(f, Ctl(c), LoadOp(width, vaddr)).reply
    case Data(v) => Ran(c.(gr := c.gr[rd := v]), f, 0)
    case Faulted(num) => Ran(LatchFault(c, num, if width == FullWord then vaddr else WordAddress(vaddr)), f, num)
    case Device(p) =>
      (match dev.bus(p)
       case None => Halted
       case Some(v) => Ran(c.(gr := c.gr[rd := Extract(v, vaddr, width)]), f, 0))
    case _ => Halted
  }

  function FlatStore(c: Cpu, f: Flat, dev: Devices, width: Width, src: word, vaddr: word): Ran {
    if width == FullWord && vaddr % 4 != 0 then Halted
    else
      var a := RefPerform(f, Ctl(c), StoreOp(width, vaddr, src));
      match a.reply
      case Done => Ran(c, a.flat, 0)
      case Faulted(num) => Ran(LatchFault(c, num, vaddr), f, num)
      case Device(p) => if dev.bus(p).None? then Halted else Ran(c, f, 0)
      case _ => Halted
  }

  function FlatTas(c: Cpu, f: Flat, dev: Devices, rd: Reg, vaddr: word): Ran {
    var l := FlatLoad(c, f, dev, FullWord, rd, vaddr);
    if l.Ran? && l.fault == 0 && l.cpu.gr[rd] == 0 then FlatStore(l.cpu, f, dev, FullWord, 1, vaddr) else l
  }

  function FlatPop(c: Cpu, f: Flat, dev: Devices, rd: Reg): Ran {
    var l := FlatLoad(c, f, dev, FullWord, rd, c.spr);
    if l.Ran? && l.fault == 0 then l.(cpu := l.cpu.(spr := Wrap(c.spr + 4))) else l
  }

  function FlatMemoryInsn(c: Cpu, f: Flat, dev: Devices, insn: Insn): Ran
    requires MemoryInsn(insn)
  {
    match insn
    case Load(width, rd, addr) =>
      var a := EffectiveAddress(c.gr, addr, width);
      if a.None? then Halted else FlatLoad(c, f, dev, width, rd, a.value)
    case Store(width, rs, addr) =>
      var a := EffectiveAddress(c.gr, addr, width);
      if a.None? then Halted else FlatStore(c, f, dev, width, c.gr[rs], a.value)
    case Push(src) =>
      var sp := Wrap(c.spr - 4);
      FlatStore(c.(spr := sp), f, dev, FullWord, SourceValue(c, src), sp)
    case PushPc =>
      var sp := Wrap(c.spr - 4);
      FlatStore(c.(spr := sp), f, dev, FullWord, c.pc, sp)
    case Pop(rd) => FlatPop(c, f, dev, rd)
    case Tas(rd, addr) =>
      var a := EffectiveAddress(c.gr, addr, FullWord);
      if a.None? then Halted else FlatTas(c, f, dev, rd, a.value)
  }

  /** Instructions that do not access memory are those of the simulator; of memory they read only the
      interrupt table. */
  function FlatExecute(c: Cpu, f: Flat, dev: Devices, insn: Insn): Ran {
    if MemoryInsn(insn) then FlatMemoryInsn(c, f, dev, insn)
    else
      match Execute(Machine(c, Cold(Words32(f))), dev, insn)
      case Stopped => Halted
      case Next(m, fault) => Ran(m.cpu, f, fault)
  }

  function FlatBody(c: Cpu, f: Flat, dev: Devices, decode: word -> Insn): Ran {
    match RefPerform(f, Ctl(c), FetchOp(c.pc)).reply
    case Data(w) => FlatExecute(c, f, dev, decode(w))
    case Faulted(num) => Ran(LatchFault(c, num, c.pc), f, num)
    case Device(p) => (match dev.bus(p) case None => Halted case Some(w) => FlatExecute(c, f, dev, decode(w)))
    case _ => Halted
  }

  datatype FlatOutcome = FlatRunning(cpu: Cpu, flat: Flat) | FlatEnded

  /** One iteration of the loop over the byte memory. */
  function FlatIterate(c: Cpu, f: Flat, dev: Devices, decode: word -> Insn): FlatOutcome {
    match FlatBody(ChooseStack(c), f, dev, decode)
    case Halted => FlatEnded
    case Ran(c1, f1, fault) =>
      match Advance(WriteBackSp(TakeFault(c1, fault)))
      case None => FlatEnded
      case Some(c2) => FlatRunning(AgeFlags(Dispatch(c2, dev)), f1)
  }

  // ---------------------------------------------------------------- what a run may do

  /** The instruction flushes the TLB. */
  predicate FlushesTlb(c: Cpu, insn: Insn) {
    match insn
    case ReturnFromInterrupt => c.saved.pdtr != c.pdtr || MmuMode(c.saved.psr) != MmuMode(c.psr)
    case WriteSystem(reg, src) =>
      reg.Pdt? || reg.Kpdt? || reg.Mmu? ||
      (reg.Ps? && (var v := SourceValue(c, src); MmuMode(v) != MmuMode(c.psr) || Cmod(v) != Cmod(c.psr)))
    case _ => false
  }

  /** The store of the instruction, if it makes one. */
  function StoreOf(c: Cpu, f: Flat, dev: Devices, insn: Insn): Option<Op> {
    match insn
    case Store(width, rs, addr) =>
      var a := EffectiveAddress(c.gr, addr, width);
      if a.None? then None else Some(StoreOp(width, a.value, c.gr[rs]))
    case Push(src) => Some(StoreOp(FullWord, Wrap(c.spr - 4), SourceValue(c, src)))
    case PushPc => Some(StoreOp(FullWord, Wrap(c.spr - 4), c.pc))
    case Tas(rd, addr) =>
      var a := EffectiveAddress(c.gr, addr, FullWord);
      if a.None? then None
      else
        var l := FlatLoad(c, f, dev, FullWord, rd, a.value);
        if l.Ran? && l.fault == 0 && l.cpu.gr[rd] == 0 then Some(StoreOp(FullWord, a.value, 1)) else None
    case _ => None
  }

  function LoadOf(c: Cpu, insn: Insn): Option<Op> {
    match insn
    case Load(width, _, addr) =>
      var a := EffectiveAddress(c.gr, addr, width);
      if a.None? then None else Some(LoadOp(width, a.value))
    case Pop(_) => Some(LoadOp(FullWord, c.spr))
    case Tas(_, addr) =>
      var a := EffectiveAddress(c.gr, addr, FullWord);
      if a.None? then None else Some(LoadOp(FullWord, a.value))
    case _ => None
  }

  /** A misaligned full-word store ends the run before it reaches memory. */
  predicate Misaligned(op: Op) {
    WholeWord(op) && op.vaddr % 4 != 0
  }

  /** The accesses of the instruction are allowed, and tables it switches to are usable. */
  ghost predicate InsnAllowed(c: Cpu, f: Flat, p: Paging, dev: Devices, insn: Insn, next: Directory) {
    && (LoadOf(c, insn).Some? ==> Allowed(f, p, Ctl(c), LoadOf(c, insn).value))
    && (var s := StoreOf(c, f, dev, insn); s.Some? && !Misaligned(s.value) ==> Allowed(f, p, Ctl(c), s.value))
    && (insn.LoadIdt? ==> forall k :: c.idtr / 4 <= k < c.idtr / 4 + 0x100 ==> k !in p.walked)
    && (FlushesTlb(c, insn) ==> Usable(f, next, {}))
  }

  ghost function PagingAfterInsn(c: Cpu, f: Flat, p: Paging, dev: Devices, insn: Insn, next: Directory): Paging {
    var s := StoreOf(c, f, dev, insn);
    if FlushesTlb(c, insn) then PagingFlushed(f, p, next)
    else if s.Some? && !Misaligned(s.value) then PagingAfter(f, p, Ctl(c), s.value)
    else p
  }

  /** The instruction the iteration executes. */
  function FlatInsn(c: Cpu, f: Flat, dev: Devices, decode: word -> Insn): Option<Insn> {
    match RefPerform(f, Ctl(c), FetchOp(c.pc)).reply
    case Data(w) => Some(decode(w))
    case Device(p) => (match dev.bus(p) case None => None case Some(w) => Some(decode(w)))
    case _ => None
  }

  ghost predicate IterationAllowed(c: Cpu, f: Flat, p: Paging, dev: Devices, decode: word -> Insn, next: Directory) {
    var c1 := ChooseStack(c);
    && Allowed(f, p, Ctl(c1), FetchOp(c1.pc))
    && (FlatInsn(c1, f, dev, decode).Some? ==>
          InsnAllowed(c1, f, p, dev, FlatInsn(c1, f, dev, decode).value, next))
  }

  ghost function PagingIterated(c: Cpu, f: Flat, p: Paging, dev: Devices, decode: word -> Insn,
                                next: Directory): Paging {
    var c1 := ChooseStack(c);
    if FlatInsn(c1, f, dev, decode).Some? then PagingAfterInsn(c1, f, p, dev, FlatInsn(c1, f, dev, decode).value, next)
    else p
  }

  /** One iteration's inputs: the devices, and the directory in use after a flush. */
  datatype Tick = Tick(dev: Devices, next: Directory)

  /** Every iteration of the run is allowed; said of the byte memory alone. */
  ghost predicate RunAllowed(c: Cpu, f: Flat, p: Paging, ticks: seq<Tick>, decode: word -> Insn)
    decreases |ticks|
  {
    |ticks| == 0 ||
    (var t := ticks[0];
     && IterationAllowed(c, f, p, t.dev, decode, t.next)
     && var r := FlatIterate(c, f, t.dev, decode);
        r.FlatRunning? ==>
          RunAllowed(r.cpu, r.flat, PagingIterated(c, f, p, t.dev, decode, t.next), ticks[1..], decode))
  }

  // ---------------------------------------------------------------- one instruction

  /** The machine did what the processor over the byte memory did. */
  ghost predicate SameOutcome(e: Executed, r: Ran, p: Paging) {
    && e.Next? == r.Ran?
    && (e.Next? ==> e.m.cpu == r.cpu && e.fault == r.fault && Related(e.m.mem, r.flat, p))
  }

  lemma LoadSame(m: Machine, f: Flat, p: Paging, dev: Devices, width: Width, rd: Reg, vaddr: word)
    requires Related(m.mem, f, p) && Allowed(f, p, Ctl(m.cpu), LoadOp(width, vaddr))
    ensures SameOutcome(ExecLoad(m, dev, width, rd, vaddr), FlatLoad(m.cpu, f, dev, width, rd, vaddr), p)
  {
    PerformRelated(m.mem, f, p, Ctl(m.cpu), LoadOp(width, vaddr));
  }

  lemma StoreSame(m: Machine, f: Flat, p: Paging, dev: Devices, width: Width, src: word, vaddr: word)
    requires var op := StoreOp(width, vaddr, src);
      Related(m.mem, f, p) && (Misaligned(op) || Allowed(f, p, Ctl(m.cpu), op))
    ensures var op := StoreOp(width, vaddr, src);
      SameOutcome(ExecStore(m, dev, width, src, vaddr), FlatStore(m.cpu, f, dev, width, src, vaddr),
                  if Misaligned(op) then p else PagingAfter(f, p, Ctl(m.cpu), op))
  {
    var op := StoreOp(width, vaddr, src);
    if !Misaligned(op) {
      PerformRelated(m.mem, f, p, Ctl(m.cpu), op);
    }
  }

  lemma TasSame(m: Machine, f: Flat, p: Paging, dev: Devices, rd: Reg, addr: Operand, next: Directory)
    requires Related(m.mem, f, p) && InsnAllowed(m.cpu, f, p, dev, Tas(rd, addr), next)
    requires EffectiveAddress(m.cpu.gr, addr, FullWord).Some?
    ensures var a := EffectiveAddress(m.cpu.gr, addr, FullWord).value;
      SameOutcome(ExecTas(m, dev, rd, a), FlatTas(m.cpu, f, dev, rd, a),
                  PagingAfterInsn(m.cpu, f, p, dev, Tas(rd, addr), next))
  {
    var a := EffectiveAddress(m.cpu.gr, addr, FullWord).value;
    var l := ExecLoad(m, dev, FullWord, rd, a);
    LoadSame(m, f, p, dev, FullWord, rd, a);
    if l.Next? && l.fault == 0 && l.m.cpu.gr[rd] == 0 {
      LoadFrame(m, dev, FullWord, rd, a);
      StoreSame(l.m, f, p, dev, FullWord, 1, a);
    }
  }

  lemma PushSame(m: Machine, f: Flat, p: Paging, dev: Devices, insn: Insn, next: Directory)
    requires (insn.Push? || insn.PushPc?) && Related(m.mem, f, p) && InsnAllowed(m.cpu, f, p, dev, insn, next)
    ensures SameOutcome(Execute(m, dev, insn), FlatMemoryInsn(m.cpu, f, dev, insn),
                        PagingAfterInsn(m.cpu, f, p, dev, insn, next))
  {
    var c, sp := m.cpu, Wrap(m.cpu.spr - 4);
    var src := if insn.Push? then SourceValue(c, insn.src) else c.pc;
    StoreSame(m.(cpu := c.(spr := sp)), f, p, dev, FullWord, src, sp);
  }

  lemma PopSame(m: Machine, f: Flat, p: Paging, dev: Devices, insn: Insn, next: Directory)
    requires insn.Pop? && Related(m.mem, f, p) && InsnAllowed(m.cpu, f, p, dev, insn, next)
    ensures SameOutcome(Execute(m, dev, insn), FlatMemoryInsn(m.cpu, f, dev, insn),
                        PagingAfterInsn(m.cpu, f, p, dev, insn, next))
  {
    LoadSame(m, f, p, dev, FullWord, insn.rd, m.cpu.spr);
  }

  lemma MemoryInsnSame(m: Machine, f: Flat, p: Paging, dev: Devices, insn: Insn, next: Directory)
    requires MemoryInsn(insn) && Related(m.mem, f, p) && InsnAllowed(m.cpu, f, p, dev, insn, next)
    ensures SameOutcome(Execute(m, dev, insn), FlatMemoryInsn(m.cpu, f, dev, insn),
                        PagingAfterInsn(m.cpu, f, p, dev, insn, next))
  {
    var c := m.cpu;
    match insn
    case Load(width, rd, addr) =>
      var a := EffectiveAddress(c.gr, addr, width);
      if a.Some? { LoadSame(m, f, p, dev, width, rd, a.value); }
    case Store(width, rs, addr) =>
      var a := EffectiveAddress(c.gr, addr, width);
      if a.Some? { StoreSame(m, f, p, dev, width, c.gr[rs], a.value); }
    case Pop(_) => PopSame(m, f, p, dev, insn, next);
    case Tas(rd, addr) =>
      if EffectiveAddress(c.gr, addr, FullWord).Some? { TasSame(m, f, p, dev, rd, addr, next); }
    case _ => PushSame(m, f, p, dev, insn, next);
  }

  /** An instruction without memory access: processor and fault do not depend on the hierarchy, and
      the hierarchy changes at most by a flush. */
  lemma RegisterInsn(m: Machine, mem: Memory, dev: Devices, insn: Insn)
    requires !MemoryInsn(insn)
    requires insn.LoadIdt? ==> forall k :: m.cpu.idtr / 4 <= k < m.cpu.idtr / 4 + 0x100 && k < RAM_WORDS ==>
               m.mem.hier.ram[k] == mem.hier.ram[k]
    ensures var e, e' := Execute(m, dev, insn), Execute(Machine(m.cpu, mem), dev, insn);
      && e.Next? == e'.Next?
      && (e.Next? ==> e.m.cpu == e'.m.cpu && e.fault == e'.fault == 0)
      && (e.Next? ==> e.m.mem == if FlushesTlb(m.cpu, insn) then Flush(m.mem) else m.mem)
  {
    if insn.LoadIdt? {
      SameIdt(m, mem);
    }
  }

  lemma SameIdt(m: Machine, mem: Memory)
    requires forall k :: m.cpu.idtr / 4 <= k < m.cpu.idtr / 4 + 0x100 && k < RAM_WORDS ==>
               m.mem.hier.ram[k] == mem.hier.ram[k]
    ensures var e, e' := ExecLoadIdt(m), ExecLoadIdt(Machine(m.cpu, mem));
      && e.Next? == e'.Next?
      && (e.Next? ==> e.m.cpu == e'.m.cpu && e.fault == 0 && e'.fault == 0 && e.m.mem == m.mem)
  {
    var e, e' := ExecLoadIdt(m), ExecLoadIdt(Machine(m.cpu, mem));
    if e.Next? {
      assert m.cpu.idtr / 4 + 0x100 <= RAM_WORDS by { IdtInRam(m.cpu.idtr); }
      SameTable(m.mem.hier.ram, mem.hier.ram, m.cpu.idtr / 4);
    }
  }

  lemma SameTable(ram: Ram, ram': Ram, k: nat)
    requires k + 0x100 <= RAM_WORDS && forall j :: k <= j < k + 0x100 ==> ram[j] == ram'[j]
    ensures IdtAt(ram, k) == IdtAt(ram', k)
  {
    var a, b := IdtAt(ram, k), IdtAt(ram', k);
    forall n: nat | n < 128
      ensures a[n] == b[n]
    {
      assert ram[k + 2 * n] == ram'[k + 2 * n] && ram[k + 2 * n + 1] == ram'[k + 2 * n + 1];
    }
  }

  lemma RegisterInsnSame(m: Machine, f: Flat, p: Paging, dev: Devices, insn: Insn, next: Directory)
    requires !MemoryInsn(insn) && Related(m.mem, f, p) && InsnAllowed(m.cpu, f, p, dev, insn, next)
    ensures SameOutcome(Execute(m, dev, insn), FlatExecute(m.cpu, f, dev, insn),
                        PagingAfterInsn(m.cpu, f, p, dev, insn, next))
  {
    if insn.LoadIdt? {
      forall k | m.cpu.idtr / 4 <= k < m.cpu.idtr / 4 + 0x100 && k < RAM_WORDS
        ensures m.mem.hier.ram[k] == Cold(Words32(f)).hier.ram[k]
      {
        assert WordCoherent(FlatWord(f, k), m.mem.hier.ram, k, p.walked);
      }
    }
    RegisterInsn(m, Cold(Words32(f)), dev, insn);
    if FlushesTlb(m.cpu, insn) {
      FlushRelated(m.mem, f, p, next);
    }
  }

  // ---------------------------------------------------------------- one iteration

  lemma FetchSame(m: Machine, f: Flat, p: Paging, dev: Devices, decode: word -> Insn)
    requires Related(m.mem, f, p) && Allowed(f, p, Ctl(m.cpu), FetchOp(m.cpu.pc))
    ensures var w, i := FetchWord(m, dev), FlatInsn(m.cpu, f, dev, decode);
      && (w.Fetched? ==> i == Some(decode(w.w)) && Related(w.mem, f, p))
      && (w.FetchFault? ==> i.None? && Related(w.mem, f, p))
      && (w.FetchFault? ==> FlatBody(m.cpu, f, dev, decode) == Ran(LatchFault(m.cpu, w.num, m.cpu.pc), f, w.num))
      && (w.FetchStopped? ==> i.None? && FlatBody(m.cpu, f, dev, decode) == Halted)
      && (w.Fetched? ==> FlatBody(m.cpu, f, dev, decode) == FlatExecute(m.cpu, f, dev, decode(w.w)))
  {
    PerformRelated(m.mem, f, p, Ctl(m.cpu), FetchOp(m.cpu.pc));
  }

  lemma BodySame(m: Machine, f: Flat, p: Paging, dev: Devices, decode: word -> Insn, next: Directory)
    requires Related(m.mem, f, p) && Allowed(f, p, Ctl(m.cpu), FetchOp(m.cpu.pc))
    requires var i := FlatInsn(m.cpu, f, dev, decode);
      i.Some? ==> InsnAllowed(m.cpu, f, p, dev, i.value, next)
    ensures var i := FlatInsn(m.cpu, f, dev, decode);
      SameOutcome(Body(m, dev, decode), FlatBody(m.cpu, f, dev, decode),
                  if i.Some? then PagingAfterInsn(m.cpu, f, p, dev, i.value, next) else p)
  {
    var w := FetchWord(m, dev);
    FetchSame(m, f, p, dev, decode);
    if w.Fetched? {
      if MemoryInsn(decode(w.w)) {
        MemoryInsnSame(m.(mem := w.mem), f, p, dev, decode(w.w), next);
      } else {
        RegisterInsnSame(m.(mem := w.mem), f, p, dev, decode(w.w), next);
      }
    }
  }

  /** One iteration of the simulator is one iteration over the byte memory: same processor, and a
      hierarchy that still stands for the byte memory. */
  lemma IterateSame(m: Machine, f: Flat, p: Paging, dev: Devices, decode: word -> Insn, next: Directory)
    requires Related(m.mem, f, p) && IterationAllowed(m.cpu, f, p, dev, decode, next)
    ensures var r, r' := Iterate(m, dev, decode), FlatIterate(m.cpu, f, dev, decode);
      && r.Running? == r'.FlatRunning?
      && (r.Running? ==>
            r.m.cpu == r'.cpu && Related(r.m.mem, r'.flat, PagingIterated(m.cpu, f, p, dev, decode, next)))
  {
    BodySame(m.(cpu := ChooseStack(m.cpu)), f, p, dev, decode, next);
  }

  // ---------------------------------------------------------------- whole runs

  /** The processor after each iteration, as far as the run gets. */
  function Trace(m: Machine, ticks: seq<Tick>, decode: word -> Insn): seq<Cpu>
    decreases |ticks|
  {
    if |ticks| == 0 then []
    else
      match Iterate(m, ticks[0].dev, decode)
      case Ended => []
      case Running(m1) => [m1.cpu] + Trace(m1, ticks[1..], decode)
  }

  function FlatTrace(c: Cpu, f: Flat, ticks: seq<Tick>, decode: word -> Insn): seq<Cpu>
    decreases |ticks|
  {
    if |ticks| == 0 then []
    else
      match FlatIterate(c, f, ticks[0].dev, decode)
      case FlatEnded => []
      case FlatRunning(c1, f1) => [c1] + FlatTrace(c1, f1, ticks[1..], decode)
  }

  lemma {:induction false} TraceSame(m: Machine, f: Flat, p: Paging, ticks: seq<Tick>, decode: word -> Insn)
    requires Related(m.mem, f, p) && RunAllowed(m.cpu, f, p, ticks, decode)
    ensures Trace(m, ticks, decode) == FlatTrace(m.cpu, f, ticks, decode)
    decreases |ticks|
  {
    if |ticks| != 0 {
      var t := ticks[0];
      IterateSame(m, f, p, t.dev, decode, t.next);
      var r := Iterate(m, t.dev, decode);
      if r.Running? {
        TraceSame(r.m, FlatIterate(m.cpu, f, t.dev, decode).flat,
                  PagingIterated(m.cpu, f, p, t.dev, decode, t.next), ticks[1..], decode);
      }
    }
  }

  /** A program runs on the simulator as on a processor with a flat big-endian byte memory: from reset
      and with any RAM image, every iteration leaves the same registers, whatever loads, stores,
      interrupts, faults, returns, mode switches and page-table changes the run contains. */
  lemma {:induction false} ProgramSeesFlatMemory(m: Machine, dir: Directory, ticks: seq<Tick>, decode: word -> Insn)
    requires Initial(m.mem) && Usable(Image(m.mem.hier.ram), dir, {})
    requires var f := Image(m.mem.hier.ram); RunAllowed(m.cpu, f, PagingInitial(f, dir), ticks, decode)
    ensures Trace(m, ticks, decode) == FlatTrace(m.cpu, Image(m.mem.hier.ram), ticks, decode)
  {
    var f := Image(m.mem.hier.ram);
    InitialRelated(m.mem, dir);
    TraceSame(m, f, PagingInitial(f, dir), ticks, decode);
  }
}
