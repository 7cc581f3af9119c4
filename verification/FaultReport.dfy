/** What FI0R and FI1R tell the handler of a memory fault. */
module FaultReport {
  import opened Words
  import opened Mmu
  import opened LoadStore
  import opened Cpu
  import opened Interrupts
  import opened Restart
  import opened Iteration
  import opened Addressing
  import opened FlatMemory
  import opened Refinement
  import opened FlatMachine

  /** The address the faulting access was made at: PC for a fetch, the containing word for loads of bytes
      and half words, the lowered SPR for a push. */
  function FaultSite(c: Cpu, insn: Option<Insn>): word {
    match insn
    case None => c.pc
    case Some(Load(FullWord, _, addr)) => OperandAddress(c.gr, addr, FullWord)
    case Some(Load(width, _, addr)) => OperandAddress(c.gr, addr, width) / 4 * 4
    case Some(Store(width, _, addr)) => OperandAddress(c.gr, addr, width)
    case Some(Tas(_, addr)) => OperandAddress(c.gr, addr, FullWord)
    case Some(Pop(_)) => c.spr
    case Some(_) => (c.spr - 4) % 0x1_0000_0000
  }

  predicate FaultNumber(n: int) {
    n == 40 || n == 41
  }

  /** FI0R holds the address; FI1R is cleared by a page fault and kept by a protection fault. */
  predicate Reported(c: Cpu, c': Cpu, fault: Vector, site: word) {
    FaultNumber(fault) && c'.fi0r == site && c'.fi1r == (if fault == 40 then 0 else c.fi1r)
  }

  lemma LoadReports(m: Machine, dev: Devices, width: Width, rd: Reg, vaddr: word)
    ensures var e := ExecLoad(m, dev, width, rd, vaddr);
      e.Next? && e.fault != 0 ==>
        Reported(m.cpu, e.m.cpu, e.fault, if width == FullWord then vaddr else vaddr / 4 * 4)
    ensures var e := ExecLoad(m, dev, width, rd, vaddr);
      e.Next? && e.fault == 0 ==> e.m.cpu.fi0r == m.cpu.fi0r && e.m.cpu.fi1r == m.cpu.fi1r
  {
    AccessFault(m.mem, Ctl(m.cpu), LoadOp(width, vaddr));
  }

  lemma StoreReports(m: Machine, dev: Devices, width: Width, src: word, vaddr: word)
    ensures var e := ExecStore(m, dev, width, src, vaddr);
      e.Next? && e.fault != 0 ==> Reported(m.cpu, e.m.cpu, e.fault, vaddr)
    ensures var e := ExecStore(m, dev, width, src, vaddr);
      e.Next? && e.fault == 0 ==> e.m.cpu.fi0r == m.cpu.fi0r && e.m.cpu.fi1r == m.cpu.fi1r
  {
    AccessFault(m.mem, Ctl(m.cpu), StoreOp(width, vaddr, src));
  }

  /** The outcome reports a fault, or leaves both registers. */
  predicate Reports(c: Cpu, e: Executed, site: word) {
    e.Next? ==>
      if e.fault != 0 then Reported(c, e.m.cpu, e.fault, site) else e.m.cpu.fi0r == c.fi0r && e.m.cpu.fi1r == c.fi1r
  }

  lemma TasReports(m: Machine, dev: Devices, rd: Reg, vaddr: word)
    ensures Reports(m.cpu, ExecTas(m, dev, rd, vaddr), vaddr)
  {
    var l := ExecLoad(m, dev, FullWord, rd, vaddr);
    LoadReports(m, dev, FullWord, rd, vaddr);
    if l.Next? {
      StoreReports(l.m, dev, FullWord, 1, vaddr);
    }
  }

  lemma StackReports(m: Machine, dev: Devices, insn: Insn)
    requires insn.Push? || insn.PushPc? || insn.Pop?
    ensures Reports(m.cpu, Execute(m, dev, insn), FaultSite(m.cpu, Some(insn)))
  {
    var sp := Wrap(m.cpu.spr - 4);
    if insn.Pop? {
      LoadReports(m, dev, FullWord, insn.rd, m.cpu.spr);
    } else {
      StoreReports(m.(cpu := m.cpu.(spr := sp)), dev, FullWord,
                   if insn.Push? then SourceValue(m.cpu, insn.src) else m.cpu.pc, sp);
    }
  }

  lemma MemoryInsnReports(m: Machine, dev: Devices, insn: Insn)
    requires MemoryInsn(insn)
    ensures Reports(m.cpu, Execute(m, dev, insn), FaultSite(m.cpu, Some(insn)))
  {
    match insn
    case Load(width, rd, addr) =>
      EffectiveIs(m.cpu.gr, addr, width);
      LoadReports(m, dev, width, rd, OperandAddress(m.cpu.gr, addr, width));
    case Store(width, rs, addr) =>
      EffectiveIs(m.cpu.gr, addr, width);
      StoreReports(m, dev, width, m.cpu.gr[rs], OperandAddress(m.cpu.gr, addr, width));
    case Tas(rd, addr) =>
      EffectiveIs(m.cpu.gr, addr, FullWord);
      TasReports(m, dev, rd, OperandAddress(m.cpu.gr, addr, FullWord));
    case _ => StackReports(m, dev, insn);
  }

  lemma RegisterInsnReports(m: Machine, dev: Devices, insn: Insn)
    requires !MemoryInsn(insn)
    ensures var e := Execute(m, dev, insn);
      e.Next? ==> e.fault == 0 && e.m.cpu.fi0r == m.cpu.fi0r && e.m.cpu.fi1r == m.cpu.fi1r
  {
  }

  lemma BodyReports(m: Machine, dev: Devices, decode: word -> Insn)
    ensures Reports(m.cpu, BodyOf(m, dev, decode), FaultSite(ChooseStack(m.cpu), InsnAt(m, dev, decode)))
  {
    var c := m.(cpu := ChooseStack(m.cpu));
    var w := FetchWord(c, dev);
    if w.Fetched? {
      if MemoryInsn(decode(w.w)) {
        MemoryInsnReports(c.(mem := w.mem), dev, decode(w.w));
      } else {
        RegisterInsnReports(c.(mem := w.mem), dev, decode(w.w));
      }
    } else {
      AccessFault(m.mem, Ctl(c.cpu), FetchOp(c.cpu.pc));
    }
  }

  lemma LoopKeepsReport(e: Executed, dev: Devices)
    requires e.Next? && Finish(e).Running?
    ensures var c := AgeFlags(Dispatch(Finish(e).m.cpu, dev)); c.fi0r == e.m.cpu.fi0r && c.fi1r == e.m.cpu.fi1r
  {
    FinishKeepsReport(e);
    DispatchOnce(Finish(e).m.cpu, dev);
  }

  lemma FinishKeepsReport(e: Executed)
    requires e.Next? && Finish(e).Running?
    ensures Finish(e).m.cpu.fi0r == e.m.cpu.fi0r && Finish(e).m.cpu.fi1r == e.m.cpu.fi1r
  {
  }

  /** After a faulting iteration FI0R is the address of the access and FI1R is 0 for vector 40 and kept for
      vector 41; an iteration without a fault keeps both. */
  lemma FaultRegisters(m: Machine, dev: Devices, decode: word -> Insn, m1: Machine)
    requires Iterate(m, dev, decode) == Running(m1)
    ensures Faults(m, dev, decode) ==>
      Reported(m.cpu, m1.cpu, BodyOf(m, dev, decode).fault, FaultSite(ChooseStack(m.cpu), InsnAt(m, dev, decode)))
    ensures !Faults(m, dev, decode) ==> m1.cpu.fi0r == m.cpu.fi0r && m1.cpu.fi1r == m.cpu.fi1r
  {
    BodyReports(m, dev, decode);
    LoopKeepsReport(BodyOf(m, dev, decode), dev);
  }

  // ---------------------------------------------------------------- what the tables say there

  /** The access the instruction makes at the address: a store, a load, or for `tas` either. */
  predicate AccessKind(insn: Option<Insn>, write: bool, exec: bool) {
    match insn
    case None => exec && !write
    case Some(Load(_, _, _)) => !exec && !write
    case Some(Pop(_)) => !exec && !write
    case Some(Tas(_, _)) => !exec
    case Some(_) => !exec && write
  }

  /** A fault at `site` is what the tables give for the access. */
  predicate Explained(f: Flat, ctl: Control, insn: Option<Insn>, site: word, fault: Vector) {
    exists write, exec :: AccessKind(insn, write, exec) && Translate(Words32(f), ctl, site, write, exec) == Fault(fault)
  }

  lemma FlatLoadExplained(c: Cpu, f: Flat, dev: Devices, width: Width, rd: Reg, v: word)
    requires var r := FlatLoad(c, f, dev, width, rd, v); r.Ran? && r.fault != 0
    ensures Translate(Words32(f), Ctl(c), if width == FullWord then v else v / 4 * 4, false, false)
         == Fault(FlatLoad(c, f, dev, width, rd, v).fault)
  {
    TranslateOffset(Words32(f), Ctl(c), v, false, false);
  }

  lemma FlatStoreExplained(c: Cpu, f: Flat, dev: Devices, width: Width, src: word, v: word)
    requires var r := FlatStore(c, f, dev, width, src, v); r.Ran? && r.fault != 0
    ensures Translate(Words32(f), Ctl(c), v, true, false) == Fault(FlatStore(c, f, dev, width, src, v).fault)
  {
  }

  lemma FlatInsnExplained(c: Cpu, f: Flat, dev: Devices, insn: Insn)
    requires MemoryInsn(insn)
    requires var r := FlatMemoryInsn(c, f, dev, insn); r.Ran? && r.fault != 0
    ensures Explained(f, Ctl(c), Some(insn), FaultSite(c, Some(insn)), FlatMemoryInsn(c, f, dev, insn).fault)
  {
    var fault := FlatMemoryInsn(c, f, dev, insn).fault;
    var write := false;
    match insn {
      case Load(width, rd, addr) =>
        EffectiveIs(c.gr, addr, width);
        FlatLoadExplained(c, f, dev, width, rd, OperandAddress(c.gr, addr, width));
      case Pop(rd) => FlatLoadExplained(c, f, dev, FullWord, rd, c.spr);
      case Store(width, rs, addr) =>
        EffectiveIs(c.gr, addr, width);
        FlatStoreExplained(c, f, dev, width, c.gr[rs], OperandAddress(c.gr, addr, width));
        write := true;
      case Tas(rd, addr) =>
        EffectiveIs(c.gr, addr, FullWord);
        write := FlatTasExplained(c, f, dev, rd, OperandAddress(c.gr, addr, FullWord));
      case Push(src) =>
        FlatStoreExplained(c.(spr := Wrap(c.spr - 4)), f, dev, FullWord, SourceValue(c, src), Wrap(c.spr - 4));
        write := true;
      case PushPc =>
        FlatStoreExplained(c.(spr := Wrap(c.spr - 4)), f, dev, FullWord, c.pc, Wrap(c.spr - 4));
        write := true;
    }
    assert AccessKind(Some(insn), write, false);
    assert Translate(Words32(f), Ctl(c), FaultSite(c, Some(insn)), write, false) == Fault(fault);
  }

  lemma FlatTasExplained(c: Cpu, f: Flat, dev: Devices, rd: Reg, v: word) returns (write: bool)
    requires var r := FlatTas(c, f, dev, rd, v); r.Ran? && r.fault != 0
    ensures Translate(Words32(f), Ctl(c), v, write, false) == Fault(FlatTas(c, f, dev, rd, v).fault)
  {
    var l := FlatLoad(c, f, dev, FullWord, rd, v);
    write := l.fault == 0;
    if l.fault != 0 {
      FlatLoadExplained(c, f, dev, FullWord, rd, v);
    } else {
      FlatStoreExplained(l.cpu, f, dev, FullWord, 1, v);
    }
  }

  /** On the simulator with caches and TLB: a fault leaves in FI0R an address for which the tables the
      byte memory holds give just this fault. */
  lemma FaultExplained(m: Machine, f: Flat, p: Paging, dev: Devices, decode: word -> Insn, next: Directory, m1: Machine)
    requires Related(m.mem, f, p) && IterationAllowed(m.cpu, f, p, dev, decode, next)
    requires Faults(m, dev, decode) && Iterate(m, dev, decode) == Running(m1)
    ensures Explained(f, Ctl(ChooseStack(m.cpu)), InsnAt(m, dev, decode), m1.cpu.fi0r, BodyOf(m, dev, decode).fault)
  {
    var c := ChooseStack(m.cpu);
    var s := m.(cpu := c);
    FaultRegisters(m, dev, decode, m1);
    FetchSame(s, f, p, dev, decode);
    BodySame(s, f, p, dev, decode, next);
    FaultFrame(m, dev, decode);
    var insn := InsnAt(m, dev, decode);
    if insn.Some? {
      FlatInsnExplained(c, f, dev, insn.value);
    } else {
      FetchExplained(c, f, dev, decode, BodyOf(m, dev, decode).fault);
    }
  }

  lemma FetchExplained(c: Cpu, f: Flat, dev: Devices, decode: word -> Insn, fault: Vector)
    requires FlatInsn(c, f, dev, decode).None? && fault != 0
    requires var r := FlatBody(c, f, dev, decode); r.Ran? && r.fault == fault
    ensures Explained(f, Ctl(c), None, c.pc, fault)
  {
    assert AccessKind(None, false, true);
    assert Translate(Words32(f), Ctl(c), c.pc, false, true) == Fault(fault);
  }
}
