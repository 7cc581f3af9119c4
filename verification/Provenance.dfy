/** Where TLB entries come from, over whole runs of the processor. */
module Provenance {
  import opened Words
  import opened Cache
  import opened Mmu
  import opened LoadStore
  import opened Coherence
  import opened Cpu
  import opened Interrupts

  /** A translation the processor asked for, with the RAM and registers it asked under. */
  datatype Origin = Origin(ram: Ram, ctl: Control, vaddr: word, write: bool, exec: bool)

  /** Walking for `o` produces exactly the entry `e`, at index `i`. */
  predicate Made(o: Origin, e: TlbEntry, i: nat) {
    && MmuMode(o.ctl.psr) == 2 && TlbIndex(o.vaddr) == i
    && match WalkTables(o.ram, o.ctl, o.vaddr, o.write, o.exec)
       case Large(pte) => e == TlbEntry(o.vaddr, pte)
       case Small(_, pte) => e == TlbEntry(o.vaddr, SetRD(pte, o.write))
       case _ => false
  }

  /** `o` walked from one of the two roots that are now current. */
  predicate FromCurrentRoot(o: Origin, ctl: Control) {
    Root(o.ctl) == ctl.pdtr || Root(o.ctl) == ctl.kpdtr
  }

  /** The entry was made by some past translation from a root that is now current, under the MMU mode
      that is now current. */
  ghost predicate Explained(e: TlbEntry, i: nat, ctl: Control, past: seq<Origin>) {
    PteValid(e.pte) ==>
      MmuMode(ctl.psr) == 2 && exists k :: 0 <= k < |past| && Made(past[k], e, i) && FromCurrentRoot(past[k], ctl)
  }

  ghost predicate AllExplained(tlb: Tlb, ctl: Control, past: seq<Origin>) {
    forall i :: 0 <= i < 16 ==> Explained(tlb[i], i, ctl, past)
  }

  lemma ExplainedLater(tlb: Tlb, ctl: Control, ctl': Control, past: seq<Origin>, more: seq<Origin>)
    requires AllExplained(tlb, ctl, past)
    requires ctl'.pdtr == ctl.pdtr && ctl'.kpdtr == ctl.kpdtr && MmuMode(ctl'.psr) == MmuMode(ctl.psr)
    ensures AllExplained(tlb, ctl', past + more)
  {
    forall i: nat | i < 16
      ensures Explained(tlb[i], i, ctl', past + more)
    {
      assert Explained(tlb[i], i, ctl, past);
      if PteValid(tlb[i].pte) {
        var k :| 0 <= k < |past| && Made(past[k], tlb[i], i) && FromCurrentRoot(past[k], ctl);
        assert (past + more)[k] == past[k];
      }
    }
  }

  lemma FlushExplained(tlb: Tlb, ctl: Control, past: seq<Origin>)
    ensures AllExplained(TlbFlush(tlb), ctl, past)
  {
  }

  lemma TranslationExplained(ram: Ram, tlb: Tlb, ctl: Control, vaddr: word, write: bool, exec: bool, past: seq<Origin>)
    requires AllExplained(tlb, ctl, past)
    ensures AllExplained(VirtToPhys(ram, tlb, ctl, vaddr, write, exec).tlb, ctl,
                         past + [Origin(ram, ctl, vaddr, write, exec)])
  {
    var o := Origin(ram, ctl, vaddr, write, exec);
    var tlb', past' := VirtToPhys(ram, tlb, ctl, vaddr, write, exec).tlb, past + [o];
    ExplainedLater(tlb, ctl, ctl, past, [o]);
    if tlb' != tlb {
      var i0 := TlbIndex(vaddr);
      assert past'[|past|] == o && Made(o, tlb'[i0], i0);
      forall i: nat | i < 16
        ensures Explained(tlb'[i], i, ctl, past')
      {
        assert i != i0 ==> tlb'[i] == tlb[i];
        assert Explained(tlb[i], i, ctl, past');
      }
    }
  }

  // ---------------------------------------------------------------- one iteration

  function OriginOf(mem: Memory, ctl: Control, op: Op): Origin {
    Origin(mem.hier.ram, ctl, TranslatedAddress(op), op.StoreOp?, op.FetchOp?)
  }

  lemma PerformExplained(mem: Memory, ctl: Control, op: Op, past: seq<Origin>)
    requires AllExplained(mem.tlb, ctl, past)
    ensures AllExplained(Perform(mem, ctl, op).mem.tlb, ctl, past + [OriginOf(mem, ctl, op)])
  {
    TranslationExplained(mem.hier.ram, mem.tlb, ctl, TranslatedAddress(op), op.StoreOp?, op.FetchOp?, past);
    assert Perform(mem, ctl, op).mem.tlb == TranslationOf(mem, ctl, op).tlb;
  }

  /** The accesses an instruction makes, in order. */
  function Accesses(m: Machine, dev: Devices, insn: Insn): seq<Origin> {
    var c, ctl := m.cpu, Ctl(m.cpu);
    match insn
    case Load(width, _, addr) =>
      var a := EffectiveAddress(c.gr, addr, width);
      if a.None? then [] else [OriginOf(m.mem, ctl, LoadOp(width, a.value))]
    case Store(width, rs, addr) =>
      var a := EffectiveAddress(c.gr, addr, width);
      if a.None? then [] else [OriginOf(m.mem, ctl, StoreOp(width, a.value, c.gr[rs]))]
    case Push(src) => [OriginOf(m.mem, ctl, StoreOp(FullWord, Wrap(c.spr - 4), SourceValue(c, src)))]
    case PushPc => [OriginOf(m.mem, ctl, StoreOp(FullWord, Wrap(c.spr - 4), c.pc))]
    case Pop(_) => [OriginOf(m.mem, ctl, LoadOp(FullWord, c.spr))]
    case Tas(rd, addr) =>
      var a := EffectiveAddress(c.gr, addr, FullWord);
      if a.None? then [] else TasAccesses(m, dev, rd, a.value)
    case _ => []
  }

  function TasAccesses(m: Machine, dev: Devices, rd: Reg, vaddr: word): seq<Origin> {
    var l := ExecLoad(m, dev, FullWord, rd, vaddr);
    [OriginOf(m.mem, Ctl(m.cpu), LoadOp(FullWord, vaddr))]
    + (if l.Next? && l.fault == 0 && l.m.cpu.gr[rd] == 0
       then [OriginOf(l.m.mem, Ctl(l.m.cpu), StoreOp(FullWord, vaddr, 1))] else [])
  }

  lemma LoadExplained(m: Machine, dev: Devices, width: Width, rd: Reg, vaddr: word, past: seq<Origin>)
    requires AllExplained(m.mem.tlb, Ctl(m.cpu), past)
    ensures var r := ExecLoad(m, dev, width, rd, vaddr);
      r.Next? ==>
        && Ctl(r.m.cpu) == Ctl(m.cpu)
        && AllExplained(r.m.mem.tlb, Ctl(m.cpu), past + [OriginOf(m.mem, Ctl(m.cpu), LoadOp(width, vaddr))])
  {
    PerformExplained(m.mem, Ctl(m.cpu), LoadOp(width, vaddr), past);
  }

  lemma StoreExplained(m: Machine, dev: Devices, width: Width, src: word, vaddr: word, past: seq<Origin>)
    requires AllExplained(m.mem.tlb, Ctl(m.cpu), past)
    ensures var r := ExecStore(m, dev, width, src, vaddr);
      r.Next? ==>
        && Ctl(r.m.cpu) == Ctl(m.cpu)
        && AllExplained(r.m.mem.tlb, Ctl(m.cpu), past + [OriginOf(m.mem, Ctl(m.cpu), StoreOp(width, vaddr, src))])
  {
    PerformExplained(m.mem, Ctl(m.cpu), StoreOp(width, vaddr, src), past);
  }

  lemma MemoryInsnExplained(m: Machine, dev: Devices, insn: Insn, past: seq<Origin>)
    requires MemoryInsn(insn) && Execute(m, dev, insn).Next? && AllExplained(m.mem.tlb, Ctl(m.cpu), past)
    ensures AllExplained(Execute(m, dev, insn).m.mem.tlb, Ctl(m.cpu), past + Accesses(m, dev, insn))
  {
    if insn.Load? || insn.Store? {
      LoadStoreExplained(m, dev, insn, past);
    } else if insn.Tas? {
      TasInsnExplained(m, dev, insn, past);
    } else if insn.Pop? {
      PopInsnExplained(m, dev, insn, past);
    } else {
      PushInsnExplained(m, dev, insn, past);
    }
  }

  lemma PushInsnExplained(m: Machine, dev: Devices, insn: Insn, past: seq<Origin>)
    requires insn.Push? || insn.PushPc?
    requires Execute(m, dev, insn).Next? && AllExplained(m.mem.tlb, Ctl(m.cpu), past)
    ensures AllExplained(Execute(m, dev, insn).m.mem.tlb, Ctl(m.cpu), past + Accesses(m, dev, insn))
  {
    PushExplained(m, dev, if insn.Push? then SourceValue(m.cpu, insn.src) else m.cpu.pc, past);
  }

  lemma PopInsnExplained(m: Machine, dev: Devices, insn: Insn, past: seq<Origin>)
    requires insn.Pop? && Execute(m, dev, insn).Next? && AllExplained(m.mem.tlb, Ctl(m.cpu), past)
    ensures AllExplained(Execute(m, dev, insn).m.mem.tlb, Ctl(m.cpu), past + Accesses(m, dev, insn))
  {
    LoadExplained(m, dev, FullWord, insn.rd, m.cpu.spr, past);
  }

  lemma TasInsnExplained(m: Machine, dev: Devices, insn: Insn, past: seq<Origin>)
    requires insn.Tas? && Execute(m, dev, insn).Next? && AllExplained(m.mem.tlb, Ctl(m.cpu), past)
    ensures AllExplained(Execute(m, dev, insn).m.mem.tlb, Ctl(m.cpu), past + Accesses(m, dev, insn))
  {
    TasExplained(m, dev, insn.rd, EffectiveAddress(m.cpu.gr, insn.addr, FullWord).value, past);
  }

  lemma LoadStoreExplained(m: Machine, dev: Devices, insn: Insn, past: seq<Origin>)
    requires (insn.Load? || insn.Store?) && Execute(m, dev, insn).Next? && AllExplained(m.mem.tlb, Ctl(m.cpu), past)
    ensures AllExplained(Execute(m, dev, insn).m.mem.tlb, Ctl(m.cpu), past + Accesses(m, dev, insn))
  {
    var a := EffectiveAddress(m.cpu.gr, insn.addr, insn.width).value;
    match insn
    case Load(width, rd, _) => LoadExplained(m, dev, width, rd, a, past);
    case Store(width, rs, _) => StoreExplained(m, dev, width, m.cpu.gr[rs], a, past);
  }

  lemma PushExplained(m: Machine, dev: Devices, src: word, past: seq<Origin>)
    requires AllExplained(m.mem.tlb, Ctl(m.cpu), past)
    ensures var sp := Wrap(m.cpu.spr - 4);
      var r := ExecStore(m.(cpu := m.cpu.(spr := sp)), dev, FullWord, src, sp);
      r.Next? ==>
        AllExplained(r.m.mem.tlb, Ctl(m.cpu), past + [OriginOf(m.mem, Ctl(m.cpu), StoreOp(FullWord, sp, src))])
  {
    var sp := Wrap(m.cpu.spr - 4);
    StoreExplained(m.(cpu := m.cpu.(spr := sp)), dev, FullWord, src, sp, past);
  }

  lemma TasExplained(m: Machine, dev: Devices, rd: Reg, vaddr: word, past: seq<Origin>)
    requires ExecTas(m, dev, rd, vaddr).Next? && AllExplained(m.mem.tlb, Ctl(m.cpu), past)
    ensures AllExplained(ExecTas(m, dev, rd, vaddr).m.mem.tlb, Ctl(m.cpu), past + TasAccesses(m, dev, rd, vaddr))
  {
    var l, first := ExecLoad(m, dev, FullWord, rd, vaddr), [OriginOf(m.mem, Ctl(m.cpu), LoadOp(FullWord, vaddr))];
    LoadExplained(m, dev, FullWord, rd, vaddr, past);
    if l.Next? && l.fault == 0 && l.m.cpu.gr[rd] == 0 {
      StoreExplained(l.m, dev, FullWord, 1, vaddr, past + first);
      var second := [OriginOf(l.m.mem, Ctl(l.m.cpu), StoreOp(FullWord, vaddr, 1))];
      assert past + first + second == past + (first + second);
    } else {
      assert past + first == past + (first + []);
    }
  }

  /** Writing PDTR, KPDTR, the MMU mode or PSR, and returning from an interrupt, either flush or leave
      both roots and the MMU mode as they were. */
  lemma OtherInsnExplained(m: Machine, dev: Devices, insn: Insn, past: seq<Origin>)
    requires !MemoryInsn(insn) && Execute(m, dev, insn).Next? && AllExplained(m.mem.tlb, Ctl(m.cpu), past)
    ensures AllExplained(Execute(m, dev, insn).m.mem.tlb, Ctl(Execute(m, dev, insn).m.cpu), past)
  {
    var r := Execute(m, dev, insn).m;
    assert past + [] == past;
    if r.mem.tlb == m.mem.tlb && Ctl(r.cpu) == Ctl(m.cpu) {
    } else if r.mem == Flush(m.mem) {
      FlushExplained(m.mem.tlb, Ctl(r.cpu), past);
    } else {
      if insn.WriteSystem? && insn.reg.Ie? {
        SetInterruptsMode(m.cpu.psr, SourceValue(m.cpu, insn.src) % 2 == 1);
      }
      ExplainedLater(m.mem.tlb, Ctl(m.cpu), Ctl(r.cpu), past, []);
    }
  }

  lemma SetInterruptsMode(psr: word, on: bool)
    ensures MmuMode(SetInterrupts(psr, on)) == MmuMode(psr)
  {
    PsrSplit(psr);
    PsrFields(SetInterrupts(psr, on), psr % 4, if on then 1 else 0, psr / 8 % 4, psr / 0x20 % 4, psr / 0x80);
  }

  /** The translations one iteration asks for: the fetch, then the instruction's accesses. */
  function Requests(m: Machine, dev: Devices, decode: word -> Insn): seq<Origin> {
    var m1 := m.(cpu := ChooseStack(m.cpu));
    var f := FetchWord(m1, dev);
    [OriginOf(m.mem, Ctl(m.cpu), FetchOp(m.cpu.pc))]
    + (if f.Fetched? then Accesses(m1.(mem := f.mem), dev, decode(f.w)) else [])
  }

  lemma BodyExplained(m: Machine, dev: Devices, decode: word -> Insn, past: seq<Origin>)
    requires AllExplained(m.mem.tlb, Ctl(m.cpu), past)
    requires var m1 := m.(cpu := ChooseStack(m.cpu)); Body(m1, dev, decode).Next?
    ensures var r := Body(m.(cpu := ChooseStack(m.cpu)), dev, decode).m;
      AllExplained(r.mem.tlb, Ctl(r.cpu), past + Requests(m, dev, decode))
  {
    var m1 := m.(cpu := ChooseStack(m.cpu));
    var f, first := FetchWord(m1, dev), [OriginOf(m.mem, Ctl(m.cpu), FetchOp(m.cpu.pc))];
    PerformExplained(m.mem, Ctl(m.cpu), FetchOp(m.cpu.pc), past);
    if f.Fetched? {
      var m2, insn := m1.(mem := f.mem), decode(f.w);
      assert past + first + Accesses(m2, dev, insn) == past + Requests(m, dev, decode);
      if MemoryInsn(insn) {
        MemoryInsnExplained(m2, dev, insn, past + first);
        MemoryInsnFrame(m2, dev, insn);
      } else {
        OtherInsnExplained(m2, dev, insn, past + first);
        assert past + first + [] == past + first;
      }
    } else {
      assert past + first == past + Requests(m, dev, decode);
    }
  }

  lemma DispatchKeepsMode(cpu: Cpu, dev: Devices)
    ensures var c := Dispatch(cpu, dev);
      c.pdtr == cpu.pdtr && c.kpdtr == cpu.kpdtr && MmuMode(c.psr) == MmuMode(cpu.psr)
  {
    DispatchOnce(cpu, dev);
    KernelEntryFields(cpu.psr);
  }

  lemma IterationExplained(m: Machine, dev: Devices, decode: word -> Insn, past: seq<Origin>)
    requires AllExplained(m.mem.tlb, Ctl(m.cpu), past) && Iterate(m, dev, decode).Running?
    ensures var r := Iterate(m, dev, decode).m;
      AllExplained(r.mem.tlb, Ctl(r.cpu), past + Requests(m, dev, decode))
  {
    var past' := past + Requests(m, dev, decode);
    var b := Body(m.(cpu := ChooseStack(m.cpu)), dev, decode);
    BodyExplained(m, dev, decode, past);
    var c := Cycle(m, dev, decode).m;
    FinishKeepsControl(b);
    DispatchKeepsMode(c.cpu, dev);
    var r := Iterate(m, dev, decode).m;
    ExplainedLater(c.mem.tlb, Ctl(c.cpu), Ctl(r.cpu), past', []);
    assert past' + [] == past';
  }

  lemma FinishKeepsControl(e: Executed)
    requires e.Next? && Finish(e).Running?
    ensures Finish(e).m.mem == e.m.mem && Ctl(Finish(e).m.cpu) == Ctl(e.m.cpu)
  {
  }

  // ---------------------------------------------------------------- whole runs

  /** All the translations a run asks for, in order. */
  function RunRequests(m: Machine, devs: seq<Devices>, decode: word -> Insn): seq<Origin>
    decreases |devs|
  {
    if |devs| == 0 then []
    else
      Requests(m, devs[0], decode)
      + (match Iterate(m, devs[0], decode)
         case Ended => []
         case Running(m1) => RunRequests(m1, devs[1..], decode))
  }

  lemma {:induction false} RunExplained(m: Machine, devs: seq<Devices>, decode: word -> Insn, past: seq<Origin>)
    requires AllExplained(m.mem.tlb, Ctl(m.cpu), past) && RunFor(m, devs, decode).Running?
    ensures var r := RunFor(m, devs, decode).m;
      AllExplained(r.mem.tlb, Ctl(r.cpu), past + RunRequests(m, devs, decode))
    decreases |devs|
  {
    if |devs| == 0 {
      assert past + RunRequests(m, devs, decode) == past;
    } else {
      var m1, now := Iterate(m, devs[0], decode).m, Requests(m, devs[0], decode);
      IterationExplained(m, devs[0], decode, past);
      RunExplained(m1, devs[1..], decode, past + now);
      assert past + now + RunRequests(m1, devs[1..], decode) == past + RunRequests(m, devs, decode);
    }
  }

  /** After any run from a flushed TLB, whatever instructions, mode switches, interrupts and returns it
      contains, each valid TLB entry was made by a translation of that run, sits at its own index, and
      walked from the current PDTR or the current KPDTR under the current MMU mode. */
  lemma {:induction false} TlbProvenance(m: Machine, devs: seq<Devices>, decode: word -> Insn)
    requires (forall k :: 0 <= k < 16 ==> !PteValid(m.mem.tlb[k].pte)) && RunFor(m, devs, decode).Running?
    ensures var r := RunFor(m, devs, decode).m;
      AllExplained(r.mem.tlb, Ctl(r.cpu), RunRequests(m, devs, decode))
  {
    FlushedExplained(m.mem.tlb, Ctl(m.cpu));
    RunExplained(m, devs, decode, []);
    assert [] + RunRequests(m, devs, decode) == RunRequests(m, devs, decode);
  }

  lemma FlushedExplained(tlb: Tlb, ctl: Control)
    requires forall k :: 0 <= k < 16 ==> !PteValid(tlb[k].pte)
    ensures AllExplained(tlb, ctl, [])
  {
  }
}
