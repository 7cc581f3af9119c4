/** The simulator's global state updated in place by `exec`, `interrupt_entry` and the instructions,
    proved against the value-level processor of Cpu. */
module Simulator {
  import opened Words
  import opened Cache
  import opened Mmu
  import opened LoadStore
  import opened MemorySystem
  import opened Flags
  import opened Cpu
  import opened Interrupts

  class Processor {
    const gr: array<word>
    const idtCache: array<IdtEntry>
    const mem: System
    const testsuite: bool

    var pcr: word
    var nextPcr: word
    var spr: word
    var kspr: word
    var uspr: word
    var flagr: Flags
    var prevFlagr: Flags
    var psr: word
    var pdtr: word
    var kpdtr: word
    var idtr: word
    var tidr: word

    var pflagr: Flags
    var ppcr: word
    var ppsr: word
    var ppdtr: word
    var ptidr: word

    var interruptNmi: Option<Vector>
    var cmod: word
    var execFinish: bool

    /** `memory_init`, then the register setup of `exec`; registers it does not set are C's zeroed globals. */
    constructor (entry: word, testsuiteMode: bool)
      ensures Valid() && fresh(Footprint()) && fresh(mem.vm)
      ensures CpuView() == Reset(entry, testsuiteMode)
      ensures Refinement.Initial(View().mem) && mem.tick == 0 && mem.fault.num == 0
    {
      gr := new word[32](_ => 0);
      idtCache := new IdtEntry[128](_ => IdtEntry(0, 0));
      mem := new System();
      testsuite := testsuiteMode;
      pcr, nextPcr, spr, kspr, uspr := entry, NO_BRANCH, 0, RAM_LIMIT, 0;
      flagr, prevFlagr := FlagsOf(0x8000_0000), FlagsOf(0x8000_0000);
      psr, pdtr, kpdtr, idtr, tidr := 0, 0, 0, 0, 0;
      pflagr, ppcr, ppsr, ppdtr, ptidr := NO_FLAGS, 0, 0, 0, 0;
      interruptNmi, cmod, execFinish := None, 0, false;
    }

    ghost function Footprint(): set<object> {
      {this, gr, idtCache, mem, mem.vm.pages, mem.icache, mem.dcache, mem.tlb}
    }

    ghost predicate Valid()
    {
      && gr.Length == 32 && idtCache.Length == 128 && mem.Valid()
      && gr as object !in {idtCache, mem.vm.pages, mem.icache, mem.dcache, mem.tlb}
      && idtCache as object !in {mem.vm.pages, mem.icache, mem.dcache, mem.tlb}
    }

    ghost function CpuView(): Cpu
      requires Valid()
      reads this, gr, idtCache, mem, mem.vm
    {
      Cpu(gr[..], pcr, nextPcr, spr, kspr, uspr, flagr, prevFlagr, psr, pdtr, kpdtr, idtr, tidr,
          mem.fault.fi0r, mem.fault.fi1r, Saved(pflagr, ppcr, ppsr, ppdtr, ptidr),
          interruptNmi, idtCache[..], cmod, execFinish, testsuite)
    }

    /** The value of the whole simulated machine. */
    ghost function View(): Machine
      requires Valid()
      reads this, gr, idtCache, mem, mem.vm, mem.vm.pages, mem.icache, mem.dcache, mem.tlb
    {
      Machine(CpuView(), mem.View())
    }

    // -------------------------------------------------------------- interrupt.c

    /** `interrupt_entry`, which calls itself for an invalid vector. */
    method InterruptEntry(num: Vector)
      requires Valid()
      modifies this
      ensures CpuView() == Enter(old(CpuView()), num)
      decreases Rank(num)
    {
      if idtCache[num].flags % 2 != 1 {
        if num == DOUBLE_FAULT {
          execFinish := true;
        } else if num == INVALID_IDT {
          InterruptEntry(DOUBLE_FAULT);
        } else {
          InterruptEntry(INVALID_IDT);
        }
        return;
      }
      SaveContext();
      psr := KernelEntry(psr);
      pcr := idtCache[num].handler;
    }

    method SaveContext()
      requires Valid()
      modifies `pflagr, `ppcr, `ppsr, `ppdtr, `ptidr
      ensures CpuView() == old(CpuView()).(saved := Context(old(CpuView())))
    {
      SaveFlow();
      SaveMode();
    }

    method SaveFlow()
      requires Valid()
      modifies `pflagr, `ppcr
      ensures var c := old(CpuView()); CpuView() == c.(saved := c.saved.(flags := c.flags, pc := c.pc))
    {
      pflagr, ppcr := flagr, pcr;
    }

    method SaveMode()
      requires Valid()
      modifies `ppsr, `ppdtr, `ptidr
      ensures var c := old(CpuView());
        CpuView() == c.(saved := c.saved.(psr := c.psr, pdtr := c.pdtr, tidr := c.tidr))
    {
      ppsr, ppdtr, ptidr := psr, pdtr, tidr;
    }

    /** `interrupt_exit`; false where it exits with an error. */
    method InterruptExit() returns (ok: bool)
      requires Valid()
      modifies this, mem.tlb
      ensures ok == ExecReturn(old(View())).Next?
      ensures ok ==> Next(View(), 0) == ExecReturn(old(View()))
    {
      if ppdtr != pdtr || MmuMode(ppsr) != MmuMode(psr) {
        mem.FlushTlb();
      }
      RestoreContext();
      ok := PageSizeOk(psr);
    }

    method RestoreContext()
      requires Valid()
      modifies `flagr, `nextPcr, `psr, `pdtr, `tidr
      ensures var c := old(CpuView());
        CpuView() == c.(flags := c.saved.flags, nextPc := c.saved.pc, psr := c.saved.psr,
                        pdtr := c.saved.pdtr, tidr := c.saved.tidr)
    {
      RestoreFlow();
      RestoreMode();
    }

    method RestoreFlow()
      requires Valid()
      modifies `flagr, `nextPcr
      ensures var c := old(CpuView()); CpuView() == c.(flags := c.saved.flags, nextPc := c.saved.pc)
    {
      flagr, nextPcr := pflagr, ppcr;
    }

    method RestoreMode()
      requires Valid()
      modifies `psr, `pdtr, `tidr
      ensures var c := old(CpuView());
        CpuView() == c.(psr := c.saved.psr, pdtr := c.saved.pdtr, tidr := c.saved.tidr)
    {
      psr, pdtr, tidr := ppsr, ppdtr, ptidr;
    }

    /** `interrupt_dispatch_nonmask`. */
    method DispatchNonmask(num: Vector)
      requires Valid()
      modifies `interruptNmi, `execFinish
      ensures CpuView() == RaiseNmi(old(CpuView()), num)
    {
      if testsuite && num == FIRST_SOFTWARE {
        execFinish := true;
        return;
      }
      interruptNmi := Some(if idtCache[num].flags % 2 == 1 then num else INVALID_IDT);
    }

    /** `interrupt_idt_store`; false where the table does not lie in one page of RAM. */
    method IdtStore() returns (ok: bool)
      requires Valid()
      modifies idtCache, mem.vm.pages
      ensures ok == ExecLoadIdt(old(View())).Next?
      ensures ok ==> Next(View(), 0) == ExecLoadIdt(old(View()))
    {
      if idtr % 4 != 0 || idtr % 0x4000 + 0x400 > 0x4000 || idtr >= RAM_LIMIT {
        return false;
      }
      IdtInRam(idtr);
      var i := 0;
      ghost var ram, k := mem.vm.Ram(), idtr / 4;
      while i < 128
        invariant i <= 128 && mem.vm.Ram() == ram
        invariant forall n :: 0 <= n < i ==> idtCache[n] == IdtEntry(ram[k + 2 * n], ram[k + 2 * n + 1])
      {
        EntryAddress(idtr, i);
        var flags := mem.vm.ReadWord(idtr + 8 * i);
        var handler := mem.vm.ReadWord(idtr + 8 * i + 4);
        assert flags == ram[k + 2 * i] && handler == ram[k + 2 * i + 1];
        idtCache[i] := IdtEntry(flags, handler);
        i := i + 1;
      }
      assert idtCache[..] == IdtAt(ram, k);
      ok := true;
    }

    // -------------------------------------------------------------- simulator.c

    /** `interrupt_dispatcher`. */
    method InterruptDispatcher(dev: Devices)
      requires Valid()
      modifies this
      ensures CpuView() == Dispatch(old(CpuView()), dev)
    {
      if interruptNmi.Some? {
        InterruptEntry(interruptNmi.value);
        interruptNmi := None;
      }
      if !InterruptsEnabled(psr) {
        return;
      }
      if IsEnabled(idtCache[..], UTIM64) && dev.utim64 {
        InterruptEntry(UTIM64);
      } else if IsEnabled(idtCache[..], KMC) && dev.kmc {
        InterruptEntry(KMC);
      } else if IsEnabled(idtCache[..], DPS_LS) && dev.sci {
        InterruptEntry(DPS_LS);
      }
    }

    // -------------------------------------------------------------- instructions.h

    /** The state and `memory_is_fault` are what `e` says; `ok` is false where the simulation ends. */
    ghost predicate Shows(ok: bool, e: Executed)
      requires Valid()
      reads this, gr, idtCache, mem, mem.vm, mem.vm.pages, mem.icache, mem.dcache, mem.tlb
    {
      ok == e.Next? && (ok ==> View() == e.m && mem.fault.num == e.fault)
    }

    function Control(): Mmu.Control
      reads this
    {
      Mmu.Control(psr, pdtr, kpdtr)
    }

    /** `i_ld8`, `i_ld16`, `i_ld32` after the address is formed. */
    method LoadRegister(dev: Devices, width: Width, rd: Reg, vaddr: word) returns (ok: bool)
      requires Valid() && mem.fault.num == 0
      modifies gr, mem, mem.vm.pages, mem.dcache, mem.tlb
      ensures Shows(ok, ExecLoad(old(View()), dev, width, rd, vaddr))
    {
      var reply := mem.Ld(Control(), width, vaddr);
      match reply {
        case Data(v) =>
          gr[rd] := v;
          ok := true;
        case Faulted(_) =>
          ok := true;
        case Device(p) =>
          var v := dev.bus(p);
          if v.Some? {
            gr[rd] := Extract(v.value, vaddr, width);
          }
          ok := v.Some?;
        case _ =>
          ok := false;
      }
    }

    /** `i_st8`, `i_st16`, `i_st32` after the address is formed. */
    method StoreValue(dev: Devices, width: Width, src: word, vaddr: word) returns (ok: bool)
      requires Valid() && mem.fault.num == 0
      modifies mem, mem.vm.pages, mem.icache, mem.dcache, mem.tlb
      ensures Shows(ok, ExecStore(old(View()), dev, width, src, vaddr))
    {
      if width == FullWord && vaddr % 4 != 0 {
        return false;
      }
      var reply := mem.St(Control(), width, vaddr, src);
      match reply {
        case Done => ok := true;
        case Faulted(_) => ok := true;
        case Device(p) => ok := dev.bus(p).Some?;
        case _ => ok := false;
      }
    }

    /** `i_tas`. */
    method TestAndSet(dev: Devices, rd: Reg, vaddr: word) returns (ok: bool)
      requires Valid() && mem.fault.num == 0
      modifies gr, mem, mem.vm.pages, mem.icache, mem.dcache, mem.tlb
      ensures Shows(ok, ExecTas(old(View()), dev, rd, vaddr))
    {
      ok := LoadRegister(dev, FullWord, rd, vaddr);
      if ok && mem.fault.num == 0 && gr[rd] == 0 {
        ok := StoreValue(dev, FullWord, 1, vaddr);
      }
    }

    /** `i_push` and `i_pushpc`: SPR is lowered before the store. */
    method PushValue(dev: Devices, src: word) returns (ok: bool)
      requires Valid() && mem.fault.num == 0
      modifies `spr, mem, mem.vm.pages, mem.icache, mem.dcache, mem.tlb
      ensures var m, sp := old(View()), Wrap(old(spr) - 4);
        Shows(ok, ExecStore(m.(cpu := m.cpu.(spr := sp)), dev, FullWord, src, sp))
    {
      spr := Wrap(spr - 4);
      ok := StoreValue(dev, FullWord, src, spr);
    }

    /** `i_pop`: SPR is raised only if the load did not fault. */
    method PopRegister(dev: Devices, rd: Reg) returns (ok: bool)
      requires Valid() && mem.fault.num == 0
      modifies gr, `spr, mem, mem.vm.pages, mem.dcache, mem.tlb
      ensures Shows(ok, ExecPop(old(View()), dev, rd))
    {
      ok := LoadRegister(dev, FullWord, rd, spr);
      if ok && mem.fault.num == 0 {
        SetSp(Wrap(spr + 4));
      }
    }

    method SetSp(sp: word)
      requires Valid()
      modifies `spr
      ensures View() == old(View()).(cpu := old(CpuView()).(spr := sp))
    {
      spr := sp;
    }

    /** The value of a register-or-immediate operand. */
    method Operand(src: Source) returns (v: word)
      requires Valid()
      ensures v == SourceValue(CpuView(), src)
    {
      match src {
        case Constant(n) => v := n;
        case FromReg(r) => v := gr[r];
      }
    }

    /** `i_add`, `i_sub`, `i_cmp`, `i_addc`, `i_mull`, `i_mulh`, `i_umulh`. */
    method Arithmetic(op: AluOp, rd: Reg, src: Source)
      requires Valid()
      modifies gr, `flagr
      ensures CpuView() == ExecAlu(old(CpuView()), op, rd, src)
    {
      var a: word := gr[rd];
      var b: word := Operand(src);
      match op {
        case AddOp =>
          gr[rd] := Wrap(a + b);
          flagr := MakeFlagsAdd(gr[rd], a, b);
        case SubOp =>
          gr[rd] := Wrap(a - b);
          flagr := MakeFlagsSub(gr[rd], a, b);
        case CmpOp =>
          flagr := MakeFlagsSub(Wrap(a - b), a, b);
        case AddcOp =>
          flagr := MakeFlagsAdd(Wrap(a + b), a, b);
          gr[rd] := if flagr.carry then 1 else 0;
        case MullOp =>
          gr[rd] := Wrap(Signed(a) * Signed(b));
          flagr := NO_FLAGS;
        case MulhOp =>
          gr[rd] := Wrap(Signed(a) * Signed(b) / WORD_LIMIT);
          flagr := NO_FLAGS;
        case UmulhOp =>
          gr[rd] := Umulh(a, b);
          flagr := NO_FLAGS;
      }
    }

    /** The system-register writes. */
    method WriteRegister(reg: SystemReg, v: word) returns (ok: bool)
      requires Valid()
      modifies this, mem.tlb
      ensures ok == ExecWriteSystem(old(View()), reg, v).Next?
      ensures ok ==> Next(View(), 0) == ExecWriteSystem(old(View()), reg, v)
    {
      ok := true;
      match reg {
        case Sp => spr := v;
        case Ie => psr := SetInterrupts(psr, v % 2 == 1);
        case Usp => uspr := v;
        case Idtr => idtr := v;
        case Pdt | Kpdt | Mmu | Ps => ok := WriteTranslation(reg, v);
        case _ => ok := WriteSaved(reg, v);
      }
    }

    /** `srppsw`, `srppcw`, `srppdtw`, `srptidw` and `srpflagw`. */
    method WriteSaved(reg: SystemReg, v: word) returns (ok: bool)
      requires Valid() && (reg.Pps? || reg.Ppc? || reg.Ppdt? || reg.Ptid? || reg.Pflag?)
      modifies `ppsr, `ppcr, `ppdtr, `ptidr, `pflagr
      ensures ok == ExecWriteSystem(old(View()), reg, v).Next?
      ensures ok ==> Next(View(), 0) == ExecWriteSystem(old(View()), reg, v)
    {
      ok := true;
      match reg {
        case Pps => ppsr := v;
        case Ppc =>
          ppcr := v;
          ok := v % 4 == 0;
        case Ppdt => ppdtr := v;
        case Ptid => ptidr := v;
        case Pflag => pflagr := FlagsOf(v);
      }
    }

    /** The writes that flush the TLB: `srpdtw`, `srkpdtw`, `srmmuw` and, on a change of mode, `srpsw`. */
    method WriteTranslation(reg: SystemReg, v: word) returns (ok: bool)
      requires Valid() && (reg.Pdt? || reg.Kpdt? || reg.Mmu? || reg.Ps?)
      modifies `pdtr, `kpdtr, `psr, mem.tlb
      ensures ok == ExecWriteSystem(old(View()), reg, v).Next?
      ensures ok ==> Next(View(), 0) == ExecWriteSystem(old(View()), reg, v)
    {
      if !reg.Ps? || MmuMode(v) != MmuMode(psr) || Cmod(v) != Cmod(psr) {
        mem.FlushTlb();
      }
      match reg {
        case Pdt => pdtr := v;
        case Kpdt => kpdtr := v;
        case Mmu => psr := SetMmuMode(psr, v);
        case Ps => psr := v;
      }
      ok := reg.Ps? ==> PageSizeOk(psr);
    }

    /** `i_bur`, `i_br`, `i_b`; false for stale flags under a condition. */
    method BranchIf(relative: bool, condition: nat, src: Source) returns (ok: bool)
      requires Valid()
      modifies `nextPcr
      ensures ok == ExecBranch(old(View()), relative, condition, src).Next?
      ensures ok ==> Next(View(), 0) == ExecBranch(old(View()), relative, condition, src)
    {
      if condition >= 16 || (prevFlagr.invalid && condition != 0) {
        return false;
      }
      if Holds(flagr, condition) {
        var v := Operand(src);
        nextPcr := if relative then Wrap(pcr + v) else v;
      }
      ok := true;
    }

    /** `insn_dispatch`. */
    method ExecuteInsn(dev: Devices, insn: Insn) returns (ok: bool)
      requires Valid() && mem.fault.num == 0
      modifies this, gr, idtCache, mem, mem.vm.pages, mem.icache, mem.dcache, mem.tlb
      ensures Shows(ok, Execute(old(View()), dev, insn))
    {
      if MemoryInsn(insn) {
        ok := ExecuteMemory(dev, insn);
      } else {
        ok := ExecuteOther(dev, insn);
      }
    }

    method ExecuteMemory(dev: Devices, insn: Insn) returns (ok: bool)
      requires Valid() && mem.fault.num == 0 && MemoryInsn(insn)
      modifies this, gr, mem, mem.vm.pages, mem.icache, mem.dcache, mem.tlb
      ensures Shows(ok, Execute(old(View()), dev, insn))
    {
      match insn {
        case Load(width, rd, addr) =>
          var a := EffectiveAddress(gr[..], addr, width);
          if a.None? { return false; }
          ok := LoadRegister(dev, width, rd, a.value);
        case Store(width, rs, addr) =>
          var a := EffectiveAddress(gr[..], addr, width);
          if a.None? { return false; }
          ok := StoreValue(dev, width, gr[rs], a.value);
        case Push(src) =>
          var v := Operand(src);
          ok := PushValue(dev, v);
        case PushPc => ok := PushValue(dev, pcr);
        case Pop(rd) => ok := PopRegister(dev, rd);
        case Tas(rd, addr) =>
          var a := EffectiveAddress(gr[..], addr, FullWord);
          if a.None? { return false; }
          ok := TestAndSet(dev, rd, a.value);
      }
    }

    method ExecuteOther(dev: Devices, insn: Insn) returns (ok: bool)
      requires Valid() && mem.fault.num == 0 && !MemoryInsn(insn)
      modifies this, gr, idtCache, mem.vm.pages, mem.tlb
      ensures Shows(ok, Execute(old(View()), dev, insn))
    {
      ok := true;
      match insn {
        case Alu(op, rd, src) => Arithmetic(op, rd, src);
        case Divide(rd, src, quotient) =>
          var b := Operand(src);
          DivideRegister(rd, b, quotient);
        case Branch(relative, condition, src) => ok := BranchIf(relative, condition, src);
        case ReturnFromInterrupt => ok := InterruptExit();
        case WriteSystem(reg, src) =>
          var v := Operand(src);
          ok := WriteRegister(reg, v);
        case AdjustSp(words) => spr := Wrap(spr + 4 * words);
        case SoftwareInterrupt(num) =>
          if 64 <= num < 128 {
            DispatchNonmask(num);
          } else {
            ok := false;
          }
        case LoadIdt => ok := IdtStore();
        case Compute(rd, value, newFlags) =>
          ok := ComputeRegister(insn);
        case Halt => ok := false;
      }
    }

    /** The divisions and remainders; a zero divisor raises the divide error. */
    method DivideRegister(rd: Reg, b: word, quotient: (word, word) -> word)
      requires Valid()
      modifies gr, `flagr, `interruptNmi, `execFinish
      ensures var c := old(CpuView());
        CpuView() == if b == 0 then RaiseNmi(c, DIVIDE_ERROR)
                     else c.(gr := c.gr[rd := quotient(c.gr[rd], b)], flags := NO_FLAGS)
    {
      if b == 0 {
        DispatchNonmask(DIVIDE_ERROR);
      } else {
        gr[rd] := quotient(gr[rd], b);
        flagr := NO_FLAGS;
      }
    }

    /** An instruction that assigns one general register and FLAGR from the register state. */
    method ComputeRegister(insn: Insn) returns (ok: bool)
      requires Valid() && insn.Compute?
      modifies gr, `flagr
      ensures ok
      ensures var c := old(CpuView());
        CpuView() == c.(gr := c.gr[insn.rd := insn.value(c)], flags := insn.newFlags(c))
    {
      var c := Cpu(gr[..], pcr, nextPcr, spr, kspr, uspr, flagr, prevFlagr, psr, pdtr, kpdtr, idtr, tidr,
                   mem.fault.fi0r, mem.fault.fi1r, Saved(pflagr, ppcr, ppsr, ppdtr, ptidr),
                   interruptNmi, idtCache[..], cmod, execFinish, testsuite);
      gr[insn.rd] := insn.value(c);
      flagr := insn.newFlags(c);
      ok := true;
    }

    // -------------------------------------------------------------- exec

    /** Fetch and execute; a fetch fault skips the execution. */
    method FetchAndExecute(dev: Devices, decode: word -> Insn) returns (ok: bool)
      requires Valid() && mem.fault.num == 0
      modifies this, gr, idtCache, mem, mem.vm.pages, mem.icache, mem.dcache, mem.tlb
      ensures Shows(ok, Body(old(View()), dev, decode))
    {
      var reply := mem.FetchInstruction(Control(), pcr);
      match reply {
        case Data(w) => ok := ExecuteInsn(dev, decode(w));
        case Faulted(_) => ok := true;
        case Device(p) =>
          var w := dev.bus(p);
          if w.None? { return false; }
          ok := ExecuteInsn(dev, decode(w.value));
        case _ => ok := false;
      }
    }

    /** The stack-pointer choice at the top of the loop. */
    method SelectStack()
      requires Valid()
      modifies `spr, `cmod
      ensures CpuView() == ChooseStack(old(CpuView()))
    {
      if cmod != Cmod(psr) {
        spr := if cmod == 0 then uspr else kspr;
      }
      cmod := Cmod(psr);
    }

    /** A fault of the instruction becomes pending and the instruction is not left behind. */
    method RaiseFault()
      requires Valid()
      modifies `interruptNmi, `execFinish, `nextPcr, mem`fault
      ensures mem.fault.num == 0 && View() == old(View()).(cpu := TakeFault(old(CpuView()), old(mem.fault.num)))
    {
      if mem.fault.num != 0 {
        DispatchNonmask(mem.fault.num);
        nextPcr := pcr;
        mem.fault := mem.fault.(num := 0);
      }
    }

    /** The stack pointer goes back to the bank of the mode. */
    method SaveSp()
      requires Valid()
      modifies `uspr, `kspr
      ensures View() == old(View()).(cpu := WriteBackSp(old(CpuView())))
    {
      if cmod != 0 {
        uspr := spr;
      } else {
        kspr := spr;
      }
    }

    /** The loop body after the instruction, up to the interrupt check. */
    method FinishCycle() returns (ok: bool)
      requires Valid()
      modifies `interruptNmi, `execFinish, `nextPcr, `uspr, `kspr, `pcr, mem`fault
      ensures var e := Finish(Next(old(View()), old(mem.fault.num)));
        ok == e.Running? && (ok ==> View() == e.m && mem.fault.num == 0)
    {
      RaiseFault();
      SaveSp();
      if nextPcr != NO_BRANCH {
        if nextPcr % 4 != 0 {
          return false;
        }
        pcr := nextPcr;
        nextPcr := NO_BRANCH;
      } else {
        pcr := Wrap(pcr + 4);
      }
      ok := true;
    }

    /** One iteration of the `exec` loop; false where the simulation ends with an error. */
    method Iteration(dev: Devices, decode: word -> Insn) returns (ok: bool)
      requires Valid() && mem.fault.num == 0
      modifies this, gr, idtCache, mem, mem.vm.pages, mem.icache, mem.dcache, mem.tlb
      ensures ok == Iterate(old(View()), dev, decode).Running?
      ensures ok ==> Running(View()) == Iterate(old(View()), dev, decode) && mem.fault.num == 0
    {
      SelectStack();
      ok := FetchAndExecute(dev, decode);
      if !ok { return; }
      ok := FinishCycle();
      if !ok { return; }
      InterruptDispatcher(dev);
      Age();
    }

    /** The flags of this iteration count as stale from the next one's on. */
    method Age()
      requires Valid()
      modifies `prevFlagr, `flagr
      ensures CpuView() == AgeFlags(old(CpuView()))
    {
      prevFlagr := flagr;
      flagr := flagr.(invalid := true);
    }

    /** `exec` for as many iterations as `devs` describes, or until the simulation ends. */
    method Exec(devs: seq<Devices>, decode: word -> Insn) returns (k: nat, ok: bool)
      requires Valid() && mem.fault.num == 0
      modifies this, gr, idtCache, mem, mem.vm.pages, mem.icache, mem.dcache, mem.tlb
      ensures k <= |devs| && (ok ==> Running(View()) == RunFor(old(View()), devs[..k], decode))
      ensures !ok ==> k < |devs| && RunFor(old(View()), devs[..k + 1], decode) == Ended
      ensures ok && k < |devs| ==> execFinish
    {
      k, ok := 0, true;
      ghost var start := View();
      while k < |devs| && !execFinish
        invariant k <= |devs| && ok && mem.fault.num == 0
        invariant Running(View()) == RunFor(start, devs[..k], decode)
      {
        RunForExtend(start, devs, k, decode);
        ok := Iteration(devs[k], decode);
        if !ok { return; }
        k := k + 1;
      }
    }
  }

  lemma EntryAddress(base: word, i: nat)
    requires base % 4 == 0 && base % 0x4000 + 0x400 <= 0x4000 && base < RAM_LIMIT && i < 128
    ensures base + 8 * i + 4 < RAM_LIMIT
    ensures (base + 8 * i) / 4 == base / 4 + 2 * i && (base + 8 * i + 4) / 4 == base / 4 + 2 * i + 1
  {
    IdtInRam(base);
  }

  /** A run one iteration longer. */
  lemma {:induction false} RunForExtend(m: Machine, devs: seq<Devices>, k: nat, decode: word -> Insn)
    requires k < |devs|
    ensures RunFor(m, devs[..k + 1], decode) ==
      match RunFor(m, devs[..k], decode)
      case Ended => Ended
      case Running(m') => Iterate(m', devs[k], decode)
    decreases k
  {
    if k > 0 {
      match Iterate(m, devs[0], decode)
      case Ended =>
      case Running(m1) =>
        assert devs[..k + 1][1..] == devs[1..][..k] && devs[..k][1..] == devs[1..][..k - 1];
        RunForExtend(m1, devs[1..], k - 1, decode);
    }
  }
}
