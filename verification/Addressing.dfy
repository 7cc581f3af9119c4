/** Which bytes loads, stores and `tas` reach and what they do to them, with addresses, sizes and byte
    order written out. */
module Addressing {
  import opened Words
  import opened Cache
  import opened Mmu
  import opened LoadStore
  import opened FlatMemory
  import opened Refinement
  import opened Cpu
  import opened Interrupts
  import opened FlatMachine

  function Bytes(width: Width): nat {
    match width case Byte => 1 case HalfWord => 2 case FullWord => 4
  }

  /** One more than the largest number of so many bytes. */
  function Limit(width: Width): nat {
    match width case Byte => 0x100 case HalfWord => 0x1_0000 case FullWord => 0x1_0000_0000
  }

  /** The operand is absolute, or its base register is a multiple of the operand size. */
  predicate Aligned(g: Registers, addr: Operand, width: Width) {
    addr.Absolute? || g[addr.base] % Bytes(width) == 0
  }

  /** The address of an operand: immediate times size, or base plus displacement times size. */
  function OperandAddress(g: Registers, addr: Operand, width: Width): word {
    match addr
    case Absolute(n) => n * Bytes(width)
    case Indirect(base, d) => (g[base] + d * Bytes(width)) % 0x1_0000_0000
  }

  /** The number whose `n` bytes start at `p`, most significant first. */
  function BigEndian(f: Flat, p: nat, n: nat): nat
    requires p + n <= RAM_LIMIT
  {
    if n == 0 then 0 else 0x100 * BigEndian(f, p, n - 1) + f[p + n - 1]
  }

  lemma EffectiveIs(g: Registers, addr: Operand, width: Width)
    ensures EffectiveAddress(g, addr, width) ==
      if Aligned(g, addr, width) then Some(OperandAddress(g, addr, width)) else None
    ensures Aligned(g, addr, width) ==> OperandAddress(g, addr, width) % Bytes(width) == 0
  {
    if addr.Indirect? && Aligned(g, addr, width) {
      WrapAligned(g[addr.base], addr.displacement, Bytes(width));
    }
  }

  lemma WrapAligned(b: word, d: int, n: nat)
    requires (n == 1 || n == 2 || n == 4) && b % n == 0
    ensures (b + d * n) % 0x1_0000_0000 % n == 0
  {
    match n
    case 1 =>
    case 2 =>
      EvenSum(b, d);
      TwoDivides(b + d * 2);
    case 4 =>
      FourSum(b, d);
      FourDivides(b + d * 4);
  }

  lemma EvenSum(b: int, d: int)
    requires b % 2 == 0
    ensures (b + d * 2) % 2 == 0
  {
    assert b + d * 2 == 2 * (b / 2 + d);
  }

  lemma FourSum(b: int, d: int)
    requires b % 4 == 0
    ensures (b + d * 4) % 4 == 0
  {
    assert b + d * 4 == 4 * (b / 4 + d);
  }

  lemma TwoDivides(x: int)
    ensures x % 0x1_0000_0000 % 2 == x % 2
  {
  }

  lemma FourDivides(x: int)
    ensures x % 0x1_0000_0000 % 4 == x % 4
  {
  }

  lemma BigEndianIs(f: Flat, p: nat)
    requires p + 4 <= RAM_LIMIT
    ensures BigEndian(f, p, 4) == Join(f[p], f[p + 1], f[p + 2], f[p + 3])
  {
    var b0: int, b1: int, b2: int := f[p], f[p + 1], f[p + 2];
    assert BigEndian(f, p, 1) == b0;
    assert BigEndian(f, p, 2) == 0x100 * b0 + b1;
    assert BigEndian(f, p, 3) == 0x100 * (0x100 * b0 + b1) + b2;
  }

  /** A cell of the byte memory: a multiple of the size, in RAM. */
  predicate Cell(p: word, width: Width) {
    p < RAM_LIMIT && p % Bytes(width) == 0
  }

  lemma CellFits(p: word, width: Width)
    requires Cell(p, width)
    ensures p + Bytes(width) <= RAM_LIMIT
    ensures p / Bytes(width) * Bytes(width) == p
  {
    var n := Bytes(width);
    assert p == p / n * n + p % n;
    match width
    case FullWord => assert RAM_LIMIT == 4 * RAM_WORDS;
    case HalfWord => assert RAM_LIMIT == 2 * (2 * RAM_WORDS);
    case Byte =>
  }

  lemma LoadBytesBig(f: Flat, p: word, width: Width)
    requires Cell(p, width) && p + Bytes(width) <= RAM_LIMIT
    ensures LoadBytes(f, p, width) == BigEndian(f, p, Bytes(width))
  {
    CellFits(p, width);
    match width
    case FullWord => BigEndianIs(f, p);
    case HalfWord => assert BigEndian(f, p, 1) == f[p];
    case Byte =>
  }

  /** The memory after a cell has been given a value: its bytes spell the value modulo its size, all others
      are kept. */
  ghost predicate Stored(f: Flat, f': Flat, p: word, width: Width, x: word) {
    && Cell(p, width) && p + Bytes(width) <= RAM_LIMIT
    && BigEndian(f', p, Bytes(width)) == x % Limit(width)
    && forall k :: 0 <= k < RAM_LIMIT && !(p <= k < p + Bytes(width)) ==> f'[k] == f[k]
  }

  lemma StoreBytesStored(f: Flat, p: word, width: Width, x: word)
    requires Cell(p, width)
    ensures Stored(f, StoreBytes(f, p, width, x), p, width, x)
  {
    CellFits(p, width);
    match width
    case FullWord => WordStored(f, p, x);
    case HalfWord => HalfStored(f, p, x);
    case Byte =>
  }

  lemma HalfStored(f: Flat, p: word, x: word)
    requires Cell(p, HalfWord) && p / 2 * 2 == p && p + 2 <= RAM_LIMIT
    ensures Stored(f, StoreBytes(f, p, HalfWord, x), p, HalfWord, x)
  {
    var f' := StoreBytes(f, p, HalfWord, x);
    assert BigEndian(f', p, 1) == f'[p];
    assert x % 0x1_0000 == 0x100 * (x / 0x100 % 0x100) + x % 0x100;
  }

  lemma WordStored(f: Flat, p: word, x: word)
    requires Cell(p, FullWord) && p / 4 * 4 == p && p + 4 <= RAM_LIMIT
    ensures Stored(f, StoreBytes(f, p, FullWord, x), p, FullWord, x)
  {
    WordBytes(f, p, x);
    WordSpelled(StoreBytes(f, p, FullWord, x), p, x);
  }

  lemma WordSpelled(f: Flat, p: nat, x: word)
    requires p + 4 <= RAM_LIMIT
    requires f[p] == Lane(x, 3) && f[p + 1] == Lane(x, 2) && f[p + 2] == Lane(x, 1) && f[p + 3] == Lane(x, 0)
    ensures BigEndian(f, p, 4) == x
  {
    BigEndianIs(f, p);
    JoinLanes(x);
  }

  lemma WordBytes(f: Flat, p: word, x: word)
    requires p / 4 * 4 == p && p + 4 <= RAM_LIMIT
    ensures var f' := StoreBytes(f, p, FullWord, x);
      && f'[p] == Lane(x, 3) && f'[p + 1] == Lane(x, 2) && f'[p + 2] == Lane(x, 1) && f'[p + 3] == Lane(x, 0)
      && forall k :: 0 <= k < RAM_LIMIT && !(p <= k < p + 4) ==> f'[k] == f[k]
  {
  }

  /** Translation keeps a cell a cell. */
  lemma TranslatedCell(ram: Ram, ctl: Control, v: word, write: bool, p: word, width: Width)
    requires Translate(ram, ctl, v, write, false) == Address(p) && p < RAM_LIMIT && v % Bytes(width) == 0
    ensures Cell(p, width) && p + Bytes(width) <= RAM_LIMIT
  {
    TranslateOffset(ram, ctl, v, write, false);
    SameOffset(p, v);
    LowParts(p);
    LowParts(v);
    CellFits(p, width);
  }

  lemma LowParts(p: word)
    ensures p % 2 == p % 4 % 2
  {
  }

  // ---------------------------------------------------------------- iterations over the byte memory

  /** The iteration executes `insn` and leads from `c` and `f` to `c'` and `f'`. */
  ghost predicate Runs(c: Cpu, f: Flat, dev: Devices, decode: word -> Insn, insn: Insn, c': Cpu, f': Flat) {
    && FlatInsn(ChooseStack(c), f, dev, decode) == Some(insn)
    && FlatIterate(c, f, dev, decode) == FlatRunning(c', f')
  }

  /** The operand is mapped to the RAM cell `p`. */
  predicate MapsTo(c: Cpu, f: Flat, addr: Operand, width: Width, write: bool, p: word) {
    && Aligned(c.gr, addr, width) && p < RAM_LIMIT
    && Translate(Words32(f), Ctl(c), OperandAddress(c.gr, addr, width), write, false) == Address(p)
  }

  lemma RunsFrame(c: Cpu, f: Flat, dev: Devices, decode: word -> Insn, insn: Insn, c': Cpu, f': Flat)
    requires Runs(c, f, dev, decode, insn, c', f')
    ensures var r := FlatExecute(ChooseStack(c), f, dev, insn);
      r.Ran? && c'.gr == r.cpu.gr && c'.idt == r.cpu.idt && f' == r.flat
  {
    var r := FlatBody(ChooseStack(c), f, dev, decode);
    BodyIs(ChooseStack(c), f, dev, decode, insn);
    if r.Ran? {
      LoopKeeps(r.cpu, r.fault, dev);
    }
  }

  lemma BodyIs(c: Cpu, f: Flat, dev: Devices, decode: word -> Insn, insn: Insn)
    requires FlatInsn(c, f, dev, decode) == Some(insn)
    ensures FlatBody(c, f, dev, decode) == FlatExecute(c, f, dev, insn)
  {
  }

  lemma LoopKeeps(c: Cpu, fault: Vector, dev: Devices)
    ensures var a := Advance(WriteBackSp(TakeFault(c, fault)));
      a.Some? ==> var c' := AgeFlags(Dispatch(a.value, dev)); c'.gr == c.gr && c'.idt == c.idt
  {
    var a := Advance(WriteBackSp(TakeFault(c, fault)));
    FinishKeeps(c, fault);
    if a.Some? {
      DispatchKeeps(a.value, dev);
    }
  }

  lemma FinishKeeps(c: Cpu, fault: Vector)
    ensures var a := Advance(WriteBackSp(TakeFault(c, fault))); a.Some? ==> a.value.gr == c.gr && a.value.idt == c.idt
  {
  }

  /** A load fills its register with the big-endian number at its operand, and changes no byte. */
  lemma LoadReads(c: Cpu, f: Flat, dev: Devices, decode: word -> Insn, width: Width, rd: Reg, addr: Operand, p: word,
                  c': Cpu, f': Flat)
    requires Runs(c, f, dev, decode, Load(width, rd, addr), c', f') && MapsTo(c, f, addr, width, false, p)
    ensures Cell(p, width) && p + Bytes(width) <= RAM_LIMIT
    ensures f' == f && c'.gr[rd] == BigEndian(f, p, Bytes(width)) && forall r: Reg :: r != rd ==> c'.gr[r] == c.gr[r]
  {
    RunsFrame(c, f, dev, decode, Load(width, rd, addr), c', f');
    EffectiveIs(c.gr, addr, width);
    TranslatedCell(Words32(f), Ctl(c), OperandAddress(c.gr, addr, width), false, p, width);
    LoadBytesBig(f, p, width);
  }

  /** A store gives the cell of its operand the low bytes of its register, and changes no register. */
  lemma StoreWrites(c: Cpu, f: Flat, dev: Devices, decode: word -> Insn, width: Width, rs: Reg, addr: Operand, p: word,
                    c': Cpu, f': Flat)
    requires Runs(c, f, dev, decode, Store(width, rs, addr), c', f') && MapsTo(c, f, addr, width, true, p)
    ensures Stored(f, f', p, width, c.gr[rs]) && c'.gr == c.gr
  {
    RunsFrame(c, f, dev, decode, Store(width, rs, addr), c', f');
    EffectiveIs(c.gr, addr, width);
    TranslatedCell(Words32(f), Ctl(c), OperandAddress(c.gr, addr, width), true, p, width);
    StoreBytesStored(f, p, width, c.gr[rs]);
  }

  /** A base that is no multiple of the size ends the simulation. */
  lemma MisalignedEnds(c: Cpu, f: Flat, dev: Devices, decode: word -> Insn, insn: Insn)
    requires FlatInsn(ChooseStack(c), f, dev, decode) == Some(insn) && (insn.Load? || insn.Store?)
    requires !Aligned(c.gr, insn.addr, insn.width)
    ensures FlatIterate(c, f, dev, decode).FlatEnded?
  {
    EffectiveIs(c.gr, insn.addr, insn.width);
  }

  /** What a store left in a cell, a load of the cell through any operand of the same size returns. */
  lemma StoreThenLoad(c: Cpu, f: Flat, dev: Devices, decode: word -> Insn, width: Width, rs: Reg, addr: Operand,
                      p: word, c1: Cpu, f1: Flat, d: Cpu, dev': Devices, rd: Reg, addr': Operand, d1: Cpu, f2: Flat)
    requires Runs(c, f, dev, decode, Store(width, rs, addr), c1, f1) && MapsTo(c, f, addr, width, true, p)
    requires Runs(d, f1, dev', decode, Load(width, rd, addr'), d1, f2) && MapsTo(d, f1, addr', width, false, p)
    ensures d1.gr[rd] == c.gr[rs] % Limit(width)
  {
    StoreWrites(c, f, dev, decode, width, rs, addr, p, c1, f1);
    LoadReads(d, f1, dev', decode, width, rd, addr', p, d1, f2);
  }

  /** Two displacements from one base are as many cells apart as they differ, modulo 2^32. */
  lemma DisplacementsApart(g: Registers, base: Reg, d: Disp6, d': Disp6, width: Width)
    ensures (OperandAddress(g, Indirect(base, d), width) - OperandAddress(g, Indirect(base, d'), width)
             - (d - d') * Bytes(width)) % 0x1_0000_0000 == 0
  {
    var n, b := Bytes(width), g[base];
    var x, y := b + d * n, b + d' * n;
    assert x - y == (d - d') * n;
    WrapMultiple(x);
    WrapMultiple(y);
    assert x % WORD_LIMIT - y % WORD_LIMIT - (x - y) == (y / WORD_LIMIT - x / WORD_LIMIT) * WORD_LIMIT;
    Multiple(x % WORD_LIMIT - y % WORD_LIMIT - (x - y), y / WORD_LIMIT - x / WORD_LIMIT);
  }

  lemma WrapMultiple(x: int)
    ensures x % WORD_LIMIT == x - x / WORD_LIMIT * WORD_LIMIT
  {
  }

  lemma Multiple(x: int, k: int)
    requires x == k * WORD_LIMIT
    ensures x % WORD_LIMIT == 0
  {
  }

  /** So a store through one displacement leaves the cell of every other one as it was. */
  lemma OtherCellsKept(c: Cpu, f: Flat, dev: Devices, decode: word -> Insn, width: Width, rs: Reg, base: Reg, d: Disp6,
                       d': Disp6, p: word, c1: Cpu, f1: Flat)
    requires Runs(c, f, dev, decode, Store(width, rs, Indirect(base, d)), c1, f1)
    requires MapsTo(c, f, Indirect(base, d), width, true, p) && MmuMode(c.psr) == 0 && d != d'
    requires OperandAddress(c.gr, Indirect(base, d'), width) < RAM_LIMIT
    ensures var p' := OperandAddress(c.gr, Indirect(base, d'), width);
      && p' + Bytes(width) <= RAM_LIMIT
      && BigEndian(f1, p', Bytes(width)) == BigEndian(f, p', Bytes(width))
  {
    var p' := OperandAddress(c.gr, Indirect(base, d'), width);
    StoreWrites(c, f, dev, decode, width, rs, Indirect(base, d), p, c1, f1);
    EffectiveIs(c.gr, Indirect(base, d'), width);
    CellFits(p', width);
    DisplacementsApart(c.gr, base, d, d', width);
    CellsApart(p, p', d - d', width);
    SameBytes(f, f1, p', Bytes(width));
  }

  lemma CellsApart(p: word, q: word, k: int, width: Width)
    requires Cell(p, width) && Cell(q, width) && -64 < k < 64 && k != 0
    requires (p - q - k * Bytes(width)) % 0x1_0000_0000 == 0
    ensures p + Bytes(width) <= q || q + Bytes(width) <= p
  {
    if p == q {
      match width
      case Byte => assert false;
      case HalfWord => assert false;
      case FullWord => assert false;
    }
    var n := Bytes(width);
    assert p == p / n * n && q == q / n * n by { CellFits(p, width); CellFits(q, width); }
    if p < q {
      assert (q / n - p / n) * n == q - p;
    } else {
      assert (p / n - q / n) * n == p - q;
    }
  }

  lemma {:induction false} SameBytes(f: Flat, f': Flat, p: nat, n: nat)
    requires p + n <= RAM_LIMIT && forall k :: p <= k < p + n ==> f'[k] == f[k]
    ensures BigEndian(f', p, n) == BigEndian(f, p, n)
  {
    if n != 0 {
      SameBytes(f, f', p, n - 1);
    }
  }

  // ---------------------------------------------------------------- the stack

  /** The loop keeps SPR after an instruction without fault. */
  lemma RunsStack(c: Cpu, f: Flat, dev: Devices, decode: word -> Insn, insn: Insn, c': Cpu, f': Flat)
    requires Runs(c, f, dev, decode, insn, c', f')
    ensures var r := FlatExecute(ChooseStack(c), f, dev, insn); r.Ran? && c'.spr == r.cpu.spr
  {
    var r := FlatBody(ChooseStack(c), f, dev, decode);
    BodyIs(ChooseStack(c), f, dev, decode, insn);
    if r.Ran? {
      LoopKeepsStack(r.cpu, r.fault, dev);
    }
  }

  lemma LoopKeepsStack(c: Cpu, fault: Vector, dev: Devices)
    ensures var a := Advance(WriteBackSp(TakeFault(c, fault)));
      a.Some? ==> AgeFlags(Dispatch(a.value, dev)).spr == c.spr
  {
    var a := Advance(WriteBackSp(TakeFault(c, fault)));
    FinishKeepsStack(c, fault);
    if a.Some? {
      DispatchOnce(a.value, dev);
    }
  }

  lemma FinishKeepsStack(c: Cpu, fault: Vector)
    ensures var a := Advance(WriteBackSp(TakeFault(c, fault))); a.Some? ==> a.value.spr == c.spr
  {
  }

  /** Four below SPR. */
  function Below(c: Cpu): word {
    (ChooseStack(c).spr - 4) % 0x1_0000_0000
  }

  /** What `push` and `pushpc` store. */
  predicate Pushes(c: Cpu, insn: Insn, x: word) {
    match insn
    case Push(Constant(n)) => x == n
    case Push(FromReg(r)) => x == c.gr[r]
    case PushPc => x == c.pc
    case _ => false
  }

  /** `push` and `pushpc` lower SPR by four and store their operand, or their own address, there. */
  lemma PushWrites(c: Cpu, f: Flat, dev: Devices, decode: word -> Insn, insn: Insn, x: word, p: word, c': Cpu, f': Flat)
    requires Runs(c, f, dev, decode, insn, c', f') && Pushes(c, insn, x) && p < RAM_LIMIT
    requires Translate(Words32(f), Ctl(c), Below(c), true, false) == Address(p)
    ensures Stored(f, f', p, FullWord, x) && c'.spr == Below(c) && c'.gr == c.gr
  {
    RunsFrame(c, f, dev, decode, insn, c', f');
    RunsStack(c, f, dev, decode, insn, c', f');
    var lowered := ChooseStack(c).(spr := Below(c));
    assert FlatExecute(ChooseStack(c), f, dev, insn) == FlatStore(lowered, f, dev, FullWord, x, Below(c));
    StackStored(lowered, f, dev, Below(c), x, p);
  }

  lemma StackStored(c: Cpu, f: Flat, dev: Devices, v: word, x: word, p: word)
    requires FlatStore(c, f, dev, FullWord, x, v).Ran? && p < RAM_LIMIT
    requires Translate(Words32(f), Ctl(c), v, true, false) == Address(p)
    ensures var r := FlatStore(c, f, dev, FullWord, x, v); r.cpu == c && Stored(f, r.flat, p, FullWord, x)
  {
    TranslatedCell(Words32(f), Ctl(c), v, true, p, FullWord);
    StoreBytesStored(f, p, FullWord, x);
  }

  /** `pop` loads the word at SPR and raises SPR by four. */
  lemma PopReads(c: Cpu, f: Flat, dev: Devices, decode: word -> Insn, rd: Reg, p: word, c': Cpu, f': Flat)
    requires Runs(c, f, dev, decode, Pop(rd), c', f') && Cell(p, FullWord)
    requires Translate(Words32(f), Ctl(c), ChooseStack(c).spr, false, false) == Address(p)
    ensures p + 4 <= RAM_LIMIT && f' == f && c'.gr[rd] == BigEndian(f, p, 4)
    ensures c'.spr == (ChooseStack(c).spr + 4) % 0x1_0000_0000 && forall r: Reg :: r != rd ==> c'.gr[r] == c.gr[r]
  {
    RunsFrame(c, f, dev, decode, Pop(rd), c', f');
    RunsStack(c, f, dev, decode, Pop(rd), c', f');
    CellFits(p, FullWord);
    LoadBytesBig(f, p, FullWord);
  }

  // ---------------------------------------------------------------- tas

  /** The register gets the word of the cell, and the cell becomes 1 if and only if that was 0. */
  ghost predicate Swapped(g: Registers, f: Flat, rd: Reg, p: word, g': Registers, f': Flat) {
    && Cell(p, FullWord) && p + 4 <= RAM_LIMIT
    && g'[rd] == BigEndian(f, p, 4) && (forall r: Reg :: r != rd ==> g'[r] == g[r])
    && if BigEndian(f, p, 4) == 0 then Stored(f, f', p, FullWord, 1) else f' == f
  }

  lemma FlatTasSwaps(c: Cpu, f: Flat, dev: Devices, rd: Reg, v: word, p: word)
    requires FlatTas(c, f, dev, rd, v).Ran? && p < RAM_LIMIT && Cell(p, FullWord) && p + 4 <= RAM_LIMIT
    requires Translate(Words32(f), Ctl(c), v, false, false) == Address(p)
    requires Translate(Words32(f), Ctl(c), v, true, false) == Address(p)
    ensures var r := FlatTas(c, f, dev, rd, v); Swapped(c.gr, f, rd, p, r.cpu.gr, r.flat)
  {
    LoadBytesBig(f, p, FullWord);
    StoreBytesStored(f, p, FullWord, 1);
    var l := FlatLoad(c, f, dev, FullWord, rd, v);
    assert l == Ran(c.(gr := c.gr[rd := LoadBytes(f, p, FullWord)]), f, 0);
  }

  /** `tas` returns the word at its operand, and stores 1 if and only if that was 0. */
  lemma TasSwaps(c: Cpu, f: Flat, dev: Devices, decode: word -> Insn, rd: Reg, addr: Operand, p: word, c': Cpu,
                 f': Flat)
    requires Runs(c, f, dev, decode, Tas(rd, addr), c', f')
    requires MapsTo(c, f, addr, FullWord, false, p) && MapsTo(c, f, addr, FullWord, true, p)
    ensures Swapped(c.gr, f, rd, p, c'.gr, f')
  {
    RunsFrame(c, f, dev, decode, Tas(rd, addr), c', f');
    EffectiveIs(c.gr, addr, FullWord);
    TranslatedCell(Words32(f), Ctl(c), OperandAddress(c.gr, addr, FullWord), false, p, FullWord);
    FlatTasSwaps(ChooseStack(c), f, dev, rd, OperandAddress(c.gr, addr, FullWord), p);
  }

  /** Of any two `tas` of a word with no store to it between them, at most the first finds it free. */
  lemma TasExcludes(c: Cpu, f: Flat, dev: Devices, decode: word -> Insn, rd: Reg, addr: Operand, p: word, c1: Cpu,
                    f1: Flat, d: Cpu, g: Flat, dev': Devices, rd': Reg, addr': Operand, d1: Cpu, g1: Flat)
    requires Runs(c, f, dev, decode, Tas(rd, addr), c1, f1)
    requires MapsTo(c, f, addr, FullWord, false, p) && MapsTo(c, f, addr, FullWord, true, p)
    requires forall k :: 0 <= k < RAM_LIMIT && p <= k < p + 4 ==> g[k] == f1[k]
    requires Runs(d, g, dev', decode, Tas(rd', addr'), d1, g1)
    requires MapsTo(d, g, addr', FullWord, false, p) && MapsTo(d, g, addr', FullWord, true, p)
    ensures d1.gr[rd'] != 0
  {
    TasSwaps(c, f, dev, decode, rd, addr, p, c1, f1);
    TasSwaps(d, g, dev', decode, rd', addr', p, d1, g1);
    NotFreeAfter(c.gr, f, rd, p, c1.gr, f1, d.gr, g, rd', d1.gr, g1);
  }

  lemma NotFreeAfter(a: Registers, f: Flat, rd: Reg, p: word, a1: Registers, f1: Flat, b: Registers, g: Flat, rd': Reg,
                     b1: Registers, g1: Flat)
    requires Swapped(a, f, rd, p, a1, f1) && Swapped(b, g, rd', p, b1, g1)
    requires forall k :: 0 <= k < RAM_LIMIT && p <= k < p + 4 ==> g[k] == f1[k]
    ensures b1[rd'] != 0
  {
    SameBytes(f1, g, p, 4);
  }

  // ---------------------------------------------------------------- the interrupt table

  /** `idts` takes the 128 entries from IDTR on, eight bytes each: flags, then handler. */
  lemma TableLoaded(c: Cpu, f: Flat, dev: Devices, decode: word -> Insn, c': Cpu, f': Flat, n: Vector)
    requires Runs(c, f, dev, decode, LoadIdt, c', f')
    ensures var a := c.idtr + 8 * n;
      && f' == f && a + 8 <= RAM_LIMIT
      && c'.idt[n].flags == BigEndian(f, a, 4) && c'.idt[n].handler == BigEndian(f, a + 4, 4)
  {
    RunsFrame(c, f, dev, decode, LoadIdt, c', f');
    assert ExecLoadIdt(Machine(ChooseStack(c), Cold(Words32(f)))).Next?;
    var k := c.idtr / 4;
    assert k + 0x100 <= RAM_WORDS by { IdtInRam(c.idtr); }
    BigEndianIs(f, c.idtr + 8 * n);
    BigEndianIs(f, c.idtr + 8 * n + 4);
    assert IdtAt(Words32(f), k)[n] == IdtEntry(FlatWord(f, k + 2 * n), FlatWord(f, k + 2 * n + 1));
  }

  // ---------------------------------------------------------------- devices

  /** Of a word read from a device a load takes the bytes at its address, most significant first. */
  lemma DeviceRead(c: Cpu, f: Flat, dev: Devices, decode: word -> Insn, width: Width, rd: Reg, addr: Operand, p: word,
                   c': Cpu, f': Flat, b0: byte, b1: byte, b2: byte, b3: byte)
    requires Runs(c, f, dev, decode, Load(width, rd, addr), c', f') && Aligned(c.gr, addr, width) && p >= RAM_LIMIT
    requires var v := OperandAddress(c.gr, addr, width);
      && Translate(Words32(f), Ctl(c), v, false, false) == Address(p)
      && dev.bus(if width == FullWord then p else WordAddress(p)) == Some(Join(b0, b1, b2, b3))
    ensures f' == f
    ensures var o, r: int := OperandAddress(c.gr, addr, width) % 4, c'.gr[rd];
      match width
      case FullWord => r == Join(b0, b1, b2, b3)
      case HalfWord => r == Join(0, 0, if o < 2 then b0 else b2, if o < 2 then b1 else b3)
      case Byte => r == if o == 0 then b0 else if o == 1 then b1 else if o == 2 then b2 else b3
  {
    RunsFrame(c, f, dev, decode, Load(width, rd, addr), c', f');
    EffectiveIs(c.gr, addr, width);
    ExtractBytes(OperandAddress(c.gr, addr, width), width, b0, b1, b2, b3);
    DeviceLoaded(ChooseStack(c), f, dev, width, rd, OperandAddress(c.gr, addr, width), p, Join(b0, b1, b2, b3));
  }

  lemma DeviceLoaded(c: Cpu, f: Flat, dev: Devices, width: Width, rd: Reg, v: word, p: word, w: word)
    requires Translate(Words32(f), Ctl(c), v, false, false) == Address(p) && p >= RAM_LIMIT
    requires dev.bus(if width == FullWord then p else WordAddress(p)) == Some(w)
    ensures FlatLoad(c, f, dev, width, rd, v) == Ran(c.(gr := c.gr[rd := Extract(w, v, width)]), f, 0)
  {
  }

  lemma ExtractBytes(v: word, width: Width, b0: byte, b1: byte, b2: byte, b3: byte)
    ensures var o, r: int := v % 4, Extract(Join(b0, b1, b2, b3), v, width);
      match width
      case FullWord => r == Join(b0, b1, b2, b3)
      case HalfWord => r == Join(0, 0, if o < 2 then b0 else b2, if o < 2 then b1 else b3)
      case Byte => r == if o == 0 then b0 else if o == 1 then b1 else if o == 2 then b2 else b3
  {
    LaneJoin(b0, b1, b2, b3);
    HalfJoin(b0, b1, b2, b3);
    assert v / 2 % 2 == v % 4 / 2 by { var q := v / 4; assert v / 2 == 2 * q + v % 4 / 2; }
  }

  // ---------------------------------------------------------------- the same on the simulator

  /** Through caches, TLB and walks: a load completes with the bytes of its cell. */
  lemma LoadDelivers(m: Machine, f: Flat, p: Paging, dev: Devices, decode: word -> Insn, next: Directory, width: Width,
                     rd: Reg, addr: Operand, cell: word)
    requires Related(m.mem, f, p) && IterationAllowed(m.cpu, f, p, dev, decode, next)
    requires FlatInsn(ChooseStack(m.cpu), f, dev, decode) == Some(Load(width, rd, addr))
    requires MapsTo(m.cpu, f, addr, width, false, cell) && Iterate(m, dev, decode).Running?
    ensures Cell(cell, width) && cell + Bytes(width) <= RAM_LIMIT
    ensures var g := Iterate(m, dev, decode).m.cpu.gr;
      g[rd] == BigEndian(f, cell, Bytes(width)) && forall r: Reg :: r != rd ==> g[r] == m.cpu.gr[r]
  {
    IterateSame(m, f, p, dev, decode, next);
    var r := FlatIterate(m.cpu, f, dev, decode);
    LoadReads(m.cpu, f, dev, decode, width, rd, addr, cell, r.cpu, r.flat);
  }

  /** And a store leaves the hierarchy standing for the byte memory with just that cell changed. */
  lemma StoreDelivers(m: Machine, f: Flat, p: Paging, dev: Devices, decode: word -> Insn, next: Directory,
                      width: Width, rs: Reg, addr: Operand, cell: word) returns (f': Flat)
    requires Related(m.mem, f, p) && IterationAllowed(m.cpu, f, p, dev, decode, next)
    requires FlatInsn(ChooseStack(m.cpu), f, dev, decode) == Some(Store(width, rs, addr))
    requires MapsTo(m.cpu, f, addr, width, true, cell) && Iterate(m, dev, decode).Running?
    ensures Stored(f, f', cell, width, m.cpu.gr[rs])
    ensures Related(Iterate(m, dev, decode).m.mem, f', PagingIterated(m.cpu, f, p, dev, decode, next))
  {
    IterateSame(m, f, p, dev, decode, next);
    var r := FlatIterate(m.cpu, f, dev, decode);
    f' := r.flat;
    StoreWrites(m.cpu, f, dev, decode, width, rs, addr, cell, r.cpu, f');
  }
}
