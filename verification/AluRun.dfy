/** The arithmetic instructions as the loop executes them, alone and in the sequences they are made for. */
module AluRun {
  import opened Words
  import opened Flags
  import opened Cpu
  import opened Interrupts
  import opened Iteration

  /** All general registers but `rd` are kept. */
  predicate OthersKept(g: Registers, g': Registers, rd: Reg) {
    forall r: Reg :: r != rd ==> g'[r] == g[r]
  }

  /** FLAGR as the instruction left it, and as the next instruction finds it. */
  predicate Aged(c: Cpu) {
    c.flags == c.prevFlags.(invalid := true) && !c.prevFlags.invalid
  }

  ghost predicate AluAt(m: Machine, dev: Devices, decode: word -> Insn, op: AluOp, rd: Reg, src: Source, m1: Machine) {
    InsnAt(m, dev, decode) == Some(Alu(op, rd, src)) && Iterate(m, dev, decode) == Running(m1)
  }

  lemma AluIterates(m: Machine, dev: Devices, decode: word -> Insn, op: AluOp, rd: Reg, src: Source, m1: Machine)
    requires AluAt(m, dev, decode, op, rd, src, m1)
    ensures var c := ExecAlu(ChooseStack(m.cpu), op, rd, src);
      m1.cpu.gr == c.gr && m1.cpu.prevFlags == c.flags && m1.cpu.flags == c.flags.(invalid := true)
  {
    RegisterInsnCompletes(m, dev, decode, Alu(op, rd, src), m1);
    CompletedFrame(m, dev, decode, Alu(op, rd, src), m1);
    BodyExecutes(m, dev, decode, Alu(op, rd, src));
  }

  // ---------------------------------------------------------------- what the results mean

  /** `r` is the sum, up to the carry; overflow is signed overflow; the rest describes `r`. */
  predicate IsSum(a: int, b: int, r: int, f: Flags) {
    && a + b == r + (if f.carry then 0x1_0000_0000 else 0)
    && (f.zero <==> r == 0) && (f.sign <==> r >= 0x8000_0000) && (f.parity <==> r % 2 == 0)
  }

  predicate OverflowsIff(x: int, y: int, overflow: bool) {
    overflow <==> !(-0x8000_0000 <= x + y < 0x8000_0000)
  }

  /** `r` and the subtrahend make the minuend, up to a borrow. */
  predicate IsDifference(a: int, b: int, r: int, carry: bool) {
    r + b == a + (if carry then 0 else 0x1_0000_0000)
  }

  /** Every condition decides what it names about the operands. */
  ghost predicate Decides(f: Flags, a: word, b: word) {
    forall condition :: 0 <= condition < 16 ==> (Holds(f, condition) <==> Asked(condition, a, b))
  }

  predicate IsLow(product: int, r: int) {
    (product - r) % 0x1_0000_0000 == 0
  }

  predicate IsHigh(product: int, r: int) {
    r * 0x1_0000_0000 <= product < (r + 1) * 0x1_0000_0000
  }

  predicate NoFlags(f: Flags) {
    !f.invalid && f.reserved == 0 && !f.sign && !f.overflow && !f.carry && !f.parity && !f.zero
  }

  lemma SumOf(a: word, b: word)
    ensures var f := MakeFlagsAdd(Add(a, b), a, b);
      IsSum(a, b, Add(a, b), f) && OverflowsIff(Signed(a), Signed(b), f.overflow)
  {
    AddFlags(a, b);
    SignBits(Wrap(a + b));
  }

  lemma DifferenceOf(a: word, b: word)
    ensures var f := MakeFlagsSub(Wrap(a - b), a, b); IsDifference(a, b, Wrap(a - b), f.carry) && Decides(f, a, b)
  {
    var f := MakeFlagsSub(Wrap(a - b), a, b);
    WrapDifference(a, b);
    forall condition | 0 <= condition < 16
      ensures Holds(f, condition) <==> Asked(condition, a, b)
    {
      CompareDecides(a, b, condition);
    }
    CompareDecides(a, b, 8);
  }

  lemma ProductOf(a: word, b: word)
    ensures IsLow(a * b, Mull(a, b)) && IsHigh(a * b, Umulh(a, b)) && IsHigh(Signed(a) * Signed(b), Signed(Mulh(a, b)))
  {
    UnsignedProduct(a, b);
    SignedProduct(a, b);
    MultipleOf(a * b - Mull(a, b), Umulh(a, b));
  }

  lemma MultipleOf(x: int, h: int)
    requires x == h * 0x1_0000_0000
    ensures x % 0x1_0000_0000 == 0
  {
  }

  // ---------------------------------------------------------------- single instructions

  /** `add`: the sum to the last bit, and the flags of an addition. */
  lemma AddLeaves(m: Machine, dev: Devices, decode: word -> Insn, rd: Reg, src: Source, m1: Machine)
    requires AluAt(m, dev, decode, AddOp, rd, src, m1)
    ensures OthersKept(m.cpu.gr, m1.cpu.gr, rd) && Aged(m1.cpu)
    ensures var a, b, f := m.cpu.gr[rd], OperandValue(m.cpu, src), m1.cpu.prevFlags;
      IsSum(a, b, m1.cpu.gr[rd], f) && OverflowsIff(Signed(a), Signed(b), f.overflow)
  {
    AluIterates(m, dev, decode, AddOp, rd, src, m1);
    SumOf(m.cpu.gr[rd], OperandValue(m.cpu, src));
  }

  /** `sub`: source and result make the destination, up to a borrow, and the flags are those of `cmp`. */
  lemma SubLeaves(m: Machine, dev: Devices, decode: word -> Insn, rd: Reg, src: Source, m1: Machine)
    requires AluAt(m, dev, decode, SubOp, rd, src, m1)
    ensures OthersKept(m.cpu.gr, m1.cpu.gr, rd) && Aged(m1.cpu)
    ensures var a, b, f := m.cpu.gr[rd], OperandValue(m.cpu, src), m1.cpu.prevFlags;
      IsDifference(a, b, m1.cpu.gr[rd], f.carry) && Decides(f, a, b)
  {
    var a, b := m.cpu.gr[rd], OperandValue(m.cpu, src);
    SubValues(m, dev, decode, rd, src, m1);
    DifferenceOf(a, b);
  }

  lemma SubValues(m: Machine, dev: Devices, decode: word -> Insn, rd: Reg, src: Source, m1: Machine)
    requires AluAt(m, dev, decode, SubOp, rd, src, m1)
    ensures OthersKept(m.cpu.gr, m1.cpu.gr, rd) && Aged(m1.cpu)
    ensures var a, b := m.cpu.gr[rd], OperandValue(m.cpu, src);
      m1.cpu.gr[rd] == Wrap(a - b) && m1.cpu.prevFlags == MakeFlagsSub(Wrap(a - b), a, b)
  {
    AluIterates(m, dev, decode, SubOp, rd, src, m1);
  }

  /** `cmp`: every condition decides its relation, and no register changes. */
  lemma CmpLeaves(m: Machine, dev: Devices, decode: word -> Insn, rd: Reg, src: Source, m1: Machine)
    requires AluAt(m, dev, decode, CmpOp, rd, src, m1)
    ensures m1.cpu.gr == m.cpu.gr && Aged(m1.cpu)
    ensures Decides(m1.cpu.prevFlags, m.cpu.gr[rd], OperandValue(m.cpu, src))
  {
    AluIterates(m, dev, decode, CmpOp, rd, src, m1);
    DifferenceOf(m.cpu.gr[rd], OperandValue(m.cpu, src));
  }

  /** `addc`: the carry of the sum, with the flags of the sum. */
  lemma AddcLeaves(m: Machine, dev: Devices, decode: word -> Insn, rd: Reg, src: Source, m1: Machine)
    requires AluAt(m, dev, decode, AddcOp, rd, src, m1)
    ensures OthersKept(m.cpu.gr, m1.cpu.gr, rd) && Aged(m1.cpu)
    ensures var a, b, f := m.cpu.gr[rd], OperandValue(m.cpu, src), m1.cpu.prevFlags;
      && m1.cpu.gr[rd] == (if f.carry then 1 else 0) && OverflowsIff(Signed(a), Signed(b), f.overflow)
      && exists s: word :: IsSum(a, b, s, f)
  {
    AluIterates(m, dev, decode, AddcOp, rd, src, m1);
    SumOf(m.cpu.gr[rd], OperandValue(m.cpu, src));
  }

  /** `mull`, `mulh` and `umulh`: the low word, the signed and the unsigned high word of the product. */
  lemma MulLeaves(m: Machine, dev: Devices, decode: word -> Insn, op: AluOp, rd: Reg, src: Source, m1: Machine)
    requires AluAt(m, dev, decode, op, rd, src, m1) && (op.MullOp? || op.MulhOp? || op.UmulhOp?)
    ensures OthersKept(m.cpu.gr, m1.cpu.gr, rd) && Aged(m1.cpu) && NoFlags(m1.cpu.prevFlags)
    ensures var a, b, r := m.cpu.gr[rd], OperandValue(m.cpu, src), m1.cpu.gr[rd];
      match op
      case MullOp => IsLow(a * b, r)
      case MulhOp => IsHigh(Signed(a) * Signed(b), Signed(r))
      case _ => IsHigh(a * b, r)
  {
    AluIterates(m, dev, decode, op, rd, src, m1);
    ProductOf(m.cpu.gr[rd], OperandValue(m.cpu, src));
  }

  /** A division, by whichever quotient or remainder its instruction takes, divides destination by source. */
  lemma DivisionLeaves(m: Machine, dev: Devices, decode: word -> Insn, rd: Reg, src: Source,
                       quotient: (word, word) -> word, m1: Machine)
    requires InsnAt(m, dev, decode) == Some(Divide(rd, src, quotient)) && Iterate(m, dev, decode) == Running(m1)
    requires OperandValue(m.cpu, src) != 0
    ensures OthersKept(m.cpu.gr, m1.cpu.gr, rd) && Aged(m1.cpu) && NoFlags(m1.cpu.prevFlags)
    ensures m1.cpu.gr[rd] == quotient(m.cpu.gr[rd], OperandValue(m.cpu, src))
  {
    RegisterInsnCompletes(m, dev, decode, Divide(rd, src, quotient), m1);
    CompletedFrame(m, dev, decode, Divide(rd, src, quotient), m1);
    BodyExecutes(m, dev, decode, Divide(rd, src, quotient));
  }

  // ---------------------------------------------------------------- sequences

  function AluResult(op: AluOp, a: word, b: word): word {
    match op
    case AddOp => Add(a, b)
    case SubOp => Wrap(a - b)
    case CmpOp => a
    case AddcOp => Addc(a, b)
    case MullOp => Mull(a, b)
    case MulhOp => Mulh(a, b)
    case UmulhOp => Umulh(a, b)
  }

  /** A sequence of arithmetic instructions on the registers alone. */
  function GrAfter(g: Registers, code: seq<Insn>): Registers
    requires forall k :: 0 <= k < |code| ==> code[k].Alu? && code[k].src.FromReg?
    decreases |code|
  {
    if |code| == 0 then g
    else GrAfter(g[code[0].rd := AluResult(code[0].op, g[code[0].rd], g[code[0].src.r])], code[1..])
  }

  lemma AluGr(c: Cpu, op: AluOp, rd: Reg, src: Source)
    ensures ExecAlu(c, op, rd, src).gr == c.gr[rd := AluResult(op, c.gr[rd], OperandValue(c, src))]
  {
  }

  lemma AluStep(m: Machine, dev: Devices, decode: word -> Insn, insn: Insn, m1: Machine)
    requires insn.Alu? && insn.src.FromReg? && Completes(m, dev, decode, insn, m1)
    ensures m1.cpu.gr == GrAfter(m.cpu.gr, [insn])
  {
    AluIterates(m, dev, decode, insn.op, insn.rd, insn.src, m1);
    AluGr(ChooseStack(m.cpu), insn.op, insn.rd, insn.src);
  }

  lemma {:induction false} ExecutesAlu(m: Machine, devs: seq<Devices>, decode: word -> Insn, code: seq<Insn>,
                                       m1: Machine)
    requires Executes(m, devs, decode, code, m1)
    requires forall k :: 0 <= k < |code| ==> code[k].Alu? && code[k].src.FromReg?
    ensures m1.cpu.gr == GrAfter(m.cpu.gr, code)
    decreases |code|
  {
    if |code| != 0 {
      var n := Iterate(m, devs[0], decode).m;
      AluStep(m, devs[0], decode, code[0], n);
      ExecutesAlu(n, devs[1..], decode, code[1..], m1);
    }
  }

  /** The code that adds one word of a long number: `a`, `t` and `u` hold the word of one number, `b` that
      of the other and `c` the carry; `a` becomes the word of the sum and `t` the carry out. */
  datatype LimbRegisters = LimbRegisters(a: Reg, b: Reg, c: Reg, t: Reg, u: Reg)

  predicate Apart(r: LimbRegisters) {
    && r.a != r.b && r.a != r.c && r.a != r.t && r.a != r.u && r.b != r.t && r.b != r.u
    && r.c != r.t && r.c != r.u && r.t != r.u
  }

  function LimbCode(r: LimbRegisters): seq<Insn> {
    [Alu(AddcOp, r.t, FromReg(r.b)), Alu(AddOp, r.a, FromReg(r.b)), Alu(AddOp, r.u, FromReg(r.b)),
     Alu(AddcOp, r.u, FromReg(r.c)), Alu(AddOp, r.a, FromReg(r.c)), Alu(AddOp, r.t, FromReg(r.u))]
  }

  predicate LimbReady(g: Registers, r: LimbRegisters, a: word, b: word, carry: word) {
    g[r.a] == g[r.t] == g[r.u] == a && g[r.b] == b && g[r.c] == carry && carry <= 1
  }

  lemma {:induction false} GrAppend(g: Registers, code: seq<Insn>, more: seq<Insn>)
    requires forall k :: 0 <= k < |code| ==> code[k].Alu? && code[k].src.FromReg?
    requires forall k :: 0 <= k < |more| ==> more[k].Alu? && more[k].src.FromReg?
    ensures GrAfter(g, code + more) == GrAfter(GrAfter(g, code), more)
    decreases |code|
  {
    if |code| == 0 {
      assert code + more == more;
    } else {
      assert (code + more)[1..] == code[1..] + more;
      GrAppend(g[code[0].rd := AluResult(code[0].op, g[code[0].rd], g[code[0].src.r])], code[1..], more);
    }
  }

  lemma GrThree(g: Registers, i: Insn, j: Insn, k: Insn)
    requires i.Alu? && j.Alu? && k.Alu? && i.src.FromReg? && j.src.FromReg? && k.src.FromReg?
    ensures GrAfter(g, [i, j, k]) == GrAfter(GrAfter(GrAfter(g, [i]), [j]), [k])
  {
    GrAppend(g, [i], [j, k]);
    GrAppend(GrAfter(g, [i]), [j], [k]);
    assert [i] + [j, k] == [i, j, k] && [j] + [k] == [j, k];
  }

  lemma PartialGr(g: Registers, r: LimbRegisters, a: word, b: word, carry: word)
    requires Apart(r) && LimbReady(g, r, a, b, carry)
    ensures var g' := GrAfter(g, LimbCode(r)[..3]);
      g'[r.a] == g'[r.u] == Add(a, b) && g'[r.t] == Addc(a, b) && g'[r.c] == carry
  {
    GrThree(g, LimbCode(r)[0], LimbCode(r)[1], LimbCode(r)[2]);
    assert LimbCode(r)[..3] == [LimbCode(r)[0], LimbCode(r)[1], LimbCode(r)[2]];
  }

  lemma CarryGr(g: Registers, r: LimbRegisters)
    requires Apart(r) && g[r.a] == g[r.u]
    ensures var g' := GrAfter(g, LimbCode(r)[3..]);
      g'[r.a] == Add(g[r.a], g[r.c]) && g'[r.t] == Add(g[r.t], Addc(g[r.a], g[r.c]))
  {
    GrThree(g, LimbCode(r)[3], LimbCode(r)[4], LimbCode(r)[5]);
    assert LimbCode(r)[3..] == [LimbCode(r)[3], LimbCode(r)[4], LimbCode(r)[5]];
  }

  lemma LimbGr(g: Registers, r: LimbRegisters, a: word, b: word, carry: word)
    requires Apart(r) && LimbReady(g, r, a, b, carry)
    ensures var g' := GrAfter(g, LimbCode(r));
      g'[r.a] == Add(Add(a, b), carry) && g'[r.t] == Add(Addc(a, b), Addc(Add(a, b), carry))
  {
    var code := LimbCode(r);
    assert code == code[..3] + code[3..];
    GrAppend(g, code[..3], code[3..]);
    PartialGr(g, r, a, b, carry);
    CarryGr(GrAfter(g, code[..3]), r);
  }

  /** One run of the code: where it starts and ends. */
  datatype Stretch = Stretch(begin: Machine, devs: seq<Devices>, end: Machine)

  /** The runs add the words of `a` and `b`, each taking over the carry the one before it left. */
  ghost predicate AddsWords(ss: seq<Stretch>, decode: word -> Insn, r: LimbRegisters, a: seq<word>, b: seq<word>,
                      carry: word)
    decreases |ss|
  {
    |ss| == |a| == |b| &&
    (|ss| == 0 ||
     (&& LimbReady(ss[0].begin.cpu.gr, r, a[0], b[0], carry)
      && Executes(ss[0].begin, ss[0].devs, decode, LimbCode(r), ss[0].end)
      && AddsWords(ss[1..], decode, r, a[1..], b[1..], ss[0].end.cpu.gr[r.t])))
  }

  function Sums(ss: seq<Stretch>, r: LimbRegisters): seq<word> {
    seq(|ss|, k requires 0 <= k < |ss| => ss[k].end.cpu.gr[r.a])
  }

  function CarryOut(ss: seq<Stretch>, r: LimbRegisters, carry: word): word {
    if |ss| == 0 then carry else ss[|ss| - 1].end.cpu.gr[r.t]
  }

  lemma {:induction false} WordsAdded(ss: seq<Stretch>, decode: word -> Insn, r: LimbRegisters, a: seq<word>,
                                      b: seq<word>, carry: word)
    requires Apart(r) && carry <= 1 && AddsWords(ss, decode, r, a, b, carry)
    ensures AddWords(a, b, carry) == Sum(Sums(ss, r), CarryOut(ss, r, carry))
    decreases |ss|
  {
    if |ss| != 0 {
      var g := ss[0].end.cpu.gr;
      FirstLimb(ss[0], decode, r, a[0], b[0], carry);
      WordsAdded(ss[1..], decode, r, a[1..], b[1..], g[r.t]);
      SumsCons(ss, r, carry);
      AddWordsCons(a, b, carry, g[r.t]);
    } else {
      assert Sums(ss, r) == [];
    }
  }

  lemma SumsCons(ss: seq<Stretch>, r: LimbRegisters, carry: word)
    requires |ss| != 0
    ensures Sums(ss, r) == [ss[0].end.cpu.gr[r.a]] + Sums(ss[1..], r)
    ensures CarryOut(ss, r, carry) == CarryOut(ss[1..], r, ss[0].end.cpu.gr[r.t])
  {
  }

  lemma AddWordsCons(a: seq<word>, b: seq<word>, carry: word, out: word)
    requires |a| == |b| != 0 && carry <= 1 && out == Add(Addc(a[0], b[0]), Addc(Add(a[0], b[0]), carry)) <= 1
    ensures var rest := AddWords(a[1..], b[1..], out);
      AddWords(a, b, carry) == Sum([Add(Add(a[0], b[0]), carry)] + rest.words, rest.carry)
  {
  }

  lemma FirstLimb(s: Stretch, decode: word -> Insn, r: LimbRegisters, a: word, b: word, carry: word)
    requires Apart(r) && LimbReady(s.begin.cpu.gr, r, a, b, carry)
    requires Executes(s.begin, s.devs, decode, LimbCode(r), s.end)
    ensures var g, partial := s.end.cpu.gr, Add(a, b);
      g[r.a] == Add(partial, carry) && g[r.t] == Add(Addc(a, b), Addc(partial, carry)) <= 1
  {
    ExecutesAlu(s.begin, s.devs, decode, LimbCode(r), s.end);
    LimbGr(s.begin.cpu.gr, r, a, b, carry);
    LimbAdds(a, b, carry);
  }

  /** Executed word by word, the code leaves the sum modulo 2^(32n), and its quotient as the carry. */
  lemma {:induction false} LongAddition(ss: seq<Stretch>, decode: word -> Insn, r: LimbRegisters, a: seq<word>,
                                        b: seq<word>)
    requires Apart(r) && AddsWords(ss, decode, r, a, b, 0)
    ensures Value(Sums(ss, r)) == (Value(a) + Value(b)) % Power(|a|)
    ensures CarryOut(ss, r, 0) == (Value(a) + Value(b)) / Power(|a|)
  {
    WordsAdded(ss, decode, r, a, b, 0);
    AddWordsModulo(a, b);
  }

  /** `mull` and `mulh`, or `mull` and `umulh`, executed after each other on two copies of a word leave
      the whole product, signed or unsigned. */
  lemma LongProduct(m: Machine, devs: seq<Devices>, decode: word -> Insn, low: Reg, high: Reg, rb: Reg, signed: bool,
                    m1: Machine)
    requires low != high && rb != low && m.cpu.gr[low] == m.cpu.gr[high]
    requires Executes(m, devs, decode, ProductCode(low, high, rb, signed), m1)
    ensures var a, b, h, l := m.cpu.gr[low], m.cpu.gr[rb], m1.cpu.gr[high], m1.cpu.gr[low];
      if signed then IsProduct(Signed(a), Signed(b), Signed(h), l) else IsProduct(a, b, h, l)
  {
    var g := m.cpu.gr;
    ExecutesAlu(m, devs, decode, ProductCode(low, high, rb, signed), m1);
    ProductGr(g, low, high, rb, signed);
    UnsignedProduct(g[low], g[rb]);
    SignedProduct(g[low], g[rb]);
  }

  function ProductCode(low: Reg, high: Reg, rb: Reg, signed: bool): seq<Insn> {
    [Alu(MullOp, low, FromReg(rb)), Alu(if signed then MulhOp else UmulhOp, high, FromReg(rb))]
  }

  predicate IsProduct(a: int, b: int, high: int, low: int) {
    a * b == high * 0x1_0000_0000 + low
  }

  lemma ProductGr(g: Registers, low: Reg, high: Reg, rb: Reg, signed: bool)
    requires low != high && rb != low && g[low] == g[high]
    ensures var g' := GrAfter(g, ProductCode(low, high, rb, signed));
      && g'[low] == Mull(g[low], g[rb])
      && g'[high] == if signed then Mulh(g[low], g[rb]) else Umulh(g[low], g[rb])
  {
    var code := ProductCode(low, high, rb, signed);
    assert code[1..] == [code[1]] && code[1..][1..] == [];
    assert GrAfter(g, code) == GrAfter(g[low := Mull(g[low], g[rb])], code[1..]);
  }
}
