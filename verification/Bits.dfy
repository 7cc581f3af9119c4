/** The C mask expressions, bit by bit, equal the arithmetic the other modules use for them. */
module Bits {
  import opened Words
  import opened Cache
  import opened Mmu
  import opened Flags
  import opened Cpu

  // ---------------------------------------------------------------- bitwise operators

  function And(x: nat, y: nat): nat
    decreases x
  {
    if x == 0 || y == 0 then 0
    else 2 * And(x / 2, y / 2) + (if x % 2 == 1 && y % 2 == 1 then 1 else 0)
  }

  function Or(x: nat, y: nat): nat
    decreases x + y
  {
    if x == 0 && y == 0 then 0
    else 2 * Or(x / 2, y / 2) + (if x % 2 == 1 || y % 2 == 1 then 1 else 0)
  }

  function Xor(x: nat, y: nat): nat
    decreases x + y
  {
    if x == 0 && y == 0 then 0
    else 2 * Xor(x / 2, y / 2) + (if x % 2 != y % 2 then 1 else 0)
  }

  function Pow2(k: nat): (p: nat)
    ensures p > 0
  {
    if k == 0 then 1 else 2 * Pow2(k - 1)
  }

  /** `x >> k` and `x << k`. */
  function Shr(x: nat, k: nat): nat {
    if k == 0 then x else Shr(x / 2, k - 1)
  }

  function Shl(x: nat, k: nat): nat {
    if k == 0 then x else 2 * Shl(x, k - 1)
  }

  // ---------------------------------------------------------------- shifts and powers

  lemma DoubleDivisor(x: nat, p: nat)
    requires p > 0
    ensures x / (2 * p) == x / 2 / p && x % (2 * p) == 2 * (x / 2 % p) + x % 2
  {
    var h, b := x / 2, x % 2;
    var q, r := h / p, h % p;
    assert h == q * p + r;
    assert x == 2 * h + b;
    assert 2 * (q * p) == q * (2 * p);
    DivisionUnique(x, 2 * p, q, 2 * r + b);
  }

  lemma {:induction false} ShrDivides(x: nat, k: nat)
    ensures Shr(x, k) == x / Pow2(k)
    decreases k
  {
    if k > 0 {
      ShrDivides(x / 2, k - 1);
      DoubleDivisor(x, Pow2(k - 1));
    }
  }

  lemma {:induction false} ShlMultiplies(x: nat, k: nat)
    ensures Shl(x, k) == x * Pow2(k)
  {
    if k > 0 {
      ShlMultiplies(x, k - 1);
      assert 2 * (x * Pow2(k - 1)) == x * (2 * Pow2(k - 1));
    }
  }

  // ---------------------------------------------------------------- masks

  lemma {:induction false} AndLow(x: nat, n: nat)
    ensures And(x, Pow2(n) - 1) == x % Pow2(n)
    decreases n
  {
    if n > 0 {
      var p := Pow2(n - 1);
      AndLow(x / 2, n - 1);
      DoubleDivisor(x, p);
      assert (2 * p - 1) / 2 == p - 1 && (2 * p - 1) % 2 == 1;
    }
  }

  lemma AndEven(x: nat, y: nat)
    ensures And(x, 2 * y) == 2 * And(x / 2, y)
  {
    if x == 0 || y == 0 {
    } else {
      assert 2 * y / 2 == y && (2 * y) % 2 == 0;
    }
  }

  /** Masking with a mask shifted up. */
  lemma {:induction false} AndShl(x: nat, m: nat, k: nat)
    ensures And(x, Shl(m, k)) == Shl(And(Shr(x, k), m), k)
    decreases k
  {
    if k > 0 {
      AndShl(x / 2, m, k - 1);
      AndEven(x, Shl(m, k - 1));
    }
  }

  /** Masking the `n` bits from bit `k` on, with the powers of two spelled out. */
  lemma AndField(x: nat, k: nat, n: nat, p: nat, q: nat, mask: nat)
    requires p == Pow2(k) && q == Pow2(n) && mask == (q - 1) * p
    ensures And(x, mask) == x / p % q * p
  {
    ShlMultiplies(q - 1, k);
    AndShl(x, q - 1, k);
    ShrDivides(x, k);
    AndLow(Shr(x, k), n);
    ShlMultiplies(Shr(x, k) % q, k);
  }

  /** Setting one bit. */
  lemma {:induction false} OrBit(x: nat, k: nat)
    ensures Or(x, Pow2(k)) == if x / Pow2(k) % 2 == 1 then x else x + Pow2(k)
    decreases k
  {
    if k == 0 {
      OrZero(x / 2);
    } else {
      var p := Pow2(k - 1);
      OrBit(x / 2, k - 1);
      DoubleDivisor(x, p);
      assert 2 * p / 2 == p && (2 * p) % 2 == 0;
    }
  }

  lemma {:induction false} OrZero(x: nat)
    ensures Or(x, 0) == x
    decreases x
  {
    if x > 0 {
      OrZero(x / 2);
    }
  }

  /** Joining a high and a low part. */
  lemma {:induction false} OrJoin(hi: nat, lo: nat, k: nat)
    requires lo < Pow2(k)
    ensures Or(Shl(hi, k), lo) == Shl(hi, k) + lo
    decreases k
  {
    if k == 0 {
      OrZero(hi);
    } else {
      var a := Shl(hi, k - 1);
      OrJoin(hi, lo / 2, k - 1);
      assert 2 * a / 2 == a && (2 * a) % 2 == 0;
    }
  }

  lemma {:induction false} XorShr(x: nat, y: nat, k: nat)
    ensures Shr(Xor(x, y), k) == Xor(Shr(x, k), Shr(y, k))
    decreases k
  {
    if k > 0 {
      XorShr(x / 2, y / 2, k - 1);
    }
  }

  lemma {:induction false} XorZero(x: nat, y: nat)
    ensures Xor(x, y) == 0 <==> x == y
    decreases x + y
  {
    if x > 0 || y > 0 {
      XorZero(x / 2, y / 2);
    }
  }

  lemma {:induction false} XorBound(x: nat, y: nat, k: nat)
    requires x < Pow2(k) && y < Pow2(k)
    ensures Xor(x, y) < Pow2(k)
    decreases k
  {
    if k > 0 {
      XorBound(x / 2, y / 2, k - 1);
    }
  }

  lemma {:induction false} AndShr(x: nat, y: nat, k: nat)
    ensures Shr(And(x, y), k) == And(Shr(x, k), Shr(y, k))
    decreases k
  {
    if k > 0 {
      AndShr(x / 2, y / 2, k - 1);
    }
  }

  /** Masking away what a mask keeps. */
  lemma {:induction false} AndComplement(x: nat, y: nat, k: nat)
    requires x < Pow2(k) && y < Pow2(k)
    ensures And(x, Pow2(k) - 1 - y) == x - And(x, y)
    decreases k
  {
    if k > 0 {
      var p := Pow2(k - 1);
      AndComplement(x / 2, y / 2, k - 1);
      assert (2 * p - 1 - y) / 2 == p - 1 - y / 2 && (2 * p - 1 - y) % 2 == 1 - y % 2;
      AndHalves(x, 2 * p - 1 - y);
      AndHalves(x, y);
    }
  }

  lemma AndHalves(x: nat, y: nat)
    ensures And(x, y) == 2 * And(x / 2, y / 2) + (if x % 2 == 1 && y % 2 == 1 then 1 else 0)
  {
    if x == 0 || y == 0 {
      assert And(x / 2, y / 2) == 0;
    }
  }

  /** Masking with two masks that share no bit. */
  lemma {:induction false} AndDisjoint(x: nat, y: nat, z: nat)
    requires And(y, z) == 0
    ensures And(x, y + z) == And(x, y) + And(x, z)
    decreases y + z
  {
    AndHalves(x, y);
    AndHalves(x, z);
    AndHalves(x, y + z);
    AndHalves(y, z);
    if y + z > 0 {
      assert (y + z) / 2 == y / 2 + z / 2 && (y + z) % 2 == y % 2 + z % 2;
      AndDisjoint(x / 2, y / 2, z / 2);
    }
  }

  // ---------------------------------------------------------------- the masks of cache.h

  lemma Powers()
    ensures Pow2(0) == 1 && Pow2(1) == 2 && Pow2(2) == 4 && Pow2(3) == 8 && Pow2(4) == 0x10
    ensures Pow2(5) == 0x20 && Pow2(6) == 0x40 && Pow2(7) == 0x80 && Pow2(8) == 0x100
    ensures Pow2(10) == 0x400 && Pow2(12) == 0x1000 && Pow2(20) == 0x10_0000 && Pow2(22) == 0x40_0000
    ensures Pow2(26) == 0x400_0000 && Pow2(30) == 0x4000_0000 && Pow2(31) == 0x8000_0000 && Pow2(32) == 0x1_0000_0000
  {
    assert Pow2(8) == 0x100;
    assert Pow2(10) == 4 * Pow2(8);
    assert Pow2(12) == 4 * Pow2(10);
    assert Pow2(14) == 4 * Pow2(12);
    assert Pow2(16) == 4 * Pow2(14);
    assert Pow2(18) == 4 * Pow2(16);
    assert Pow2(20) == 4 * Pow2(18);
    assert Pow2(22) == 4 * Pow2(20);
    assert Pow2(24) == 4 * Pow2(22);
    assert Pow2(26) == 4 * Pow2(24);
    assert Pow2(28) == 4 * Pow2(26);
    assert Pow2(30) == 4 * Pow2(28);
    assert Pow2(31) == 2 * Pow2(30);
    assert Pow2(32) == 2 * Pow2(31);
  }

  lemma QuotientsFit(x: word)
    ensures x / 0x40 % 0x400_0000 == x / 0x40 && x / 0x400 % 0x40_0000 == x / 0x400
    ensures x / 0x1000 % 0x10_0000 == x / 0x1000 && x / 0x40_0000 % 0x400 == x / 0x40_0000
  {
    assert x / 0x40 < 0x400_0000 && x / 0x400 < 0x40_0000;
    assert x / 0x1000 < 0x10_0000 && x / 0x40_0000 < 0x400;
  }

  /** Masking the high bits of a word: line tags, line addresses, pages and large pages. */
  lemma AndTag(x: word)
    ensures And(x, 0xffff_fc00) == x / 0x400 * 0x400
  {
    Powers();
    QuotientsFit(x);
    AndField(x, 10, 22, 0x400, 0x40_0000, 0xffff_fc00);
  }

  lemma AndLine(x: word)
    ensures And(x, 0xffff_ffc0) == x / 0x40 * 0x40
  {
    Powers();
    QuotientsFit(x);
    AndField(x, 6, 26, 0x40, 0x400_0000, 0xffff_ffc0);
  }

  lemma AndPage(x: word)
    ensures And(x, 0xffff_f000) == x / 0x1000 * 0x1000
  {
    Powers();
    QuotientsFit(x);
    AndField(x, 12, 20, 0x1000, 0x10_0000, 0xffff_f000);
  }

  lemma AndLarge(x: word)
    ensures And(x, 0xffc0_0000) == x / 0x40_0000 * 0x40_0000
  {
    Powers();
    QuotientsFit(x);
    AndField(x, 22, 10, 0x40_0000, 0x400, 0xffc0_0000);
  }

  /** `CACHE_L1_TAG`, `CACHE_L1_LINE_MASK`, `CACHE_L1_INDEX` and `CACHE_L1_WORD`. */
  lemma CacheMasks(addr: word)
    ensures And(addr, 0xffff_fc00) == Tag(addr)
    ensures And(addr, 0xffff_ffc0) == addr / 64 * 64
    ensures And(addr / 64, 0xf) == Index(addr) && And(addr / 4, 0xf) == WordOf(addr)
  {
    Powers();
    AndTag(addr);
    AndLine(addr);
    AndLow(addr / 64, 4);
    AndLow(addr / 4, 4);
  }

  // ---------------------------------------------------------------- the masks of mmu.h and tlb.h

  /** The PTE flag tests and the protection field. */
  lemma PteMasks(pte: word)
    ensures And(pte, 0x1) != 0 <==> PteValid(pte)
    ensures And(pte, 0x8) != 0 <==> Executable(pte)
    ensures And(pte, 0x30) == 0x10 * Protection(pte)
    ensures And(pte, 0x100) != 0 <==> PageExtension(pte)
  {
    Powers();
    AndField(pte, 0, 1, 1, 2, 0x1);
    AndField(pte, 3, 1, 8, 2, 0x8);
    AndField(pte, 4, 2, 0x10, 4, 0x30);
    AndField(pte, 8, 1, 0x100, 2, 0x100);
  }

  /** The frame joined with the offset, for both page sizes. */
  lemma AddressMasks(pte: word, vaddr: word)
    ensures Or(And(pte, 0xffc0_0000), And(vaddr, 0x3f_ffff)) == LargeAddress(pte, vaddr)
    ensures Or(And(pte, 0xffff_f000), And(vaddr, 0xfff)) == SmallAddress(pte, vaddr)
  {
    Powers();
    AndLarge(pte);
    AndLow(vaddr, 22);
    ShlMultiplies(pte / LARGE, 22);
    OrJoin(pte / LARGE, vaddr % LARGE, 22);
    AndPage(pte);
    AndLow(vaddr, 12);
    ShlMultiplies(pte / PAGE, 12);
    OrJoin(pte / PAGE, vaddr % PAGE, 12);
  }

  /** `pte | MMU_PTE_R | (is_write ? MMU_PTE_D : 0)`. */
  lemma SetRDMasks(pte: word, write: bool)
    ensures Or(Or(pte, 0x2), if write then 0x4 else 0) == SetRD(pte, write)
  {
    Powers();
    OrBit(pte, 1);
    OrBit(SetReferenced(pte), 2);
    OrZero(SetReferenced(pte));
  }

  /** The XOR tests of `memory_tlb_get`, and its index. */
  lemma TlbMasks(pageNum: word, vaddr: word)
    ensures And(Xor(pageNum, vaddr), 0xffc0_0000) == 0 <==> pageNum / LARGE == vaddr / LARGE
    ensures And(Xor(pageNum, vaddr), 0xffff_f000) == 0 <==> pageNum / PAGE == vaddr / PAGE
    ensures And(vaddr / LARGE, 0xf) == TlbIndex(vaddr)
  {
    Powers();
    var x := Xor(pageNum, vaddr);
    XorBound(pageNum, vaddr, 32);
    AndLarge(x);
    XorShr(pageNum, vaddr, 22);
    ShrDivides(x, 22);
    ShrDivides(pageNum, 22);
    ShrDivides(vaddr, 22);
    XorZero(pageNum / LARGE, vaddr / LARGE);
    AndPage(x);
    XorShr(pageNum, vaddr, 12);
    ShrDivides(x, 12);
    ShrDivides(pageNum, 12);
    ShrDivides(vaddr, 12);
    XorZero(pageNum / PAGE, vaddr / PAGE);
    AndLow(vaddr / LARGE, 4);
  }

  // ---------------------------------------------------------------- PSR and flags

  /** The PSR field tests. */
  lemma PsrMasks(psr: word)
    ensures And(psr, 0x3) == MmuMode(psr) && (And(psr, 0x4) != 0 <==> InterruptsEnabled(psr))
    ensures And(psr, 0x60) == 0x20 * Cmod(psr)
    ensures And(psr, 0x380) / 0x80 == psr / 0x80 % 8
  {
    Powers();
    AndField(psr, 0, 2, 1, 4, 0x3);
    AndField(psr, 2, 1, 4, 2, 0x4);
    AndField(psr, 5, 2, 0x20, 4, 0x60);
    AndField(psr, 7, 3, 0x80, 8, 0x380);
  }

  /** `PSR & ~PSR_IM_ENABLE & ~PSR_CMOD_MASK`. */
  lemma EntryMask(psr: word)
    ensures And(psr, 0xffff_ff9b) == KernelEntry(psr)
  {
    Powers();
    AndComplement(psr, 0x64, 32);
    AndDisjoint(psr, 0x4, 0x60);
    AndField(psr, 2, 1, 4, 2, 0x4);
    AndField(psr, 5, 2, 0x20, 4, 0x60);
  }

  /** `srieiw`: setting and clearing `PSR_IM_ENABLE`. */
  lemma EnableMasks(psr: word)
    ensures Or(psr, 0x4) == SetInterrupts(psr, true) && And(psr, 0xffff_fffb) == SetInterrupts(psr, false)
  {
    Powers();
    OrBit(psr, 2);
    AndComplement(psr, 0x4, 32);
    AndField(psr, 2, 1, 4, 2, 0x4);
  }

  /** `srmmuw`: replacing the MMU mode. */
  lemma MmuModeMasks(psr: word, v: word)
    ensures Or(And(psr, 0xffff_fffc), And(v, 0x3)) == SetMmuMode(psr, v)
  {
    Powers();
    AndWord(psr);
    AndLow(v, 2);
    ShlMultiplies(psr / 4, 2);
    OrJoin(psr / 4, v % 4, 2);
  }

  /** `vaddr & 0xfffffffc`. */
  lemma AndWord(x: word)
    ensures And(x, 0xffff_fffc) == x / 4 * 4
  {
    Powers();
    AndComplement(x, 0x3, 32);
    AndLow(x, 2);
  }

  /** The bits of FLAGR as a word. */
  lemma FlagMasks(w: word)
    ensures (FlagsOf(w).invalid <==> And(w, 0x1) != 0) && FlagsOf(w).reserved == And(w, 0x7ff_fffe) / 2
    ensures (FlagsOf(w).sign <==> And(w, 0x800_0000) != 0) && (FlagsOf(w).overflow <==> And(w, 0x1000_0000) != 0)
    ensures (FlagsOf(w).carry <==> And(w, 0x2000_0000) != 0) && (FlagsOf(w).parity <==> And(w, 0x4000_0000) != 0)
    ensures FlagsOf(w).zero <==> And(w, 0x8000_0000) != 0
  {
    HighPowers();
    BitTest(w, 0, 0x1);
    AndField(w, 1, 26, 2, 0x400_0000, 0x7ff_fffe);
    BitTest(w, 27, 0x800_0000);
    BitTest(w, 28, 0x1000_0000);
    BitTest(w, 29, 0x2000_0000);
    BitTest(w, 30, 0x4000_0000);
    BitTest(w, 31, 0x8000_0000);
  }

  lemma BitTest(x: nat, k: nat, p: nat)
    requires p == Pow2(k)
    ensures And(x, p) != 0 <==> x / p % 2 == 1
  {
    assert Pow2(1) == 2;
    AndField(x, k, 1, p, 2, p);
  }

  lemma HighPowers()
    ensures Pow2(0) == 1 && Pow2(1) == 2 && Pow2(26) == 0x400_0000 && Pow2(27) == 0x800_0000
    ensures Pow2(28) == 0x1000_0000 && Pow2(29) == 0x2000_0000 && Pow2(30) == 0x4000_0000 && Pow2(31) == 0x8000_0000
  {
    Powers();
    assert Pow2(27) == 2 * Pow2(26);
    assert Pow2(28) == 2 * Pow2(27);
    assert Pow2(29) == 2 * Pow2(28);
    assert Pow2(30) == 2 * Pow2(29);
  }

  /** The flags of an interrupt table entry. */
  lemma IdtMasks(flags: word)
    ensures And(flags, 0x1) == flags % 2 && And(flags, 0x2) == 2 * (flags / 2 % 2)
  {
    Powers();
    AndField(flags, 0, 1, 1, 2, 0x1);
    AndField(flags, 1, 1, 2, 2, 0x2);
  }

  /** The table indices of `memory_page_walk_L2`. */
  lemma IndexMasks(vaddr: word)
    ensures Shr(And(vaddr, 0xffc0_0000), 22) == vaddr / LARGE
    ensures Shr(And(vaddr, 0x3f_f000), 12) == vaddr / PAGE % 1024
  {
    Powers();
    AndLarge(vaddr);
    ShrDivides(vaddr / LARGE * LARGE, 22);
    AndField(vaddr, 12, 10, 0x1000, 0x400, 0x3f_f000);
    ShrDivides(vaddr / PAGE % 1024 * PAGE, 12);
  }

  /** The top bit of an XOR, and of an AND of two. */
  lemma TopBit(x: word, y: word)
    ensures Xor(x, y) / 0x8000_0000 == if Msb(x) != Msb(y) then 1 else 0
    ensures And(x, y) / 0x8000_0000 == if Msb(x) && Msb(y) then 1 else 0
  {
    Powers();
    XorShr(x, y, 31);
    AndShr(x, y, 31);
    ShrDivides(x, 31);
    ShrDivides(y, 31);
    ShrDivides(Xor(x, y), 31);
    ShrDivides(And(x, y), 31);
    assert x / 0x8000_0000 == (if Msb(x) then 1 else 0) && y / 0x8000_0000 == (if Msb(y) then 1 else 0);
    assert Xor(0, 0) == 0 && Xor(1, 0) == 1 && Xor(0, 1) == 1 && Xor(1, 1) == 0;
    assert And(0, 0) == 0 && And(1, 0) == 0 && And(0, 1) == 0 && And(1, 1) == 1;
  }

  /** The overflow expressions of flags.h. */
  lemma OverflowMasks(result: word, dest: word, src: word)
    ensures And(Xor(dest, result), Xor(src, result)) / 0x8000_0000 == 1 <==> MakeFlagsAdd(result, dest, src).overflow
    ensures And(Xor(dest, result), Xor(dest, src)) / 0x8000_0000 == 1 <==> MakeFlagsSub(result, dest, src).overflow
  {
    Powers();
    XorBound(dest, result, 32);
    XorBound(src, result, 32);
    XorBound(dest, src, 32);
    TopBit(dest, result);
    TopBit(src, result);
    TopBit(dest, src);
    TopBit(Xor(dest, result), Xor(src, result));
    TopBit(Xor(dest, result), Xor(dest, src));
  }
}
