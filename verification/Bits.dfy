/** Single bits of machine words, as the bitmaps of the kernel use them. */
module Bits {
  /** A byte, promoted to 32 bits as C does. */
  type u8 = x: bv32 | x <= 0xff

  // ----- Words and one-bit masks -----

  predicate Single(m: bv32) { m != 0 && m & (m - 1) == 0 }

  predicate Below(m: bv32, n: bv32) { m < n }

  function Select(x: bv32, n: bv32): bv32 { x & n }

  predicate Test(x: bv32, n: bv32) { Select(x, n) != 0 }

  function Or(x: bv32, m: bv32): bv32 { x | m }

  function AndNot(x: bv32, m: bv32): bv32 { x & !m }

  function Not(x: bv32): bv32 { !x }

  /** The bits from that of m on, and those up to it. */
  function From(m: bv32): bv32 { 0 - m }

  function UpTo(m: bv32): bv32 { m | (m - 1) }

  lemma OneBits(m: bv32, n: bv32)
    requires Single(m) && Single(n)
    ensures m != n ==> Select(m, n) == 0
    ensures Select(From(m), n) == if Below(n, m) then 0 else n
    ensures Select(UpTo(m), n) == if Below(m, n) then 0 else n
  {
  }

  lemma OrSelects(x: bv32, m: bv32, n: bv32)
    ensures Select(m, n) == 0 ==> Select(Or(x, m), n) == Select(x, n)
    ensures Select(Or(x, n), n) == n
  {
  }

  lemma AndNotSelects(x: bv32, m: bv32, n: bv32)
    ensures Select(m, n) == 0 ==> Select(AndNot(x, m), n) == Select(x, n)
    ensures Select(AndNot(x, n), n) == 0
  {
  }

  lemma NotSelects(x: bv32, n: bv32)
    requires Single(n)
    ensures Select(x, n) == 0 ==> Select(Not(x), n) == n
    ensures Select(x, n) != 0 ==> Select(Not(x), n) == 0
  {
    assert x & n == 0 || x & n == n;
    assert !x & n == n - (x & n);
  }

  lemma AndSelects(x: bv32, m: bv32, n: bv32)
    ensures Select(m, n) == n ==> Select(Select(x, m), n) == Select(x, n)
    ensures Select(m, n) == 0 ==> Select(Select(x, m), n) == 0
  {
    assert (x & m) & n == x & (m & n);
  }

  lemma SingleNonzero(n: bv32)
    requires Single(n)
    ensures n != 0
  {
  }

  lemma TestOr(x: bv32, m: bv32, n: bv32)
    requires Single(m) && Single(n)
    ensures Test(Or(x, m), n) <==> m == n || Test(x, n)
  {
    hide Single, Select, Or, From, UpTo, Below;
    OneBits(m, n);
    OrSelects(x, m, n);
    SingleNonzero(n);
  }

  lemma TestAndNot(x: bv32, m: bv32, n: bv32)
    requires Single(m) && Single(n)
    ensures Test(AndNot(x, m), n) <==> m != n && Test(x, n)
  {
    hide Single, Select, AndNot, From, UpTo, Below;
    OneBits(m, n);
    AndNotSelects(x, m, n);
  }

  lemma TestNot(x: bv32, n: bv32)
    requires Single(n)
    ensures Test(Not(x), n) <==> !Test(x, n)
  {
    hide Single, Select, Not;
    NotSelects(x, n);
    SingleNonzero(n);
  }

  lemma TestFrom(x: bv32, m: bv32, n: bv32)
    requires Single(m) && Single(n)
    ensures Test(Select(x, From(m)), n) <==> !Below(n, m) && Test(x, n)
  {
    hide Single, Select, From, UpTo, Below;
    OneBits(m, n);
    AndSelects(x, From(m), n);
    SingleNonzero(n);
  }

  lemma TestUpTo(x: bv32, m: bv32, n: bv32)
    requires Single(m) && Single(n)
    ensures Test(Select(x, UpTo(m)), n) <==> !Below(m, n) && Test(x, n)
  {
    hide Single, Select, From, UpTo, Below;
    OneBits(m, n);
    AndSelects(x, UpTo(m), n);
    SingleNonzero(n);
  }

  // ----- Bits by number -----

  /** x << k and x >> k */
  function Shl(x: bv32, k: nat): bv32 {
    if k == 0 then x else Shl(x, k - 1) << 1
  }

  function Shr(x: bv32, k: nat): bv32 {
    if k == 0 then x else Shr(x, k - 1) >> 1
  }

  /** 1u << k */
  function Mask(k: nat): bv32
    requires k < 32
  {
    Shl(1, k)
  }

  predicate Bit(x: bv32, k: nat)
    requires k < 32
  {
    Test(x, Mask(k))
  }

  lemma MaskValues()
    ensures Mask(0) == 1 && Mask(1) == 2 && Mask(2) == 4 && Mask(3) == 8
    ensures Mask(4) == 0x10 && Mask(5) == 0x20 && Mask(6) == 0x40 && Mask(7) == 0x80
    ensures Mask(8) == 0x100 && Mask(9) == 0x200 && Mask(10) == 0x400 && Mask(11) == 0x800
    ensures Mask(12) == 0x1000 && Mask(13) == 0x2000 && Mask(14) == 0x4000 && Mask(15) == 0x8000
    ensures Mask(16) == 0x1_0000 && Mask(17) == 0x2_0000 && Mask(18) == 0x4_0000 && Mask(19) == 0x8_0000
    ensures Mask(20) == 0x10_0000 && Mask(21) == 0x20_0000 && Mask(22) == 0x40_0000 && Mask(23) == 0x80_0000
    ensures Mask(24) == 0x100_0000 && Mask(25) == 0x200_0000 && Mask(26) == 0x400_0000 && Mask(27) == 0x800_0000
    ensures Mask(28) == 0x1000_0000 && Mask(29) == 0x2000_0000 && Mask(30) == 0x4000_0000 && Mask(31) == 0x8000_0000
  {
    assert Mask(7) == 0x80;
    assert Mask(15) == 0x8000;
    assert Mask(23) == 0x80_0000;
  }

  lemma MaskOne(k: nat)
    requires k < 32
    ensures Single(Mask(k))
    ensures k < 31 ==> Mask(k) <= 0x4000_0000
    ensures k < 8 ==> Mask(k) <= 0x80
  {
    hide Mask;
    MaskValues();
  }

  lemma {:induction false} MaskLess(j: nat, k: nat)
    requires j < k < 32
    ensures Below(Mask(j), Mask(k))
    decreases k
  {
    MaskOne(k - 1);
    if j < k - 1 { MaskLess(j, k - 1); }
  }

  lemma BelowOrder(m: bv32, n: bv32)
    ensures Below(m, n) ==> m != n && !Below(n, m)
    ensures !Below(m, m)
  {
  }

  /** Masks are ordered like their bits. */
  lemma MaskOrder(j: nat, k: nat)
    requires j < 32 && k < 32
    ensures Below(Mask(j), Mask(k)) <==> j < k
    ensures Mask(j) == Mask(k) <==> j == k
    ensures Single(Mask(j)) && Single(Mask(k))
  {
    hide Mask, Below, Single;
    MaskOne(j);
    MaskOne(k);
    BelowOrder(Mask(j), Mask(k));
    BelowOrder(Mask(k), Mask(j));
    if j < k { MaskLess(j, k); } else if k < j { MaskLess(k, j); }
  }

  lemma {:induction false} OnesLeft(k: nat)
    requires k < 32
    ensures Shl(0xffff_ffff, k) == From(Mask(k))
  {
    if k > 0 { OnesLeft(k - 1); }
  }

  lemma {:induction false} OnesRight(k: nat)
    requires k < 32
    ensures Shr(0xffff_ffff, 31 - k) == UpTo(Mask(k))
    decreases 31 - k
  {
    hide Mask;
    if k == 31 {
      MaskValues();
    } else {
      OnesRight(k + 1);
      MaskOne(k);
      MaskDouble(k);
    }
  }

  lemma MaskDouble(k: nat)
    requires k < 31
    ensures Mask(k + 1) == Mask(k) << 1
  {
  }

  /** x |= 1u << k, and x &= ~(1u << k) */
  function Set(x: bv32, k: nat): bv32
    requires k < 32
  {
    Or(x, Mask(k))
  }

  function Clear(x: bv32, k: nat): bv32
    requires k < 32
  {
    AndNot(x, Mask(k))
  }

  lemma SetBit(x: bv32, k: nat, j: nat)
    requires j < 32 && k < 32
    ensures Bit(Set(x, k), j) <==> j == k || Bit(x, j)
    ensures Bit(Clear(x, k), j) <==> j != k && Bit(x, j)
  {
    hide Mask, Test, Or, AndNot;
    MaskOrder(j, k);
    TestOr(x, Mask(k), Mask(j));
    TestAndNot(x, Mask(k), Mask(j));
  }

  lemma ByteBounds(x: bv32, m: bv32)
    requires x <= 0xff && m <= 0x80
    ensures Or(x, m) <= 0xff && AndNot(x, m) <= 0xff
  {
  }

  /** A byte stays a byte. */
  lemma SetByte(x: u8, k: nat)
    requires k < 8
    ensures Set(x, k) <= 0xff && Clear(x, k) <= 0xff
  {
    hide Mask, Or, AndNot, Single;
    MaskOne(k);
    ByteBounds(x, Mask(k));
  }

  lemma NotBit(x: bv32, j: nat)
    requires j < 32
    ensures Bit(Not(x), j) <==> !Bit(x, j)
  {
    hide Mask, Test, Not, Single;
    MaskOne(j);
    TestNot(x, Mask(j));
  }

  /** x & (0xffffffff << k) keeps the bits from k on. */
  function KeptFrom(x: bv32, k: nat): bv32 { Select(x, Shl(0xffff_ffff, k)) }

  lemma KeepFrom(x: bv32, k: nat, j: nat)
    requires j < 32 && k < 32
    ensures Bit(KeptFrom(x, k), j) <==> k <= j && Bit(x, j)
  {
    hide Mask, Test, Select, From, Below, Shl, Single;
    OnesLeft(k);
    MaskOrder(j, k);
    TestFrom(x, Mask(k), Mask(j));
  }

  /** x & (0xffffffff >> (31 - k)) keeps the bits up to k. */
  function KeptUpTo(x: bv32, k: nat): bv32
    requires k < 32
  {
    Select(x, Shr(0xffff_ffff, 31 - k))
  }

  lemma KeepUpTo(x: bv32, k: nat, j: nat)
    requires j < 32 && k < 32
    ensures Bit(KeptUpTo(x, k), j) <==> j <= k && Bit(x, j)
  {
    hide Mask, Test, Select, UpTo, Below, Shr, Single;
    OnesRight(k);
    MaskOrder(k, j);
    TestUpTo(x, Mask(k), Mask(j));
  }

  /** For a byte the masks are 0xff << k and 0xff >> (7 - k). */
  lemma {:induction false} ByteRight(k: nat)
    requires k < 8
    ensures Shr(0xff, 7 - k) == UpTo(Mask(k))
    decreases 7 - k
  {
    hide Mask;
    if k == 7 {
      MaskValues();
    } else {
      ByteRight(k + 1);
      MaskOne(k);
      MaskDouble(k);
    }
  }

  lemma {:induction false} ByteLeft(k: nat)
    ensures Shl(0xff, k) & 0xff == Shl(0xffff_ffff, k) & 0xff
  {
    if k > 0 { ByteLeft(k - 1); }
  }

  lemma ByteMasks(x: u8, m: bv32, n: bv32)
    requires m & 0xff == n & 0xff
    ensures Select(x, m) == Select(x, n)
  {
  }

  /** x & (0xff << k) and x & (0xff >> (7 - k)) on a byte. */
  lemma KeepInByte(x: u8, k: nat, j: nat)
    requires k < 8 && j < 32
    ensures Bit(Select(x, Shl(0xff, k)), j) <==> k <= j && Bit(x, j)
    ensures Bit(Select(x, Shr(0xff, 7 - k)), j) <==> j <= k && Bit(x, j)
  {
    hide Mask, Test, Select, UpTo, Below, Shl, Shr, Single;
    ByteLeft(k);
    ByteMasks(x, Shl(0xff, k), Shl(0xffff_ffff, k));
    KeepFrom(x, k, j);
    ByteRight(k);
    MaskOrder(k, j);
    TestUpTo(x, Mask(k), Mask(j));
  }

  lemma SelectByte(x: u8, m: bv32)
    ensures Select(x, m) <= 0xff
  {
  }

  lemma ByteHasNoHighBits(x: u8, j: nat)
    requires 8 <= j < 32
    ensures !Bit(x, j)
  {
    hide Mask, Single;
    MaskOrder(7, j);
    MaskOne(j);
    MaskValues();
    HighMask(x, Mask(j));
  }

  lemma HighMask(x: u8, m: bv32)
    requires Single(m) && Below(0x80, m)
    ensures Select(x, m) == 0
  {
  }

  /** A word without bits is zero. */
  lemma NoBits(x: bv32)
    requires forall k: nat :: k < 32 ==> !Bit(x, k)
    ensures x == 0
  {
    hide Mask;
    MaskValues();
    forall k: nat | k < 32 ensures Select(x, Mask(k)) == 0 { assert !Bit(x, k); }
    assert Select(x, Mask(0)) == 0 && Select(x, Mask(1)) == 0 && Select(x, Mask(2)) == 0 && Select(x, Mask(3)) == 0;
  }

  lemma ZeroHasNoBits(k: nat)
    requires k < 32
    ensures !Bit(0, k)
  {
  }

  /** __builtin_ctz(): the lowest bit of a word that is not zero. */
  function LowestFrom(x: bv32, k: nat): (r: nat)
    requires k <= 32
    ensures k <= r <= 32 && (r < 32 ==> Bit(x, r))
    ensures forall j: nat :: k <= j < r ==> !Bit(x, j)
    decreases 32 - k
  {
    if k == 32 || Bit(x, k) then k else LowestFrom(x, k + 1)
  }

  function Ctz(x: bv32): (r: nat)
    requires x != 0
    ensures r < 32 && Bit(x, r) && forall j: nat :: j < r ==> !Bit(x, j)
  {
    hide Bit;
    var r := LowestFrom(x, 0);
    assert r < 32 by { if r == 32 { NoBits(x); } }
    r
  }
}
