/** How long the powers of e take to repeat, and the three roots of the checksum polynomial. */
module Bech32Orders {
  import opened Bech32s
  import opened Bech32Fields

  // ----- rows for some powers -----

  const R2 := Row(0x137, 0x247, 0x1ae, 0x35c, 0x3b1, 0x8b, 0x116, 0x205, 0x12a, 0x254)
  const R4 := Row(0xce, 0x19c, 0x311, 0x32b, 0x376, 0x229, 0x172, 0x2cd, 0xba, 0x15d)
  const R8 := Row(0x219, 0x13b, 0x25f, 0x1b7, 0x347, 0x91, 0x10b, 0x216, 0x125, 0x24a)
  const R16 := Row(0x2a3, 0x66, 0xcc, 0x198, 0x319, 0x348, 0x3b0, 0x269, 0x1f2, 0x3cd)
  const R32 := Row(0x29, 0x52, 0x8d, 0x11a, 0x21d, 0x17, 0x7, 0xe, 0x1c, 0x11)
  const R64 := Row(0x124, 0x248, 0x1b0, 0x349, 0x3b2, 0x2eb, 0xf6, 0x1c5, 0x38a, 0x234)
  const R128 := Row(0xd1, 0x18b, 0x316, 0x325, 0x36a, 0x1c9, 0x392, 0x22d, 0x17a, 0x2dd)
  const R256 := Row(0x204, 0x128, 0x250, 0x1a9, 0x352, 0x331, 0x36b, 0x3f6, 0x2e5, 0xea)
  const R512 := Row(0x2ba, 0x7d, 0xd3, 0x18f, 0x31e, 0x68, 0xd0, 0x189, 0x312, 0x32d)
  const R33 := Row(0x17, 0x7, 0xe, 0x1c, 0x11, 0x2e0, 0xe0, 0x1c0, 0x380, 0x220)
  const R80 := Row(0x276, 0x1e5, 0x3ca, 0x2b4, 0x61, 0x201, 0x122, 0x244, 0x1a8, 0x350)
  const R88 := Row(0x3f3, 0x2ef, 0xfe, 0x1d5, 0x383, 0x53, 0x8f, 0x11e, 0x215, 0x123)
  const R92 := Row(0x255, 0x1a3, 0x346, 0x3ac, 0x278, 0x356, 0x3a5, 0x26a, 0x1f4, 0x3c1)
  const R93 := Row(0x356, 0x3a5, 0x26a, 0x1f4, 0x3c1, 0x6a, 0xd4, 0x181, 0x302, 0x324)
  const R320 := Row(0x384, 0x228, 0x170, 0x2c9, 0xb2, 0x1c3, 0x386, 0x22c, 0x178, 0x2d9)
  const R336 := Row(0x9a, 0x11d, 0x213, 0x12f, 0x25e, 0x2ee, 0xfc, 0x1d1, 0x38b, 0x236)
  const R340 := Row(0x30c, 0x338, 0x379, 0x3fb, 0x2ff, 0x16d, 0x2da, 0xbd, 0x153, 0x28f)
  const R341 := Row(0x16d, 0x2da, 0xbd, 0x153, 0x28f, 0x18c, 0x318, 0x339, 0x37b, 0x3ff)
  const R768 := Row(0x3fe, 0x2f5, 0xe3, 0x1c6, 0x38c, 0x1f3, 0x3cf, 0x2be, 0x75, 0xc3)
  const R896 := Row(0x103, 0x206, 0x12c, 0x258, 0x1b9, 0x33c, 0x371, 0x3eb, 0x2f6, 0xe5)
  const R960 := Row(0xe6, 0x1cc, 0x398, 0x239, 0x17b, 0x21e, 0x135, 0x243, 0x1a6, 0x34c)
  const R992 := Row(0xc1, 0x182, 0x304, 0x328, 0x370, 0x3c9, 0x2b2, 0x6d, 0xda, 0x19d)
  const R996 := Row(0x371, 0x3eb, 0x2f6, 0xe5, 0x1ca, 0x1bd, 0x353, 0x3af, 0x27e, 0x1f5)
  const R997 := Row(0x1bd, 0x353, 0x3af, 0x27e, 0x1f5, 0x65, 0xca, 0x194, 0x301, 0x322)
  const R998 := Row(0x65, 0xca, 0x194, 0x301, 0x322, 0x3d0, 0x2a9, 0x72, 0xcd, 0x19a)
  const R999 := Row(0x3d0, 0x2a9, 0x72, 0xcd, 0x19a, 0x104, 0x208, 0x130, 0x249, 0x1b2)

  lemma Row2() ensures Compose(E1, E1) == R2 {}
  lemma Row4() ensures Compose(R2, R2) == R4 {}
  lemma Row8() ensures Compose(R4, R4) == R8 {}
  lemma Row16() ensures Compose(R8, R8) == R16 {}
  lemma Row32() ensures Compose(R16, R16) == R32 {}
  lemma Row64() ensures Compose(R32, R32) == R64 {}
  lemma Row128() ensures Compose(R64, R64) == R128 {}
  lemma Row256() ensures Compose(R128, R128) == R256 {}
  lemma Row512() ensures Compose(R256, R256) == R512 {}
  lemma Row33() ensures Compose(R32, E1) == R33 {}
  lemma Row80() ensures Compose(R64, R16) == R80 {}
  lemma Row88() ensures Compose(R80, R8) == R88 {}
  lemma Row92() ensures Compose(R88, R4) == R92 {}
  lemma Row93() ensures Compose(R92, E1) == R93 {}
  lemma Row320() ensures Compose(R256, R64) == R320 {}
  lemma Row336() ensures Compose(R320, R16) == R336 {}
  lemma Row340() ensures Compose(R336, R4) == R340 {}
  lemma Row341() ensures Compose(R340, E1) == R341 {}
  lemma Row768() ensures Compose(R512, R256) == R768 {}
  lemma Row896() ensures Compose(R768, R128) == R896 {}
  lemma Row960() ensures Compose(R896, R64) == R960 {}
  lemma Row992() ensures Compose(R960, R32) == R992 {}
  lemma Row996() ensures Compose(R992, R4) == R996 {}
  lemma Row997() ensures Compose(R996, E1) == R997 {}
  lemma Row998() ensures Compose(R997, E1) == R998 {}
  lemma Row999() ensures Compose(R998, E1) == R999 {}
  lemma Row1024() ensures Compose(R512, R512) == E1 {}

  lemma TableNext(j: nat, r: Row, k: nat, s: Row, n: nat, t: Row)
    requires Table(j, r) && Table(k, s) && n == j + k && t == Compose(r, s)
    ensures Table(n, t)
  {
    hide Table;
    TableCompose(j, r, k, s);
  }

  lemma TableOne()
    ensures Table(1, E1)
  {
    hide Apply;
    assert E1.Ok();
    forall x | Element(x) ensures Power(1, x) == Apply(x, E1) {
      assert Power(0, x) == x;
    }
  }

  lemma Table2() ensures Table(2, R2) { hide Table, Compose; TableOne(); Row2(); TableNext(1, E1, 1, E1, 2, R2); }
  lemma Table4() ensures Table(4, R4) { hide Table, Compose; Table2(); Row4(); TableNext(2, R2, 2, R2, 4, R4); }
  lemma Table8() ensures Table(8, R8) { hide Table, Compose; Table4(); Row8(); TableNext(4, R4, 4, R4, 8, R8); }
  lemma Table16() ensures Table(16, R16) { hide Table, Compose; Table8(); Row16(); TableNext(8, R8, 8, R8, 16, R16); }
  lemma Table32() ensures Table(32, R32) { hide Table, Compose; Table16(); Row32(); TableNext(16, R16, 16, R16, 32, R32); }
  lemma Table64() ensures Table(64, R64) { hide Table, Compose; Table32(); Row64(); TableNext(32, R32, 32, R32, 64, R64); }
  lemma Table128() ensures Table(128, R128) { hide Table, Compose; Table64(); Row128(); TableNext(64, R64, 64, R64, 128, R128); }
  lemma Table256() ensures Table(256, R256) { hide Table, Compose; Table128(); Row256(); TableNext(128, R128, 128, R128, 256, R256); }
  lemma Table512() ensures Table(512, R512) { hide Table, Compose; Table256(); Row512(); TableNext(256, R256, 256, R256, 512, R512); }
  lemma Table33() ensures Table(33, R33) { hide Table, Compose; Table32(); TableOne(); Row33(); TableNext(32, R32, 1, E1, 33, R33); }
  lemma Table80() ensures Table(80, R80) { hide Table, Compose; Table64(); Table16(); Row80(); TableNext(64, R64, 16, R16, 80, R80); }
  lemma Table88() ensures Table(88, R88) { hide Table, Compose; Table80(); Table8(); Row88(); TableNext(80, R80, 8, R8, 88, R88); }
  lemma Table92() ensures Table(92, R92) { hide Table, Compose; Table88(); Table4(); Row92(); TableNext(88, R88, 4, R4, 92, R92); }
  lemma Table93() ensures Table(93, R93) { hide Table, Compose; Table92(); TableOne(); Row93(); TableNext(92, R92, 1, E1, 93, R93); }
  lemma Table320() ensures Table(320, R320) { hide Table, Compose; Table256(); Table64(); Row320(); TableNext(256, R256, 64, R64, 320, R320); }
  lemma Table336() ensures Table(336, R336) { hide Table, Compose; Table320(); Table16(); Row336(); TableNext(320, R320, 16, R16, 336, R336); }
  lemma Table340() ensures Table(340, R340) { hide Table, Compose; Table336(); Table4(); Row340(); TableNext(336, R336, 4, R4, 340, R340); }
  lemma Table341() ensures Table(341, R341) { hide Table, Compose; Table340(); TableOne(); Row341(); TableNext(340, R340, 1, E1, 341, R341); }
  lemma Table768() ensures Table(768, R768) { hide Table, Compose; Table512(); Table256(); Row768(); TableNext(512, R512, 256, R256, 768, R768); }
  lemma Table896() ensures Table(896, R896) { hide Table, Compose; Table768(); Table128(); Row896(); TableNext(768, R768, 128, R128, 896, R896); }
  lemma Table960() ensures Table(960, R960) { hide Table, Compose; Table896(); Table64(); Row960(); TableNext(896, R896, 64, R64, 960, R960); }
  lemma Table992() ensures Table(992, R992) { hide Table, Compose; Table960(); Table32(); Row992(); TableNext(960, R960, 32, R32, 992, R992); }
  lemma Table996() ensures Table(996, R996) { hide Table, Compose; Table992(); Table4(); Row996(); TableNext(992, R992, 4, R4, 996, R996); }
  lemma Table997() ensures Table(997, R997) { hide Table, Compose; Table996(); TableOne(); Row997(); TableNext(996, R996, 1, E1, 997, R997); }
  lemma Table998() ensures Table(998, R998) { hide Table, Compose; Table997(); TableOne(); Row998(); TableNext(997, R997, 1, E1, 998, R998); }
  lemma Table999() ensures Table(999, R999) { hide Table, Compose; Table998(); TableOne(); Row999(); TableNext(998, R998, 1, E1, 999, R999); }
  lemma Table1024() ensures Table(1024, E1) { hide Table, Compose; Table512(); Row1024(); TableNext(512, R512, 512, R512, 1024, E1); }

  // ----- the order of e -----

  lemma Cycle(x: bv32)
    requires Element(x)
    ensures Power(1023, x) == x
  {
    hide Power, Apply, Element;
    TableOne();
    Table1024();
    PowerAdd(1, 1023, x);
    PowerElement(1023, x);
    PowerInjective(1, Power(1023, x), x);
  }

  /** Two maps added up. */
  function Plus(r: Row, s: Row): Row {
    Row(Xor(r.k0, s.k0), Xor(r.k1, s.k1), Xor(r.k2, s.k2), Xor(r.k3, s.k3), Xor(r.k4, s.k4),
        Xor(r.k5, s.k5), Xor(r.k6, s.k6), Xor(r.k7, s.k7), Xor(r.k8, s.k8), Xor(r.k9, s.k9))
  }

  lemma BitPlus(x: bv32, mask: bv32, k: bv32, l: bv32)
    ensures Bit(x, mask, Xor(k, l)) == Xor(Bit(x, mask, k), Bit(x, mask, l))
  {
    hide Xor;
    XorZero(0);
  }

  lemma ApplyPlus(x: bv32, r: Row, s: Row)
    ensures Apply(x, Plus(r, s)) == Xor(Apply(x, r), Apply(x, s))
  {
    hide Sum1, Sum2, Sum3, Sum4, Sum5, Sum6, Sum7, Sum8, Apply, Xor, Bit;
    Chain(x, r);
    Chain(x, s);
    Chain(x, Plus(r, s));
    BitPlus(x, 1, r.k0, s.k0);
    BitPlus(x, 2, r.k1, s.k1);
    BitPlus(x, 4, r.k2, s.k2);
    BitPlus(x, 8, r.k3, s.k3);
    BitPlus(x, 0x10, r.k4, s.k4);
    BitPlus(x, 0x20, r.k5, s.k5);
    BitPlus(x, 0x40, r.k6, s.k6);
    BitPlus(x, 0x80, r.k7, s.k7);
    BitPlus(x, 0x100, r.k8, s.k8);
    BitPlus(x, 0x200, r.k9, s.k9);
    XorSwap(Bit(x, 1, r.k0), Bit(x, 1, s.k0), Bit(x, 2, r.k1), Bit(x, 2, s.k1));
    XorSwap(Sum1(x, r), Sum1(x, s), Bit(x, 4, r.k2), Bit(x, 4, s.k2));
    XorSwap(Sum2(x, r), Sum2(x, s), Bit(x, 8, r.k3), Bit(x, 8, s.k3));
    XorSwap(Sum3(x, r), Sum3(x, s), Bit(x, 0x10, r.k4), Bit(x, 0x10, s.k4));
    XorSwap(Sum4(x, r), Sum4(x, s), Bit(x, 0x20, r.k5), Bit(x, 0x20, s.k5));
    XorSwap(Sum5(x, r), Sum5(x, s), Bit(x, 0x40, r.k6), Bit(x, 0x40, s.k6));
    XorSwap(Sum6(x, r), Sum6(x, s), Bit(x, 0x80, r.k7), Bit(x, 0x80, s.k7));
    XorSwap(Sum7(x, r), Sum7(x, s), Bit(x, 0x100, r.k8), Bit(x, 0x100, s.k8));
    XorSwap(Sum8(x, r), Sum8(x, s), Bit(x, 0x200, r.k9), Bit(x, 0x200, s.k9));
  }

  /** A power of e that is not one leaves nothing in place, as the difference to one can be undone. */
  lemma OnlyZeroStays(d: nat, r: Row, undo: Row, x: bv32)
    requires Table(d, r) && Compose(undo, Plus(r, UNIT)) == UNIT && Element(x) && Power(d, x) == x
    ensures x == 0
  {
    hide Apply, Power, Element, Compose, Plus, Xor;
    ApplyPlus(x, r, UNIT);
    OfBits(x);
    XorNone(x, x);
    ApplyTwice(x, Plus(r, UNIT), undo);
    ApplyNothing(undo);
  }

  const UNDO33 := Row(0x10, 0x9, 0x12, 0xd, 0x1a, 0x200, 0x120, 0x240, 0x1a0, 0x340)
  const UNDO93 := Row(0x17b, 0x2df, 0xb7, 0x147, 0x28e, 0x34c, 0x3b8, 0x279, 0x1fb, 0x3df)
  const UNDO341 := Row(0x16d, 0x2da, 0xbd, 0x153, 0x28f, 0x18c, 0x318, 0x339, 0x37b, 0x3ff)

  const LESS33 := Row(0x16, 0x5, 0xa, 0x14, 0x1, 0x2c0, 0xa0, 0x140, 0x280, 0x20)
  const LESS93 := Row(0x357, 0x3a7, 0x26e, 0x1fc, 0x3d1, 0x4a, 0x94, 0x101, 0x202, 0x124)
  const LESS341 := Row(0x16c, 0x2d8, 0xb9, 0x15b, 0x29f, 0x1ac, 0x358, 0x3b9, 0x27b, 0x1ff)

  lemma Less33() ensures Plus(R33, UNIT) == LESS33 {}
  lemma Undone33() ensures Compose(UNDO33, LESS33) == UNIT {}
  lemma Less93() ensures Plus(R93, UNIT) == LESS93 {}
  lemma Undone93() ensures Compose(UNDO93, LESS93) == UNIT {}
  lemma Less341() ensures Plus(R341, UNIT) == LESS341 {}
  lemma Undone341() ensures Compose(UNDO341, LESS341) == UNIT {}

  lemma DivisorsMove(d: nat, x: bv32)
    requires (d == 33 || d == 93 || d == 341) && Element(x) && Power(d, x) == x
    ensures x == 0
  {
    hide Power, Element, Compose, Plus, Table;
    if d == 33 {
      Table33();
      Less33();
      Undone33();
      OnlyZeroStays(33, R33, UNDO33, x);
    } else if d == 93 {
      Table93();
      Less93();
      Undone93();
      OnlyZeroStays(93, R93, UNDO93, x);
    } else {
      Table341();
      Less341();
      Undone341();
      OnlyZeroStays(341, R341, UNDO341, x);
    }
  }

  lemma {:induction false} Repeats(q: nat, d: nat, x: bv32)
    requires Power(d, x) == x
    ensures Power(q * d, x) == x
  {
    hide Apply;
    if q > 0 {
      Repeats(q - 1, d, x);
      assert q * d == d + (q - 1) * d;
      PowerAdd(d, (q - 1) * d, x);
    }
  }

  /** What comes back after `d` steps and after 1023 steps comes back after a common divisor of both. */
  lemma {:induction false} LeastReturn(d: nat, x: bv32) returns (o: nat)
    requires 0 < d < 1023 && Element(x) && Power(d, x) == x
    ensures 0 < o <= d && 1023 % o == 0 && Power(o, x) == x
  {
    hide Power, Element;
    var rest := 1023 % d;
    if rest == 0 {
      o := d;
    } else {
      var q := 1023 / d;
      Repeats(q, d, x);
      PowerAdd(rest, q * d, x);
      assert rest + q * d == 1023;
      Cycle(x);
      o := LeastReturn(rest, x);
    }
  }

  lemma Divides(o: nat)
    requires 0 < o < 1023 && 1023 % o == 0
    ensures 33 % o == 0 || 93 % o == 0 || 341 % o == 0
  {
    var q := 1023 / o;
    assert o * q == 1023;
    if o > 31 {
      assert q < 33;
      SmallDivisor(q, o);
    } else {
      SmallDivisor(o, q);
    }
  }

  lemma SmallDivisor(a: nat, b: nat)
    requires 0 < a < 33 && a * b == 1023
    ensures a == 1 || a == 3 || a == 11 || a == 31
    ensures a == 1 ==> b == 1023
    ensures a == 3 ==> b == 341
    ensures a == 11 ==> b == 93
    ensures a == 31 ==> b == 33
  {
  }

  /** Fewer than 1023 steps bring no element back but zero. */
  lemma NoReturn(d: nat, x: bv32)
    requires 0 < d < 1023 && Element(x) && Power(d, x) == x
    ensures x == 0
  {
    hide Power, Element;
    var o := LeastReturn(d, x);
    Divides(o);
    var n := if 33 % o == 0 then 33 else if 93 % o == 0 then 93 else 341;
    Repeats(n / o, o, x);
    assert n / o * o == n;
    DivisorsMove(n, x);
  }

  lemma DifferentPowers(p: nat, q: nat, x: bv32)
    requires p != q && p < q + 1023 && q < p + 1023 && Element(x) && Power(p, x) == Power(q, x)
    ensures x == 0
  {
    hide Power, Element;
    var low, d := if p < q then p else q, if p < q then q - p else p - q;
    PowerAdd(low, d, x);
    PowerElement(d, x);
    PowerInjective(low, Power(d, x), x);
    NoReturn(d, x);
  }
}
