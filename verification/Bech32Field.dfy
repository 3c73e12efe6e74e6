/** The field with 1024 elements in which the checksum polynomial has its roots, through one element and its powers. */
module Bech32Fields {
  import opened Bech32s

  ghost predicate Element(x: bv32) { x < 1024 }

  /** What a linear map makes of the ten bits. */
  datatype Row = Row(k0: bv32, k1: bv32, k2: bv32, k3: bv32, k4: bv32, k5: bv32, k6: bv32, k7: bv32, k8: bv32, k9: bv32) {
    ghost predicate Ok() {
      && Element(k0) && Element(k1) && Element(k2) && Element(k3) && Element(k4)
      && Element(k5) && Element(k6) && Element(k7) && Element(k8) && Element(k9)
    }
  }

  /** A value for a bit that is set. */
  function Bit(x: bv32, mask: bv32, k: bv32): bv32 { if x & mask != 0 then k else 0 }

  function Sum1(x: bv32, r: Row): bv32 { Bit(x, 1, r.k0) ^ Bit(x, 2, r.k1) }
  function Sum2(x: bv32, r: Row): bv32 { Sum1(x, r) ^ Bit(x, 4, r.k2) }
  function Sum3(x: bv32, r: Row): bv32 { Sum2(x, r) ^ Bit(x, 8, r.k3) }
  function Sum4(x: bv32, r: Row): bv32 { Sum3(x, r) ^ Bit(x, 0x10, r.k4) }
  function Sum5(x: bv32, r: Row): bv32 { Sum4(x, r) ^ Bit(x, 0x20, r.k5) }
  function Sum6(x: bv32, r: Row): bv32 { Sum5(x, r) ^ Bit(x, 0x40, r.k6) }
  function Sum7(x: bv32, r: Row): bv32 { Sum6(x, r) ^ Bit(x, 0x80, r.k7) }
  function Sum8(x: bv32, r: Row): bv32 { Sum7(x, r) ^ Bit(x, 0x100, r.k8) }

  /** The value of the map. */
  function Apply(x: bv32, r: Row): bv32 { Sum8(x, r) ^ Bit(x, 0x200, r.k9) }

  /** First the map `s` and then the map `r`. */
  function Compose(r: Row, s: Row): Row {
    Row(Apply(s.k0, r), Apply(s.k1, r), Apply(s.k2, r), Apply(s.k3, r), Apply(s.k4, r),
        Apply(s.k5, r), Apply(s.k6, r), Apply(s.k7, r), Apply(s.k8, r), Apply(s.k9, r))
  }

  lemma Sum1Is(x: bv32, r: Row)
    ensures Sum1(x, r) == Xor(Bit(x, 1, r.k0), Bit(x, 2, r.k1))
  {
    hide Sum2, Sum3, Sum4, Sum5, Sum6, Sum7, Sum8, Apply, Bit;
  }

  lemma Sum2Is(x: bv32, r: Row)
    ensures Sum2(x, r) == Xor(Sum1(x, r), Bit(x, 4, r.k2))
  {
    hide Sum1, Sum3, Sum4, Sum5, Sum6, Sum7, Sum8, Apply, Bit;
  }

  lemma Sum3Is(x: bv32, r: Row)
    ensures Sum3(x, r) == Xor(Sum2(x, r), Bit(x, 8, r.k3))
  {
    hide Sum1, Sum2, Sum4, Sum5, Sum6, Sum7, Sum8, Apply, Bit;
  }

  lemma Sum4Is(x: bv32, r: Row)
    ensures Sum4(x, r) == Xor(Sum3(x, r), Bit(x, 0x10, r.k4))
  {
    hide Sum1, Sum2, Sum3, Sum5, Sum6, Sum7, Sum8, Apply, Bit;
  }

  lemma Sum5Is(x: bv32, r: Row)
    ensures Sum5(x, r) == Xor(Sum4(x, r), Bit(x, 0x20, r.k5))
  {
    hide Sum1, Sum2, Sum3, Sum4, Sum6, Sum7, Sum8, Apply, Bit;
  }

  lemma Sum6Is(x: bv32, r: Row)
    ensures Sum6(x, r) == Xor(Sum5(x, r), Bit(x, 0x40, r.k6))
  {
    hide Sum1, Sum2, Sum3, Sum4, Sum5, Sum7, Sum8, Apply, Bit;
  }

  lemma Sum7Is(x: bv32, r: Row)
    ensures Sum7(x, r) == Xor(Sum6(x, r), Bit(x, 0x80, r.k7))
  {
    hide Sum1, Sum2, Sum3, Sum4, Sum5, Sum6, Sum8, Apply, Bit;
  }

  lemma Sum8Is(x: bv32, r: Row)
    ensures Sum8(x, r) == Xor(Sum7(x, r), Bit(x, 0x100, r.k8))
  {
    hide Sum1, Sum2, Sum3, Sum4, Sum5, Sum6, Sum7, Apply, Bit;
  }

  lemma Sum9Is(x: bv32, r: Row)
    ensures Apply(x, r) == Xor(Sum8(x, r), Bit(x, 0x200, r.k9))
  {
    hide Sum1, Sum2, Sum3, Sum4, Sum5, Sum6, Sum7, Sum8, Bit;
  }

  /** The value is summed up bit by bit. */
  lemma Chain(x: bv32, r: Row)
    ensures Sum1(x, r) == Xor(Bit(x, 1, r.k0), Bit(x, 2, r.k1))
    ensures Sum2(x, r) == Xor(Sum1(x, r), Bit(x, 4, r.k2))
    ensures Sum3(x, r) == Xor(Sum2(x, r), Bit(x, 8, r.k3))
    ensures Sum4(x, r) == Xor(Sum3(x, r), Bit(x, 0x10, r.k4))
    ensures Sum5(x, r) == Xor(Sum4(x, r), Bit(x, 0x20, r.k5))
    ensures Sum6(x, r) == Xor(Sum5(x, r), Bit(x, 0x40, r.k6))
    ensures Sum7(x, r) == Xor(Sum6(x, r), Bit(x, 0x80, r.k7))
    ensures Sum8(x, r) == Xor(Sum7(x, r), Bit(x, 0x100, r.k8))
    ensures Apply(x, r) == Xor(Sum8(x, r), Bit(x, 0x200, r.k9))
  {
    hide Sum1, Sum2, Sum3, Sum4, Sum5, Sum6, Sum7, Sum8, Apply, Xor, Bit;
    Sum1Is(x, r);
    Sum2Is(x, r);
    Sum3Is(x, r);
    Sum4Is(x, r);
    Sum5Is(x, r);
    Sum6Is(x, r);
    Sum7Is(x, r);
    Sum8Is(x, r);
    Sum9Is(x, r);
  }

  // ----- linear maps -----

  lemma BitLinear(x: bv32, y: bv32, mask: bv32, k: bv32)
    requires mask & (mask - 1) == 0
    ensures Bit(Xor(x, y), mask, k) == Xor(Bit(x, mask, k), Bit(y, mask, k))
  {
    assert ((x ^ y) & mask != 0) <==> (x & mask != 0) != (y & mask != 0);
    SelfInverse(k);
  }

  lemma ApplyLinear(x: bv32, y: bv32, r: Row)
    ensures Apply(Xor(x, y), r) == Xor(Apply(x, r), Apply(y, r))
  {
    hide Sum1, Sum2, Sum3, Sum4, Sum5, Sum6, Sum7, Sum8, Apply, Xor, Bit;
    Chain(x, r);
    Chain(y, r);
    Chain(Xor(x, y), r);
    BitLinear(x, y, 1, r.k0);
    BitLinear(x, y, 2, r.k1);
    BitLinear(x, y, 4, r.k2);
    BitLinear(x, y, 8, r.k3);
    BitLinear(x, y, 0x10, r.k4);
    BitLinear(x, y, 0x20, r.k5);
    BitLinear(x, y, 0x40, r.k6);
    BitLinear(x, y, 0x80, r.k7);
    BitLinear(x, y, 0x100, r.k8);
    BitLinear(x, y, 0x200, r.k9);
    XorSwap(Bit(x, 1, r.k0), Bit(y, 1, r.k0), Bit(x, 2, r.k1), Bit(y, 2, r.k1));
    XorSwap(Sum1(x, r), Sum1(y, r), Bit(x, 4, r.k2), Bit(y, 4, r.k2));
    XorSwap(Sum2(x, r), Sum2(y, r), Bit(x, 8, r.k3), Bit(y, 8, r.k3));
    XorSwap(Sum3(x, r), Sum3(y, r), Bit(x, 0x10, r.k4), Bit(y, 0x10, r.k4));
    XorSwap(Sum4(x, r), Sum4(y, r), Bit(x, 0x20, r.k5), Bit(y, 0x20, r.k5));
    XorSwap(Sum5(x, r), Sum5(y, r), Bit(x, 0x40, r.k6), Bit(y, 0x40, r.k6));
    XorSwap(Sum6(x, r), Sum6(y, r), Bit(x, 0x80, r.k7), Bit(y, 0x80, r.k7));
    XorSwap(Sum7(x, r), Sum7(y, r), Bit(x, 0x100, r.k8), Bit(y, 0x100, r.k8));
    XorSwap(Sum8(x, r), Sum8(y, r), Bit(x, 0x200, r.k9), Bit(y, 0x200, r.k9));
  }

  lemma XorElement(x: bv32, y: bv32)
    requires Element(x) && Element(y)
    ensures Element(Xor(x, y))
  {
  }

  lemma XorNone(x: bv32, y: bv32)
    ensures Xor(x, y) == 0 <==> x == y
  {
  }

  lemma AddElement(s: bv32, x: bv32, mask: bv32, k: bv32)
    requires Element(s) && Element(k)
    ensures Element(Xor(s, Bit(x, mask, k)))
  {
    hide Xor;
    XorElement(s, k);
    XorElement(s, 0);
  }

  lemma ApplyElement(x: bv32, r: Row)
    requires r.Ok()
    ensures Element(Apply(x, r))
  {
    hide Sum1, Sum2, Sum3, Sum4, Sum5, Sum6, Sum7, Sum8, Apply, Xor, Bit, Element;
    Chain(x, r);
    OneBit(x, 1, r.k0);
    AddElement(Bit(x, 1, r.k0), x, 2, r.k1);
    AddElement(Sum1(x, r), x, 4, r.k2);
    AddElement(Sum2(x, r), x, 8, r.k3);
    AddElement(Sum3(x, r), x, 0x10, r.k4);
    AddElement(Sum4(x, r), x, 0x20, r.k5);
    AddElement(Sum5(x, r), x, 0x40, r.k6);
    AddElement(Sum6(x, r), x, 0x80, r.k7);
    AddElement(Sum7(x, r), x, 0x100, r.k8);
    AddElement(Sum8(x, r), x, 0x200, r.k9);
  }

  lemma OneBit(x: bv32, mask: bv32, k: bv32)
    requires Element(k)
    ensures Element(Bit(x, mask, k))
  {
  }

  /** The map that changes nothing. */
  const UNIT := Row(1, 2, 4, 8, 0x10, 0x20, 0x40, 0x80, 0x100, 0x200)

  /** An element is made up of its bits. */
  lemma OfBits(x: bv32)
    requires Element(x)
    ensures Apply(x, UNIT) == x
  {
    hide Sum1, Sum2, Sum3, Sum4, Sum5, Sum6, Sum7, Sum8, Apply, Xor, Bit;
    Chain(x, UNIT);
    FirstBit(x);
    NextBit(x, 1, 2, Bit(x, 1, 1));
    NextBit(x, 0x3, 4, Sum1(x, UNIT));
    NextBit(x, 0x7, 8, Sum2(x, UNIT));
    NextBit(x, 0xf, 0x10, Sum3(x, UNIT));
    NextBit(x, 0x1f, 0x20, Sum4(x, UNIT));
    NextBit(x, 0x3f, 0x40, Sum5(x, UNIT));
    NextBit(x, 0x7f, 0x80, Sum6(x, UNIT));
    NextBit(x, 0xff, 0x100, Sum7(x, UNIT));
    NextBit(x, 0x1ff, 0x200, Sum8(x, UNIT));
    assert x & 0x3ff == x;
  }

  lemma FirstBit(x: bv32)
    ensures Bit(x, 1, 1) == x & 1
  {
  }

  lemma NextBit(x: bv32, done: bv32, mask: bv32, sum: bv32)
    requires mask & (mask - 1) == 0 && done & mask == 0 && sum == x & done
    ensures Xor(sum, Bit(x, mask, mask)) == x & (done | mask)
  {
    assert Bit(x, mask, mask) == x & mask;
  }

  lemma ApplyNothing(r: Row)
    ensures Apply(0, r) == 0
  {
  }

  lemma BitApplied(x: bv32, mask: bv32, k: bv32, r: Row)
    ensures Apply(Bit(x, mask, k), r) == Bit(x, mask, Apply(k, r))
  {
    hide Apply;
    ApplyNothing(r);
  }

  lemma AddApplied(sum: bv32, x: bv32, mask: bv32, k: bv32, r: Row)
    ensures Apply(Xor(sum, Bit(x, mask, k)), r) == Xor(Apply(sum, r), Bit(x, mask, Apply(k, r)))
  {
    hide Apply, Xor, Bit;
    ApplyLinear(sum, Bit(x, mask, k), r);
    BitApplied(x, mask, k, r);
  }

  /** Maps one after the other. */
  lemma ApplyTwice(x: bv32, s: Row, r: Row)
    ensures Apply(Apply(x, s), r) == Apply(x, Compose(r, s))
  {
    hide Sum1, Sum2, Sum3, Sum4, Sum5, Sum6, Sum7, Sum8, Apply, Xor, Bit;
    Chain(x, s);
    Chain(x, Compose(r, s));
    BitApplied(x, 1, s.k0, r);
    AddApplied(Bit(x, 1, s.k0), x, 2, s.k1, r);
    AddApplied(Sum1(x, s), x, 4, s.k2, r);
    AddApplied(Sum2(x, s), x, 8, s.k3, r);
    AddApplied(Sum3(x, s), x, 0x10, s.k4, r);
    AddApplied(Sum4(x, s), x, 0x20, s.k5, r);
    AddApplied(Sum5(x, s), x, 0x40, s.k6, r);
    AddApplied(Sum6(x, s), x, 0x80, s.k7, r);
    AddApplied(Sum7(x, s), x, 0x100, s.k8, r);
    AddApplied(Sum8(x, s), x, 0x200, s.k9, r);
  }

  // ----- powers of e -----

  /** Multiplying by e: an element is a pair of values of five bits, and e * e is 9 * e + 23. */
  const E1 := Row(0x20, 0x40, 0x80, 0x100, 0x200, 0x137, 0x247, 0x1ae, 0x35c, 0x3b1)

  /** Dividing by e. */
  const BACK := Row(0x266, 0x1ec, 0x3d8, 0x2b9, 0x7b, 0x1, 0x2, 0x4, 0x8, 0x10)

  /** Multiply by a power of e. */
  ghost function Power(k: nat, x: bv32): bv32 {
    if k == 0 then x else Apply(Power(k - 1, x), E1)
  }

  lemma TimesE(x: bv32)
    requires Element(x)
    ensures Element(Apply(x, E1)) && (Apply(x, E1) == 0 ==> x == 0)
  {
    hide Apply;
    assert E1.Ok();
    ApplyElement(x, E1);
    ApplyTwice(x, E1, BACK);
    BackOfE();
    OfBits(x);
    ApplyNothing(BACK);
  }

  lemma BackOfE()
    ensures Compose(BACK, E1) == UNIT
  {
  }

  lemma {:induction false} PowerElement(k: nat, x: bv32)
    requires Element(x)
    ensures Element(Power(k, x)) && (Power(k, x) == 0 ==> x == 0)
  {
    hide Apply, Element;
    if k > 0 {
      PowerElement(k - 1, x);
      TimesE(Power(k - 1, x));
    }
  }

  lemma {:induction false} PowerLinear(k: nat, x: bv32, y: bv32)
    ensures Power(k, Xor(x, y)) == Xor(Power(k, x), Power(k, y))
  {
    hide Apply, Xor;
    if k > 0 {
      PowerLinear(k - 1, x, y);
      ApplyLinear(Power(k - 1, x), Power(k - 1, y), E1);
    }
  }

  lemma {:induction false} PowerAdd(j: nat, k: nat, x: bv32)
    ensures Power(j + k, x) == Power(j, Power(k, x))
  {
    hide Apply;
    if j > 0 {
      PowerAdd(j - 1, k, x);
    }
  }

  lemma {:induction false} PowerNothing(k: nat)
    ensures Power(k, 0) == 0
  {
    hide Apply;
    if k > 0 {
      PowerNothing(k - 1);
      ApplyNothing(E1);
    }
  }

  lemma PowerInjective(k: nat, x: bv32, y: bv32)
    requires Element(x) && Element(y) && Power(k, x) == Power(k, y)
    ensures x == y
  {
    hide Element, Xor, Power;
    PowerLinear(k, x, y);
    XorElement(x, y);
    XorNone(x, y);
    XorNone(Power(k, x), Power(k, y));
    PowerElement(k, Xor(x, y));
  }

  // ----- tables -----

  /** A row has what a power of e makes of the bits. */
  ghost predicate Table(k: nat, r: Row) {
    r.Ok() && forall x :: Element(x) ==> Power(k, x) == Apply(x, r)
  }

  lemma TableCompose(j: nat, r: Row, k: nat, s: Row)
    requires Table(j, r) && Table(k, s)
    ensures Table(j + k, Compose(r, s))
  {
    hide Apply, Power, Element;
    ComposeOk(r, s);
    forall x | Element(x) ensures Power(j + k, x) == Apply(x, Compose(r, s)) {
      PowerAdd(j, k, x);
      ApplyElement(x, s);
      ApplyTwice(x, s, r);
    }
  }

  lemma ComposeOk(r: Row, s: Row)
    requires r.Ok() && s.Ok()
    ensures Compose(r, s).Ok()
  {
    hide Apply, Element;
    ApplyElement(s.k0, r);
    ApplyElement(s.k1, r);
    ApplyElement(s.k2, r);
    ApplyElement(s.k3, r);
    ApplyElement(s.k4, r);
    ApplyElement(s.k5, r);
    ApplyElement(s.k6, r);
    ApplyElement(s.k7, r);
    ApplyElement(s.k8, r);
    ApplyElement(s.k9, r);
  }
}
