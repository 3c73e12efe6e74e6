/** The checksum polynomial at three powers of e: it is zero there, so that a residue has the value of its polynomial. */
module Bech32Syndromes {
  import opened Bech32s
  import opened Bech32Fields
  import opened Bech32Orders

  // ----- values of residues -----

  /** One step of evaluating a polynomial at the `m`-th power of e. */
  ghost function Next(m: nat, acc: bv32, g: bv32): bv32 { Xor(Power(m, acc), g) }

  /** The value of a residue, whose groups are the coefficients of a polynomial, at the `m`-th power of e. */
  ghost function At(m: nat, c: bv32): bv32 {
    Next(m, Next(m, Next(m, Next(m, Next(m, Group25(c), Group20(c)), Group15(c)), Group10(c)), Group5(c)), Group0(c))
  }

  lemma Group25Xor(c: bv32, d: bv32)
    ensures Group25(Xor(c, d)) == Xor(Group25(c), Group25(d))
  {
    assert ((c ^ d) >> 25) & 31 == ((c >> 25) & 31) ^ ((d >> 25) & 31);
  }

  lemma Group20Xor(c: bv32, d: bv32)
    ensures Group20(Xor(c, d)) == Xor(Group20(c), Group20(d))
  {
    assert ((c ^ d) >> 20) & 31 == ((c >> 20) & 31) ^ ((d >> 20) & 31);
  }

  lemma Group15Xor(c: bv32, d: bv32)
    ensures Group15(Xor(c, d)) == Xor(Group15(c), Group15(d))
  {
    assert ((c ^ d) >> 15) & 31 == ((c >> 15) & 31) ^ ((d >> 15) & 31);
  }

  lemma Group10Xor(c: bv32, d: bv32)
    ensures Group10(Xor(c, d)) == Xor(Group10(c), Group10(d))
  {
    assert ((c ^ d) >> 10) & 31 == ((c >> 10) & 31) ^ ((d >> 10) & 31);
  }

  lemma Group5Xor(c: bv32, d: bv32)
    ensures Group5(Xor(c, d)) == Xor(Group5(c), Group5(d))
  {
    assert ((c ^ d) >> 5) & 31 == ((c >> 5) & 31) ^ ((d >> 5) & 31);
  }

  lemma Group0Xor(c: bv32, d: bv32)
    ensures Group0(Xor(c, d)) == Xor(Group0(c), Group0(d))
  {
    assert (c ^ d) & 31 == (c & 31) ^ (d & 31);
  }

  lemma GroupsXor(c: bv32, d: bv32)
    ensures Group25(Xor(c, d)) == Xor(Group25(c), Group25(d)) && Group20(Xor(c, d)) == Xor(Group20(c), Group20(d))
    ensures Group15(Xor(c, d)) == Xor(Group15(c), Group15(d)) && Group10(Xor(c, d)) == Xor(Group10(c), Group10(d))
    ensures Group5(Xor(c, d)) == Xor(Group5(c), Group5(d)) && Group0(Xor(c, d)) == Xor(Group0(c), Group0(d))
  {
    hide Xor, Group25, Group20, Group15, Group10, Group5, Group0;
    Group25Xor(c, d);
    Group20Xor(c, d);
    Group15Xor(c, d);
    Group10Xor(c, d);
    Group5Xor(c, d);
    Group0Xor(c, d);
  }

  lemma NextLinear(m: nat, a: bv32, b: bv32, g: bv32, h: bv32)
    ensures Next(m, Xor(a, b), Xor(g, h)) == Xor(Next(m, a, g), Next(m, b, h))
  {
    hide Xor, Power;
    PowerLinear(m, a, b);
    XorSwap(Power(m, a), Power(m, b), g, h);
  }

  lemma AtLinear(m: nat, c: bv32, d: bv32)
    ensures At(m, Xor(c, d)) == Xor(At(m, c), At(m, d))
  {
    hide Xor, Next, Group25, Group20, Group15, Group10, Group5, Group0;
    GroupsXor(c, d);
    var c1, d1 := Next(m, Group25(c), Group20(c)), Next(m, Group25(d), Group20(d));
    var c2, d2 := Next(m, c1, Group15(c)), Next(m, d1, Group15(d));
    var c3, d3 := Next(m, c2, Group10(c)), Next(m, d2, Group10(d));
    var c4, d4 := Next(m, c3, Group5(c)), Next(m, d3, Group5(d));
    NextLinear(m, Group25(c), Group25(d), Group20(c), Group20(d));
    NextLinear(m, c1, d1, Group15(c), Group15(d));
    NextLinear(m, c2, d2, Group10(c), Group10(d));
    NextLinear(m, c3, d3, Group5(c), Group5(d));
    NextLinear(m, c4, d4, Group0(c), Group0(d));
  }

  lemma AtSymbol(m: nat, v: bv32)
    requires v < 32
    ensures At(m, v) == v
  {
    hide Xor, Power;
    SymbolGroups(v);
    PowerNothing(m);
    XorZero(0);
    XorZero(v);
  }

  lemma SymbolGroups(v: bv32)
    requires v < 32
    ensures Group25(v) == 0 && Group20(v) == 0 && Group15(v) == 0 && Group10(v) == 0 && Group5(v) == 0 && Group0(v) == v
  {
  }

  // ----- the roots -----

  /** Multiply six times. */
  ghost function Six(m: nat, x: bv32): bv32 { Power(m, Power(m, Power(m, Power(m, Power(m, Power(m, x)))))) }

  /** At the `m`-th power of e, what is left of a sixth power modulo the generator has the value of the sixth power. */
  ghost predicate Root(m: nat) {
    && At(m, 0x3b6a57b2) == Six(m, 1) && At(m, 0x26508e6d) == Six(m, 2) && At(m, 0x1ea119fa) == Six(m, 4)
    && At(m, 0x3d4233dd) == Six(m, 8) && At(m, 0x2a1462b3) == Six(m, 16)
  }

  /** The same with a row for the power. */
  function RowNext(r: Row, acc: bv32, g: bv32): bv32 { Apply(acc, r) ^ g }

  function RowAt(r: Row, c: bv32): bv32 {
    RowNext(r, RowNext(r, RowNext(r, RowNext(r, RowNext(r, Group25(c), Group20(c)), Group15(c)), Group10(c)), Group5(c)), Group0(c))
  }

  function RowSix(r: Row, x: bv32): bv32 { Apply(Apply(Apply(Apply(Apply(Apply(x, r), r), r), r), r), r) }

  lemma RowNextIs(m: nat, r: Row, acc: bv32, g: bv32)
    requires Table(m, r) && Element(acc) && Element(g)
    ensures RowNext(r, acc, g) == Next(m, acc, g) && Element(Next(m, acc, g))
  {
    hide Apply, Power, Element, RowNext, Xor;
    ApplyElement(acc, r);
    RowNextXor(r, acc, g);
    XorElement(Apply(acc, r), g);
  }

  lemma RowNextXor(r: Row, acc: bv32, g: bv32)
    ensures RowNext(r, acc, g) == Xor(Apply(acc, r), g)
  {
    hide Apply;
  }

  lemma RowAtIs(m: nat, r: Row, c: bv32)
    requires Table(m, r)
    ensures RowAt(r, c) == At(m, c) && Element(At(m, c))
  {
    hide Next, RowNext, Table, Element, Group25, Group20, Group15, Group10, Group5, Group0;
    GroupsAreElements(c);
    var c1 := Next(m, Group25(c), Group20(c));
    var c2 := Next(m, c1, Group15(c));
    var c3 := Next(m, c2, Group10(c));
    RowNextIs(m, r, Group25(c), Group20(c));
    RowNextIs(m, r, c1, Group15(c));
    RowNextIs(m, r, c2, Group10(c));
    RowNextIs(m, r, c3, Group5(c));
    RowNextIs(m, r, Next(m, c3, Group5(c)), Group0(c));
  }

  lemma GroupsAreElements(c: bv32)
    ensures Element(Group25(c)) && Element(Group20(c)) && Element(Group15(c))
    ensures Element(Group10(c)) && Element(Group5(c)) && Element(Group0(c))
  {
  }

  lemma RowSixIs(m: nat, r: Row, x: bv32)
    requires Table(m, r) && Element(x)
    ensures RowSix(r, x) == Six(m, x)
  {
    hide Apply, Power, Element;
    ApplyElement(x, r);
    var x2 := Apply(Apply(x, r), r);
    ApplyElement(Apply(x, r), r);
    ApplyElement(x2, r);
    ApplyElement(Apply(x2, r), r);
    ApplyElement(Apply(Apply(x2, r), r), r);
  }

  lemma At997Of1() ensures RowAt(R997, 0x3b6a57b2) == RowSix(R997, 1) {}
  lemma At997Of2() ensures RowAt(R997, 0x26508e6d) == RowSix(R997, 2) {}
  lemma At997Of4() ensures RowAt(R997, 0x1ea119fa) == RowSix(R997, 4) {}
  lemma At997Of8() ensures RowAt(R997, 0x3d4233dd) == RowSix(R997, 8) {}
  lemma At997Of16() ensures RowAt(R997, 0x2a1462b3) == RowSix(R997, 16) {}
  lemma At998Of1() ensures RowAt(R998, 0x3b6a57b2) == RowSix(R998, 1) {}
  lemma At998Of2() ensures RowAt(R998, 0x26508e6d) == RowSix(R998, 2) {}
  lemma At998Of4() ensures RowAt(R998, 0x1ea119fa) == RowSix(R998, 4) {}
  lemma At998Of8() ensures RowAt(R998, 0x3d4233dd) == RowSix(R998, 8) {}
  lemma At998Of16() ensures RowAt(R998, 0x2a1462b3) == RowSix(R998, 16) {}
  lemma At999Of1() ensures RowAt(R999, 0x3b6a57b2) == RowSix(R999, 1) {}
  lemma At999Of2() ensures RowAt(R999, 0x26508e6d) == RowSix(R999, 2) {}
  lemma At999Of4() ensures RowAt(R999, 0x1ea119fa) == RowSix(R999, 4) {}
  lemma At999Of8() ensures RowAt(R999, 0x3d4233dd) == RowSix(R999, 8) {}
  lemma At999Of16() ensures RowAt(R999, 0x2a1462b3) == RowSix(R999, 16) {}

  lemma RootBy(m: nat, r: Row)
    requires Table(m, r)
    requires RowAt(r, 0x3b6a57b2) == RowSix(r, 1) && RowAt(r, 0x26508e6d) == RowSix(r, 2) && RowAt(r, 0x1ea119fa) == RowSix(r, 4)
    requires RowAt(r, 0x3d4233dd) == RowSix(r, 8) && RowAt(r, 0x2a1462b3) == RowSix(r, 16)
    ensures Root(m)
  {
    hide Table, RowAt, RowSix, At, Six;
    RowAtIs(m, r, 0x3b6a57b2);
    RowAtIs(m, r, 0x26508e6d);
    RowAtIs(m, r, 0x1ea119fa);
    RowAtIs(m, r, 0x3d4233dd);
    RowAtIs(m, r, 0x2a1462b3);
    RowSixIs(m, r, 1);
    RowSixIs(m, r, 2);
    RowSixIs(m, r, 4);
    RowSixIs(m, r, 8);
    RowSixIs(m, r, 16);
  }

  lemma Root997()
    ensures Root(997)
  {
    hide Table, RowAt, RowSix, Root;
    Table997();
    At997Of1();
    At997Of2();
    At997Of4();
    At997Of8();
    At997Of16();
    RootBy(997, R997);
  }

  lemma Root998()
    ensures Root(998)
  {
    hide Table, RowAt, RowSix, Root;
    Table998();
    At998Of1();
    At998Of2();
    At998Of4();
    At998Of8();
    At998Of16();
    RootBy(998, R998);
  }

  lemma Root999()
    ensures Root(999)
  {
    hide Table, RowAt, RowSix, Root;
    Table999();
    At999Of1();
    At999Of2();
    At999Of4();
    At999Of8();
    At999Of16();
    RootBy(999, R999);
  }

  // ----- how the value changes with the residue -----

  lemma TimesXIs(c: bv32)
    ensures TimesX(c) == Xor(Xor(Xor(Xor(Xor(Shifted(c), Term1(c)), Term2(c)), Term4(c)), Term8(c)), Term16(c))
  {
    hide Xor, TimesX, Shifted, Part1, Part2, Part4, Part8, Term1, Term2, Term4, Term8, Term16;
    Part1Is(c);
    Part2Is(c);
    Part4Is(c);
    Part8Is(c);
    Part16Is(c);
  }

  lemma Part1Is(c: bv32) ensures Part1(c) == Xor(Shifted(c), Term1(c)) { hide Shifted, Term1; }
  lemma Part2Is(c: bv32) ensures Part2(c) == Xor(Part1(c), Term2(c)) { hide Part1, Term2; }
  lemma Part4Is(c: bv32) ensures Part4(c) == Xor(Part2(c), Term4(c)) { hide Part2, Term4; }
  lemma Part8Is(c: bv32) ensures Part8(c) == Xor(Part4(c), Term8(c)) { hide Part4, Term8; }
  lemma Part16Is(c: bv32) ensures TimesX(c) == Xor(Part8(c), Term16(c)) { hide Part8, Term16; }

  /** The top group, and a residue without it. */
  function Lower(c: bv32): bv32 { c & 0x1ffffff }
  function Upper(c: bv32): bv32 { c & 0x3e000000 }

  lemma Halves(c: bv32)
    requires c < 0x40000000
    ensures c == Xor(Lower(c), Upper(c))
  {
  }

  lemma ShiftedGroups(c: bv32)
    ensures var s := Shifted(c);
      && Group25(s) == Group20(c) && Group20(s) == Group15(c) && Group15(s) == Group10(c)
      && Group10(s) == Group5(c) && Group5(s) == Group0(c) && Group0(s) == 0
  {
  }

  lemma LowerGroups(c: bv32)
    ensures var l := Lower(c);
      && Group25(l) == 0 && Group20(l) == Group20(c) && Group15(l) == Group15(c)
      && Group10(l) == Group10(c) && Group5(l) == Group5(c) && Group0(l) == Group0(c)
  {
  }

  lemma UpperGroups(c: bv32)
    ensures var u := Upper(c);
      && Group25(u) == Group25(c) && Group20(u) == 0 && Group15(u) == 0 && Group10(u) == 0 && Group5(u) == 0 && Group0(u) == 0
  {
  }

  lemma NextNone(m: nat, x: bv32)
    ensures Next(m, 0, x) == x && Next(m, x, 0) == Power(m, x)
  {
    hide Xor, Power;
    PowerNothing(m);
    XorZero(x);
    XorZero(Power(m, x));
  }

  lemma AtShifted(m: nat, c: bv32)
    ensures At(m, Shifted(c)) == Power(m, At(m, Lower(c)))
  {
    hide Next, Power, Shifted, Lower, Group25, Group20, Group15, Group10, Group5, Group0;
    ShiftedGroups(c);
    LowerGroups(c);
    NextNone(m, Group20(c));
    NextNone(m, At(m, Lower(c)));
  }

  lemma AtUpper(m: nat, c: bv32)
    ensures Power(m, At(m, Upper(c))) == Six(m, Group25(c))
  {
    hide Next, Power, Upper, Group25, Group20, Group15, Group10, Group5, Group0;
    UpperGroups(c);
    var x := Group25(c);
    NextNone(m, x);
    NextNone(m, Power(m, x));
    NextNone(m, Power(m, Power(m, x)));
    NextNone(m, Power(m, Power(m, Power(m, x))));
    NextNone(m, Power(m, Power(m, Power(m, Power(m, x)))));
  }

  lemma SixLinear(m: nat, x: bv32, y: bv32)
    ensures Six(m, Xor(x, y)) == Xor(Six(m, x), Six(m, y))
  {
    hide Xor, Power;
    var x1, y1 := Power(m, x), Power(m, y);
    var x2, y2 := Power(m, x1), Power(m, y1);
    var x3, y3 := Power(m, x2), Power(m, y2);
    var x4, y4 := Power(m, x3), Power(m, y3);
    PowerLinear(m, x, y);
    PowerLinear(m, x1, y1);
    PowerLinear(m, x2, y2);
    PowerLinear(m, x3, y3);
    PowerLinear(m, x4, y4);
    PowerLinear(m, Power(m, x4), Power(m, y4));
  }

  /** The bits of the top group. */
  function Top1(c: bv32): bv32 { if c & 0x2000000 != 0 then 1 else 0 }
  function Top2(c: bv32): bv32 { if c & 0x4000000 != 0 then 2 else 0 }
  function Top4(c: bv32): bv32 { if c & 0x8000000 != 0 then 4 else 0 }
  function Top8(c: bv32): bv32 { if c & 0x10000000 != 0 then 8 else 0 }
  function Top16(c: bv32): bv32 { if c & 0x20000000 != 0 then 16 else 0 }

  lemma TopBits(c: bv32)
    ensures Group25(c) == Xor(Xor(Xor(Xor(Top1(c), Top2(c)), Top4(c)), Top8(c)), Top16(c))
  {
    assert Top1(c) == (c >> 25) & 1;
    assert Top2(c) == (c >> 25) & 2;
    assert Top4(c) == (c >> 25) & 4;
    assert Top8(c) == (c >> 25) & 8;
    assert Top16(c) == (c >> 25) & 16;
  }

  lemma SixNothing(m: nat)
    ensures Six(m, 0) == 0 && At(m, 0) == 0
  {
    hide Power;
    PowerNothing(m);
    AtSymbol(m, 0);
  }

  lemma AtTerms(m: nat, c: bv32)
    requires Root(m)
    ensures At(m, Term1(c)) == Six(m, Top1(c)) && At(m, Term2(c)) == Six(m, Top2(c)) && At(m, Term4(c)) == Six(m, Top4(c))
    ensures At(m, Term8(c)) == Six(m, Top8(c)) && At(m, Term16(c)) == Six(m, Top16(c))
  {
    hide At, Six;
    SixNothing(m);
  }

  lemma AtTermsSum(m: nat, c: bv32)
    requires Root(m)
    ensures At(m, TimesX(c)) == Xor(At(m, Shifted(c)), Six(m, Group25(c)))
  {
    hide Xor, At, Six, TimesX, Shifted, Term1, Term2, Term4, Term8, Term16, Top1, Top2, Top4, Top8, Top16, Group25, Root;
    TimesXIs(c);
    TopBits(c);
    AtTerms(m, c);
    var s1 := Xor(Shifted(c), Term1(c));
    var s2 := Xor(s1, Term2(c));
    var s3 := Xor(s2, Term4(c));
    AtLinear(m, Shifted(c), Term1(c));
    AtLinear(m, s1, Term2(c));
    AtLinear(m, s2, Term4(c));
    AtLinear(m, s3, Term8(c));
    AtLinear(m, Xor(s3, Term8(c)), Term16(c));
    var t2 := Xor(Top1(c), Top2(c));
    var t3 := Xor(t2, Top4(c));
    SixLinear(m, Top1(c), Top2(c));
    SixLinear(m, t2, Top4(c));
    SixLinear(m, t3, Top8(c));
    SixLinear(m, Xor(t3, Top8(c)), Top16(c));
    XorLast(At(m, Shifted(c)), Six(m, Top1(c)), Six(m, Top2(c)), Six(m, Top4(c)), Six(m, Top8(c)), Six(m, Top16(c)));
  }

  lemma XorLast(a: bv32, b: bv32, c: bv32, d: bv32, e: bv32, f: bv32)
    ensures Xor(Xor(Xor(Xor(Xor(a, b), c), d), e), f) == Xor(a, Xor(Xor(Xor(Xor(b, c), d), e), f))
  {
    hide Xor;
    XorAssoc(a, b, c);
    XorAssoc(a, Xor(b, c), d);
    XorAssoc(a, Xor(Xor(b, c), d), e);
    XorAssoc(a, Xor(Xor(Xor(b, c), d), e), f);
  }

  /** Multiplying a residue by x multiplies its value by the power of e. */
  lemma AtTimesX(m: nat, c: bv32)
    requires Root(m) && c < 0x40000000
    ensures At(m, TimesX(c)) == Power(m, At(m, c))
  {
    hide Xor, At, Six, TimesX, Shifted, Lower, Upper, Power, Root, Group25;
    AtTermsSum(m, c);
    AtShifted(m, c);
    AtUpper(m, c);
    Halves(c);
    AtLinear(m, Lower(c), Upper(c));
    PowerLinear(m, At(m, Lower(c)), At(m, Upper(c)));
  }
}
