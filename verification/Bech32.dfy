/** The Bech32 and Bech32m string formats of BIP 173 and BIP 350. */
module Bech32s {

  const CHECKSUM_SIZE := 6
  const SEPARATOR := '1'

  datatype Encoding = Bech32 | Bech32m

  datatype Decoded = Invalid | Valid(encoding: Encoding, hrp: string, data: seq<bv32>)

  /** Values of five bits. */
  ghost predicate Symbols(v: seq<bv32>) {
    forall i :: 0 <= i < |v| ==> v[i] < 32
  }

  function EncodingConstant(encoding: Encoding): bv32 {
    if encoding.Bech32? then 1 else 0x2bc830a3
  }

  // ----- the checksum polynomial -----

  function Xor(a: bv32, b: bv32): bv32 { a ^ b }

  function Shifted(c: bv32): bv32 { (c & 0x1ffffff) << 5 }

  /** Multiples of the generator that belong to the bits of the top symbol. */
  function Term1(c: bv32): bv32 { if c & 0x2000000 != 0 then 0x3b6a57b2 else 0 }
  function Term2(c: bv32): bv32 { if c & 0x4000000 != 0 then 0x26508e6d else 0 }
  function Term4(c: bv32): bv32 { if c & 0x8000000 != 0 then 0x1ea119fa else 0 }
  function Term8(c: bv32): bv32 { if c & 0x10000000 != 0 then 0x3d4233dd else 0 }
  function Term16(c: bv32): bv32 { if c & 0x20000000 != 0 then 0x2a1462b3 else 0 }

  function Part1(c: bv32): bv32 { Shifted(c) ^ Term1(c) }
  function Part2(c: bv32): bv32 { Part1(c) ^ Term2(c) }
  function Part4(c: bv32): bv32 { Part2(c) ^ Term4(c) }
  function Part8(c: bv32): bv32 { Part4(c) ^ Term8(c) }

  /** Multiply by x, modulo the generator. */
  function TimesX(c: bv32): bv32 { Part8(c) ^ Term16(c) }

  /** The residue of the polynomial with leading part `c` and the given further coefficients. */
  function Residue(c: bv32, v: seq<bv32>): bv32
    decreases v
  {
    if v == [] then c else Residue(Xor(TimesX(c), v[0]), v[1..])
  }

  lemma SelfInverse(k: bv32)
    ensures k ^ k == 0 && k ^ 0 == k && 0 ^ k == k
  {
  }

  lemma Term1Linear(c: bv32, d: bv32)
    ensures Term1(Xor(c, d)) == Xor(Term1(c), Term1(d))
  {
    assert ((c ^ d) & 0x2000000 != 0) <==> (c & 0x2000000 != 0) != (d & 0x2000000 != 0);
    SelfInverse(0x3b6a57b2);
  }

  lemma Term2Linear(c: bv32, d: bv32)
    ensures Term2(Xor(c, d)) == Xor(Term2(c), Term2(d))
  {
    assert ((c ^ d) & 0x4000000 != 0) <==> (c & 0x4000000 != 0) != (d & 0x4000000 != 0);
    SelfInverse(0x26508e6d);
  }

  lemma Term4Linear(c: bv32, d: bv32)
    ensures Term4(Xor(c, d)) == Xor(Term4(c), Term4(d))
  {
    assert ((c ^ d) & 0x8000000 != 0) <==> (c & 0x8000000 != 0) != (d & 0x8000000 != 0);
    SelfInverse(0x1ea119fa);
  }

  lemma Term8Linear(c: bv32, d: bv32)
    ensures Term8(Xor(c, d)) == Xor(Term8(c), Term8(d))
  {
    assert ((c ^ d) & 0x10000000 != 0) <==> (c & 0x10000000 != 0) != (d & 0x10000000 != 0);
    SelfInverse(0x3d4233dd);
  }

  lemma Term16Linear(c: bv32, d: bv32)
    ensures Term16(Xor(c, d)) == Xor(Term16(c), Term16(d))
  {
    assert ((c ^ d) & 0x20000000 != 0) <==> (c & 0x20000000 != 0) != (d & 0x20000000 != 0);
    SelfInverse(0x2a1462b3);
  }

  lemma ShiftedLinear(c: bv32, d: bv32)
    ensures Shifted(Xor(c, d)) == Xor(Shifted(c), Shifted(d))
  {
    assert ((c ^ d) & 0x1ffffff) << 5 == ((c & 0x1ffffff) << 5) ^ ((d & 0x1ffffff) << 5);
  }

  lemma XorIs(a: bv32, b: bv32)
    ensures Xor(a, b) == a ^ b
  {
  }

  lemma XorComm(a: bv32, b: bv32)
    ensures Xor(a, b) == Xor(b, a)
  {
  }

  lemma XorAssoc(a: bv32, b: bv32, c: bv32)
    ensures Xor(Xor(a, b), c) == Xor(a, Xor(b, c))
  {
  }

  lemma XorSwap(a: bv32, b: bv32, c: bv32, d: bv32)
    ensures Xor(Xor(a, b), Xor(c, d)) == Xor(Xor(a, c), Xor(b, d))
  {
    hide Xor;
    XorAssoc(a, b, Xor(c, d));
    XorAssoc(b, c, d);
    XorComm(b, c);
    XorAssoc(c, b, d);
    XorAssoc(a, c, Xor(b, d));
  }

  lemma Part1Linear(c: bv32, d: bv32)
    ensures Part1(Xor(c, d)) == Xor(Part1(c), Part1(d))
  {
    hide Xor, Shifted, Term1;
    ShiftedLinear(c, d);
    Term1Linear(c, d);
    XorIs(Shifted(c), Term1(c));
    XorIs(Shifted(d), Term1(d));
    XorIs(Shifted(Xor(c, d)), Term1(Xor(c, d)));
    XorSwap(Shifted(c), Shifted(d), Term1(c), Term1(d));
  }

  lemma Part2Linear(c: bv32, d: bv32)
    ensures Part2(Xor(c, d)) == Xor(Part2(c), Part2(d))
  {
    hide Xor, Part1, Term2;
    Part1Linear(c, d);
    Term2Linear(c, d);
    XorIs(Part1(c), Term2(c));
    XorIs(Part1(d), Term2(d));
    XorIs(Part1(Xor(c, d)), Term2(Xor(c, d)));
    XorSwap(Part1(c), Part1(d), Term2(c), Term2(d));
  }

  lemma Part4Linear(c: bv32, d: bv32)
    ensures Part4(Xor(c, d)) == Xor(Part4(c), Part4(d))
  {
    hide Xor, Part2, Term4;
    Part2Linear(c, d);
    Term4Linear(c, d);
    XorIs(Part2(c), Term4(c));
    XorIs(Part2(d), Term4(d));
    XorIs(Part2(Xor(c, d)), Term4(Xor(c, d)));
    XorSwap(Part2(c), Part2(d), Term4(c), Term4(d));
  }

  lemma Part8Linear(c: bv32, d: bv32)
    ensures Part8(Xor(c, d)) == Xor(Part8(c), Part8(d))
  {
    hide Xor, Part4, Term8;
    Part4Linear(c, d);
    Term8Linear(c, d);
    XorIs(Part4(c), Term8(c));
    XorIs(Part4(d), Term8(d));
    XorIs(Part4(Xor(c, d)), Term8(Xor(c, d)));
    XorSwap(Part4(c), Part4(d), Term8(c), Term8(d));
  }

  /** Multiplication by x is linear. */
  lemma TimesXLinear(c: bv32, d: bv32)
    ensures TimesX(Xor(c, d)) == Xor(TimesX(c), TimesX(d))
  {
    hide Xor, Part8, Term16;
    Part8Linear(c, d);
    Term16Linear(c, d);
    XorIs(Part8(c), Term16(c));
    XorIs(Part8(d), Term16(d));
    XorIs(Part8(Xor(c, d)), Term16(Xor(c, d)));
    XorSwap(Part8(c), Part8(d), Term16(c), Term16(d));
  }

  lemma TimesXBound(c: bv32)
    requires c < 0x40000000
    ensures TimesX(c) < 0x40000000
  {
  }

  /** It is injective. */
  lemma TimesXInjective(c: bv32, d: bv32)
    requires c < 0x40000000 && d < 0x40000000 && TimesX(c) == TimesX(d)
    ensures c == d
  {
    TimesXLinear(c, d);
    SelfInverse(TimesX(c));
    XorBound(c, d);
    hide TimesX;
    TimesXKernel(Xor(c, d));
  }

  lemma TimesXKernel(c: bv32)
    requires c < 0x40000000 && TimesX(c) == 0
    ensures c == 0
  {
  }

  lemma XorBound(a: bv32, b: bv32)
    requires a < 0x40000000 && b < 0x40000000
    ensures Xor(a, b) < 0x40000000
  {
  }

  lemma {:induction false} ResidueAppend(c: bv32, v: seq<bv32>, w: seq<bv32>)
    ensures Residue(c, v + w) == Residue(Residue(c, v), w)
    decreases v
  {
    if v == [] {
      assert v + w == w;
    } else {
      assert (v + w)[1..] == v[1..] + w;
      ResidueAppend(Xor(TimesX(c), v[0]), v[1..], w);
    }
  }

  lemma {:induction false} ResidueBound(c: bv32, v: seq<bv32>)
    requires c < 0x40000000 && Symbols(v)
    ensures Residue(c, v) < 0x40000000
    decreases v
  {
    if v != [] {
      hide Xor, TimesX;
      TimesXBound(c);
      XorBound(TimesX(c), v[0]);
      ResidueBound(Xor(TimesX(c), v[0]), v[1..]);
    }
  }

  /** The residue tells leading parts apart, whatever follows. */
  lemma {:induction false} ResidueInjective(c: bv32, d: bv32, v: seq<bv32>)
    requires c < 0x40000000 && d < 0x40000000 && Symbols(v) && Residue(c, v) == Residue(d, v)
    ensures c == d
    decreases v
  {
    if v != [] {
      hide Xor, TimesX;
      TimesXBound(c);
      TimesXBound(d);
      XorBound(TimesX(c), v[0]);
      XorBound(TimesX(d), v[0]);
      ResidueInjective(Xor(TimesX(c), v[0]), Xor(TimesX(d), v[0]), v[1..]);
      XorCancels(TimesX(c), TimesX(d), v[0]);
      TimesXInjective(c, d);
    }
  }

  lemma XorCancels(a: bv32, b: bv32, x: bv32)
    ensures Xor(a, x) == Xor(b, x) <==> a == b
    ensures Xor(x, a) == Xor(x, b) <==> a == b
  {
  }

  /** Changing one symbol of a list always changes the residue. */
  lemma OneErrorIsDetected(v: seq<bv32>, i: nat, x: bv32)
    requires Symbols(v) && i < |v| && x < 32 && x != v[i]
    ensures Residue(1, v[i := x]) != Residue(1, v)
  {
    hide Xor, TimesX, Residue;
    var w := v[i := x];
    assert v == v[..i] + ([v[i]] + v[i + 1..]) && w == v[..i] + ([x] + v[i + 1..]);
    var c := Residue(1, v[..i]);
    ResidueBound(1, v[..i]);
    ResidueAppend(1, v[..i], [v[i]] + v[i + 1..]);
    ResidueAppend(1, v[..i], [x] + v[i + 1..]);
    ResidueNext(c, v[i], v[i + 1..]);
    ResidueNext(c, x, v[i + 1..]);
    TimesXBound(c);
    XorBound(TimesX(c), v[i]);
    XorBound(TimesX(c), x);
    XorCancels(v[i], x, TimesX(c));
    if Residue(1, w) == Residue(1, v) {
      ResidueInjective(Xor(TimesX(c), v[i]), Xor(TimesX(c), x), v[i + 1..]);
    }
  }

  lemma ResidueNext(c: bv32, x: bv32, v: seq<bv32>)
    ensures Residue(c, [x] + v) == Residue(Xor(TimesX(c), x), v)
  {
    assert ([x] + v)[1..] == v;
  }

  // ----- checksums -----

  function Zeros(n: nat): seq<bv32> { seq(n, i => 0) }

  /** What symbols at the end add to the residue does not depend on what is in front of them. */
  lemma {:induction false} ResidueLinear(c: bv32, d: bv32, w: seq<bv32>)
    ensures Residue(Xor(c, d), w) == Xor(Residue(c, Zeros(|w|)), Residue(d, w))
    decreases w
  {
    hide Xor, TimesX;
    if w != [] {
      var tc, td := TimesX(c), TimesX(d);
      TimesXLinear(c, d);
      XorAssoc(tc, td, w[0]);
      XorZero(tc);
      assert Zeros(|w|)[1..] == Zeros(|w| - 1);
      ResidueLinear(tc, Xor(td, w[0]), w[1..]);
    }
  }

  lemma XorZero(a: bv32)
    ensures Xor(a, 0) == a && Xor(0, a) == a && Xor(a, a) == 0
  {
  }

  /** The groups of five bits of a number, and what is left of it above each of them. */
  function Group25(m: bv32): bv32 { (m >> 25) & 31 }
  function Group20(m: bv32): bv32 { (m >> 20) & 31 }
  function Group15(m: bv32): bv32 { (m >> 15) & 31 }
  function Group10(m: bv32): bv32 { (m >> 10) & 31 }
  function Group5(m: bv32): bv32 { (m >> 5) & 31 }
  function Group0(m: bv32): bv32 { m & 31 }
  function Prefix25(m: bv32): bv32 { m >> 25 }
  function Prefix20(m: bv32): bv32 { m >> 20 }
  function Prefix15(m: bv32): bv32 { m >> 15 }
  function Prefix10(m: bv32): bv32 { m >> 10 }
  function Prefix5(m: bv32): bv32 { m >> 5 }
  function Prefix0(m: bv32): bv32 { m }

  function Groups(m: bv32): (r: seq<bv32>)
    ensures |r| == CHECKSUM_SIZE && Symbols(r)
  {
    GroupsSmall(m);
    [Group25(m), Group20(m), Group15(m), Group10(m), Group5(m), Group0(m)]
  }

  lemma GroupsSmall(m: bv32)
    ensures Group25(m) < 32 && Group20(m) < 32 && Group15(m) < 32 && Group10(m) < 32 && Group5(m) < 32 && Group0(m) < 32
  {
  }

  /** Multiplication by x is a shift as long as nothing goes out at the top. */
  lemma TimesXSmall(c: bv32)
    requires c < 0x2000000
    ensures TimesX(c) == c << 5
  {
  }

  /** A group follows on what is above it. */
  ghost predicate Follows(c: bv32, x: bv32, d: bv32) {
    c < 0x2000000 && (c << 5) ^ x == d
  }

  lemma Step20(m: bv32)
    requires m < 0x40000000
    ensures Follows(Prefix25(m), Group20(m), Prefix20(m))
  {
  }

  lemma Step15(m: bv32)
    requires m < 0x40000000
    ensures Follows(Prefix20(m), Group15(m), Prefix15(m))
  {
  }

  lemma Step10(m: bv32)
    requires m < 0x40000000
    ensures Follows(Prefix15(m), Group10(m), Prefix10(m))
  {
  }

  lemma Step5(m: bv32)
    requires m < 0x40000000
    ensures Follows(Prefix10(m), Group5(m), Prefix5(m))
  {
  }

  lemma Step0(m: bv32)
    requires m < 0x40000000
    ensures Follows(Prefix5(m), Group0(m), Prefix0(m))
  {
  }

  lemma Step25(m: bv32)
    requires m < 0x40000000
    ensures Group25(m) == Prefix25(m)
  {
  }

  /** Appending the groups of a number to nothing gives the number. */
  lemma ResidueGroups(m: bv32)
    requires m < 0x40000000
    ensures Residue(0, Groups(m)) == m
  {
    hide Follows, Xor, TimesX, Residue, Group25, Group20, Group15, Group10, Group5, Group0, Prefix25, Prefix20, Prefix15, Prefix10, Prefix5;
    Step25(m);
    Step20(m);
    Step15(m);
    Step10(m);
    Step5(m);
    Step0(m);
    ResidueSix(Prefix25(m), Prefix20(m), Prefix15(m), Prefix10(m), Prefix5(m), Prefix0(m),
               Group20(m), Group15(m), Group10(m), Group5(m), Group0(m));
  }

  lemma ResidueSix(p0: bv32, p1: bv32, p2: bv32, p3: bv32, p4: bv32, p5: bv32, g1: bv32, g2: bv32, g3: bv32, g4: bv32, g5: bv32)
    requires Follows(p0, g1, p1) && Follows(p1, g2, p2) && Follows(p2, g3, p3) && Follows(p3, g4, p4) && Follows(p4, g5, p5)
    ensures Residue(0, [p0, g1, g2, g3, g4, g5]) == p5
  {
    hide Follows, Xor, TimesX, Residue;
    assert [p0, g1, g2, g3, g4, g5] == [p0] + [g1, g2, g3, g4, g5] && [g1, g2, g3, g4, g5] == [g1] + [g2, g3, g4, g5];
    assert [g2, g3, g4, g5] == [g2] + [g3, g4, g5] && [g3, g4, g5] == [g3] + [g4, g5] && [g4, g5] == [g4] + [g5] && [g5] == [g5] + [];
    ShiftZero(p0);
    GroupStep(0, p0, p0, [g1, g2, g3, g4, g5]);
    GroupStep(p0, p1, g1, [g2, g3, g4, g5]);
    GroupStep(p1, p2, g2, [g3, g4, g5]);
    GroupStep(p2, p3, g3, [g4, g5]);
    GroupStep(p3, p4, g4, [g5]);
    GroupStep(p4, p5, g5, []);
    ResidueEmpty(p5);
  }

  lemma ShiftZero(x: bv32)
    ensures Follows(0, x, x)
  {
  }

  lemma ResidueEmpty(c: bv32)
    ensures Residue(c, []) == c
  {
  }

  lemma GroupStep(c: bv32, d: bv32, x: bv32, rest: seq<bv32>)
    requires Follows(c, x, d)
    ensures Residue(c, [x] + rest) == Residue(d, rest)
  {
    hide Xor, TimesX, Residue;
    TimesXSmall(c);
    XorIs(c << 5, x);
    ResidueNext(c, x, rest);
  }

  /** The symbols that make the residue of a list the constant of an encoding. */
  function Checksum(encoding: Encoding, v: seq<bv32>): (r: seq<bv32>)
    ensures |r| == CHECKSUM_SIZE && Symbols(r)
  {
    Groups(Xor(Residue(1, v + Zeros(CHECKSUM_SIZE)), EncodingConstant(encoding)))
  }

  lemma ChecksumVerifies(encoding: Encoding, v: seq<bv32>)
    requires Symbols(v)
    ensures Residue(1, v + Checksum(encoding, v)) == EncodingConstant(encoding)
  {
    hide Xor, TimesX, Residue, Groups;
    var c, k := Residue(1, v), EncodingConstant(encoding);
    var z := Residue(c, Zeros(CHECKSUM_SIZE));
    var m := Xor(z, k);
    ResidueAppend(1, v, Zeros(CHECKSUM_SIZE));
    ResidueAppend(1, v, Groups(m));
    ResidueBound(1, v);
    ResidueBound(c, Zeros(CHECKSUM_SIZE));
    XorBound(z, k);
    ResidueGroups(m);
    XorZero(c);
    ResidueLinear(c, 0, Groups(m));
    XorAssoc(z, z, k);
    XorZero(z);
    XorZero(k);
  }

  /** No other symbols have the right residue. */
  lemma ChecksumUnique(encoding: Encoding, v: seq<bv32>, check: seq<bv32>)
    requires Symbols(v) && Symbols(check) && |check| == CHECKSUM_SIZE
    requires Residue(1, v + check) == EncodingConstant(encoding)
    ensures check == Checksum(encoding, v)
  {
    hide Xor, TimesX, Residue, Groups;
    var c, k := Residue(1, v), EncodingConstant(encoding);
    var z := Residue(c, Zeros(CHECKSUM_SIZE));
    ResidueAppend(1, v, Zeros(CHECKSUM_SIZE));
    ResidueAppend(1, v, check);
    XorZero(c);
    ResidueLinear(c, 0, check);
    var r := Residue(0, check);
    XorAssoc(z, z, r);
    XorZero(z);
    XorZero(r);
    assert r == Xor(z, k);
    GroupsResidue(check);
  }

  /** The groups of the residue of six symbols are the symbols. */
  lemma GroupsResidue(g: seq<bv32>)
    requires Symbols(g) && |g| == CHECKSUM_SIZE
    ensures Groups(Residue(0, g)) == g
  {
    hide Xor, TimesX, Residue, Follows, Group25, Group20, Group15, Group10, Group5, Group0;
    var p0 := g[0];
    var p1 := Append(p0, g[1]);
    var p2 := Append(p1, g[2]);
    var p3 := Append(p2, g[3]);
    var p4 := Append(p3, g[4]);
    var p5 := Append(p4, g[5]);
    assert g == [p0, g[1], g[2], g[3], g[4], g[5]];
    AppendSmall(g[0], g[1], g[2], g[3], g[4], g[5]);
    ResidueSix(p0, p1, p2, p3, p4, p5, g[1], g[2], g[3], g[4], g[5]);
    AppendGroups(g[0], g[1], g[2], g[3], g[4], g[5]);
  }

  function Append(c: bv32, x: bv32): bv32 { (c << 5) ^ x }

  lemma AppendSmall(a: bv32, b: bv32, c: bv32, d: bv32, e: bv32, f: bv32)
    requires a < 32 && b < 32 && c < 32 && d < 32 && e < 32 && f < 32
    ensures var p1 := Append(a, b); var p2 := Append(p1, c); var p3 := Append(p2, d); var p4 := Append(p3, e); var p5 := Append(p4, f);
      Follows(a, b, p1) && Follows(p1, c, p2) && Follows(p2, d, p3) && Follows(p3, e, p4) && Follows(p4, f, p5)
  {
  }

  lemma AppendGroups(a: bv32, b: bv32, c: bv32, d: bv32, e: bv32, f: bv32)
    requires a < 32 && b < 32 && c < 32 && d < 32 && e < 32 && f < 32
    ensures var p := Append(Append(Append(Append(Append(a, b), c), d), e), f);
      Group25(p) == a && Group20(p) == b && Group15(p) == c && Group10(p) == d && Group5(p) == e && Group0(p) == f
  {
  }
}
