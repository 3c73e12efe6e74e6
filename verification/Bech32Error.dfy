/** The checksum detects every change of up to three symbols within 1023. */
module Bech32Errors {
  import opened Bech32s
  import opened Bech32Fields
  import opened Bech32Orders
  import opened Bech32Syndromes

  // ----- differences of lists -----

  ghost function XorSeq(v: seq<bv32>, w: seq<bv32>): seq<bv32>
    requires |v| == |w|
  {
    if v == [] then [] else [Xor(v[0], w[0])] + XorSeq(v[1..], w[1..])
  }

  /** In how many places two lists differ. */
  ghost function Distance(v: seq<bv32>, w: seq<bv32>): nat
    requires |v| == |w|
  {
    if v == [] then 0 else (if v[0] == w[0] then 0 else 1) + Distance(v[1..], w[1..])
  }

  lemma {:induction false} ResidueXor(c: bv32, d: bv32, v: seq<bv32>, w: seq<bv32>)
    requires |v| == |w|
    ensures Residue(Xor(c, d), XorSeq(v, w)) == Xor(Residue(c, v), Residue(d, w))
    decreases |v|
  {
    hide Xor, TimesX;
    if v != [] {
      var tc, td := TimesX(c), TimesX(d);
      TimesXLinear(c, d);
      XorSwap(tc, td, v[0], w[0]);
      ResidueXor(Xor(tc, v[0]), Xor(td, w[0]), v[1..], w[1..]);
      ResidueNext(Xor(c, d), Xor(v[0], w[0]), XorSeq(v[1..], w[1..]));
    }
  }

  /** A symbol that is not zero, and how many symbols follow it. */
  datatype Error = Error(place: nat, value: bv32)

  ghost function Errors(u: seq<bv32>): seq<Error> {
    if u == [] then [] else (if u[0] == 0 then [] else [Error(|u| - 1, u[0])]) + Errors(u[1..])
  }

  ghost function Product(m: nat, n: nat): nat { m * n }

  lemma ProductNext(m: nat, n: nat)
    ensures Product(m, n + 1) == Product(m, n) + m && Product(m + 1, n) == n + Product(m, n) && Product(m, 0) == 0
  {
  }

  /** What errors add up to at the `m`-th power of e. */
  ghost function Sum(m: nat, es: seq<Error>): bv32 {
    if es == [] then 0 else Xor(Power(Product(m, es[0].place), es[0].value), Sum(m, es[1..]))
  }

  lemma {:induction false} ErrorsOk(u: seq<bv32>)
    requires Symbols(u)
    ensures forall i :: 0 <= i < |Errors(u)| ==> Errors(u)[i].place < |u| && 0 != Errors(u)[i].value < 32
    ensures forall i, j :: 0 <= i < j < |Errors(u)| ==> Errors(u)[j].place < Errors(u)[i].place
  {
    if u != [] {
      ErrorsOk(u[1..]);
    }
  }

  lemma {:induction false} ErrorCount(v: seq<bv32>, w: seq<bv32>)
    requires |v| == |w| && Symbols(v) && Symbols(w)
    ensures |Errors(XorSeq(v, w))| == Distance(v, w) && Symbols(XorSeq(v, w)) && |XorSeq(v, w)| == |v|
  {
    hide Xor;
    if v != [] {
      ErrorCount(v[1..], w[1..]);
      XorNone(v[0], w[0]);
      XorSymbol(v[0], w[0]);
      assert XorSeq(v, w)[1..] == XorSeq(v[1..], w[1..]);
    }
  }

  lemma XorSymbol(a: bv32, b: bv32)
    requires a < 32 && b < 32
    ensures Xor(a, b) < 32
  {
  }

  /** The value of a residue is that of what is in front and the errors. */
  lemma {:induction false} ValueOfErrors(m: nat, c: bv32, u: seq<bv32>)
    requires Root(m) && Symbols(u) && c < 0x40000000
    ensures At(m, Residue(c, u)) == Xor(Power(Product(m, |u|), At(m, c)), Sum(m, Errors(u)))
    decreases u
  {
    hide Xor, TimesX, At, Power, Root, Sum, Errors, Product;
    if u == [] {
      ProductNext(m, 0);
      NoPower(m, At(m, c));
      XorZero(At(m, c));
    } else {
      var k := Product(m, |u| - 1);
      NextValue(m, c, u[0]);
      ValueOfErrors(m, Xor(TimesX(c), u[0]), u[1..]);
      NextPower(k, m, At(m, c), u[0], Sum(m, Errors(u[1..])));
      ProductNext(m, |u| - 1);
      FirstError(m, u);
    }
  }

  lemma NextValue(m: nat, c: bv32, v: bv32)
    requires Root(m) && v < 32 && c < 0x40000000
    ensures Xor(TimesX(c), v) < 0x40000000 && At(m, Xor(TimesX(c), v)) == Xor(Power(m, At(m, c)), v)
  {
    hide Xor, TimesX, At, Power, Root;
    TimesXBound(c);
    XorBound(TimesX(c), v);
    AtLinear(m, TimesX(c), v);
    AtTimesX(m, c);
    AtSymbol(m, v);
  }

  lemma NextPower(k: nat, m: nat, a: bv32, v: bv32, sum: bv32)
    ensures Xor(Power(k, Xor(Power(m, a), v)), sum) == Xor(Power(k + m, a), Xor(Power(k, v), sum))
  {
    hide Xor, Power;
    PowerLinear(k, Power(m, a), v);
    PowerAdd(k, m, a);
    XorAssoc(Power(k + m, a), Power(k, v), sum);
  }

  lemma NoPower(m: nat, x: bv32)
    ensures Power(0, x) == x && Sum(m, Errors([])) == 0
  {
  }

  lemma FirstError(m: nat, u: seq<bv32>)
    requires u != []
    ensures Sum(m, Errors(u)) == Xor(Power(Product(m, |u| - 1), u[0]), Sum(m, Errors(u[1..])))
  {
    hide Xor, Power;
    if u[0] == 0 {
      assert Errors(u) == Errors(u[1..]);
      PowerNothing(Product(m, |u| - 1));
      XorZero(Sum(m, Errors(u)));
    } else {
      assert Errors(u)[1..] == Errors(u[1..]);
    }
  }

  // ----- three errors cannot cancel out -----

  lemma XorElim(a: bv32, b: bv32, c: bv32, d: bv32, e: bv32)
    requires Xor(Xor(a, b), c) == 0 && Xor(Xor(d, e), c) == 0
    ensures Xor(a, d) == Xor(b, e)
  {
    hide Xor;
    XorNone(Xor(a, b), c);
    XorNone(Xor(d, e), c);
    XorSwap(a, b, d, e);
    XorNone(Xor(a, b), Xor(d, e));
    XorNone(Xor(a, d), Xor(b, e));
  }

  lemma PowerThree(p: nat, a: bv32, b: bv32, c: bv32)
    requires Xor(Xor(a, b), c) == 0
    ensures Xor(Xor(Power(p, a), Power(p, b)), Power(p, c)) == 0
  {
    hide Xor, Power;
    PowerLinear(p, a, b);
    PowerLinear(p, Xor(a, b), c);
    PowerNothing(p);
  }

  lemma Commute(p: nat, q: nat, x: bv32)
    ensures Power(p, Power(q, x)) == Power(q, Power(p, x))
  {
    hide Power;
    PowerAdd(p, q, x);
    PowerAdd(q, p, x);
  }

  /** Different powers, each with its first and second multiple, cannot add up to nothing three times. */
  lemma Eliminate(p1: nat, w1: bv32, p2: nat, w2: bv32, p3: nat, w3: bv32)
    requires p1 < 1023 && p2 < 1023 && p3 < 1023 && p1 != p2 && p1 != p3 && Element(w1) && Element(w2) && Element(w3)
    requires Xor(Xor(w1, w2), w3) == 0
    requires Xor(Xor(Power(p1, w1), Power(p2, w2)), Power(p3, w3)) == 0
    requires Xor(Xor(Power(p1, Power(p1, w1)), Power(p2, Power(p2, w2))), Power(p3, Power(p3, w3))) == 0
    ensures w1 == 0
  {
    hide Xor, Power, Element;
    SamePowers(p1, w1, p2, w2, p3, w3);
    OnlyNothing(p1, p2, p3, w1);
  }

  lemma SamePowers(p1: nat, w1: bv32, p2: nat, w2: bv32, p3: nat, w3: bv32)
    requires Xor(Xor(w1, w2), w3) == 0
    requires Xor(Xor(Power(p1, w1), Power(p2, w2)), Power(p3, w3)) == 0
    requires Xor(Xor(Power(p1, Power(p1, w1)), Power(p2, Power(p2, w2))), Power(p3, Power(p3, w3))) == 0
    ensures var y := Xor(Power(p1, w1), Power(p3, w1)); Power(p1, y) == Power(p2, y)
  {
    hide Xor, Power;
    Without(p1, w1, p2, w2, p3, w3);
    SecondElimination(p1, Power(p1, w1), p2, Power(p2, w2), p3, Power(p3, w3), w1, w2);
  }

  lemma SecondElimination(p1: nat, v1: bv32, p2: nat, v2: bv32, p3: nat, v3: bv32, w1: bv32, w2: bv32)
    requires v1 == Power(p1, w1) && v2 == Power(p2, w2) && Xor(Xor(v1, v2), v3) == 0
    requires Xor(Xor(Power(p1, v1), Power(p2, v2)), Power(p3, v3)) == 0
    ensures Power(p1, Xor(v1, Power(p3, w1))) == Power(p2, Xor(v2, Power(p3, w2)))
  {
    hide Xor, Power;
    Without(p1, v1, p2, v2, p3, v3);
    Moved(p1, w1, p3);
    Moved(p2, w2, p3);
  }

  lemma OnlyNothing(p1: nat, p2: nat, p3: nat, w: bv32)
    requires p1 < 1023 && p2 < 1023 && p3 < 1023 && p1 != p2 && p1 != p3 && Element(w)
    requires var y := Xor(Power(p1, w), Power(p3, w)); Power(p1, y) == Power(p2, y)
    ensures w == 0
  {
    hide Xor, Power, Element;
    PowerElement(p1, w);
    PowerElement(p3, w);
    XorElement(Power(p1, w), Power(p3, w));
    DifferentPowers(p1, p2, Xor(Power(p1, w), Power(p3, w)));
    XorNone(Power(p1, w), Power(p3, w));
    DifferentPowers(p1, p3, w);
  }

  /** The third summand is eliminated. */
  lemma Without(p1: nat, w1: bv32, p2: nat, w2: bv32, p3: nat, w3: bv32)
    requires Xor(Xor(w1, w2), w3) == 0
    requires Xor(Xor(Power(p1, w1), Power(p2, w2)), Power(p3, w3)) == 0
    ensures Xor(Power(p1, w1), Power(p3, w1)) == Xor(Power(p2, w2), Power(p3, w2))
  {
    hide Xor, Power;
    PowerThree(p3, w1, w2, w3);
    XorElim(Power(p1, w1), Power(p2, w2), Power(p3, w3), Power(p3, w1), Power(p3, w2));
  }

  lemma Moved(p: nat, w: bv32, q: nat)
    ensures Power(p, Xor(Power(p, w), Power(q, w))) == Xor(Power(p, Power(p, w)), Power(q, Power(p, w)))
  {
    hide Xor, Power;
    PowerLinear(p, Power(p, w), Power(q, w));
    Commute(p, q, w);
  }

  ghost predicate Cancel(m: nat, a: Error, b: Error, c: Error) {
    Xor(Xor(Power(Product(m, a.place), a.value), Power(Product(m, b.place), b.value)), Power(Product(m, c.place), c.value)) == 0
  }

  lemma PowersOf(e: Error)
    ensures Power(Product(998, e.place), e.value) == Power(e.place, Power(Product(997, e.place), e.value))
    ensures Power(Product(999, e.place), e.value) == Power(e.place, Power(e.place, Power(Product(997, e.place), e.value)))
  {
    hide Power, Product;
    ProductNext(997, e.place);
    ProductNext(998, e.place);
    PowerAdd(e.place, Product(997, e.place), e.value);
    PowerAdd(e.place, Product(998, e.place), e.value);
  }

  lemma NotCancelled(a: Error, b: Error, c: Error)
    requires a.place < 1023 && b.place < 1023 && c.place < 1023 && a.place != b.place && a.place != c.place
    requires Element(a.value) && Element(b.value) && Element(c.value)
    requires Cancel(997, a, b, c) && Cancel(998, a, b, c) && Cancel(999, a, b, c)
    ensures a.value == 0
  {
    hide Xor, Power, Element, Product;
    PowersOf(a);
    PowersOf(b);
    PowersOf(c);
    PowerElement(Product(997, a.place), a.value);
    PowerElement(Product(997, b.place), b.value);
    PowerElement(Product(997, c.place), c.value);
    Eliminate(a.place, Power(Product(997, a.place), a.value), b.place, Power(Product(997, b.place), b.value), c.place, Power(Product(997, c.place), c.value));
  }

  /** With fewer errors, zeros take the other places. */
  ghost function Nth(es: seq<Error>, i: nat, other: nat): Error {
    if i < |es| then es[i] else Error(other, 0)
  }

  lemma SumOfThree(m: nat, es: seq<Error>, p: nat, q: nat)
    requires 1 <= |es| <= 3 && Sum(m, es) == 0
    ensures Cancel(m, es[0], Nth(es, 1, p), Nth(es, 2, q))
  {
    hide Xor, Power, Sum;
    var a, b, c := es[0], Nth(es, 1, p), Nth(es, 2, q);
    var x, y, z := Power(Product(m, a.place), a.value), Power(Product(m, b.place), b.value), Power(Product(m, c.place), c.value);
    PowerNothing(Product(m, p));
    PowerNothing(Product(m, q));
    XorZero(0);
    XorZero(x);
    XorAssoc(x, y, z);
    SumFirst(m, a, es[1..]);
    assert es == [a] + es[1..];
    if |es| == 1 {
      assert es[1..] == [];
      NoPower(m, 0);
    } else {
      XorZero(y);
      assert es[1..] == [b] + es[2..];
      SumFirst(m, b, es[2..]);
      if |es| == 2 {
        assert es[2..] == [];
      } else {
        assert es[2..] == [c] + [];
        SumFirst(m, c, []);
        XorZero(z);
      }
      SumNone(m);
    }
    SumNone(m);
  }

  lemma SumNone(m: nat)
    ensures Sum(m, []) == 0
  {
  }

  lemma SumFirst(m: nat, e: Error, rest: seq<Error>)
    ensures Sum(m, [e] + rest) == Xor(Power(Product(m, e.place), e.value), Sum(m, rest))
  {
    hide Xor, Power;
    assert ([e] + rest)[1..] == rest;
  }

  lemma ErrorsShow(es: seq<Error>)
    requires 1 <= |es| <= 3
    requires forall i :: 0 <= i < |es| ==> es[i].place < 1023 && 0 != es[i].value < 32
    requires forall i, j :: 0 <= i < j < |es| ==> es[j].place < es[i].place
    ensures Sum(997, es) != 0 || Sum(998, es) != 0 || Sum(999, es) != 0
  {
    hide Xor, Power, Sum, Cancel;
    var other := if es[0].place == 0 then 1 else 0;
    var a, b, c := es[0], Nth(es, 1, other), Nth(es, 2, other);
    if Sum(997, es) == 0 && Sum(998, es) == 0 && Sum(999, es) == 0 {
      SumOfThree(997, es, other, other);
      SumOfThree(998, es, other, other);
      SumOfThree(999, es, other, other);
      assert Element(a.value) && Element(b.value) && Element(c.value);
      NotCancelled(a, b, c);
    }
  }

  // ----- the guarantee -----

  lemma ShortListsDiffer(c: bv32, x: seq<bv32>, y: seq<bv32>)
    requires c < 0x40000000 && Symbols(x) && Symbols(y) && |x| == |y| <= 1023 && 1 <= Distance(x, y) <= 3
    ensures Residue(c, x) != Residue(c, y)
  {
    hide Xor, Power, Residue, At, Root, Sum, XorSeq, Errors, Distance;
    var u := XorSeq(x, y);
    ErrorCount(x, y);
    ErrorsOk(u);
    if Residue(c, x) == Residue(c, y) {
      ResidueXor(c, c, x, y);
      XorNone(c, c);
      XorNone(Residue(c, x), Residue(c, y));
      Root997();
      Root998();
      Root999();
      NoSum(997, u);
      NoSum(998, u);
      NoSum(999, u);
      ErrorsShow(Errors(u));
    }
  }

  lemma NoSum(m: nat, u: seq<bv32>)
    requires Root(m) && Symbols(u) && Residue(0, u) == 0
    ensures Sum(m, Errors(u)) == 0
  {
    hide Xor, Power, Residue, At, Root, Errors, Sum;
    ValueOfErrors(m, 0, u);
    AtSymbol(m, 0);
    PowerNothing(Product(m, |u|));
    XorZero(Sum(m, Errors(u)));
  }

  /** Changing one, two or three symbols within a window of 1023 always changes the residue. */
  lemma ThreeErrorsAreDetected(pre: seq<bv32>, x: seq<bv32>, y: seq<bv32>, post: seq<bv32>)
    requires Symbols(pre) && Symbols(x) && Symbols(y) && Symbols(post)
    requires |x| == |y| <= 1023 && 1 <= Distance(x, y) <= 3
    ensures Residue(1, pre + x + post) != Residue(1, pre + y + post)
  {
    hide Residue, Distance;
    var c := Residue(1, pre);
    ResidueBound(1, pre);
    ResidueAppend(1, pre + x, post);
    ResidueAppend(1, pre + y, post);
    ResidueAppend(1, pre, x);
    ResidueAppend(1, pre, y);
    ResidueBound(c, x);
    ResidueBound(c, y);
    ShortListsDiffer(c, x, y);
    if Residue(1, pre + x + post) == Residue(1, pre + y + post) {
      ResidueInjective(Residue(c, x), Residue(c, y), post);
    }
  }
}
