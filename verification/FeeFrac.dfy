/** Fee and size pairs, their two orders, and the diagrams that sequences of them draw.

    A sequence of chunk feerates draws a diagram: start at (0, 0), add the chunks one after the
    other, and continue with a horizontal line.  "At least as good" for linearizations means that
    one diagram is nowhere below the other.  The proofs about linearizations use an equivalent
    dual form, which needs no real numbers: for every line through the origin, the prefix that
    rises highest above that line.  `DominanceIsNoWorse` says the two agree.
 */
module FeeFracs {

  datatype FeeFrac = FeeFrac(fee: int, size: int) {
    predicate IsEmpty() { size == 0 }

    function Plus(other: FeeFrac): FeeFrac { FeeFrac(fee + other.fee, size + other.size) }

    function Minus(other: FeeFrac): FeeFrac { FeeFrac(fee - other.fee, size - other.size) }
  }

  const EMPTY := FeeFrac(0, 0)

  /** How far `f` rises above the line of slope `slope`, scaled by the size of `slope`. */
  function Gain(f: FeeFrac, slope: FeeFrac): int {
    f.fee * slope.size - slope.fee * f.size
  }

  /** Strictly higher feerate; the empty FeeFrac is neither higher nor lower than any other. */
  predicate Higher(a: FeeFrac, b: FeeFrac) { a.fee * b.size > b.fee * a.size }

  /** Strictly lower feerate. */
  predicate Lower(a: FeeFrac, b: FeeFrac) { a.fee * b.size < b.fee * a.size }

  /** The total order: by feerate, and among equal feerates the smaller size is the greater. */
  predicate Greater(a: FeeFrac, b: FeeFrac) {
    Higher(a, b) || (a.fee * b.size == b.fee * a.size && a.size < b.size)
  }

  lemma GainPlus(a: FeeFrac, b: FeeFrac, slope: FeeFrac)
    ensures Gain(a.Plus(b), slope) == Gain(a, slope) + Gain(b, slope)
  {
  }

  /** The identity behind every change of slope. */
  lemma GainChange(x: FeeFrac, mid: FeeFrac, slope: FeeFrac)
    ensures Gain(x, slope) * mid.size == Gain(x, mid) * slope.size + Gain(mid, slope) * x.size
  {
    calc {
      Gain(x, mid) * slope.size + Gain(mid, slope) * x.size;
      x.fee * mid.size * slope.size - mid.fee * x.size * slope.size
      + mid.fee * slope.size * x.size - slope.fee * mid.size * x.size;
      x.fee * slope.size * mid.size - slope.fee * x.size * mid.size;
      Gain(x, slope) * mid.size;
    }
  }

  lemma ProductSign(a: int, s: int)
    requires s > 0
    ensures a > 0 ==> a * s > 0
    ensures a < 0 ==> a * s < 0
    ensures a >= 0 ==> a * s >= 0
    ensures a <= 0 ==> a * s <= 0
    ensures a * s > 0 ==> a > 0
    ensures a * s >= 0 ==> a >= 0
    ensures a * s < 0 ==> a < 0
    ensures a * s <= 0 ==> a <= 0
  {
  }

  lemma ProductNonNeg(a: int, s: int)
    requires s >= 0
    ensures a >= 0 ==> a * s >= 0
    ensures a <= 0 ==> a * s <= 0
  {
  }

  /** What rises above `mid` and `mid` not below `slope` rises above `slope`. */
  lemma GainTrans(x: FeeFrac, mid: FeeFrac, slope: FeeFrac)
    requires x.size >= 0 && mid.size > 0 && slope.size > 0
    requires Gain(mid, slope) >= 0
    ensures Gain(x, mid) >= 0 ==> Gain(x, slope) >= 0
    ensures Gain(x, mid) > 0 ==> Gain(x, slope) > 0
    ensures Gain(x, mid) >= 0 && Gain(mid, slope) > 0 && x.size > 0 ==> Gain(x, slope) > 0
  {
    GainChange(x, mid, slope);
    ProductSign(Gain(x, mid), slope.size);
    ProductSign(Gain(x, slope), mid.size);
    ProductNonNeg(Gain(mid, slope), x.size);
    if x.size > 0 {
      ProductSign(Gain(mid, slope), x.size);
    }
  }

  /** What stays below `mid` and `mid` not above `slope` stays below `slope`. */
  lemma GainTransDown(x: FeeFrac, mid: FeeFrac, slope: FeeFrac)
    requires x.size >= 0 && mid.size > 0 && slope.size > 0
    requires Gain(mid, slope) <= 0
    ensures Gain(x, mid) <= 0 ==> Gain(x, slope) <= 0
    ensures Gain(x, mid) < 0 ==> Gain(x, slope) < 0
    ensures Gain(x, mid) <= 0 && Gain(mid, slope) < 0 && x.size > 0 ==> Gain(x, slope) < 0
  {
    GainChange(x, mid, slope);
    ProductSign(Gain(x, mid), slope.size);
    ProductSign(Gain(x, slope), mid.size);
    ProductNonNeg(Gain(mid, slope), x.size);
    if x.size > 0 {
      ProductSign(Gain(mid, slope), x.size);
    }
  }

  // ----- prefix gains -----

  function Total(fs: seq<FeeFrac>): FeeFrac {
    if fs == [] then EMPTY else fs[0].Plus(Total(fs[1..]))
  }

  predicate Positive(fs: seq<FeeFrac>) {
    forall i :: 0 <= i < |fs| ==> fs[i].size > 0
  }

  /** The greatest gain of any prefix of `fs`, the empty one included. */
  function BestGain(fs: seq<FeeFrac>, slope: FeeFrac): (best: int)
    ensures best >= 0
  {
    if fs == [] then 0 else
    var tail := Gain(fs[0], slope) + BestGain(fs[1..], slope);
    if tail > 0 then tail else 0
  }

  /** Feerates never increase from one element to a later one. */
  predicate NonIncreasing(fs: seq<FeeFrac>) {
    forall i, j :: 0 <= i < j < |fs| ==> Gain(fs[j], fs[i]) <= 0
  }

  /** One diagram is nowhere below another, in the dual form. */
  ghost predicate Dominates(a: seq<FeeFrac>, b: seq<FeeFrac>) {
    forall slope: FeeFrac :: slope.size > 0 ==> BestGain(a, slope) >= BestGain(b, slope)
  }

  lemma {:induction false} TotalConcat(a: seq<FeeFrac>, b: seq<FeeFrac>)
    ensures Total(a + b) == Total(a).Plus(Total(b))
  {
    if a == [] {
      assert a + b == b;
    } else {
      assert (a + b)[1..] == a[1..] + b;
      TotalConcat(a[1..], b);
    }
  }

  lemma TotalOne(f: FeeFrac)
    ensures Total([f]) == f
  {
    assert [f][1..] == [];
  }

  lemma {:induction false} TotalPositive(fs: seq<FeeFrac>)
    requires Positive(fs)
    ensures Total(fs).size >= 0
    ensures fs != [] ==> Total(fs).size > 0
  {
    if fs != [] {
      TotalPositive(fs[1..]);
    }
  }

  lemma PrefixSize(fs: seq<FeeFrac>, n: nat)
    requires Positive(fs) && n <= |fs|
    ensures 0 <= Total(fs[..n]).size <= Total(fs).size
  {
    TotalPositive(fs[..n]);
    TotalPositive(fs[n..]);
    TotalConcat(fs[..n], fs[n..]);
    assert fs[..n] + fs[n..] == fs;
  }

  /** `BestGain` bounds every prefix. */
  lemma {:induction false} PrefixGain(fs: seq<FeeFrac>, n: nat, slope: FeeFrac)
    requires n <= |fs|
    ensures Gain(Total(fs[..n]), slope) <= BestGain(fs, slope)
  {
    if n > 0 {
      assert fs[..n][1..] == fs[1..][..n - 1];
      PrefixGain(fs[1..], n - 1, slope);
      GainPlus(fs[0], Total(fs[1..][..n - 1]), slope);
    }
  }

  /** Some prefix attains `BestGain`. */
  lemma {:induction false} BestPrefix(fs: seq<FeeFrac>, slope: FeeFrac) returns (n: nat)
    ensures n <= |fs| && Gain(Total(fs[..n]), slope) == BestGain(fs, slope)
  {
    if BestGain(fs, slope) == 0 {
      n := 0;
    } else {
      var m := BestPrefix(fs[1..], slope);
      n := m + 1;
      assert fs[..n][1..] == fs[1..][..m];
      GainPlus(fs[0], Total(fs[1..][..m]), slope);
    }
  }

  lemma {:induction false} BestGainConcat(a: seq<FeeFrac>, b: seq<FeeFrac>, slope: FeeFrac)
    ensures BestGain(a + b, slope)
         == if BestGain(a, slope) > Gain(Total(a), slope) + BestGain(b, slope)
            then BestGain(a, slope) else Gain(Total(a), slope) + BestGain(b, slope)
  {
    if a == [] {
      assert a + b == b;
    } else {
      assert (a + b)[1..] == a[1..] + b;
      BestGainConcat(a[1..], b, slope);
      GainPlus(a[0], Total(a[1..]), slope);
    }
  }

  // ----- diagrams -----

  /** The height of the diagram of `fs` at size `x`. */
  function AtSize(fs: seq<FeeFrac>, x: real): real
    requires Positive(fs)
  {
    if fs == [] then 0.0
    else if x <= fs[0].size as real then fs[0].fee as real * (x / fs[0].size as real)
    else fs[0].fee as real + AtSize(fs[1..], x - fs[0].size as real)
  }

  /** The diagram of `a` is nowhere below the diagram of `b`. */
  ghost predicate NoWorse(a: seq<FeeFrac>, b: seq<FeeFrac>)
    requires Positive(a) && Positive(b)
  {
    forall x: real :: x >= 0.0 ==> AtSize(a, x) >= AtSize(b, x)
  }

  /** How far the point (x, y) rises above the line of slope `slope`. */
  function Above(y: real, x: real, slope: FeeFrac): real {
    y * slope.size as real - slope.fee as real * x
  }

  lemma AbovePlus(y: real, x: real, y': real, x': real, slope: FeeFrac)
    ensures Above(y + y', x + x', slope) == Above(y, x, slope) + Above(y', x', slope)
  {
  }

  lemma AboveOrigin(slope: FeeFrac)
    ensures Above(0.0, 0.0, slope) == 0.0
  {
  }

  lemma AboveScaled(f: FeeFrac, t: real, y: real, x: real, slope: FeeFrac)
    requires y == f.fee as real * t && x == f.size as real * t
    ensures Above(y, x, slope) == t * Gain(f, slope) as real
  {
    var fee, size, q, p := f.fee as real, f.size as real, slope.size as real, slope.fee as real;
    assert Gain(f, slope) as real == fee * q - p * size;
    assert (fee * t) * q - p * (size * t) == t * (fee * q - p * size);
  }

  lemma AboveFeeFrac(f: FeeFrac, slope: FeeFrac)
    ensures Above(f.fee as real, f.size as real, slope) == Gain(f, slope) as real
  {
  }

  lemma AboveOrder(y: real, y': real, x: real, slope: FeeFrac)
    requires slope.size > 0
    ensures y >= y' <==> Above(y, x, slope) >= Above(y', x, slope)
  {
    var q := slope.size as real;
    assert Above(y, x, slope) - Above(y', x, slope) == (y - y') * q;
    if y < y' {
      assert (y' - y) * q > 0.0;
    }
  }

  /** No point of a diagram rises more above a line than the best prefix. */
  lemma {:induction false} DiagramBound(fs: seq<FeeFrac>, x: real, slope: FeeFrac)
    requires Positive(fs) && 0.0 <= x <= Total(fs).size as real
    ensures Above(AtSize(fs, x), x, slope) <= BestGain(fs, slope) as real
  {
    hide Gain, Above;
    if fs == [] {
      AboveOrigin(slope);
    } else {
      var f, s := fs[0].fee as real, fs[0].size as real;
      var g := Gain(fs[0], slope) as real;
      AboveFeeFrac(fs[0], slope);
      if x <= s {
        var t := Fraction(x, s);
        AboveScaled(fs[0], t, AtSize(fs, x), x, slope);
        ScaledBelow(g, t);
      } else {
        DiagramBound(fs[1..], x - s, slope);
        AbovePlus(f, s, AtSize(fs[1..], x - s), x - s, slope);
      }
    }
  }

  lemma Fraction(x: real, s: real) returns (t: real)
    requires 0.0 <= x <= s && s > 0.0
    ensures t == x / s && 0.0 <= t <= 1.0 && x == s * t
  {
    t := x / s;
  }

  lemma ScaledBelow(g: real, t: real)
    requires 0.0 <= t <= 1.0
    ensures g >= 0.0 ==> t * g <= g
    ensures g <= 0.0 ==> t * g <= 0.0
  {
  }

  /** A line through a chunk of a non-increasing sequence touches the diagram all along it. */
  lemma {:induction false} DiagramTouch(fs: seq<FeeFrac>, x: real) returns (k: nat)
    requires Positive(fs) && NonIncreasing(fs) && 0.0 <= x <= Total(fs).size as real && fs != []
    ensures k < |fs| && Above(AtSize(fs, x), x, fs[k]) == BestGain(fs, fs[k]) as real
  {
    var f, s := fs[0].fee as real, fs[0].size as real;
    if x <= s {
      k := 0;
      AllBelow(fs, fs[0]);
      var t := Fraction(x, s);
      AboveScaled(fs[0], t, AtSize(fs, x), x, fs[0]);
      assert Gain(fs[0], fs[0]) == 0;
    } else {
      var m := DiagramTouch(fs[1..], x - s);
      k := m + 1;
      assert Gain(fs[k], fs[0]) <= 0;
      assert Gain(fs[0], fs[k]) >= 0;
      AboveFeeFrac(fs[0], fs[k]);
      AbovePlus(f, s, AtSize(fs[1..], x - s), x - s, fs[k]);
    }
  }

  lemma {:induction false} AllBelow(fs: seq<FeeFrac>, slope: FeeFrac)
    requires forall i :: 0 <= i < |fs| ==> Gain(fs[i], slope) <= 0
    ensures BestGain(fs, slope) == 0
  {
    if fs != [] {
      AllBelow(fs[1..], slope);
    }
  }

  lemma {:induction false} BeyondTotal(fs: seq<FeeFrac>, x: real)
    requires Positive(fs) && x >= Total(fs).size as real
    ensures AtSize(fs, x) == Total(fs).fee as real
  {
    if fs != [] {
      TotalPositive(fs[1..]);
      var s := fs[0].size as real;
      if x <= s {
        assert x == s && fs[1..] == [];
        assert x / s == 1.0;
      } else {
        BeyondTotal(fs[1..], x - s);
      }
    }
  }

  lemma {:induction false} AtPrefix(fs: seq<FeeFrac>, n: nat)
    requires Positive(fs) && n <= |fs|
    ensures AtSize(fs, Total(fs[..n]).size as real) == Total(fs[..n]).fee as real
  {
    if n == 0 {
      if fs != [] {
        var s := fs[0].size as real;
        assert 0.0 / s == 0.0;
      }
    } else {
      var s := fs[0].size as real;
      assert fs[..n][1..] == fs[1..][..n - 1];
      AtPrefix(fs[1..], n - 1);
      TotalPositive(fs[1..][..n - 1]);
      if n == 1 {
        assert s / s == 1.0;
      }
    }
  }

  /** For sequences of chunks with the same total, the dual order is the order of the diagrams. */
  lemma DominanceIsNoWorse(a: seq<FeeFrac>, b: seq<FeeFrac>)
    requires Positive(a) && Positive(b) && NonIncreasing(a) && Total(a) == Total(b)
    ensures Dominates(a, b) <==> NoWorse(a, b)
  {
    if Dominates(a, b) {
      forall x: real | x >= 0.0 ensures AtSize(a, x) >= AtSize(b, x) {
        DominatedPoint(a, b, x);
      }
    }
    if NoWorse(a, b) {
      forall slope: FeeFrac | slope.size > 0 ensures BestGain(a, slope) >= BestGain(b, slope) {
        NoWorsePrefix(a, b, slope);
      }
    }
  }

  /** It is enough that the totals have the same size. */
  lemma DominatedPoint(a: seq<FeeFrac>, b: seq<FeeFrac>, x: real)
    requires Positive(a) && Positive(b) && NonIncreasing(a) && Total(a).size == Total(b).size && Total(a).fee >= Total(b).fee
    requires Dominates(a, b) && x >= 0.0
    ensures AtSize(a, x) >= AtSize(b, x)
  {
    if x >= Total(a).size as real {
      BeyondTotal(a, x);
      BeyondTotal(b, x);
    } else {
      assert a != [];
      var k := DiagramTouch(a, x);
      DiagramBound(b, x, a[k]);
      AboveOrder(AtSize(a, x), AtSize(b, x), x, a[k]);
    }
  }

  /** A point on or under a diagram gains no more than the best prefix. */
  lemma PointUnder(fs: seq<FeeFrac>, point: FeeFrac, slope: FeeFrac)
    requires Positive(fs) && 0 <= point.size <= Total(fs).size && slope.size > 0
    requires AtSize(fs, point.size as real) >= point.fee as real
    ensures Gain(point, slope) <= BestGain(fs, slope)
  {
    var x := point.size as real;
    DiagramBound(fs, x, slope);
    AboveOrder(AtSize(fs, x), point.fee as real, x, slope);
    AboveFeeFrac(point, slope);
  }

  lemma NoWorsePrefix(a: seq<FeeFrac>, b: seq<FeeFrac>, slope: FeeFrac)
    requires Positive(a) && Positive(b) && Total(a) == Total(b)
    requires NoWorse(a, b) && slope.size > 0
    ensures BestGain(a, slope) >= BestGain(b, slope)
  {
    hide Gain, AtSize, BestGain, Total;
    var n := BestPrefix(b, slope);
    PrefixSize(b, n);
    AtPrefix(b, n);
    PointUnder(a, Total(b[..n]), slope);
  }
}
