/** Comparing the diagrams of two sequences of chunks. */
module ChunkComparing {
  import opened FeeFracs

  datatype PartialOrdering = Less | Equivalent | Greater | Unordered

  /** The slope of a diagram after its first chunks: that of the next chunk, or flat at the end. */
  function Slope(rest: seq<FeeFrac>): FeeFrac {
    if rest == [] then FeeFrac(0, 1) else rest[0]
  }

  /** Within the next chunk the diagram is a line. */
  ghost predicate Within(rest: seq<FeeFrac>, y: real) {
    y >= 0.0 && (rest != [] ==> y <= rest[0].size as real)
  }

  lemma OnLine(rest: seq<FeeFrac>, y: real)
    requires Positive(rest) && Within(rest, y)
    ensures AtSize(rest, y) == Slope(rest).fee as real * (y / Slope(rest).size as real)
  {
  }

  /** After some chunks, the diagram goes on from where they end. */
  lemma {:induction false} AtAfter(fs: seq<FeeFrac>, i: nat, x: real)
    requires Positive(fs) && i <= |fs| && x >= Total(fs[..i]).size as real
    ensures AtSize(fs, x) == Total(fs[..i]).fee as real + AtSize(fs[i..], x - Total(fs[..i]).size as real)
    decreases i
  {
    if i == 0 {
      assert fs[..0] == [] && fs[0..] == fs;
    } else {
      var rest := fs[1..];
      assert fs[..i][1..] == rest[..i - 1] && fs[i..] == rest[i - 1..];
      TotalPositive(rest[..i - 1]);
      AtAfter(rest, i - 1, x - fs[0].size as real);
      if x == fs[0].size as real {
        assert x / x == 1.0;
        StartOfDiagram(rest);
      }
    }
  }

  lemma StartOfDiagram(fs: seq<FeeFrac>)
    requires Positive(fs)
    ensures AtSize(fs, 0.0) == 0.0
  {
  }

  /** Up to some size, the diagram of `a` is somewhere above that of `b`. */
  ghost predicate BetterUpTo(a: seq<FeeFrac>, b: seq<FeeFrac>, x: real)
    requires Positive(a) && Positive(b)
  {
    exists w: real :: 0.0 <= w <= x && AtSize(a, w) > AtSize(b, w)
  }

  // ----- segments -----

  ghost function Rate(rest: seq<FeeFrac>): real
    requires Positive(rest)
  {
    Slope(rest).fee as real / Slope(rest).size as real
  }

  /** A size is on the segment that follows the first `i` chunks. */
  ghost predicate OnSegment(fs: seq<FeeFrac>, i: nat, x: real)
    requires i <= |fs|
  {
    Within(fs[i..], x - Total(fs[..i]).size as real)
  }

  /** The line through the point of size `s` and fee `c`. */
  ghost function Line(c: real, k: real, s: real, x: real): real {
    c + k * (x - s)
  }

  lemma SegmentAt(fs: seq<FeeFrac>, i: nat, x: real)
    requires Positive(fs) && i <= |fs| && OnSegment(fs, i, x)
    ensures AtSize(fs, x) == Line(Total(fs[..i]).fee as real, Rate(fs[i..]), Total(fs[..i]).size as real, x)
  {
    hide AtSize, Total;
    AtAfter(fs, i, x);
    OnLine(fs[i..], x - Total(fs[..i]).size as real);
    var f, y := Slope(fs[i..]), x - Total(fs[..i]).size as real;
    Quotients(f.fee as real, f.size as real, y);
  }

  lemma Quotients(f: real, s: real, y: real)
    requires s > 0.0
    ensures f * (y / s) == (f / s) * y
  {
  }

  /** Where two lines change places, one is above at an end. */
  lemma LinesBetween(ca: real, ka: real, cb: real, kb: real, sa: real, sb: real, lo: real, x: real, hi: real)
    requires lo <= x <= hi && Line(ca, ka, sa, x) > Line(cb, kb, sb, x)
    ensures Line(ca, ka, sa, lo) > Line(cb, kb, sb, lo) || Line(ca, ka, sa, hi) > Line(cb, kb, sb, hi)
  {
    Slide(ka, sa, lo, x);
    Slide(kb, sb, lo, x);
    Slide(ka, sa, hi, x);
    Slide(kb, sb, hi, x);
    var k := ka - kb;
    assert ka * (hi - x) - kb * (hi - x) == k * (hi - x);
    assert ka * (lo - x) - kb * (lo - x) == k * (lo - x);
    if k >= 0.0 {
      assert k * (hi - x) >= 0.0;
    } else {
      assert k * (lo - x) >= 0.0;
    }
  }

  lemma Slide(k: real, s: real, y: real, x: real)
    ensures k * (y - s) == k * (x - s) + k * (y - x)
  {
  }

  /** Between two sizes on one segment of each diagram, looking at the ends is enough. */
  lemma EndsDecide(a: seq<FeeFrac>, i: nat, b: seq<FeeFrac>, j: nat, lo: real, hi: real)
    requires Positive(a) && Positive(b) && i <= |a| && j <= |b| && 0.0 <= lo <= hi
    requires OnSegment(a, i, lo) && OnSegment(a, i, hi) && OnSegment(b, j, lo) && OnSegment(b, j, hi)
    ensures BetterUpTo(a, b, hi) <==> BetterUpTo(a, b, lo) || AtSize(a, hi) > AtSize(b, hi)
  {
    hide AtSize, Total, Rate, Line;
    if BetterUpTo(a, b, hi) {
      var w :| 0.0 <= w <= hi && AtSize(a, w) > AtSize(b, w);
      if w > lo {
        var ta, tb := Total(a[..i]), Total(b[..j]);
        SegmentAt(a, i, lo);
        SegmentAt(a, i, w);
        SegmentAt(a, i, hi);
        SegmentAt(b, j, lo);
        SegmentAt(b, j, w);
        SegmentAt(b, j, hi);
        LinesBetween(ta.fee as real, Rate(a[i..]), tb.fee as real, Rate(b[j..]), ta.size as real, tb.size as real, lo, w, hi);
      }
    }
  }

  /** Whether a point is above a diagram is told by slopes. */
  lemma SlopeDecides(p: FeeFrac, b: seq<FeeFrac>, j: nat)
    requires Positive(b) && j <= |b| && OnSegment(b, j, p.size as real)
    ensures var g := Gain(p.Minus(Total(b[..j])), Slope(b[j..]));
      && (g > 0 <==> p.fee as real > AtSize(b, p.size as real))
      && (g < 0 <==> p.fee as real < AtSize(b, p.size as real))
  {
    hide AtSize, Total, Gain, Positive;
    var t, f := Total(b[..j]), Slope(b[j..]);
    SlopePositive(b, j);
    AtAfter(b, j, p.size as real);
    OnLine(b[j..], (p.size - t.size) as real);
    SlopeSign(p.Minus(t), f);
  }

  lemma SlopePositive(b: seq<FeeFrac>, j: nat)
    requires Positive(b) && j <= |b|
    ensures Positive(b[j..]) && Slope(b[j..]).size > 0
  {
  }

  lemma SlopeSign(d: FeeFrac, f: FeeFrac)
    requires f.size > 0
    ensures Gain(d, f) > 0 <==> d.fee as real > f.fee as real * (d.size as real / f.size as real)
    ensures Gain(d, f) < 0 <==> d.fee as real < f.fee as real * (d.size as real / f.size as real)
  {
    Signs(d.fee as real, d.size as real, f.fee as real, f.size as real);
  }

  lemma Signs(d: real, y: real, f: real, s: real)
    requires s > 0.0
    ensures d * s - f * y > 0.0 <==> d > f * (y / s)
    ensures d * s - f * y < 0.0 <==> d < f * (y / s)
  {
    var q := f * (y / s);
    assert q * s == f * y;
    assert (d - q) * s == d * s - f * y;
  }

  /** The end of a diagram: beyond it nothing changes. */
  lemma NothingBeyond(a: seq<FeeFrac>, b: seq<FeeFrac>, hi: real)
    requires Positive(a) && Positive(b) && hi >= 0.0 && OnSegment(a, |a|, hi) && OnSegment(b, |b|, hi)
    ensures BetterUpTo(a, b, hi) <==> !NoWorse(b, a)
  {
    hide AtSize, Total;
    if !NoWorse(b, a) {
      var x: real :| x >= 0.0 && !(AtSize(b, x) >= AtSize(a, x));
      if x > hi {
        assert a[|a|..] == [] && b[|b|..] == [];
        SegmentAt(a, |a|, x);
        SegmentAt(a, |a|, hi);
        SegmentAt(b, |b|, x);
        SegmentAt(b, |b|, hi);
      }
    }
  }

  // ----- one step -----

  /** A size is past the first `i` points of a diagram and before the next. */
  ghost predicate Inside(fs: seq<FeeFrac>, i: nat, x: int)
    requires i <= |fs|
  {
    Total(fs[..i]).size <= x && (i < |fs| ==> x < Total(fs[..i]).size + fs[i].size)
  }

  lemma InsideSegment(fs: seq<FeeFrac>, i: nat, x: int)
    requires i <= |fs| && Inside(fs, i, x)
    ensures OnSegment(fs, i, x as real)
  {
    hide Total;
  }

  lemma NextPoint(fs: seq<FeeFrac>, i: nat)
    requires Positive(fs) && i < |fs|
    ensures Total(fs[..i + 1]) == Total(fs[..i]).Plus(fs[i])
    ensures var p := Total(fs[..i + 1]); OnSegment(fs, i, p.size as real) && Inside(fs, i + 1, p.size)
    ensures AtSize(fs, Total(fs[..i + 1]).size as real) == Total(fs[..i + 1]).fee as real
  {
    hide AtSize, Total;
    assert fs[..i + 1] == fs[..i] + [fs[i]];
    TotalConcat(fs[..i], [fs[i]]);
    TotalOne(fs[i]);
    AtPrefix(fs, i + 1);
  }

  /** The next point of `a` lies above, on or below the segment of `b` as the slopes say, and nothing is
      missed on the way there. */
  lemma StepDecides(a: seq<FeeFrac>, i: nat, b: seq<FeeFrac>, j: nat, x: int, p: FeeFrac)
    requires Positive(a) && Positive(b) && i < |a| && j <= |b| && x >= 0
    requires Inside(a, i, x) && Inside(b, j, x) && p == Total(a[..i]).Plus(a[i])
    requires j < |b| ==> p.size <= Total(b[..j]).size + b[j].size
    ensures p.Minus(Total(b[..j])).size > 0
    ensures BetterUpTo(a, b, p.size as real) <==>
      BetterUpTo(a, b, x as real) || Higher(p.Minus(Total(b[..j])), Slope(b[j..]))
    ensures BetterUpTo(b, a, p.size as real) <==>
      BetterUpTo(b, a, x as real) || Lower(p.Minus(Total(b[..j])), Slope(b[j..]))
    ensures Inside(a, i + 1, p.size)
    ensures j < |b| && p.size == Total(b[..j]).size + b[j].size ==> Inside(b, j + 1, p.size)
    ensures (j < |b| ==> p.size < Total(b[..j]).size + b[j].size) ==> Inside(b, j, p.size)
  {
    hide AtSize, Total, BetterUpTo;
    NextPoint(a, i);
    if j < |b| {
      NextPoint(b, j);
    }
    InsideSegment(a, i, x);
    InsideSegment(b, j, x);
    assert OnSegment(b, j, p.size as real);
    EndsDecide(a, i, b, j, x as real, p.size as real);
    EndsDecide(b, j, a, i, x as real, p.size as real);
    SlopeDecides(p, b, j);
  }

  // ----- the comparison -----

  /** What the comparison answers. */
  ghost predicate Compared(a: seq<FeeFrac>, b: seq<FeeFrac>, o: PartialOrdering)
    requires Positive(a) && Positive(b)
  {
    match o
    case Equivalent => NoWorse(a, b) && NoWorse(b, a)
    case Greater => NoWorse(a, b) && !NoWorse(b, a)
    case Less => !NoWorse(a, b) && NoWorse(b, a)
    case Unordered => !NoWorse(a, b) && !NoWorse(b, a)
  }

  lemma SomewhereBetter(a: seq<FeeFrac>, b: seq<FeeFrac>, x: real)
    requires Positive(a) && Positive(b) && BetterUpTo(a, b, x)
    ensures !NoWorse(b, a)
  {
    hide AtSize;
    var w :| 0.0 <= w <= x && AtSize(a, w) > AtSize(b, w);
    assert !(AtSize(b, w) >= AtSize(a, w));
  }

  lemma AllCompared(a: seq<FeeFrac>, b: seq<FeeFrac>, x: int)
    requires Positive(a) && Positive(b) && x >= 0 && Inside(a, |a|, x) && Inside(b, |b|, x)
    ensures BetterUpTo(a, b, x as real) <==> !NoWorse(b, a)
    ensures BetterUpTo(b, a, x as real) <==> !NoWorse(a, b)
  {
    hide AtSize, Total, BetterUpTo, NoWorse;
    InsideSegment(a, |a|, x);
    InsideSegment(b, |b|, x);
    NothingBeyond(a, b, x as real);
    NothingBeyond(b, a, x as real);
  }

  lemma NothingCompared(a: seq<FeeFrac>, b: seq<FeeFrac>)
    requires Positive(a) && Positive(b)
    ensures !BetterUpTo(a, b, 0.0)
  {
    StartOfDiagram(a);
    StartOfDiagram(b);
  }

  method CompareChunks(a: seq<FeeFrac>, b: seq<FeeFrac>) returns (o: PartialOrdering)
    requires Positive(a) && Positive(b)
    ensures Compared(a, b, o)
  {
    hide AtSize, Total, BetterUpTo, NoWorse, Higher, Lower;
    var i, j, accA, accB := 0, 0, EMPTY, EMPTY;
    var betterA, betterB := false, false;
    ghost var x := 0;
    assert a[..0] == [] && b[..0] == [] && Total([]) == EMPTY by { TotalNone(); }
    NothingCompared(a, b);
    NothingCompared(b, a);
    while i < |a| || j < |b|
      invariant i <= |a| && j <= |b| && x >= 0
      invariant accA == Total(a[..i]) && accB == Total(b[..j])
      invariant Inside(a, i, x) && Inside(b, j, x)
      invariant betterA <==> BetterUpTo(a, b, x as real)
      invariant betterB <==> BetterUpTo(b, a, x as real)
      invariant !betterA || !betterB
      decreases |a| - i + |b| - j
    {
      if j == |b| || (i < |a| && accA.size + a[i].size <= accB.size + b[j].size) {
        var p := accA.Plus(a[i]);
        var slope := p.Minus(accB);
        StepDecides(a, i, b, j, x, p);
        NextPoint(a, i);
        betterA := betterA || Higher(slope, Slope(b[j..]));
        betterB := betterB || Lower(slope, Slope(b[j..]));
        if j < |b| && accB.size + b[j].size == p.size {
          NextPoint(b, j);
          accB, j := accB.Plus(b[j]), j + 1;
        }
        accA, i, x := p, i + 1, p.size;
      } else {
        var p := accB.Plus(b[j]);
        var slope := p.Minus(accA);
        StepDecides(b, j, a, i, x, p);
        NextPoint(b, j);
        betterB := betterB || Higher(slope, Slope(a[i..]));
        betterA := betterA || Lower(slope, Slope(a[i..]));
        accB, j, x := p, j + 1, p.size;
      }
      if betterA && betterB {
        SomewhereBetter(a, b, x as real);
        SomewhereBetter(b, a, x as real);
        return Unordered;
      }
    }
    AllCompared(a, b, x);
    return if betterA then Greater else if betterB then Less else Equivalent;
  }

  lemma TotalNone()
    ensures Total([]) == EMPTY
  {
  }
}
