/** The heights that blocks skip back to, and how few steps they leave. */
module SkipHeights {

  /** Bitwise and. */
  function And(a: nat, b: nat): nat {
    if a == 0 || b == 0 then 0 else 2 * And(a / 2, b / 2) + if a % 2 == 1 && b % 2 == 1 then 1 else 0
  }

  /** Turn the lowest 1 bit of a number into a 0. */
  function InvertLowestOne(n: nat): nat {
    if n == 0 then 0 else And(n, n - 1)
  }

  lemma {:induction false} AndSame(n: nat)
    ensures And(n, n) == n
  {
    if n > 0 {
      AndSame(n / 2);
    }
  }

  /** For an odd number that is the last bit, and for an even one it is found in the half. */
  lemma Inverted(n: nat)
    requires n > 0
    ensures InvertLowestOne(n) == if n % 2 == 1 then n - 1 else 2 * InvertLowestOne(n / 2)
    ensures InvertLowestOne(n) < n
  {
    InvertedLess(n);
    if n % 2 == 1 {
      OddInverted(n, n / 2);
    } else {
      EvenInverted(n, n / 2);
    }
  }

  lemma OddInverted(n: nat, m: nat)
    requires n == 2 * m + 1
    ensures InvertLowestOne(n) == n - 1
  {
    AndSame(m);
    AndHalves(n, n - 1, m, m);
  }

  lemma EvenInverted(n: nat, m: nat)
    requires n == 2 * m && n > 0
    ensures InvertLowestOne(n) == 2 * InvertLowestOne(m)
  {
    AndHalves(n, n - 1, m, m - 1);
  }

  lemma AndHalves(a: nat, b: nat, a': nat, b': nat)
    requires a' == a / 2 && b' == b / 2
    ensures And(a, b) == 2 * And(a', b') + if a % 2 == 1 && b % 2 == 1 then 1 else 0
  {
  }

  lemma {:induction false} AndBelow(a: nat, b: nat)
    ensures And(a, b) <= b
  {
    if a != 0 && b != 0 {
      AndBelow(a / 2, b / 2);
    }
  }

  lemma InvertedLess(n: nat)
    ensures InvertLowestOne(n) <= n
    ensures n > 0 ==> InvertLowestOne(n) < n
  {
    if n > 0 {
      AndBelow(n, n - 1);
    }
  }

  /** The height that a block skips back to. */
  function GetSkipHeight(height: nat): (h: nat)
    ensures height >= 1 ==> h < height
  {
    if height < 2 then 0
    else if height % 2 == 1 then InvertedLess(height - 1); InvertedLess(InvertLowestOne(height - 1));
      InvertLowestOne(InvertLowestOne(height - 1)) + 1
    else InvertedLess(height); InvertLowestOne(height)
  }

  // ----- the way from one height down to another -----

  /** Whether to skip rather than go to the parent. */
  predicate Skips(at: nat, h: nat)
    requires at > h
  {
    var skip, skipPrev := GetSkipHeight(at), GetSkipHeight(at - 1);
    skip == h || (skip > h && !(skipPrev < skip - 2 && skipPrev >= h))
  }

  ghost function StepsFrom(at: nat, h: nat): nat {
    if at <= h then 0 else 1 + StepsFrom(if Skips(at, h) then GetSkipHeight(at) else at - 1, h)
  }

  lemma OneStep(at: nat, h: nat)
    requires at > h
    ensures StepsFrom(at, h) == 1 + StepsFrom(if Skips(at, h) then GetSkipHeight(at) else at - 1, h)
    ensures Skips(at, h) ==> GetSkipHeight(at) >= h
  {
  }

  // ----- how far apart two heights are -----

  /** The number of low bits from which on two numbers have the same bits. */
  ghost function Apart(w: nat, t: nat): nat
    decreases w + t
  {
    if w == t then 0 else 1 + Apart(w / 2, t / 2)
  }

  /** How many of these bits of the first number are ones. */
  ghost function LowOnes(w: nat, t: nat): nat
    decreases w + t
  {
    if w == t then 0 else w % 2 + LowOnes(w / 2, t / 2)
  }

  /** The number of bits of a number. */
  ghost function Length(n: nat): nat {
    if n == 0 then 0 else 1 + Length(n / 2)
  }

  lemma {:induction false} SomeOnes(w: nat, t: nat)
    requires w > t
    ensures 1 <= LowOnes(w, t) <= Apart(w, t)
  {
    if w / 2 != t / 2 {
      SomeOnes(w / 2, t / 2);
    }
  }

  lemma {:induction false} ApartLength(w: nat, t: nat)
    requires w >= t
    ensures Apart(w, t) <= Length(w)
  {
    if w > t {
      ApartLength(w / 2, t / 2);
    }
  }

  /** Inverting the lowest one, as long as that stays above `t`, takes off one of the ones. */
  lemma {:induction false} OneLess(w: nat, t: nat)
    requires w > 0 && InvertLowestOne(w) > t
    ensures Apart(InvertLowestOne(w), t) == Apart(w, t) && LowOnes(InvertLowestOne(w), t) == LowOnes(w, t) - 1
    ensures LowOnes(w, t) >= 2
  {
    hide InvertLowestOne, Apart, LowOnes;
    Inverted(w);
    var i := InvertLowestOne(w);
    SomeOnes(i, t);
    Halves(w, t);
    Halves(i, t);
    if w % 2 == 0 {
      assert i / 2 == InvertLowestOne(w / 2);
      OneLess(w / 2, t / 2);
    }
  }

  lemma Halves(w: nat, t: nat)
    requires w != t
    ensures Apart(w, t) == 1 + Apart(w / 2, t / 2) && LowOnes(w, t) == w % 2 + LowOnes(w / 2, t / 2)
  {
  }

  /** Where it would go below `t`, the parent is closer to `t` by a bit. */
  lemma {:induction false} BitLess(w: nat, t: nat)
    requires w > t && InvertLowestOne(w) <= t
    ensures Apart(w - 1, t) < Apart(w, t)
  {
    Inverted(w);
    if w % 2 == 0 && t != w - 1 {
      assert (w - 1) / 2 == w / 2 - 1;
      BitLess(w / 2, t / 2);
    }
  }

  /** What bounds the number of steps. */
  ghost function Measure(w: nat, t: nat): nat {
    if w <= t then 0 else (Apart(w, t) - 1) * (Apart(w, t) - 1) + 2 * LowOnes(w, t)
  }

  lemma MeasureBound(w: nat, t: nat, n: nat)
    requires Apart(w, t) <= n
    ensures Measure(w, t) <= n * n + 1
  {
    if w > t {
      SomeOnes(w, t);
      SquareBelow(Apart(w, t), n);
    }
  }

  lemma SquareBelow(a: nat, n: nat)
    requires 1 <= a <= n
    ensures (a - 1) * (a - 1) + 2 * a <= n * n + 1
  {
    assert a * a <= n * n by {
      assert a * a <= a * n;
      assert a * n <= n * n;
    }
  }

  lemma AtLeastTwo(w: nat, t: nat)
    requires w > t
    ensures Measure(w, t) >= 2
  {
    SomeOnes(w, t);
    assert (Apart(w, t) - 1) * (Apart(w, t) - 1) >= 0;
  }

  lemma InvertMeasure(w: nat, t: nat)
    requires w > 0 && InvertLowestOne(w) > t
    ensures Measure(InvertLowestOne(w), t) == Measure(w, t) - 2 && Measure(w, t) >= 4
  {
    Inverted(w);
    OneLess(w, t);
    AtLeastTwo(InvertLowestOne(w), t);
  }

  lemma ParentMeasure(w: nat, t: nat)
    requires w > t && InvertLowestOne(w) <= t
    ensures Measure(w - 1, t) < Measure(w, t)
  {
    BitLess(w, t);
    SomeOnes(w, t);
    MeasureBound(w - 1, t, Apart(w, t) - 1);
  }

  /** The number that follows an even one is as far away, and has one more one. */
  lemma NextMeasure(e: nat, t: nat)
    requires e % 2 == 0 && e >= t
    ensures Measure(e + 1, t) == Measure(e, t) + 2
  {
    assert (e + 1) / 2 == e / 2;
    if e == t {
      assert Apart(e + 1, t) == 1 && LowOnes(e + 1, t) == 1;
    }
  }

  // ----- how the measure falls -----

  lemma InvertedEven(n: nat)
    ensures InvertLowestOne(n) % 2 == 0
  {
    if n > 0 {
      Inverted(n);
    }
  }

  /** Skipping from an odd height. */
  lemma OddSkip(w: nat, t: nat)
    requires w % 2 == 1 && w > t && GetSkipHeight(w) > t
    ensures Measure(GetSkipHeight(w), t) <= Measure(w, t) - 1
  {
    var a := w - 1;
    var b := InvertLowestOne(a);
    var e := InvertLowestOne(b);
    hide InvertLowestOne, Measure;
    assert e + 1 == GetSkipHeight(w);
    Inverted(w);
    Falls(w, a, b, e, t);
  }

  lemma Falls(w: nat, a: nat, b: nat, e: nat, t: nat)
    requires w % 2 == 1 && a == w - 1 == InvertLowestOne(w) && b == InvertLowestOne(a) && e == InvertLowestOne(b)
    requires e >= t && e + 1 < w
    ensures Measure(e + 1, t) <= Measure(w, t) - 1
  {
    hide InvertLowestOne, Measure;
    InvertedLess(a);
    InvertedLess(b);
    InvertedEven(b);
    NextMeasure(e, t);
    InvertMeasure(w, t);
    if e == t {
      NoMeasure(t);
    } else {
      InvertMeasure(a, t);
      InvertMeasure(b, t);
    }
  }

  lemma NoMeasure(t: nat)
    ensures Measure(t, t) == 0
  {
  }

  /** From an even height it may pay to go to the parent and skip from there: that is further than skipping, by
      one or two ones. */
  lemma ParentSkip(w: nat)
    requires w % 2 == 0 && w > 2 && GetSkipHeight(w - 1) < GetSkipHeight(w) - 2
    ensures || GetSkipHeight(w - 1) == InvertLowestOne(InvertLowestOne(w)) + 1
            || GetSkipHeight(w - 1) == InvertLowestOne(InvertLowestOne(InvertLowestOne(w))) + 1
  {
    hide InvertLowestOne, GetSkipHeight;
    var u, two := Quarter(w);
    if two {
      ParentSkipTwice(w, u);
    } else {
      ParentSkipFour(w, u);
    }
  }

  lemma Quarter(w: nat) returns (u: nat, two: bool)
    requires w % 2 == 0
    ensures w == 4 * u + if two then 2 else 0
  {
    var v := w / 2;
    assert w == 2 * v;
    u, two := v / 2, v % 2 == 1;
  }

  lemma ParentSkipTwice(w: nat, u: nat)
    requires w == 4 * u + 2 && w > 2
    ensures GetSkipHeight(w - 1) == InvertLowestOne(InvertLowestOne(InvertLowestOne(w))) + 1
  {
    hide InvertLowestOne, GetSkipHeight;
    TwiceOdd(w, u);
    SkipOdd(w - 1);
  }

  lemma ParentSkipFour(w: nat, u: nat)
    requires w == 4 * u && u > 0 && GetSkipHeight(w - 1) < GetSkipHeight(w) - 2
    ensures GetSkipHeight(w - 1) == InvertLowestOne(InvertLowestOne(w)) + 1
  {
    hide InvertLowestOne, GetSkipHeight;
    SkipEven(w);
    SkipOdd(w - 1);
    TwiceOdd(w - 2, u - 1);
    FourTimes(w, u);
    FourTimes(w - 4, u - 1);
    FourTimesSkip(u);
  }

  lemma SkipOdd(w: nat)
    requires w >= 2 && w % 2 == 1
    ensures GetSkipHeight(w) == InvertLowestOne(InvertLowestOne(w - 1)) + 1
  {
  }

  lemma SkipEven(w: nat)
    requires w >= 2 && w % 2 == 0
    ensures GetSkipHeight(w) == InvertLowestOne(w)
  {
  }

  lemma TwiceOdd(w: nat, u: nat)
    requires w == 4 * u + 2
    ensures InvertLowestOne(w) == 4 * u
  {
    hide InvertLowestOne;
    Inverted(w);
    Inverted(w / 2);
  }

  /** The quarters decide: with an odd one the two ways differ by a one, and with an even one the parent's is no further. */
  lemma FourTimesSkip(u: nat)
    requires u > 0
    ensures if u % 2 == 1 then InvertLowestOne(u) == u - 1 else InvertLowestOne(u - 1) >= InvertLowestOne(u)
  {
    hide InvertLowestOne;
    Inverted(u);
    if u % 2 == 0 {
      Inverted(u - 1);
      InvertedLess(u / 2);
    }
  }

  lemma FourTimes(w: nat, n: nat)
    requires w == 4 * n
    ensures InvertLowestOne(w) == 4 * InvertLowestOne(n)
  {
    hide InvertLowestOne;
    if n > 0 {
      Inverted(w);
      Inverted(w / 2);
    } else {
      NoOnes();
    }
  }

  lemma NoOnes()
    ensures InvertLowestOne(0) == 0
  {
  }

  lemma PairFalls(w: nat, t: nat)
    requires w % 2 == 0 && w > 2 && InvertLowestOne(w) > t
    requires GetSkipHeight(w - 1) < GetSkipHeight(w) - 2 && GetSkipHeight(w - 1) > t
    ensures Measure(GetSkipHeight(w - 1), t) <= Measure(w, t) - 2
  {
    hide InvertLowestOne, Measure, GetSkipHeight;
    ParentSkip(w);
    var s := InvertLowestOne(w);
    var i := InvertLowestOne(s);
    var j := InvertLowestOne(i);
    InvertMeasure(w, t);
    InvertedLess(i);
    InvertedEven(s);
    InvertedEven(i);
    var e := GetSkipHeight(w - 1) - 1;
    NextMeasure(e, t);
    if e == t {
      NoMeasure(t);
    } else if e == i {
      InvertMeasure(s, t);
    } else {
      InvertMeasure(s, t);
      InvertMeasure(i, t);
    }
  }

  lemma {:induction false} StepsBelow(w: nat, t: nat)
    ensures StepsFrom(w, t) <= Measure(w, t)
    decreases w
  {
    hide InvertLowestOne, Measure, StepsFrom, Skips, GetSkipHeight;
    if w <= t {
      NoSteps(w, t);
    } else {
      AtLeastTwo(w, t);
      OneStep(w, t);
      var s := GetSkipHeight(w);
      if Skips(w, t) {
        if s > t {
          StepsBelow(s, t);
          SkipFalls(w, t);
        } else {
          NoSteps(s, t);
        }
      } else if InvertLowestOne(w) <= t {
        ParentMeasure(w, t);
        StepsBelow(w - 1, t);
      } else if w % 2 == 1 {
        Inverted(w);
        InvertMeasure(w, t);
        StepsBelow(w - 1, t);
      } else {
        var next := GetSkipHeight(w - 1);
        NotSkipped(w, t);
        InvertMeasure(w, t);
        OddSkips(w - 1, t);
        OneStep(w - 1, t);
        if next > t {
          PairFalls(w, t);
          StepsBelow(next, t);
        } else {
          NoSteps(next, t);
        }
      }
    }
  }

  lemma NoSteps(w: nat, t: nat)
    requires w <= t
    ensures StepsFrom(w, t) == 0
  {
  }

  lemma NotSkipped(w: nat, t: nat)
    requires w % 2 == 0 && w > t && !Skips(w, t) && InvertLowestOne(w) > t
    ensures w > 3 && t <= GetSkipHeight(w - 1) < GetSkipHeight(w) - 2
  {
    Inverted(w);
    Inverted(w / 2);
  }

  lemma OddSkips(w: nat, t: nat)
    requires w % 2 == 1 && w > t && w > 2 && GetSkipHeight(w) >= t
    ensures Skips(w, t)
  {
    hide InvertLowestOne;
    InvertedLess(InvertLowestOne(w - 1));
  }

  /** Going down from a height with `n` bits takes at most n * n + 1 steps. */
  lemma FewSteps(w: nat, t: nat)
    requires w >= t
    ensures StepsFrom(w, t) <= Length(w) * Length(w) + 1
  {
    hide StepsFrom, Measure, Length;
    StepsBelow(w, t);
    ApartLength(w, t);
    MeasureBound(w, t, Length(w));
  }

  lemma SkipFalls(w: nat, t: nat)
    requires w > t && GetSkipHeight(w) > t
    ensures Measure(GetSkipHeight(w), t) <= Measure(w, t) - 1
  {
    hide InvertLowestOne, Measure;
    if w % 2 == 1 {
      OddSkip(w, t);
    } else {
      InvertMeasure(w, t);
    }
  }
}
