/** Numbers of several 32-bit limbs, least significant first. */
module Limbs {

  const BASE: nat := 0x1_0000_0000
  const LIMB_BITS := 32

  type Limb = x: int | 0 <= x < BASE

  /** 2 to the power of `n`. */
  function Pow2(n: nat): (r: nat)
    ensures r > 0
  {
    if n == 0 then 1 else 2 * Pow2(n - 1)
  }

  /** The number that limbs stand for. */
  ghost function Val(s: seq<Limb>): nat {
    if s == [] then 0 else s[0] + BASE * Val(s[1..])
  }

  /** One more than the largest number of `n` limbs. */
  ghost function Range(n: nat): (r: nat)
    ensures r > 0
  {
    if n == 0 then 1 else BASE * Range(n - 1)
  }

  // ----- powers -----

  lemma {:induction false} Pow2Add(a: nat, b: nat)
    ensures Pow2(a + b) == Pow2(a) * Pow2(b)
  {
    if a > 0 {
      Pow2Add(a - 1, b);
    }
  }

  lemma Pow2Limb()
    ensures Pow2(LIMB_BITS) == BASE
  {
    assert Pow2(8) == 256;
    Pow2Add(8, 8);
    Pow2Add(16, 16);
  }

  lemma {:induction false} Pow2Grows(a: nat, b: nat)
    requires a <= b
    ensures Pow2(a) <= Pow2(b)
  {
    if a < b {
      Pow2Grows(a, b - 1);
    }
  }

  lemma {:induction false} RangeIs(n: nat)
    ensures Range(n) == Pow2(LIMB_BITS * n) > 0
  {
    if n > 0 {
      RangeIs(n - 1);
      Pow2Limb();
      Pow2Add(LIMB_BITS, LIMB_BITS * (n - 1));
    }
  }

  // ----- values -----

  lemma {:induction false} ValBound(s: seq<Limb>)
    ensures Val(s) < Range(|s|)
  {
    if s != [] {
      ValBound(s[1..]);
    }
  }

  lemma {:induction false} ValAppend(s: seq<Limb>, x: Limb)
    ensures Val(s + [x]) == Val(s) + x * Range(|s|)
  {
    if s == [] {
      assert [x][1..] == [];
    } else {
      assert (s + [x])[1..] == s[1..] + [x];
      ValAppend(s[1..], x);
      Distribute(x, Range(|s| - 1), Val(s[1..]));
    }
  }

  lemma Distribute(x: nat, r: nat, v: nat)
    ensures BASE * (v + x * r) == BASE * v + x * (BASE * r)
  {
  }

  /** Limbs split into low and high ones. */
  lemma {:induction false} ValSplit(s: seq<Limb>, n: nat)
    requires n <= |s|
    ensures Val(s) == Val(s[..n]) + Range(n) * Val(s[n..])
  {
    if n > 0 {
      var t := s[1..];
      ValSplit(t, n - 1);
      assert s[..n][1..] == t[..n - 1] && s[n..] == t[n - 1..];
      Regroup(Range(n - 1), Val(t[..n - 1]), Val(t[n - 1..]));
    } else {
      assert s[0..] == s;
    }
  }

  lemma Regroup(r: nat, a: nat, b: nat)
    ensures BASE * (a + r * b) == BASE * a + (BASE * r) * b
  {
  }

  lemma {:induction false} ValZero(n: nat)
    ensures Val(seq(n, i => 0)) == 0
  {
    if n > 0 {
      assert seq(n, i => 0)[1..] == seq(n - 1, i => 0);
      ValZero(n - 1);
    }
  }

  /** The value in the range of `n` limbs determines the limbs. */
  lemma {:induction false} ValInjective(s: seq<Limb>, t: seq<Limb>)
    requires |s| == |t| && Val(s) == Val(t)
    ensures s == t
  {
    if s != [] {
      assert s[0] == t[0] && Val(s[1..]) == Val(t[1..]);
      ValInjective(s[1..], t[1..]);
      assert s == [s[0]] + s[1..] && t == [t[0]] + t[1..];
    }
  }

  // ----- addition -----

  lemma AddStep(low: nat, r: nat, carry: nat, x: nat, y: nat, before: nat)
    requires low + carry * r == before
    ensures var n := carry + x + y; low + (n % BASE) * r + (n / BASE) * (BASE * r) == before + x * r + y * r
  {
    var n := carry + x + y;
    assert n == (n % BASE) + BASE * (n / BASE);
    assert (n % BASE) * r + (n / BASE) * (BASE * r) == n * r by {
      Collect(n % BASE, n / BASE, r);
    }
    assert n * r == carry * r + x * r + y * r by {
      Spread(carry, x, y, r);
    }
  }

  lemma Collect(a: nat, b: nat, r: nat)
    ensures a * r + b * (BASE * r) == (a + BASE * b) * r
  {
  }

  lemma Spread(a: nat, b: nat, c: nat, r: nat)
    ensures (a + b + c) * r == a * r + b * r + c * r
  {
  }

  /** Add, with the carry rippling up; what does not fit is dropped. */
  method AddAssign(a: array<Limb>, b: array<Limb>)
    requires a.Length == b.Length
    modifies a
    ensures Val(a[..]) == (old(Val(a[..])) + old(Val(b[..]))) % Range(a.Length)
  {
    hide Val, Range;
    NoLimbs();
    ghost var x, y := a[..], b[..];
    var carry: nat := 0;
    var i := 0;
    while i < a.Length
      invariant i <= a.Length && carry <= 1
      invariant a[i..] == x[i..] && (a != b ==> b[..] == y) && (a == b ==> x == y)
      invariant Val(a[..i]) + carry * Range(i) == Val(x[..i]) + Val(y[..i])
    {
      assert a[i] == x[i] && b[i] == y[i] by {
        assert a[i..][0] == x[i..][0];
      }
      var n := carry + a[i] + b[i];
      ghost var low := a[..i];
      AddStep(Val(low), Range(i), carry, x[i], y[i], Val(x[..i]) + Val(y[..i]));
      a[i] := n % BASE;
      carry := n / BASE;
      assert a[..i + 1] == low + [a[i]] && x[..i + 1] == x[..i] + [x[i]] && y[..i + 1] == y[..i] + [y[i]];
      ValAppend(low, a[i]);
      ValAppend(x[..i], x[i]);
      ValAppend(y[..i], y[i]);
      RangeNext(i);
      i := i + 1;
    }
    assert a[..i] == a[..] && x[..i] == x && y[..i] == y;
    ValBound(a[..]);
    Wraps(Val(a[..]), carry, Range(i), Val(x) + Val(y));
  }

  /** The parts of a division. */
  lemma DivMod(x: nat, d: nat)
    requires d > 0
    ensures x == (x / d) * d + x % d && x % d < d
  {
  }

  lemma Wraps(v: nat, carry: nat, r: nat, total: nat)
    requires v < r && v + carry * r == total
    ensures total % r == v
  {
    if carry > 0 {
      ModMultiple(v, carry, r);
    }
  }

  lemma {:induction false} ModMultiple(v: nat, k: nat, r: nat)
    requires v < r
    ensures (v + k * r) % r == v && (v + k * r) / r == k
  {
    var total := v + k * r;
    var q, m := total / r, total % r;
    assert total == q * r + m;
    Unique(q, m, k, v, r);
  }

  /** Quotient and remainder are unique. */
  lemma Unique(q: int, m: int, k: int, v: int, r: int)
    requires 0 <= m < r && 0 <= v < r && q * r + m == k * r + v
    ensures q == k && m == v
  {
    Multiples(q - k, r);
    assert (q - k) * r == v - m;
  }

  lemma Multiples(n: int, r: int)
    requires r > 0
    ensures (n >= 1 ==> n * r >= r) && (n <= -1 ==> n * r <= -r)
  {
  }

  // ----- complement, increment, subtraction -----

  /** All limbs inverted. */
  method Complement(a: array<Limb>) returns (r: array<Limb>)
    ensures fresh(r) && r.Length == a.Length && Val(r[..]) == Range(a.Length) - 1 - Val(a[..])
  {
    hide Val, Range;
    NoLimbs();
    r := new Limb[a.Length](i => 0);
    var i := 0;
    while i < a.Length
      invariant i <= a.Length && Val(r[..i]) + Val(a[..i]) == Range(i) - 1
    {
      ghost var low := r[..i];
      r[i] := BASE - 1 - a[i];
      assert r[..i + 1] == low + [r[i]] && a[..i + 1] == a[..i] + [a[i]];
      ValAppend(low, r[i]);
      ValAppend(a[..i], a[i]);
      Spread(r[i], a[i], 1, Range(i));
      RangeNext(i);
      i := i + 1;
    }
    assert r[..i] == r[..] && a[..i] == a[..];
  }

  /** Add one: limbs that overflow become zero. */
  method Increment(a: array<Limb>)
    modifies a
    ensures Val(a[..]) == (old(Val(a[..])) + 1) % Range(a.Length)
  {
    hide Val, Range;
    ghost var x := a[..];
    var i := 0;
    NoLimbs();
    while i < a.Length
      invariant i <= a.Length && a[i..] == x[i..] && Val(a[..i]) == 0 && Val(x[..i]) == Range(i) - 1
    {
      assert a[i] == x[i] && a[i + 1..] == x[i + 1..] by {
        assert a[i..][0] == x[i..][0] && a[i..][1..] == x[i..][1..];
      }
      ghost var low, high := a[..i], a[i + 1..];
      a[i] := (a[i] + 1) % BASE;
      assert a[..i] == low && a[i + 1..] == high;
      if a[i] != 0 {
        Carried(a[..], x, i);
        ValBound(a[..]);
        SmallMod(Val(a[..]), Range(a.Length));
        return;
      }
      AllOnes(a[..], x, i);
      i := i + 1;
    }
    assert a[..i] == a[..] && x[..i] == x;
    ModMultiple(0, 1, Range(i));
  }

  lemma RangeNext(i: nat)
    ensures Range(i + 1) == BASE * Range(i)
  {
  }

  lemma NoLimbs()
    ensures Val([]) == 0 && Range(0) == 1
  {
  }

  lemma SmallMod(v: nat, r: nat)
    requires v < r
    ensures v % r == v
  {
    ModMultiple(v, 0, r);
  }

  lemma AllOnes(a: seq<Limb>, x: seq<Limb>, i: nat)
    requires i < |a| == |x| && a[i] == 0 && x[i] == BASE - 1 && Val(a[..i]) == 0 && Val(x[..i]) == Range(i) - 1
    ensures Val(a[..i + 1]) == 0 && Val(x[..i + 1]) == Range(i + 1) - 1
  {
    assert a[..i + 1] == a[..i] + [a[i]] && x[..i + 1] == x[..i] + [x[i]];
    ValAppend(a[..i], a[i]);
    ValAppend(x[..i], x[i]);
    OneMore(x[i], Range(i));
  }

  lemma Carried(a: seq<Limb>, x: seq<Limb>, i: nat)
    requires i < |a| == |x| && a[i + 1..] == x[i + 1..] && a[i] as int == x[i] as int + 1
    requires Val(a[..i]) == 0 && Val(x[..i]) == Range(i) - 1
    ensures Val(a) == Val(x) + 1
  {
    hide Val, Range;
    LimbAt(a, i);
    LimbAt(x, i);
    OneMore(x[i], Range(i));
  }

  lemma OneMore(x: nat, r: nat)
    ensures (x + 1) * r == x * r + r
  {
  }

  /** A value by the limbs below, at and above a place. */
  lemma LimbAt(a: seq<Limb>, i: nat)
    requires i < |a|
    ensures Val(a) == Val(a[..i]) + a[i] * Range(i) + Range(i + 1) * Val(a[i + 1..])
  {
    hide Val, Range;
    ValSplit(a, i + 1);
    assert a[..i + 1] == a[..i] + [a[i]];
    ValAppend(a[..i], a[i]);
  }

  /** Two's complement. */
  method Negate(a: array<Limb>) returns (r: array<Limb>)
    ensures fresh(r) && r.Length == a.Length && Val(r[..]) == (Range(a.Length) - Val(a[..])) % Range(a.Length)
  {
    hide Val, Range;
    r := Complement(a);
    Increment(r);
  }

  method SubAssign(a: array<Limb>, b: array<Limb>)
    requires a.Length == b.Length
    modifies a
    ensures Val(a[..]) == (old(Val(a[..])) - old(Val(b[..]))) % Range(a.Length)
  {
    hide Val, Range;
    var n := Negate(b);
    ghost var x, y, r := Val(a[..]), Val(b[..]), Range(a.Length);
    ValBound(b[..]);
    AddAssign(a, n);
    SubWraps(x, y, r);
  }

  lemma SubWraps(x: nat, y: nat, r: nat)
    requires y < r
    ensures (x + (r - y) % r) % r == (x - y) % r
  {
    if y == 0 {
      ModMultiple(0, 1, r);
    } else {
      ModMultiple(r - y, 0, r);
      ModShift(x - y, r);
    }
  }

  lemma ModShift(v: int, r: nat)
    requires r > 0
    ensures (v + r) % r == v % r
  {
    var q, m, k, w := (v + r) / r, (v + r) % r, v / r, v % r;
    assert v + r == q * r + m && v == k * r + w;
    assert (k + 1) * r == k * r + r;
    Unique(q, m, k + 1, w, r);
  }

  // ----- comparison -----

  /** Compare from the most significant limb down. */
  method CompareTo(a: array<Limb>, b: array<Limb>) returns (c: int)
    requires a.Length == b.Length
    ensures -1 <= c <= 1
    ensures (c < 0 <==> Val(a[..]) < Val(b[..])) && (c == 0 <==> Val(a[..]) == Val(b[..]))
    ensures c == 0 <==> a[..] == b[..]
  {
    if Val(a[..]) == Val(b[..]) {
      ValInjective(a[..], b[..]);
    }
    var i := a.Length;
    while i > 0
      invariant 0 <= i <= a.Length && a[i..] == b[i..]
    {
      i := i - 1;
      HighLimb(a[..], b[..], i);
      if a[i] < b[i] {
        return -1;
      }
      if a[i] > b[i] {
        HighLimb(b[..], a[..], i);
        return 1;
      }
      assert a[i..] == [a[i]] + a[i + 1..] && b[i..] == [b[i]] + b[i + 1..];
    }
    assert a[0..] == a[..] && b[0..] == b[..];
    return 0;
  }

  /** The highest limb that differs decides. */
  lemma HighLimb(a: seq<Limb>, b: seq<Limb>, i: nat)
    requires i < |a| == |b| && a[i + 1..] == b[i + 1..]
    ensures a[i] < b[i] ==> Val(a) < Val(b)
  {
    hide Val, Range;
    LimbAt(a, i);
    LimbAt(b, i);
    ValBound(a[..i]);
    if a[i] < b[i] {
      Below(a[i], b[i], Range(i));
    }
  }

  lemma Below(x: nat, y: nat, r: nat)
    requires x < y
    ensures x * r + r <= y * r
  {
    Spread(x, 1, y - x - 1, r);
  }
}
