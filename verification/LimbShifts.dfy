/** Shifting numbers of several limbs by any number of bits. */
module LimbShifts {
  import opened Limbs

  // ----- bitwise or -----

  /** Bitwise or. */
  function Or(a: nat, b: nat): nat
    decreases a + b
  {
    if a == 0 then b else if b == 0 then a
    else 2 * Or(a / 2, b / 2) + if a % 2 == 1 || b % 2 == 1 then 1 else 0
  }

  /** With no common bits, or is addition. */
  lemma {:induction false} OrAdds(a: nat, b: nat, s: nat)
    requires a % Pow2(s) == 0 && b < Pow2(s)
    ensures Or(a, b) == a + b == Or(b, a)
    decreases s
  {
    if a != 0 && b != 0 {
      assert s > 0;
      Halve(a, s);
      OrAdds(a / 2, b / 2, s - 1);
    }
  }

  /** Half of a multiple of a power of two. */
  lemma Halve(a: nat, s: nat)
    requires s > 0 && a % Pow2(s) == 0
    ensures a % 2 == 0 && (a / 2) % Pow2(s - 1) == 0
  {
    HalfMultiple(a, Pow2(s - 1));
  }

  lemma HalfMultiple(a: nat, p: nat)
    requires p > 0 && a % (2 * p) == 0
    ensures a % 2 == 0 && (a / 2) % p == 0
  {
    DivMod(a, 2 * p);
    var q := a / (2 * p);
    assert a == 2 * (q * p) by { Double(q, p); }
    ModMultiple(0, q, p);
  }

  lemma Double(q: nat, p: nat)
    ensures q * (2 * p) == 2 * (q * p)
  {
  }

  // ----- one limb -----

  lemma Split(s: nat)
    requires s <= LIMB_BITS
    ensures Pow2(s) * Pow2(LIMB_BITS - s) == BASE
  {
    Pow2Limb();
    Pow2Add(s, LIMB_BITS - s);
  }

  /** What stays of a limb that is shifted left. */
  function Low(x: Limb, s: nat): Limb {
    (x * Pow2(s)) % BASE
  }

  /** What goes to the next limb. */
  function High(x: Limb, s: nat): Limb
    requires s < LIMB_BITS
  {
    Split(s);
    DivBound(x, Pow2(LIMB_BITS - s));
    x / Pow2(LIMB_BITS - s)
  }

  lemma DivBound(x: nat, d: nat)
    requires d > 0
    ensures 0 <= x / d <= x
  {
    var q := x / d;
    assert x == q * d + x % d;
    if q > 0 {
      Multiples(q, d);
      assert q * d >= q by { Multiples(d, q); }
    }
  }

  /** Together they are the shifted limb; they have no common bits. */
  lemma LowHigh(x: Limb, s: nat)
    requires s < LIMB_BITS
    ensures x * Pow2(s) == Low(x, s) + BASE * High(x, s)
    ensures Low(x, s) % Pow2(s) == 0 && High(x, s) < Pow2(s)
  {
    hide Pow2;
    Split(s);
    ShiftParts(x, Pow2(s), Pow2(LIMB_BITS - s));
  }

  lemma ShiftParts(x: nat, p: nat, d: nat)
    requires p > 0 && d > 0 && p * d == BASE && x < BASE
    ensures x * p == (x * p) % BASE + BASE * (x / d) && ((x * p) % BASE) % p == 0 && x / d < p
  {
    DivMod(x, d);
    var q, m := x / d, x % d;
    Expand(q, d, m, p);
    Below(m, d, p);
    assert d * p == p * d;
    ModMultiple(m * p, q, BASE);
    ModMultiple(0, m, p);
    NotMore(p, q, d, x);
  }

  lemma NotMore(p: nat, q: nat, d: nat, x: nat)
    requires q * d <= x < p * d
    ensures q < p
  {
    if q >= p {
      AtLeast(p, q, d);
    }
  }

  lemma Expand(q: nat, d: nat, m: nat, p: nat)
    requires p * d == BASE
    ensures (q * d + m) * p == BASE * q + m * p
  {
    assert (q * d) * p == q * (p * d);
    assert (q * d + m) * p == (q * d) * p + m * p;
  }

  lemma AtLeast(x: nat, y: nat, r: nat)
    requires x <= y
    ensures x * r <= y * r
  {
    Spread(x, y - x, 0, r);
  }

  // ----- shifting left -----

  /** All limbs shifted by less than a limb, with one more limb for what goes out at the top. */
  ghost function Shl(a: seq<Limb>, s: nat, carry: Limb): (r: seq<Limb>)
    requires s < LIMB_BITS && carry < Pow2(s)
    ensures |r| == |a| + 1
  {
    if a == [] then [carry] else
    LowHigh(a[0], s);
    LowFits(a[0], s, carry);
    [Low(a[0], s) + carry] + Shl(a[1..], s, High(a[0], s))
  }

  lemma LowFits(x: Limb, s: nat, carry: nat)
    requires s < LIMB_BITS && carry < Pow2(s) && Low(x, s) % Pow2(s) == 0
    ensures Low(x, s) + carry < BASE
  {
    hide Pow2, Low;
    Split(s);
    RoundedFits(Low(x, s), Pow2(s), Pow2(LIMB_BITS - s), carry);
  }

  lemma RoundedFits(v: nat, p: nat, d: nat, carry: nat)
    requires p > 0 && p * d == BASE && v < BASE && v % p == 0 && carry < p
    ensures v + carry < BASE
  {
    DivMod(v, p);
    var q := v / p;
    assert p * d == d * p;
    NotMore(d, q, p, v);
    Below(q, d, p);
  }

  lemma {:induction false} ShlVal(a: seq<Limb>, s: nat, carry: Limb)
    requires s < LIMB_BITS && carry < Pow2(s)
    ensures Val(Shl(a, s, carry)) == Val(a) * Pow2(s) + carry
    decreases a
  {
    if a == [] {
      assert [carry][1..] == [];
    } else {
      LowHigh(a[0], s);
      ShlVal(a[1..], s, High(a[0], s));
      var r := Shl(a, s, carry);
      assert r[1..] == Shl(a[1..], s, High(a[0], s));
      ShlArith(a[0], Low(a[0], s), High(a[0], s), Val(a[1..]), Pow2(s), carry);
    }
  }

  lemma ShlArith(x: nat, low: nat, high: nat, v: nat, p: nat, carry: nat)
    requires x * p == low + BASE * high
    ensures low + carry + BASE * (v * p + high) == (x + BASE * v) * p + carry
  {
    assert (x + BASE * v) * p == x * p + (BASE * v) * p;
    assert (BASE * v) * p == BASE * (v * p);
  }

  /** Each limb of the result. */
  lemma {:induction false} ShlAt(a: seq<Limb>, s: nat, carry: Limb, j: nat)
    requires s < LIMB_BITS && carry < Pow2(s) && j <= |a|
    ensures Shl(a, s, carry)[j] == (if j < |a| then Low(a[j], s) else 0) + if j == 0 then carry else High(a[j - 1], s)
    decreases a
  {
    if a != [] {
      LowHigh(a[0], s);
      if j > 0 {
        ShlAt(a[1..], s, High(a[0], s), j - 1);
      }
    }
  }

  /** Cutting limbs off the top is reduction. */
  lemma CutVal(u: seq<Limb>, n: nat)
    requires n <= |u|
    ensures Val(u[..n]) == Val(u) % Range(n)
  {
    hide Val, Range;
    ValSplit(u, n);
    ValBound(u[..n]);
    assert Range(n) * Val(u[n..]) == Val(u[n..]) * Range(n);
    ModMultiple(Val(u[..n]), Val(u[n..]), Range(n));
  }

  /** Limbs of zero at the bottom multiply. */
  lemma PadVal(t: seq<Limb>, k: nat)
    ensures Val(Zeros(k) + t) == Range(k) * Val(t)
  {
    hide Val, Range;
    var u := Zeros(k) + t;
    ValSplit(u, k);
    assert u[..k] == Zeros(k) && u[k..] == t;
    ValZero(k);
  }

  function Zeros(k: nat): seq<Limb> {
    seq(k, i => 0)
  }

  /** What shifting left by `k` limbs and `s` bits leaves in `n` limbs. */
  lemma ShiftLeftVal(a: seq<Limb>, k: nat, s: nat, r: seq<Limb>)
    requires s < LIMB_BITS && |r| == |a|
    requires r == (Zeros(k) + Shl(a, s, 0))[..|a|]
    ensures Val(r) == (Val(a) * Pow2(LIMB_BITS * k + s)) % Range(|a|)
  {
    hide Val, Range, Pow2, Shl;
    var u := Zeros(k) + Shl(a, s, 0);
    CutVal(u, |a|);
    PadVal(Shl(a, s, 0), k);
    ShlVal(a, s, 0);
    RangeIs(k);
    Pow2Add(LIMB_BITS * k, s);
    Reorder(Range(k), Val(a), Pow2(s));
  }

  lemma Reorder(r: nat, v: nat, p: nat)
    ensures r * (v * p) == v * (r * p)
  {
  }

  /** What is in limb `j` after limbs below `i` have been shifted. */
  ghost function LeftAt(a: seq<Limb>, k: nat, s: nat, i: nat, j: nat): int
    requires s < LIMB_BITS && i <= |a|
  {
    (if k <= j < i + k then Low(a[j - k], s) else 0) + (if k + 1 <= j < i + k + 1 then High(a[j - k - 1], s) else 0)
  }

  method Clear(pn: array<Limb>)
    modifies pn
    ensures forall j :: 0 <= j < pn.Length ==> pn[j] == 0
  {
    for i := 0 to pn.Length
      invariant forall j :: 0 <= j < i ==> pn[j] == 0
    {
      pn[i] := 0;
    }
  }

  /** Shift left in place, through a copy; what goes out at the top is dropped. */
  method ShiftLeft(pn: array<Limb>, shift: nat)
    modifies pn
    ensures Val(pn[..]) == (old(Val(pn[..])) * Pow2(shift)) % Range(pn.Length)
  {
    hide Val, Range, Pow2, Low, High, Shl, OrLimb;
    var a := pn[..];
    Clear(pn);
    var k, s := shift / LIMB_BITS, shift % LIMB_BITS;
    for i := 0 to pn.Length
      invariant forall j :: 0 <= j < pn.Length ==> pn[j] as int == LeftAt(a, k, s, i, j)
    {
      LowHigh(a[i], s);
      NoHigh(a[i], s);
      if i + k + 1 < pn.Length && s != 0 {
        OrLimbAdds(0, High(a[i], s), s);
        pn[i + k + 1] := OrLimb(pn[i + k + 1], High(a[i], s));
      }
      if i + k < pn.Length {
        if i > 0 {
          LowHigh(a[i - 1], s);
        }
        OrLimbAdds(Low(a[i], s), pn[i + k], s);
        pn[i + k] := OrLimb(pn[i + k], Low(a[i], s));
      }
    }
    LeftLimbs(a, k, s, pn[..]);
    ShiftLeftVal(a, k, s, pn[..]);
  }

  lemma NoHigh(x: Limb, s: nat)
    requires s < LIMB_BITS
    ensures s == 0 ==> High(x, s) == 0
    ensures 0 < Pow2(s)
  {
    LowHigh(x, s);
  }

  lemma LeftLimbs(a: seq<Limb>, k: nat, s: nat, r: seq<Limb>)
    requires s < LIMB_BITS && |r| == |a| && forall j :: 0 <= j < |r| ==> r[j] as int == LeftAt(a, k, s, |a|, j)
    requires 0 < Pow2(s)
    ensures r == (Zeros(k) + Shl(a, s, 0))[..|a|]
  {
    hide Shl, Low, High, Pow2;
    var u := Zeros(k) + Shl(a, s, 0);
    forall j | 0 <= j < |r| ensures r[j] == u[j] {
      assert r[j] as int == LeftAt(a, k, s, |a|, j);
      if j >= k {
        ShlAt(a, s, 0, j - k);
      }
    }
  }

  function OrLimb(a: Limb, b: Limb): Limb {
    Pow2Limb();
    OrBound(a, b, LIMB_BITS);
    Or(a, b)
  }

  lemma {:induction false} OrBound(a: nat, b: nat, s: nat)
    requires a < Pow2(s) && b < Pow2(s)
    ensures Or(a, b) < Pow2(s)
    decreases s
  {
    if a != 0 && b != 0 {
      assert s > 0;
      OrBound(a / 2, b / 2, s - 1);
    }
  }

  lemma OrLimbAdds(a: Limb, b: Limb, s: nat)
    requires a % Pow2(s) == 0 && b < Pow2(s)
    ensures OrLimb(a, b) as int == OrLimb(b, a) as int == a + b
  {
    OrAdds(a, b, s);
  }

  // ----- shifting right -----

  /** What stays of a limb that is shifted right. */
  function Down(x: Limb, s: nat): Limb
    requires s < LIMB_BITS
  {
    if s == 0 then x else High(x, LIMB_BITS - s)
  }

  /** What goes to the limb below. */
  function Up(x: Limb, s: nat): Limb
    requires s < LIMB_BITS
  {
    if s == 0 then 0 else Low(x, LIMB_BITS - s)
  }

  lemma DownUp(x: Limb, s: nat)
    requires s < LIMB_BITS
    ensures Down(x, s) < Pow2(LIMB_BITS - s) && Up(x, s) % Pow2(LIMB_BITS - s) == 0
    ensures Down(x, s) as int == x / Pow2(s) && Up(x, s) as int == (x % Pow2(s)) * Pow2(LIMB_BITS - s)
  {
    hide Pow2, Low, High;
    Pow2Limb();
    if s == 0 {
      PowZero(x);
      assert 0 % Pow2(LIMB_BITS) == 0;
    } else {
      var t := LIMB_BITS - s;
      LowHigh(x, t);
      Split(t);
      LowIs(x, t);
      DivMod(x, Pow2(s));
      UpArith(x, Pow2(t), Pow2(s), Low(x, t), High(x, t));
    }
  }

  lemma PowZero(x: nat)
    ensures Pow2(0) == 1 && x % 1 == 0 && x / 1 == x
  {
  }

  lemma LowIs(x: Limb, t: nat)
    requires 0 < t < LIMB_BITS
    ensures High(x, t) as int == x / Pow2(LIMB_BITS - t)
  {
  }

  lemma UpArith(x: nat, d: nat, p: nat, low: nat, high: nat)
    requires p > 0 && d * p == BASE && x * d == low + BASE * high && high == x / p && x == (x / p) * p + x % p
    ensures low == (x % p) * d
  {
    Expand(x / p, p, x % p, d);
  }

  lemma UpFits(x: Limb, y: Limb, s: nat)
    requires s < LIMB_BITS
    ensures Down(x, s) + Up(y, s) < BASE
  {
    hide Pow2, Down, Up;
    DownUp(x, s);
    DownUp(y, s);
    Split(LIMB_BITS - s);
    RoundedFits(Up(y, s), Pow2(LIMB_BITS - s), Pow2(s), Down(x, s));
  }

  /** All limbs shifted by less than a limb. */
  ghost function Shr(a: seq<Limb>, s: nat): (r: seq<Limb>)
    requires s < LIMB_BITS
    ensures |r| == |a|
  {
    if a == [] then [] else
    if |a| > 1 then UpFits(a[0], a[1], s); [Down(a[0], s) + Up(a[1], s)] + Shr(a[1..], s)
    else [Down(a[0], s)]
  }

  lemma {:induction false} ShrVal(a: seq<Limb>, s: nat)
    requires s < LIMB_BITS
    ensures Val(Shr(a, s)) == Val(a) / Pow2(s)
    decreases a
  {
    var p := Pow2(s);
    if a == [] {
      ModMultiple(0, 0, p);
    } else if |a| == 1 {
      DownUp(a[0], s);
      assert Shr(a, s)[1..] == [] && a[1..] == [];
    } else {
      ShrVal(a[1..], s);
      UpFits(a[0], a[1], s);
      assert Shr(a, s)[1..] == Shr(a[1..], s);
      ShrStep(a, s);
    }
  }

  lemma ShrStep(a: seq<Limb>, s: nat)
    requires s < LIMB_BITS && |a| > 1
    ensures Down(a[0], s) + Up(a[1], s) + BASE * (Val(a[1..]) / Pow2(s)) == Val(a) / Pow2(s)
  {
    var v, w := Val(a[1..]), Val(a[1..][1..]);
    assert Val(a) == a[0] + BASE * v && v == a[1] + BASE * w;
    hide Val, Pow2, Down, Up;
    DownUp(a[0], s);
    DownUp(a[1], s);
    Split(s);
    ShrArith(a[0], a[1], v, w, Pow2(s), Pow2(LIMB_BITS - s));
  }

  lemma ShrArith(x: nat, y: nat, v: nat, w: nat, p: nat, d: nat)
    requires p > 0 && p * d == BASE && v == y + BASE * w
    ensures x / p + (y % p) * d + BASE * (v / p) == (x + BASE * v) / p
  {
    DivMod(x, p);
    DivMod(v, p);
    assert v % p == y % p by {
      DivMod(y, p);
      assert v == y % p + (y / p + d * w) * p by { Gather(y / p, y % p, p, d, w); }
      ModMultiple(y % p, y / p + d * w, p);
    }
    var q := x / p + (y % p) * d + BASE * (v / p);
    assert x + BASE * v == q * p + x % p by { Assemble(x / p, x % p, y % p, v / p, p, d, v, x); }
    ModMultiple(x % p, q, p);
  }

  lemma Gather(q: nat, m: nat, p: nat, d: nat, w: nat)
    requires p * d == BASE
    ensures q * p + m + BASE * w == m + (q + d * w) * p
  {
    assert (q + d * w) * p == q * p + (d * w) * p;
    assert (d * w) * p == (p * d) * w;
  }

  lemma Assemble(q: nat, m: nat, n: nat, k: nat, p: nat, d: nat, v: nat, x: nat)
    requires p * d == BASE && v == k * p + n && x == q * p + m
    ensures x + BASE * v == (q + n * d + BASE * k) * p + m
  {
    assert (q + n * d + BASE * k) * p == q * p + (n * d) * p + (BASE * k) * p;
    assert (n * d) * p == BASE * n by {
      assert (n * d) * p == n * (p * d);
    }
    assert (BASE * k) * p == BASE * (k * p);
  }

  /** Each limb of the result. */
  lemma {:induction false} ShrAt(a: seq<Limb>, s: nat, j: nat)
    requires s < LIMB_BITS && j < |a|
    ensures Shr(a, s)[j] as int == Down(a[j], s) + if j + 1 < |a| then Up(a[j + 1], s) else 0
    decreases a
  {
    if |a| > 1 {
      UpFits(a[0], a[1], s);
      if j > 0 {
        ShrAt(a[1..], s, j - 1);
      }
    }
  }

  /** Dropping limbs at the bottom divides. */
  lemma DropVal(u: seq<Limb>, k: nat)
    requires k <= |u|
    ensures Val(u[k..]) == Val(u) / Range(k)
  {
    hide Val, Range;
    ValSplit(u, k);
    ValBound(u[..k]);
    assert Range(k) * Val(u[k..]) == Val(u[k..]) * Range(k);
    ModMultiple(Val(u[..k]), Val(u[k..]), Range(k));
  }

  lemma TopZeros(t: seq<Limb>, n: nat)
    ensures Val(t + Zeros(n)) == Val(t)
  {
    hide Val, Range;
    var u := t + Zeros(n);
    ValSplit(u, |t|);
    assert u[..|t|] == t && u[|t|..] == Zeros(n);
    ValZero(n);
  }

  lemma DivDiv(x: nat, p: nat, r: nat)
    requires p > 0 && r > 0
    ensures p * r > 0 && x / p / r == x / (p * r)
  {
    DivMod(x, p);
    DivMod(x / p, r);
    var q := x / p / r;
    var m := ((x / p) % r) * p + x % p;
    Multiples(r, p);
    assert r * p == p * r;
    Below((x / p) % r, r, p);
    assert x == q * (p * r) + m by { Nest(q, (x / p) % r, x % p, p, r); }
    ModMultiple(m, q, p * r);
  }

  lemma Nest(q: nat, n: nat, m: nat, p: nat, r: nat)
    ensures (q * r + n) * p + m == q * (p * r) + (n * p + m)
  {
    assert (q * r + n) * p == (q * r) * p + n * p;
    assert (q * r) * p == q * (p * r);
  }

  lemma ShiftRightVal(a: seq<Limb>, k: nat, s: nat, r: seq<Limb>)
    requires s < LIMB_BITS && |r| == |a|
    requires r == if k <= |a| then Shr(a, s)[k..] + Zeros(k) else Zeros(|a|)
    ensures Val(r) == Val(a) / Pow2(LIMB_BITS * k + s)
  {
    hide Val, Range, Pow2, Shr;
    ShrVal(a, s);
    RangeIs(k);
    Pow2Add(LIMB_BITS * k, s);
    DivDiv(Val(a), Pow2(s), Range(k));
    assert Pow2(s) * Range(k) == Range(k) * Pow2(s);
    if k <= |a| {
      DropVal(Shr(a, s), k);
      TopZeros(Shr(a, s)[k..], k);
    } else {
      ValZero(|a|);
      ValBound(Shr(a, s));
      RangeGrows(|a|, k);
      ModMultiple(Val(Shr(a, s)), 0, Range(k));
    }
  }

  lemma {:induction false} RangeGrows(a: nat, b: nat)
    requires a <= b
    ensures Range(a) <= Range(b)
  {
    if a < b {
      RangeGrows(a, b - 1);
    }
  }

  /** What is in limb `j` after limbs below `i` have been shifted right. */
  ghost function RightAt(a: seq<Limb>, k: nat, s: nat, i: nat, j: nat): int
    requires s < LIMB_BITS && i <= |a|
  {
    (if j + k < i then Down(a[j + k], s) else 0) + (if j + k + 1 < i then Up(a[j + k + 1], s) else 0)
  }

  /** Shift right in place, through a copy. */
  method ShiftRight(pn: array<Limb>, shift: nat)
    modifies pn
    ensures Val(pn[..]) == old(Val(pn[..])) / Pow2(shift)
  {
    hide Val, Range, Pow2, Low, High, Down, Up, Shr, OrLimb;
    var a := pn[..];
    Clear(pn);
    var k, s := shift / LIMB_BITS, shift % LIMB_BITS;
    for i := 0 to pn.Length
      invariant forall j :: 0 <= j < pn.Length ==> pn[j] as int == RightAt(a, k, s, i, j)
    {
      RightIs(a[i], s);
      if i - k - 1 >= 0 && s != 0 {
        DownUp(a[i - 1], s);
        DownUp(a[i], s);
        OrLimbAdds(Low(a[i], LIMB_BITS - s), pn[i - k - 1], LIMB_BITS - s);
        pn[i - k - 1] := OrLimb(pn[i - k - 1], Low(a[i], LIMB_BITS - s));
      }
      if i - k >= 0 {
        NothingYet(a[i], s);
        pn[i - k] := OrLimb(pn[i - k], if s == 0 then a[i] else High(a[i], LIMB_BITS - s));
      }
    }
    RightLimbs(a, k, s, pn[..]);
    ShiftRightVal(a, k, s, pn[..]);
  }

  lemma RightIs(x: Limb, s: nat)
    requires s < LIMB_BITS
    ensures s == 0 ==> Up(x, s) == 0 && Down(x, s) == x
    ensures s != 0 ==> Up(x, s) == Low(x, LIMB_BITS - s) && Down(x, s) == High(x, LIMB_BITS - s)
  {
  }

  lemma NothingYet(x: Limb, s: nat)
    requires s < LIMB_BITS
    ensures OrLimb(0, Down(x, s)) == Down(x, s)
  {
  }

  lemma RightLimbs(a: seq<Limb>, k: nat, s: nat, r: seq<Limb>)
    requires s < LIMB_BITS && |r| == |a| && forall j :: 0 <= j < |r| ==> r[j] as int == RightAt(a, k, s, |a|, j)
    ensures r == if k <= |a| then Shr(a, s)[k..] + Zeros(k) else Zeros(|a|)
  {
    hide Shr, Down, Up;
    var u := if k <= |a| then Shr(a, s)[k..] + Zeros(k) else Zeros(|a|);
    forall j | 0 <= j < |r| ensures r[j] == u[j] {
      assert r[j] as int == RightAt(a, k, s, |a|, j);
      if j + k < |a| {
        ShrAt(a, s, j + k);
      }
    }
  }
}
