/** Division of numbers of several limbs, the compact format of targets, and the work of a block. */
module ArithUints {
  import opened Limbs
  import opened LimbShifts

  // ----- the number of bits -----

  predicate TestBit(x: Limb, n: nat) {
    (x / Pow2(n)) % 2 == 1
  }

  /** The position of the highest bit plus one, or zero. */
  method Bits(pn: array<Limb>) returns (r: nat)
    ensures r <= LIMB_BITS * pn.Length && (r == 0 <==> Val(pn[..]) == 0)
    ensures r > 0 ==> Pow2(r - 1) <= Val(pn[..]) < Pow2(r)
  {
    hide Val, Range, Pow2;
    var pos := pn.Length;
    assert pn[..pos] == pn[..];
    while pos > 0
      invariant 0 <= pos <= pn.Length && Val(pn[..]) == Val(pn[..pos])
    {
      pos := pos - 1;
      assert pn[..pos + 1] == pn[..pos] + [pn[pos]];
      ValAppend(pn[..pos], pn[pos]);
      if pn[pos] != 0 {
        var n := TopBit(pn[pos]);
        TopVal(pn[..pos], pn[pos], n);
        return LIMB_BITS * pos + n;
      }
    }
    NoLimbs();
    assert pn[..0] == [];
    return 0;
  }

  /** The position of the highest bit of a limb plus one. */
  method TopBit(x: Limb) returns (n: nat)
    requires x != 0
    ensures 0 < n <= LIMB_BITS && Pow2(n - 1) <= x < Pow2(n)
  {
    hide Pow2;
    Pow2Limb();
    var k := LIMB_BITS - 1;
    while k > 0
      invariant 0 <= k < LIMB_BITS && x < Pow2(k + 1)
    {
      BitDecides(x, k);
      if TestBit(x, k) {
        return k + 1;
      }
      k := k - 1;
    }
    PowZero(0);
    return 1;
  }

  lemma BitDecides(x: Limb, k: nat)
    requires x < Pow2(k + 1)
    ensures TestBit(x, k) <==> x >= Pow2(k)
  {
    var p := Pow2(k);
    assert x < 2 * p;
    DivMod(x, p);
    var q := x / p;
    NotMore(2, q, p, x);
    if q == 0 {
      assert x < p;
    } else {
      Multiples(q, p);
    }
  }

  lemma TopVal(low: seq<Limb>, x: Limb, n: nat)
    requires 0 < n <= LIMB_BITS && Pow2(n - 1) <= x < Pow2(n)
    ensures Pow2(LIMB_BITS * |low| + n - 1) <= Val(low) + x * Range(|low|) < Pow2(LIMB_BITS * |low| + n)
  {
    hide Val, Range, Pow2;
    ValBound(low);
    RangeIs(|low|);
    Pow2Add(LIMB_BITS * |low|, n - 1);
    Pow2Add(LIMB_BITS * |low|, n);
    Between(Pow2(n - 1), x, Pow2(n), Range(|low|), Val(low));
  }

  lemma Between(a: nat, x: nat, b: nat, r: nat, v: nat)
    requires a <= x < b && v < r
    ensures r * a <= v + x * r < r * b
  {
    AtLeast(a, x, r);
    Below(x, b, r);
    assert r * a == a * r && r * b == b * r;
  }

  // ----- setting a bit -----

  /** Set a bit below which and at which there is none. */
  method SetBit(pn: array<Limb>, shift: nat)
    requires shift < LIMB_BITS * pn.Length && Val(pn[..]) % Pow2(shift + 1) == 0
    modifies pn
    ensures Val(pn[..]) == old(Val(pn[..])) + Pow2(shift)
  {
    hide Val, Range, Pow2, OrLimb;
    var i, t := shift / LIMB_BITS, shift % LIMB_BITS;
    ghost var was := pn[..];
    Pow2Limb();
    Pow2Less(t, LIMB_BITS);
    Pow2Less(t, t + 1);
    LimbMultiple(was, i, t);
    OrLimbAdds(pn[i], Pow2(t), t + 1);
    pn[i] := OrLimb(pn[i], Pow2(t));
    LimbAt(was, i);
    LimbAt(pn[..], i);
    assert pn[..][..i] == was[..i] && pn[..][i + 1..] == was[i + 1..];
    RangeIs(i);
    Pow2Add(LIMB_BITS * i, t);
    Spread(was[i], Pow2(t), 0, Range(i));
  }

  lemma {:induction false} Pow2Less(a: nat, b: nat)
    requires a < b
    ensures Pow2(a) < Pow2(b)
  {
    Pow2Grows(a, b - 1);
  }

  lemma LimbMultiple(a: seq<Limb>, i: nat, t: nat)
    requires i < |a| && t < LIMB_BITS && Val(a) % Pow2(LIMB_BITS * i + t + 1) == 0
    ensures a[i] % Pow2(t + 1) == 0
  {
    var high := a[i..];
    assert Val(high) == a[i] + BASE * Val(high[1..]);
    var above := Val(high[1..]);
    hide Val, Range, Pow2;
    DropVal(a, i);
    RangeIs(i);
    Pow2Add(LIMB_BITS * i, t + 1);
    QuotientMultiple(Val(a), Range(i), Pow2(t + 1));
    Split(t + 1);
    ParityOfLimb(a[i], above, Pow2(t + 1), Pow2(LIMB_BITS - (t + 1)));
  }

  lemma QuotientMultiple(v: nat, r: nat, p: nat)
    requires r > 0 && p > 0 && r * p > 0 && v % (r * p) == 0
    ensures (v / r) % p == 0
  {
    DivMod(v, r * p);
    var q := v / (r * p);
    assert v == (q * p) * r by { assert q * (r * p) == (q * p) * r; }
    ModMultiple(0, q * p, r);
    ModMultiple(0, q, p);
  }

  lemma ParityOfLimb(x: nat, above: nat, p: nat, d: nat)
    requires p > 0 && p * d == BASE && (x + BASE * above) % p == 0
    ensures x % p == 0
  {
    DivMod(x, p);
    Gather(x / p, x % p, p, d, above);
    ModMultiple(x % p, x / p + d * above, p);
  }

  // ----- division -----

  method Copy(a: array<Limb>) returns (r: array<Limb>)
    ensures fresh(r) && r[..] == a[..]
  {
    r := new Limb[a.Length](i requires 0 <= i < a.Length reads a => a[i]);
  }

  /** What holds when `shift + 1` bits of the quotient are still to be found. */
  ghost predicate Dividing(total: nat, b: nat, q: nat, num: nat, shift: int)
    requires shift >= -1
  {
    total == q * b + num && num < b * Pow2(shift + 1) && q % Pow2(shift + 1) == 0
  }

  /** Divide by shifting and subtracting. Dividing by zero is an error. */
  method DivAssign(pn: array<Limb>, b: array<Limb>) returns (ok: bool)
    requires pn.Length == b.Length
    modifies pn
    ensures ok <==> old(Val(b[..])) != 0
    ensures ok ==> Val(pn[..]) == old(Val(pn[..])) / old(Val(b[..]))
  {
    hide Val, Range, Pow2, Dividing;
    ghost var total, divisor := Val(pn[..]), Val(b[..]);
    var div := Copy(b);
    var num := Copy(pn);
    Clear(pn);
    assert pn[..] == Zeros(pn.Length);
    ValZero(pn.Length);
    var numBits := Bits(num);
    var divBits := Bits(div);
    if divBits == 0 {
      return false;
    }
    if divBits > numBits {
      Smaller(total, divisor, numBits, divBits);
      return true;
    }
    var shift: int := numBits - divBits;
    Aligned(total, divisor, numBits, divBits, pn.Length);
    ShiftLeft(div, shift);
    while shift >= 0
      invariant -1 <= shift < LIMB_BITS * pn.Length && Dividing(total, divisor, Val(pn[..]), Val(num[..]), shift)
      invariant shift >= 0 ==> Val(div[..]) == divisor * Pow2(shift)
      invariant fresh(num) && fresh(div) && num != div && num.Length == div.Length == pn.Length
    {
      NextBit(total, divisor, Val(pn[..]), Val(num[..]), shift);
      var c := CompareTo(num, div);
      if c >= 0 {
        ValBound(num[..]);
        SmallMod(Val(num[..]) - Val(div[..]), Range(num.Length));
        SubAssign(num, div);
        SetBit(pn, shift);
      }
      ShiftRight(div, 1);
      HalfDivisor(divisor, shift);
      shift := shift - 1;
    }
    Divided(total, divisor, Val(pn[..]), Val(num[..]));
    return true;
  }

  lemma Smaller(total: nat, divisor: nat, numBits: nat, divBits: nat)
    requires numBits == 0 ==> total == 0
    requires (numBits > 0 ==> total < Pow2(numBits)) && numBits < divBits && Pow2(divBits - 1) <= divisor
    ensures divisor > 0 && 0 == total / divisor
  {
    if numBits > 0 {
      Pow2Grows(numBits, divBits - 1);
    }
    ModMultiple(total, 0, divisor);
  }

  /** After shifting, the divisor is as long as the number; nothing of it is lost. */
  lemma Aligned(total: nat, b: nat, numBits: nat, divBits: nat, n: nat)
    requires 0 < divBits <= numBits <= LIMB_BITS * n && Pow2(divBits - 1) <= b < Pow2(divBits) && total < Pow2(numBits)
    ensures var shift := numBits - divBits;
      Dividing(total, b, 0, total, shift) && (b * Pow2(shift)) % Range(n) == b * Pow2(shift)
  {
    hide Pow2, Range;
    var shift := numBits - divBits;
    Pow2Add(divBits - 1, shift + 1);
    AtLeast(Pow2(divBits - 1), b, Pow2(shift + 1));
    Pow2Add(divBits, shift);
    Below(b, Pow2(divBits), Pow2(shift));
    Pow2Grows(numBits, LIMB_BITS * n);
    RangeIs(n);
    SmallMod(b * Pow2(shift), Range(n));
    ModMultiple(0, 0, Pow2(shift + 1));
  }

  /** One bit of the quotient. */
  lemma NextBit(total: nat, b: nat, q: nat, num: nat, shift: nat)
    requires Dividing(total, b, q, num, shift)
    ensures q % Pow2(shift + 1) == 0
    ensures if num >= b * Pow2(shift) then Dividing(total, b, q + Pow2(shift), num - b * Pow2(shift), shift - 1)
            else Dividing(total, b, q, num, shift - 1)
  {
    var p := Pow2(shift);
    assert Pow2(shift + 1) == 2 * p;
    hide Pow2;
    BitStep(b, q, p);
    assert shift - 1 + 1 == shift;
  }

  lemma BitStep(b: nat, q: nat, p: nat)
    requires p > 0 && q % (2 * p) == 0
    ensures q % p == 0 && (q + p) % p == 0 && b * (2 * p) == b * p + b * p && (q + p) * b == q * b + b * p
  {
    DivMod(q, 2 * p);
    var k := q / (2 * p);
    assert q == (2 * k) * p by { assert k * (2 * p) == (2 * k) * p; }
    ModMultiple(0, 2 * k, p);
    OneMore(2 * k, p);
    ModMultiple(0, 2 * k + 1, p);
  }

  lemma HalfDivisor(b: nat, shift: nat)
    ensures shift > 0 ==> (b * Pow2(shift)) / Pow2(1) == b * Pow2(shift - 1)
  {
    assert Pow2(1) == 2;
    if shift > 0 {
      assert b * Pow2(shift) == 2 * (b * Pow2(shift - 1)) by { Double(b, Pow2(shift - 1)); }
    }
  }

  lemma Divided(total: nat, b: nat, q: nat, num: nat)
    requires Dividing(total, b, q, num, -1)
    ensures b > 0 && q == total / b
  {
    assert Pow2(0) == 1;
    ModMultiple(num, q, b);
  }

  // ----- multiplication -----

  const WORD64: nat := BASE * BASE

  /** Multiply in place, one limb after the other; what does not fit is dropped. */
  method MulAssign(pn: array<Limb>, b: array<Limb>)
    requires pn.Length == b.Length
    modifies pn
    ensures Val(pn[..]) == (old(Val(pn[..])) * old(Val(b[..]))) % Range(pn.Length)
  {
    hide Val, Range;
    NoLimbs();
    ghost var x, y := pn[..], b[..];
    var a := new Limb[pn.Length](i => 0);
    assert a[..] == Zeros(pn.Length);
    ValZero(pn.Length);
    ModMultiple(0, 0, Range(pn.Length));
    var j := 0;
    while j < pn.Length
      invariant j <= pn.Length == a.Length && pn[..] == x && b[..] == y && fresh(a)
      invariant Val(a[..]) == (Val(x[..j]) * Val(y)) % Range(pn.Length)
    {
      ghost var before := Val(a[..]);
      AddRow(a, pn[j], b, j);
      RowStep(x, y, j, before, Val(a[..]));
      j := j + 1;
    }
    assert x[..j] == x;
    for i := 0 to pn.Length
      invariant pn[..i] == a[..i] && a[..] == a[..i] + a[i..] && Val(a[..]) == (Val(x) * Val(y)) % Range(pn.Length)
    {
      pn[i] := a[i];
    }
    assert pn[..] == a[..];
  }

  /** What has been added when limbs below `i` are done. */
  ghost predicate RowOk(low: nat, carry: nat, was: nat, x: nat, v: nat, i: nat, j: nat) {
    low + carry * Range(i + j) == was + x * v * Range(j)
  }

  /** Add one limb times a number, from limb `j` on. The 64-bit sum never overflows. */
  method AddRow(a: array<Limb>, x: Limb, b: array<Limb>, j: nat)
    requires a.Length == b.Length && a != b && j < a.Length
    modifies a
    ensures Val(a[..]) == (old(Val(a[..])) + x * Val(b[..a.Length - j]) * Range(j)) % Range(a.Length)
  {
    hide Val, Range, RowOk, Product;
    ghost var was := a[..];
    var carry: nat := 0;
    var i := 0;
    RowStart(was, x, j);
    assert b[..0] == [];
    while i + j < a.Length
      invariant i + j <= a.Length && carry < BASE && a[i + j..] == was[i + j..]
      invariant RowOk(Val(a[..i + j]), carry, Val(was[..i + j]), x, Val(b[..i]), i, j)
    {
      ghost var at := i + j;
      assert a[at] == was[at] && a[at + 1..] == was[at + 1..] by {
        assert a[at..][0] == was[at..][0] && a[at..][1..] == was[at..][1..];
      }
      var n := carry + a[i + j] + Product(x, b[i]);
      Tight(carry, a[at], x, b[i]);
      assert n < WORD64;
      ghost var low, high := a[..at], a[at + 1..];
      RowAdvance(low, carry, was, x, b[..], i, j);
      a[i + j] := n % BASE;
      carry := n / BASE;
      assert a[..at + 1] == low + [a[at]] && a[at + 1..] == high && b[..][..i + 1] == b[..i + 1];
      i := i + 1;
    }
    assert a[..i + j] == a[..] && was[..i + j] == was;
    ValBound(a[..]);
    RowEnd(Val(a[..]), carry, Val(was), x, Val(b[..i]), i, j);
  }

  function Product(x: nat, y: nat): nat { x * y }

  lemma RowStart(was: seq<Limb>, x: Limb, j: nat)
    requires j <= |was|
    ensures RowOk(Val(was[..0 + j]), 0, Val(was[..0 + j]), x, Val([]), 0, j)
  {
  }

  lemma RowEnd(v: nat, carry: nat, was: nat, x: nat, y: nat, i: nat, j: nat)
    requires RowOk(v, carry, was, x, y, i, j) && v < Range(i + j)
    ensures v == (was + x * y * Range(j)) % Range(i + j)
  {
    Wraps(v, carry, Range(i + j), was + x * y * Range(j));
  }

  lemma RowAdvance(low: seq<Limb>, carry: nat, was: seq<Limb>, x: Limb, b: seq<Limb>, i: nat, j: nat)
    requires |low| == i + j < |was| && i < |b| && RowOk(Val(low), carry, Val(was[..i + j]), x, Val(b[..i]), i, j)
    ensures var n := carry + was[i + j] + Product(x, b[i]);
      RowOk(Val(low + [n % BASE]), n / BASE, Val(was[..i + 1 + j]), x, Val(b[..i + 1]), i + 1, j)
  {
    hide Val, Range;
    RangeAdd(i, j);
    var at, n := i + j, carry + was[i + j] + x * b[i];
    assert was[..at + 1] == was[..at] + [was[at]] && b[..i + 1] == b[..i] + [b[i]];
    RowLimb(Val(low), Range(at), carry, was[at], x, b[i], Val(was[..at]), Val(b[..i]), Range(i), Range(j));
    ValAppend(low, n % BASE);
    ValAppend(was[..at], was[at]);
    ValAppend(b[..i], b[i]);
    RangeNext(at);
  }

  /** The sum of a carry, a limb and a product of limbs just fits into 64 bits. */
  lemma Tight(carry: nat, a: Limb, x: Limb, y: Limb)
    requires carry < BASE
    ensures carry + a + Product(x, y) < WORD64 && (carry + a + Product(x, y)) / BASE < BASE
  {
    AtLeast(x, BASE - 1, y);
    AtLeast(y, BASE - 1, BASE - 1);
    assert (BASE - 1) * y == y * (BASE - 1);
  }

  lemma {:induction false} RangeAdd(i: nat, j: nat)
    ensures Range(i + j) == Range(i) * Range(j)
  {
    hide Pow2;
    RangeIs(i);
    RangeIs(j);
    RangeIs(i + j);
    Pow2Add(LIMB_BITS * i, LIMB_BITS * j);
  }

  lemma RowLimb(low: nat, r: nat, carry: nat, w: nat, x: nat, y: nat, was: nat, v: nat, ri: nat, rj: nat)
    requires low + carry * r == was + x * v * rj && r == ri * rj
    ensures var n := carry + w + x * y;
      low + (n % BASE) * r + (n / BASE) * (BASE * r) == was + w * r + x * (v + y * ri) * rj
  {
    AddStep(low, r, carry, w, x * y, was + x * v * rj);
    assert x * (v + y * ri) * rj == x * v * rj + (x * y) * (ri * rj) by { RowProduct(x, v, y, ri, rj); }
  }

  lemma RowProduct(x: nat, v: nat, y: nat, ri: nat, rj: nat)
    ensures x * (v + y * ri) * rj == x * v * rj + (x * y) * (ri * rj)
  {
    assert x * (v + y * ri) == x * v + x * (y * ri);
    assert (x * v + x * (y * ri)) * rj == x * v * rj + x * (y * ri) * rj;
    assert x * (y * ri) * rj == (x * y) * (ri * rj) by {
      assert x * (y * ri) == (x * y) * ri;
      assert (x * y) * ri * rj == (x * y) * (ri * rj);
    }
  }

  /** Adding the row of limb `j` gives the product with one more limb. */
  lemma RowStep(x: seq<Limb>, y: seq<Limb>, j: nat, before: nat, after: nat)
    requires j < |x| == |y| && before == (Val(x[..j]) * Val(y)) % Range(|x|)
    requires after == (before + x[j] * Val(y[..|x| - j]) * Range(j)) % Range(|x|)
    ensures after == (Val(x[..j + 1]) * Val(y)) % Range(|x|)
  {
    hide Val, Range;
    var n := |x|;
    assert x[..j + 1] == x[..j] + [x[j]];
    ValAppend(x[..j], x[j]);
    ValSplit(y, n - j);
    RangeAdd(n - j, j);
    RowSum(Val(x[..j]), x[j], Range(j), Val(y), Val(y[..n - j]), Val(y[n - j..]), Range(n - j), Range(n), before);
  }

  lemma RowSum(v: nat, x: nat, rj: nat, y: nat, low: nat, high: nat, ri: nat, r: nat, before: nat)
    requires r > 0 && y == low + ri * high && r == ri * rj && before == (v * y) % r
    ensures (before + x * low * rj) % r == ((v + x * rj) * y) % r
  {
    var p, q := v * y, x * low * rj;
    assert (v + x * rj) * y == p + q + (x * high) * r by {
      assert (v + x * rj) * y == v * y + (x * rj) * y;
      HighPart(x, rj, low, ri, high);
    }
    Congruent(p, q, x * high, r);
  }

  lemma Congruent(p: nat, q: nat, h: nat, r: nat)
    requires r > 0
    ensures (p % r + q) % r == (p + q + h * r) % r
  {
    DivMod(p, r);
    var s := p % r + q;
    DivMod(s, r);
    Spread(s / r, p / r, h, r);
    ModMultiple(s % r, s / r + p / r + h, r);
  }

  lemma HighPart(x: nat, rj: nat, low: nat, ri: nat, high: nat)
    ensures (x * rj) * (low + ri * high) == x * low * rj + (x * high) * (ri * rj)
  {
    assert (x * rj) * (low + ri * high) == (x * rj) * low + (x * rj) * (ri * high);
    assert (x * rj) * low == x * low * rj;
    assert (x * rj) * (ri * high) == (x * high) * (ri * rj);
  }
}
