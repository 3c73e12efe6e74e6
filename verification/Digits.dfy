/** Numbers written in digits, most significant first. */
module DigitStrings {
  import opened Limbs

  function Pow(base: nat, n: nat): nat {
    if n == 0 then 1 else base * Pow(base, n - 1)
  }

  ghost predicate IsDigits(s: seq<nat>, base: nat) {
    forall i :: 0 <= i < |s| ==> s[i] < base
  }

  /** The number that digits stand for. */
  ghost function Number(s: seq<nat>, base: nat): nat {
    if s == [] then 0 else Number(s[..|s| - 1], base) * base + s[|s| - 1]
  }

  /** The digits of a number, without leading zeros. */
  ghost function DigitsOf(n: nat, base: nat): (r: seq<nat>)
    requires base >= 2
    ensures IsDigits(r, base) && (r != [] ==> r[0] != 0) && (r == [] <==> n == 0)
    decreases n
  {
    if n == 0 then [] else
    Shrinks(n, base);
    DigitsOf(n / base, base) + [n % base]
  }

  lemma Shrinks(n: nat, base: nat)
    requires n > 0 && base >= 2
    ensures 0 <= n / base < n && (n < base ==> n / base == 0 && n % base == n)
  {
    DivMod(n, base);
    if n / base > 0 {
      Below(1, base, n / base);
      assert (n / base) * base == base * (n / base);
    }
    if n < base {
      ModMultiple(n, 0, base);
    }
  }

  lemma {:induction false} PowPositive(base: nat, n: nat)
    requires base > 0
    ensures Pow(base, n) > 0
  {
    if n > 0 {
      PowPositive(base, n - 1);
      Multiples(base, Pow(base, n - 1));
    }
  }

  lemma {:induction false} PowAdd(base: nat, a: nat, b: nat)
    ensures Pow(base, a + b) == Pow(base, a) * Pow(base, b)
  {
    if a > 0 {
      PowAdd(base, a - 1, b);
      assert base * (Pow(base, a - 1) * Pow(base, b)) == (base * Pow(base, a - 1)) * Pow(base, b);
    }
  }

  lemma {:induction false} PowPow(base: nat, a: nat, n: nat)
    ensures Pow(Pow(base, a), n) == Pow(base, a * n)
  {
    if n > 0 {
      PowPow(base, a, n - 1);
      PowAdd(base, a, a * (n - 1));
      assert a * n == a + a * (n - 1);
    } else {
      assert a * 0 == 0;
    }
  }

  lemma {:induction false} PowGrows(base: nat, a: nat, b: nat)
    requires base > 0 && a <= b
    ensures Pow(base, a) <= Pow(base, b)
  {
    if a < b {
      PowGrows(base, a, b - 1);
      PowPositive(base, b - 1);
      Multiples(base, Pow(base, b - 1));
    }
  }

  /** Powers keep the order of bases, both ways. */
  lemma {:induction false} PowOrder(x: nat, y: nat, n: nat)
    requires x < y && n > 0
    ensures Pow(x, n) < Pow(y, n)
  {
    if n > 1 {
      PowOrder(x, y, n - 1);
      var p, q := Pow(x, n - 1), Pow(y, n - 1);
      Below(p, q, y);
      assert x * p <= y * p by { Spread(x, y - x, 0, p); }
      assert p * y == y * p && q * y == y * q;
    } else {
      assert Pow(x, 1) == x && Pow(y, 1) == y;
    }
  }

  /** One more digit in front. */
  lemma {:induction false} NumberCons(x: nat, t: seq<nat>, base: nat)
    ensures Number([x] + t, base) == x * Pow(base, |t|) + Number(t, base)
    decreases |t|
  {
    if t == [] {
      assert [x] + t == [x] && [x][..0] == [];
    } else {
      var u := t[..|t| - 1];
      assert ([x] + t)[..|t|] == [x] + u;
      NumberCons(x, u, base);
      Stretch(x, Pow(base, |u|), Number(u, base), base);
    }
  }

  lemma Stretch(x: nat, p: nat, v: nat, base: nat)
    ensures (x * p + v) * base == x * (base * p) + v * base
  {
    assert (x * p) * base == x * (base * p);
  }

  lemma {:induction false} NumberBound(t: seq<nat>, base: nat)
    requires IsDigits(t, base)
    ensures Number(t, base) < Pow(base, |t|)
  {
    if t != [] {
      var u := t[..|t| - 1];
      NumberBound(u, base);
      Below(Number(u, base), Pow(base, |u|), base);
      assert Pow(base, |u|) * base == base * Pow(base, |u|);
    }
  }

  lemma {:induction false} LeadingZeros(z: nat, t: seq<nat>, base: nat)
    ensures Number(seq(z, i => 0) + t, base) == Number(t, base)
  {
    if z == 0 {
      assert seq(0, i => 0) + t == t;
    } else {
      assert seq(z, i => 0) + t == [0] + (seq(z - 1, i => 0) + t);
      NumberCons(0, seq(z - 1, i => 0) + t, base);
      LeadingZeros(z - 1, t, base);
    }
  }

  /** Digits without leading zeros are the digits of their number. */
  lemma {:induction false} DigitsOfNumber(t: seq<nat>, base: nat)
    requires base >= 2 && IsDigits(t, base) && (t != [] ==> t[0] != 0)
    ensures DigitsOf(Number(t, base), base) == t
  {
    if t != [] {
      var u, d := t[..|t| - 1], t[|t| - 1];
      DigitsOfNumber(u, base);
      ModMultiple(d, Number(u, base), base);
      assert t == u + [d];
      assert Number(t, base) == Number(u, base) * base + d;
      if u == [] {
        assert d != 0;
      } else {
        Positive(u, base);
        Multiples(Number(u, base), base);
      }
    }
  }

  lemma Positive(t: seq<nat>, base: nat)
    requires t != [] && t[0] != 0 && base >= 2
    ensures Number(t, base) > 0
  {
    assert t == [t[0]] + t[1..];
    NumberCons(t[0], t[1..], base);
    PowPositive(base, |t| - 1);
    Multiples(t[0], Pow(base, |t| - 1));
  }

  lemma {:induction false} NumberOfDigits(n: nat, base: nat)
    requires base >= 2
    ensures Number(DigitsOf(n, base), base) == n
    decreases n
  {
    if n > 0 {
      Shrinks(n, base);
      NumberOfDigits(n / base, base);
      var u := DigitsOf(n / base, base);
      assert (u + [n % base])[..|u|] == u;
      DivMod(n, base);
    }
  }

  /** How many digits a number has. */
  lemma DigitCount(n: nat, base: nat)
    requires base >= 2
    ensures n < Pow(base, |DigitsOf(n, base)|)
    ensures n > 0 ==> Pow(base, |DigitsOf(n, base)| - 1) <= n
  {
    hide DigitsOf, Number;
    var t := DigitsOf(n, base);
    NumberOfDigits(n, base);
    NumberBound(t, base);
    if n > 0 {
      assert t == [t[0]] + t[1..];
      NumberCons(t[0], t[1..], base);
      PowPositive(base, |t| - 1);
      Multiples(t[0], Pow(base, |t| - 1));
    }
  }
}
