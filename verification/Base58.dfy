/** Base58 strings: conversion of digits between bases 256 and 58, in place. */
module Base58s {
  import opened Collections
  import opened Limbs
  import opened DigitStrings

  // ----- enough room -----

  /** Eleven digits of base 58 hold eight bytes. */
  lemma ElevenForEight()
    ensures Pow(58, 11) >= Pow(256, 8)
  {
    assert Pow(58, 11) >= Pow(256, 8);
  }

  /** Fifty-two bytes hold seventy-one digits of base 58. */
  lemma BytesForDigits()
    ensures Pow(256, 52) >= Pow(58, 71)
  {
    Pow58();
    Pow256();
  }

  lemma Pow58()
    ensures Pow(58, 71) == 159730386663078066345306447337161584696769904898410078913243029577507397293846405390982563136983769384625594118558891106107392
  {
    assert Pow(58, 5) == 656356768;
    hide Pow;
    PowAdd(58, 5, 5);
    assert 656356768 * 656356768 == 430804206899405824;
    PowAdd(58, 10, 10);
    assert 430804206899405824 * 430804206899405824 == 185592264682226060569122324245118976;
    PowAdd(58, 20, 20);
    assert 185592264682226060569122324245118976 * 185592264682226060569122324245118976 == 34444488709877454747081479018851205589883534409595458615323760395288576;
    PowAdd(58, 40, 20);
    assert 34444488709877454747081479018851205589883534409595458615323760395288576 * 185592264682226060569122324245118976 == 6392630665487523829925705590507004456832030712891733088851577912861189652777515686114891080333114973618176;
    PowAdd(58, 60, 10);
    assert 6392630665487523829925705590507004456832030712891733088851577912861189652777515686114891080333114973618176 * 430804206899405824 == 2753972183846173557677697367882096287875343187903622050228328096163920642997351817085906260982478782493544726182049846657024;
    PowAdd(58, 70, 1);
    Pow1();
    assert 2753972183846173557677697367882096287875343187903622050228328096163920642997351817085906260982478782493544726182049846657024 * 58 == 159730386663078066345306447337161584696769904898410078913243029577507397293846405390982563136983769384625594118558891106107392;
  }

  lemma Pow1()
    ensures Pow(58, 1) == 58
  {
  }

  lemma Pow256()
    ensures Pow(256, 52) == 169230328010303641331690318856389386196071598838855992136870091590247882556495704531248437872567112920983350278405979725889536
  {
    assert Pow(256, 4) == 4294967296;
    hide Pow;
    PowAdd(256, 4, 4);
    assert 4294967296 * 4294967296 == 18446744073709551616;
    PowAdd(256, 8, 8);
    assert 18446744073709551616 * 18446744073709551616 == 340282366920938463463374607431768211456;
    PowAdd(256, 16, 16);
    assert 340282366920938463463374607431768211456 * 340282366920938463463374607431768211456 == 115792089237316195423570985008687907853269984665640564039457584007913129639936;
    PowAdd(256, 32, 16);
    assert 115792089237316195423570985008687907853269984665640564039457584007913129639936 * 340282366920938463463374607431768211456 == 39402006196394479212279040100143613805079739270465446667948293404245721771497210611414266254884915640806627990306816;
    PowAdd(256, 48, 4);
    assert 39402006196394479212279040100143613805079739270465446667948293404245721771497210611414266254884915640806627990306816 * 4294967296 == 169230328010303641331690318856389386196071598838855992136870091590247882556495704531248437872567112920983350278405979725889536;
  }

  /** If a digits of base x hold b digits of base y, then so do proportionally more. */
  lemma Holds(x: nat, a: nat, y: nat, b: nat, size: nat, n: nat)
    requires x > 0 && y > 0 && b > 0 && Pow(x, a) >= Pow(y, b) && b * size >= a * n
    ensures Pow(x, size) >= Pow(y, n)
  {
    hide Pow;
    PowPow(x, size, b);
    PowGrows(x, a * n, b * size);
    PowPow(x, a, n);
    PowPow(y, n, b);
    PowPow(y, b, n);
    assert size * b == b * size && n * b == b * n;
    PowMonotone(Pow(y, b), Pow(x, a), n);
    if Pow(x, size) < Pow(y, n) {
      PowOrder(Pow(x, size), Pow(y, n), b);
    }
  }

  lemma {:induction false} PowMonotone(x: nat, y: nat, n: nat)
    requires x <= y
    ensures Pow(x, n) <= Pow(y, n)
  {
    if n > 0 && x < y {
      PowOrder(x, y, n);
    }
  }

  /** The buffer for encoding is large enough. */
  lemma EncodeFits(n: nat)
    ensures Pow(58, n * 138 / 100 + 1) >= Pow(256, n)
  {
    ElevenForEight();
    Holds(58, 11, 256, 8, n * 138 / 100 + 1, n);
  }

  /** The buffer for decoding is large enough. */
  lemma DecodeFits(n: nat)
    ensures Pow(256, n * 733 / 1000 + 1) >= Pow(58, n)
  {
    BytesForDigits();
    Holds(256, 52, 58, 71, n * 733 / 1000 + 1, n);
  }

  // ----- one step of the conversion -----

  /** The last `length` places of a buffer have the digits of a number, and the others are zero. */
  ghost predicate Holding(b: seq<nat>, length: nat, base: nat, n: nat)
    requires base >= 2
  {
    length == |DigitsOf(n, base)| <= |b| && b == seq(|b| - length, i => 0) + DigitsOf(n, base)
  }

  /** What the places from the end have been turned into, with what is carried on. */
  ghost predicate Stepping(low: seq<nat>, oldLow: seq<nat>, carry: nat, base: nat, mul: nat, add: nat) {
    |low| == |oldLow| && IsDigits(low, base) && Number(low, base) + carry * Pow(base, |low|) == Number(oldLow, base) * mul + add
  }

  lemma StepOne(low: seq<nat>, oldLow: seq<nat>, carry: nat, d: nat, c: nat, base: nat, mul: nat, add: nat)
    requires base >= 2 && Stepping(low, oldLow, carry, base, mul, add) && c == carry + Times(mul, d)
    ensures Stepping([Remainder(c, base)] + low, [d] + oldLow, Quotient(c, base), base, mul, add)
  {
    hide Number, Pow;
    NumberCons(Remainder(c, base), low, base);
    NumberCons(d, oldLow, base);
    PowNext(base, |low|);
    DivMod(c, base);
    hide Remainder, Quotient;
    StepArith(Number(low, base), Number(oldLow, base), carry, d, Times(mul, d), Quotient(c, base), Remainder(c, base), base, mul, add, Pow(base, |low|));
  }

  function Times(x: nat, y: nat): nat { x * y }

  function Quotient(c: nat, base: nat): (q: nat)
    requires base > 0
    ensures c == q * base + Remainder(c, base)
  {
    DivMod(c, base);
    c / base
  }

  function Remainder(c: nat, base: nat): (m: nat)
    requires base > 0
    ensures m < base
  {
    DivMod(c, base);
    c % base
  }

  lemma PowNext(base: nat, n: nat)
    ensures Pow(base, n + 1) == base * Pow(base, n)
  {
  }

  lemma StepArith(v: nat, w: nat, carry: nat, d: nat, md: nat, q: nat, m: nat, base: nat, mul: nat, add: nat, p: nat)
    requires v + carry * p == w * mul + add && carry + md == q * base + m && md == mul * d
    ensures m * p + v + q * (base * p) == (d * p + w) * mul + add
  {
    assert (q * base + m) * p == q * (base * p) + m * p by {
      Spread(q * base, m, 0, p);
      assert (q * base) * p == q * (base * p);
    }
    assert (carry + md) * p == carry * p + md * p by { Spread(carry, md, 0, p); }
    assert (d * p + w) * mul == md * p + w * mul by {
      assert (d * p) * mul == (mul * d) * p;
      Spread(d * p, w, 0, mul);
    }
  }

  lemma StepStart(base: nat, mul: nat, add: nat)
    ensures Stepping([], [], add, base, mul, add)
  {
  }

  /** The places from the end that include all digits have the number. */
  lemma LowIsAll(was: seq<nat>, length: nat, base: nat, n: nat, i: nat)
    requires base >= 2 && Holding(was, length, base, n) && length <= i <= |was|
    ensures Number(was[|was| - i..], base) == n && was[..|was| - i] == seq(|was| - i, k => 0)
  {
    hide Number, DigitsOf;
    var d := DigitsOf(n, base);
    assert was[|was| - i..] == seq(i - length, k => 0) + d;
    LeadingZeros(i - length, d, base);
    NumberOfDigits(n, base);
  }

  /** If something is carried past the digits, then the result needs one more. */
  lemma EnoughLeft(was: seq<nat>, length: nat, base: nat, n: nat, low: seq<nat>, carry: nat, mul: nat, add: nat, i: nat, total: nat)
    requires base >= 2 && Holding(was, length, base, n) && length <= i <= |was| && carry > 0 && total == n * mul + add
    requires Stepping(low, was[|was| - i..], carry, base, mul, add)
    ensures total >= Pow(base, i)
  {
    LowIsAll(was, length, base, n, i);
    PowPositive(base, i);
    Multiples(carry, Pow(base, i));
  }

  lemma FirstDigit(low: seq<nat>, base: nat)
    requires IsDigits(low, base) && low != [] && Number(low, base) >= Pow(base, |low| - 1)
    ensures low[0] != 0
  {
    assert low == [low[0]] + low[1..];
    NumberCons(low[0], low[1..], base);
    NumberBound(low[1..], base);
  }

  lemma StepEnd(b: seq<nat>, was: seq<nat>, length: nat, base: nat, n: nat, carry: nat, mul: nat, add: nat, i: nat, total: nat)
    requires base >= 2 && mul >= 1 && total == n * mul + add && Holding(was, length, base, n) && length <= i <= |was| == |b| && b[..|b| - i] == was[..|b| - i]
    requires Stepping(b[|b| - i..], was[|b| - i..], carry, base, mul, add)
    requires (i == |b| && total < Pow(base, i)) || carry == 0
    requires i > length ==> total >= Pow(base, i - 1)
    ensures Holding(b, i, base, total) && carry == 0
  {
    hide Number, DigitsOf, Pow;
    var low := b[|b| - i..];
    LowIsAll(was, length, base, n, i);
    if carry > 0 {
      PowPositive(base, i);
      Multiples(carry, Pow(base, i));
    }
    assert Number(low, base) == total;
    if i > 0 {
      AtLeastBefore(n, mul, add);
      DigitCount(n, base);
      NoDigits(base);
      FirstDigit(low, base);
    }
    DigitsOfNumber(low, base);
    assert b == b[..|b| - i] + low;
  }

  lemma AtLeastBefore(n: nat, mul: nat, add: nat)
    requires mul >= 1
    ensures n * mul + add >= n
  {
    Spread(1, mul - 1, 0, n);
    assert mul * n == n * mul;
  }

  lemma NoDigits(base: nat)
    requires base >= 2
    ensures DigitsOf(0, base) == []
  {
  }

  /** Multiply the number in a buffer, and add to it. The carry is used up before the buffer is. */
  method MulAdd(b: array<nat>, length: nat, base: nat, mul: nat, add: nat, ghost n: nat, ghost total: nat) returns (r: nat)
    requires base >= 2 && mul >= 1 && Holding(b[..], length, base, n) && total == n * mul + add < Pow(base, b.Length)
    modifies b
    ensures Holding(b[..], r, base, total) && r >= length
  {
    hide Number, Pow, DigitsOf, Stepping, Quotient, Remainder, Holding, Times;
    ghost var was := b[..];
    HoldingIs(was, length, base, n);
    var carry: nat := add;
    var i := 0;
    StepStart(base, mul, add);
    assert b[b.Length..] == [] && was[b.Length..] == [];
    while (carry != 0 || i < length) && i < b.Length
      invariant i <= b.Length && b[..b.Length - i] == was[..b.Length - i]
      invariant Stepping(b[b.Length - i..], was[b.Length - i..], carry, base, mul, add)
      invariant i > length ==> total >= Pow(base, i - 1)
    {
      ghost var at := b.Length - 1 - i;
      assert b[at] == was[at] by {
        assert b[..at + 1][at] == was[..at + 1][at];
      }
      ghost var low := b[at + 1..];
      StepOne(low, was[at + 1..], carry, was[at], carry + Times(mul, was[at]), base, mul, add);
      if i >= length {
        EnoughLeft(was, length, base, n, low, carry, mul, add, i, total);
      }
      carry := carry + Times(mul, b[b.Length - 1 - i]);
      b[b.Length - 1 - i] := Remainder(carry, base);
      carry := Quotient(carry, base);
      assert b[at..] == [b[at]] + low && was[at..] == [was[at]] + was[at + 1..];
      i := i + 1;
    }
    StepEnd(b[..], was, length, base, n, carry, mul, add, i, total);
    assert carry == 0;
    r := i;
  }

  // ----- characters -----

  /** Digits and letters, without those that look alike. */
  function CharOf(d: nat): char
    requires d < 58
  {
    (if d < 9 then '1' as int + d
     else if d < 17 then 'A' as int + (d - 9)
     else if d < 22 then 'J' as int + (d - 17)
     else if d < 33 then 'P' as int + (d - 22)
     else if d < 44 then 'a' as int + (d - 33)
     else 'm' as int + (d - 44)) as char
  }

  /** The digit of a character, or -1. */
  function DigitOf(c: char): (d: int)
    ensures -1 <= d < 58
  {
    var n := c as int;
    if '1' <= c <= '9' then n - '1' as int
    else if 'A' <= c <= 'H' then n - 'A' as int + 9
    else if 'J' <= c <= 'N' then n - 'J' as int + 17
    else if 'P' <= c <= 'Z' then n - 'P' as int + 22
    else if 'a' <= c <= 'k' then n - 'a' as int + 33
    else if 'm' <= c <= 'z' then n - 'm' as int + 44
    else -1
  }

  predicate IsSpace(c: char) {
    c == ' ' || 9 <= c as int <= 13
  }

  lemma CharDigit(d: nat)
    requires d < 58
    ensures DigitOf(CharOf(d)) == d && !IsSpace(CharOf(d)) && CharOf(d) as int != 0 && (CharOf(d) == '1' <==> d == 0)
  {
  }

  function Chars(ds: seq<nat>): (r: string)
    requires IsDigits(ds, 58)
    ensures |r| == |ds| && forall i :: 0 <= i < |ds| ==> r[i] == CharOf(ds[i])
  {
    if ds == [] then [] else Chars(ds[..|ds| - 1]) + [CharOf(ds[|ds| - 1])]
  }

  // ----- encoding -----

  /** How many zeros there are in front. */
  function LeadingZeroes(input: seq<nat>): (z: nat)
    ensures z <= |input| && (forall i :: 0 <= i < z ==> input[i] == 0) && (z < |input| ==> input[z] != 0)
  {
    if input == [] || input[0] != 0 then 0 else 1 + LeadingZeroes(input[1..])
  }

  /** A '1' for each zero in front, and then the digits of the number. */
  ghost function Encoded(input: seq<nat>): string {
    seq(LeadingZeroes(input), i => '1') + Chars(DigitsOf(Number(input, 256), 58))
  }

  method EncodeBase58(bytes: seq<nat>) returns (r: string)
    requires IsDigits(bytes, 256)
    ensures r == Encoded(bytes)
  {
    hide Number, Pow, DigitsOf, Chars;
    var zeroes := LeadingZeroes(bytes);
    var input := bytes[zeroes..];
    ghost var n := Number(input, 256);
    assert bytes == seq(zeroes, i => 0) + input;
    LeadingZeros(zeroes, input, 256);
    EncodeFits(|input|);
    var b, length := Convert(input, 256, 58, |input| * 138 / 100 + 1);
    var at := SkipZeros(b, b.Length - length);
    assert length > 0 ==> b[b.Length - length] == DigitsOf(n, 58)[0];
    assert at == b.Length - length;
    var text := Translate(b, at, DigitsOf(n, 58));
    r := seq(zeroes, i => '1') + text;
  }

  method SkipZeros(b: array<nat>, from: nat) returns (at: nat)
    requires from <= b.Length
    ensures from <= at <= b.Length && (forall k :: from <= k < at ==> b[k] == 0) && (at < b.Length ==> b[at] != 0)
  {
    at := from;
    while at < b.Length && b[at] == 0
      invariant from <= at <= b.Length && forall k :: from <= k < at ==> b[k] == 0
    {
      at := at + 1;
    }
  }

  /** Write the digits of a buffer as characters. */
  method Translate(b: array<nat>, at: nat, ghost ds: seq<nat>) returns (r: string)
    requires at <= b.Length && b[at..] == ds && IsDigits(ds, 58)
    ensures r == Chars(ds)
  {
    hide Chars, CharOf;
    r := "";
    CharsEmpty();
    for k := at to b.Length
      invariant r == Chars(ds[..k - at])
    {
      assert ds[..k - at + 1] == ds[..k - at] + [b[k]];
      CharsAppend(ds[..k - at], b[k]);
      r := r + [CharOf(b[k])];
    }
    assert ds[..|ds|] == ds;
  }

  /** Convert digits of one base to digits of another, in a buffer that is large enough. */
  method Convert(input: seq<nat>, from: nat, base: nat, size: nat) returns (b: array<nat>, length: nat)
    requires from >= 2 && base >= 2 && IsDigits(input, from) && Pow(base, size) >= Pow(from, |input|)
    ensures fresh(b) && b.Length == size
    ensures length == |DigitsOf(Number(input, from), base)| <= size && b[size - length..] == DigitsOf(Number(input, from), base)
  {
    hide Number, Pow, DigitsOf, Holding;
    b := new nat[size](i => 0);
    length := 0;
    StartHolding(b[..], base);
    NumberEmpty(from);
    for i := 0 to |input|
      invariant fresh(b) && b.Length == size && Holding(b[..], length, base, Number(input[..i], from))
    {
      assert input[..i + 1] == input[..i] + [input[i]];
      NumberNext(input[..i], input[i], from);
      Room(input, i + 1, from, base, size);
      length := MulAdd(b, length, base, from, input[i], Number(input[..i], from), Number(input[..i + 1], from));
    }
    assert input[..|input|] == input;
    HoldingIs(b[..], length, base, Number(input, from));
  }

  lemma StartHolding(b: seq<nat>, base: nat)
    requires base >= 2 && forall i :: 0 <= i < |b| ==> b[i] == 0
    ensures Holding(b, 0, base, 0)
  {
    NoDigits(base);
    assert b == seq(|b|, i => 0);
  }

  lemma NumberEmpty(base: nat)
    ensures Number([], base) == 0
  {
  }

  lemma NumberNext(s: seq<nat>, x: nat, base: nat)
    ensures Number(s + [x], base) == Number(s, base) * base + x
  {
    assert (s + [x])[..|s|] == s;
  }

  /** The number of the first digits fits. */
  lemma Room(input: seq<nat>, i: nat, from: nat, base: nat, size: nat)
    requires i <= |input| && IsDigits(input, from) && from > 0 && Pow(base, size) >= Pow(from, |input|)
    ensures Number(input[..i], from) < Pow(base, size)
  {
    NumberBound(input[..i], from);
    PowGrows(from, i, |input|);
  }

  lemma HoldingIs(b: seq<nat>, length: nat, base: nat, n: nat)
    requires base >= 2 && Holding(b, length, base, n)
    ensures length == |DigitsOf(n, base)| <= |b| && b[|b| - length..] == DigitsOf(n, base)
  {
    hide DigitsOf;
  }

  lemma CharsEmpty()
    ensures Chars([]) == []
  {
  }

  lemma CharsAppend(ds: seq<nat>, d: nat)
    requires IsDigits(ds, 58) && d < 58
    ensures IsDigits(ds + [d], 58) && Chars(ds + [d]) == Chars(ds) + [CharOf(d)]
  {
    assert (ds + [d])[..|ds|] == ds;
  }

  // ----- decoding -----

  /** How many characters in front satisfy something. */
  function CountWhile(s: string, p: char -> bool): (n: nat)
    ensures n <= |s| && (forall i :: 0 <= i < n ==> p(s[i])) && (n < |s| ==> !p(s[n]))
  {
    if s == [] || !p(s[0]) then 0 else 1 + CountWhile(s[1..], p)
  }

  ghost function Digits58(s: string): (r: seq<nat>)
    requires AllDigits(s)
    ensures |r| == |s| && IsDigits(r, 58) && forall i :: 0 <= i < |s| ==> r[i] == DigitOf(s[i])
  {
    if s == [] then [] else Digits58(s[..|s| - 1]) + [DigitOf(s[|s| - 1])]
  }

  /** What a string decodes to: spaces around it are skipped; each '1' in front is a zero byte, and the
      other characters are the digits of a number. */
  ghost function Decoded(s: string, maxLen: nat): Option<seq<nat>> {
    var t := s[CountWhile(s, IsSpace)..];
    var z := CountWhile(t, c => c == '1');
    var u := t[z..];
    var m := CountWhile(u, c => !IsSpace(c));
    if (0 as char) in s || (exists i :: m <= i < |u| && !IsSpace(u[i])) || (exists i :: 0 <= i < m && DigitOf(u[i]) < 0) then None
    else
      var bytes := seq(z, i => 0) + DigitsOf(Number(Digits58(u[..m]), 58), 256);
      if |bytes| > maxLen then None else Some(bytes)
  }

  /** The parts of a string: spaces, '1's, other characters, and what follows these. */
  ghost predicate Parts(s: string, z: nat, u: string, m: nat) {
    && z == CountWhile(s[CountWhile(s, IsSpace)..], c => c == '1') && u == s[CountWhile(s, IsSpace)..][z..]
    && m == CountWhile(u, c => !IsSpace(c))
  }

  lemma DecodedIs(s: string, maxLen: nat, z: nat, u: string, m: nat)
    requires Parts(s, z, u, m) && (0 as char) !in s
    ensures z > maxLen ==> Decoded(s, maxLen) == None
    ensures (exists i :: 0 <= i < m && DigitOf(u[i]) < 0) ==> Decoded(s, maxLen) == None
    ensures (exists i :: m <= i < |u| && !IsSpace(u[i])) ==> Decoded(s, maxLen) == None
    ensures (forall i :: m <= i < |u| ==> IsSpace(u[i])) && (forall i :: 0 <= i < m ==> DigitOf(u[i]) >= 0) ==>
      var bytes := seq(z, i => 0) + DigitsOf(Number(Digits58(u[..m]), 58), 256);
      Decoded(s, maxLen) == if |bytes| > maxLen then None else Some(bytes)
  {
    hide Number, DigitsOf, DigitOf, Digits58;
  }

  /** If the first characters make too many bytes, then all of them do. */
  lemma TooLong(s: string, maxLen: nat, z: nat, u: string, m: nat, k: nat)
    requires Parts(s, z, u, m) && (0 as char) !in s && k <= m
    requires AllDigits(u[..k]) && |DigitsOf(Number(Digits58(u[..k]), 58), 256)| + z > maxLen
    ensures Decoded(s, maxLen) == None
  {
    DecodedIs(s, maxLen, z, u, m);
    hide Number, DigitsOf, DigitOf, Digits58, CountWhile;
    if forall i :: 0 <= i < m ==> DigitOf(u[i]) >= 0 {
      DigitsPrefix(u[..m], k);
      assert u[..m][..k] == u[..k];
      NumberGrows(Digits58(u[..m]), k, 58);
      DigitsGrow(Number(Digits58(u[..k]), 58), Number(Digits58(u[..m]), 58), 256);
    }
  }

  lemma DigitsPrefix(t: string, k: nat)
    requires AllDigits(t) && k <= |t|
    ensures AllDigits(t[..k]) && Digits58(t[..k]) == Digits58(t)[..k]
  {
    hide DigitOf, Digits58;
  }

  lemma {:induction false} NumberGrows(t: seq<nat>, k: nat, base: nat)
    requires k <= |t| && base > 0
    ensures Number(t[..k], base) <= Number(t, base)
  {
    if k < |t| {
      var u := t[..|t| - 1];
      NumberGrows(u, k, base);
      assert u[..k] == t[..k];
      AtLeastBefore(Number(u, base), base, t[|t| - 1]);
    } else {
      assert t[..k] == t;
    }
  }

  lemma DigitsGrow(n: nat, m: nat, base: nat)
    requires n <= m && base >= 2
    ensures |DigitsOf(n, base)| <= |DigitsOf(m, base)|
  {
    hide DigitsOf, Pow;
    DigitCount(n, base);
    DigitCount(m, base);
    var a, b := |DigitsOf(n, base)|, |DigitsOf(m, base)|;
    if b < a {
      PowGrows(base, b, a - 1);
    }
  }

  /** Skip characters. */
  method Skip(s: string, from: nat, p: char -> bool) returns (to: nat)
    requires from <= |s|
    ensures to == from + CountWhile(s[from..], p) <= |s|
  {
    to := from;
    while to < |s| && p(s[to])
      invariant from <= to <= |s| && forall i :: from <= i < to ==> p(s[i])
    {
      to := to + 1;
    }
    CountIs(s[from..], p, to - from);
  }

  lemma {:induction false} CountIs(s: string, p: char -> bool, n: nat)
    requires n <= |s| && (forall i :: 0 <= i < n ==> p(s[i])) && (n < |s| ==> !p(s[n]))
    ensures CountWhile(s, p) == n
  {
  }

  method DecodeBase58(s: string, maxLen: nat) returns (r: Option<seq<nat>>)
    ensures r == Decoded(s, maxLen)
  {
    hide Number, DigitsOf, Pow, DigitOf, Digits58, Holding, Decoded, CountWhile;
    if (0 as char) in s {
      NulIsInvalid(s, maxLen);
      return None;
    }
    var a := Skip(s, 0, IsSpace);
    assert s[0..] == s;
    ghost var t := s[a..];
    ghost var z := CountWhile(t, c => c == '1');
    ghost var u := t[z..];
    ghost var m := CountWhile(u, c => !IsSpace(c));
    DecodedIs(s, maxLen, z, u, m);
    var zeroes, p := 0, a;
    while p < |s| && s[p] == '1'
      invariant a <= p <= |s| && zeroes == p - a <= maxLen && forall i :: 0 <= i < zeroes ==> t[i] == '1'
    {
      zeroes := zeroes + 1;
      if zeroes > maxLen {
        CountAtLeast(t, c => c == '1', zeroes);
        return None;
      }
      p := p + 1;
    }
    CountIs(t, c => c == '1', zeroes);
    assert u == s[p..];
    r := DecodeDigits(s, maxLen, zeroes, p, u, m);
  }

  lemma {:induction false} CountAtLeast(s: string, p: char -> bool, n: nat)
    requires n <= |s| && forall i :: 0 <= i < n ==> p(s[i])
    ensures CountWhile(s, p) >= n
  {
    if n > 0 {
      CountAtLeast(s[1..], p, n - 1);
    }
  }

  lemma NulIsInvalid(s: string, maxLen: nat)
    requires (0 as char) in s
    ensures Decoded(s, maxLen) == None
  {
    hide Number, DigitsOf, DigitOf, Digits58;
  }

  /** Decode what follows the '1's. */
  method DecodeDigits(s: string, maxLen: nat, zeroes: nat, start: nat, ghost u: string, ghost m: nat) returns (r: Option<seq<nat>>)
    requires Parts(s, zeroes, u, m) && (0 as char) !in s
    requires start <= |s| && u == s[start..] && zeroes <= maxLen
    ensures r == Decoded(s, maxLen)
  {
    hide Number, DigitsOf, Pow, DigitOf, Digits58, Holding, Decoded, CountWhile, Parts, IsSpace, AllDigits;
    var p := start;
    var size := (|s| - p) * 733 / 1000 + 1;
    var b := new nat[size](i => 0);
    var length := 0;
    StartHolding(b[..], 256);
    NoneYet(u);
    DecodeFits(|u|);
    ghost var k := 0;
    while p < |s| && !IsSpace(s[p])
      invariant start <= p == start + k <= |s| && b.Length == size && fresh(b)
      invariant AllDigits(u[..k]) && (forall i :: 0 <= i < k ==> !IsSpace(u[i]))
      invariant Holding(b[..], length, 256, Number(Digits58(u[..k]), 58)) && length + zeroes <= maxLen
    {
      var carry := DigitOf(s[p]);
      assert s[p] == u[k];
      if carry == -1 {
        BadDigit(s, maxLen, zeroes, u, m, k);
        return None;
      }
      MoreDigits(u, k, size);
      length := MulAdd(b, length, 256, 58, carry, Number(Digits58(u[..k]), 58), Number(Digits58(u[..k + 1]), 58));
      k := k + 1;
      if length + zeroes > maxLen {
        HoldingIs(b[..], length, 256, Number(Digits58(u[..k]), 58));
        EnoughCounted(s, zeroes, u, m, k);
        TooLong(s, maxLen, zeroes, u, m, k);
        return None;
      }
      p := p + 1;
    }
    p := Skip(s, p, IsSpace);
    TailIs(s, maxLen, zeroes, start, u, m, k, p);
    if p != |s| {
      return None;
    }
    HoldingIs(b[..], length, 256, Number(Digits58(u[..k]), 58));
    r := Some(seq(zeroes, i => 0) + b[size - length..]);
  }

  lemma EnoughCounted(s: string, z: nat, u: string, m: nat, k: nat)
    requires Parts(s, z, u, m) && k <= |u| && forall i :: 0 <= i < k ==> !IsSpace(u[i])
    ensures k <= m
  {
    CountAtLeast(u, c => !IsSpace(c), k);
  }

  lemma BadDigit(s: string, maxLen: nat, z: nat, u: string, m: nat, k: nat)
    requires Parts(s, z, u, m) && (0 as char) !in s && k < |u| && (forall i :: 0 <= i <= k ==> !IsSpace(u[i])) && DigitOf(u[k]) < 0
    ensures Decoded(s, maxLen) == None
  {
    CountAtLeast(u, c => !IsSpace(c), k + 1);
    DecodedIs(s, maxLen, z, u, m);
  }

  /** After the digits there may be spaces only. */
  lemma TailIs(s: string, maxLen: nat, z: nat, start: nat, u: string, m: nat, k: nat, p: nat)
    requires Parts(s, z, u, m) && (0 as char) !in s && start <= |s| && u == s[start..]
    requires k <= |u| && AllDigits(u[..k]) && (forall i :: 0 <= i < k ==> !IsSpace(u[i])) && (k < |u| ==> IsSpace(u[k]))
    requires p == start + k + CountWhile(s[start + k..], IsSpace) <= |s|
    ensures Decoded(s, maxLen) == if p != |s| then None else
      var bytes := seq(z, i => 0) + DigitsOf(Number(Digits58(u[..k]), 58), 256);
      if |bytes| > maxLen then None else Some(bytes)
  {
    hide Number, DigitsOf, DigitOf, Digits58, Decoded;
    CountIs(u, c => !IsSpace(c), k);
    assert k == m;
    DecodedIs(s, maxLen, z, u, m);
    assert forall i :: 0 <= i < k ==> DigitOf(u[..k][i]) >= 0 && u[..k][i] == u[i];
    var n := CountWhile(s[start + k..], IsSpace);
    assert forall i :: k <= i < |u| ==> u[i] == s[start + k..][i - k];
    if p != |s| {
      assert !IsSpace(u[k + n]);
    }
  }

  ghost predicate AllDigits(t: string) {
    forall i :: 0 <= i < |t| ==> DigitOf(t[i]) >= 0
  }

  lemma NoneYet(u: string)
    ensures AllDigits(u[..0]) && Number(Digits58(u[..0]), 58) == 0
  {
  }

  /** One more digit, for which there is room. */
  lemma MoreDigits(u: string, k: nat, size: nat)
    requires k < |u| && AllDigits(u[..k]) && DigitOf(u[k]) >= 0 && Pow(256, size) >= Pow(58, |u|)
    ensures AllDigits(u[..k + 1])
    ensures Number(Digits58(u[..k + 1]), 58) == Number(Digits58(u[..k]), 58) * 58 + DigitOf(u[k]) < Pow(256, size)
  {
    hide DigitOf, Pow, Number, Digits58;
    assert u[..k + 1] == u[..k] + [u[k]];
    var ds, next := Digits58(u[..k]), Digits58(u[..k + 1]);
    assert next == ds + [DigitOf(u[k])];
    NumberNext(ds, DigitOf(u[k]), 58);
    NumberBound(next, 58);
    PowGrows(58, k + 1, |u|);
  }

  /** Decoding undoes encoding, if the result may be as long as the input. */
  lemma DecodeEncoded(bytes: seq<nat>, maxLen: nat)
    requires IsDigits(bytes, 256) && |bytes| <= maxLen
    ensures Decoded(Encoded(bytes), maxLen) == Some(bytes)
  {
    hide Number, DigitsOf, Chars, CharOf, DigitOf, LeadingZeroes, Digits58;
    var z := LeadingZeroes(bytes);
    var input, n := bytes[z..], Number(bytes, 256);
    var ds := DigitsOf(n, 58);
    var s := Encoded(bytes);
    assert bytes == seq(z, i => 0) + input;
    LeadingZeros(z, input, 256);
    forall i | 0 <= i < |s| ensures !IsSpace(s[i]) && s[i] as int != 0 && DigitOf(s[i]) >= 0 && (i < z ==> s[i] == '1') {
      if i >= z {
        CharDigit(ds[i - z]);
      } else {
        CharDigit(0);
        OneIsZero();
      }
    }
    assert CountWhile(s, IsSpace) == 0 && s[0..] == s;
    assert z < |s| ==> s[z] != '1' by {
      if z < |s| {
        CharDigit(ds[0]);
      }
    }
    assert CountWhile(s, c => c == '1') == z;
    var u := s[z..];
    assert u == Chars(ds);
    assert CountWhile(u, c => !IsSpace(c)) == |u| && u[..|u|] == u;
    DigitsOfChars(ds);
    NumberOfDigits(n, 58);
    DigitsOfNumber(input, 256);
  }

  lemma OneIsZero()
    ensures CharOf(0) == '1'
  {
  }

  lemma DigitsOfChars(ds: seq<nat>)
    requires IsDigits(ds, 58)
    ensures AllDigits(Chars(ds)) && Digits58(Chars(ds)) == ds
  {
    hide Chars, CharOf, DigitOf, Digits58;
    forall i | 0 <= i < |ds| ensures DigitOf(Chars(ds)[i]) == ds[i] {
      CharDigit(ds[i]);
    }
  }

  /** What is decoded encodes to the same string, without the spaces around it. */
  lemma EncodeDecoded(s: string, maxLen: nat, z: nat, u: string, m: nat)
    requires Parts(s, z, u, m) && Decoded(s, maxLen).Some?
    ensures Encoded(Decoded(s, maxLen).value) == seq(z, i => '1') + u[..m]
  {
    hide Number, DigitsOf, DigitOf, Chars, CharOf, LeadingZeroes;
    var ds, bytes := Digits58(u[..m]), Decoded(s, maxLen).value;
    var v := Number(ds, 58);
    var rest := DigitsOf(v, 256);
    assert bytes == seq(z, i => 0) + rest;
    assert (forall i :: 0 <= i < z ==> bytes[i] == 0) && (rest != [] ==> bytes[z] == rest[0] != 0);
    assert LeadingZeroes(bytes) == z;
    LeadingZeros(z, rest, 256);
    NumberOfDigits(v, 256);
    FirstNotOne(s, z, u, m);
    DigitsOfNumber(ds, 58);
    CharsOfDigits(u[..m]);
  }

  lemma FirstNotOne(s: string, z: nat, u: string, m: nat)
    requires Parts(s, z, u, m) && AllDigits(u[..m])
    ensures m > 0 ==> Digits58(u[..m])[0] != 0
  {
    if m > 0 {
      assert u[..m][0] == u[0] && u[0] != '1';
      assert DigitOf(u[0]) == 0 <==> u[0] == '1';
    }
  }

  lemma CharsOfDigits(t: string)
    requires AllDigits(t)
    ensures Chars(Digits58(t)) == t
  {
    hide Chars, Digits58;
    forall i | 0 <= i < |t| ensures CharOf(Digits58(t)[i]) == t[i] {
      assert CharOf(DigitOf(t[i])) == t[i];
    }
  }
}
