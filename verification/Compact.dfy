/** The compact format of targets, and the work that a target stands for. */
module Compacts {
  import opened Limbs
  import opened LimbShifts
  import opened ArithUints

  const WIDTH := 8
  const TOTAL_BITS := 256
  const SIGN := 0x80_0000

  /** The parts of a compact number: size in bytes, sign and mantissa. */
  function SizeOf(compact: nat): nat { compact / 0x100_0000 }
  predicate SignOf(compact: nat) { (compact / 0x80_0000) % 2 == 1 }
  function WordOf(compact: nat): nat { compact % 0x80_0000 }

  function Quotient(x: nat, d: nat): nat
    requires d > 0
  {
    DivBound(x, d);
    x / d
  }

  /** The mantissa as it is used: a short number has only its upper bytes. */
  function UsedWord(compact: nat): nat {
    if SizeOf(compact) <= 3 then Quotient(WordOf(compact), Pow2(8 * (3 - SizeOf(compact)))) else WordOf(compact)
  }

  /** The number that a compact number stands for, of any size. */
  function Target(compact: nat): nat {
    if SizeOf(compact) <= 3 then UsedWord(compact) else WordOf(compact) * Pow2(8 * (SizeOf(compact) - 3))
  }

  /** Read a compact number; tell whether it is negative, and whether it is too large. */
  method SetCompact(compact: nat) returns (r: array<Limb>, negative: bool, overflow: bool)
    requires compact < BASE
    ensures fresh(r) && r.Length == WIDTH && Val(r[..]) == Target(compact) % Pow2(TOTAL_BITS)
    ensures negative <==> UsedWord(compact) != 0 && SignOf(compact)
    ensures overflow <==> Target(compact) >= Pow2(TOTAL_BITS)
  {
    hide Val, Range, Pow2;
    var size := SizeOf(compact);
    var word := WordOf(compact);
    RangeIs(WIDTH);
    if size <= 3 {
      DivBound(word, Pow2(8 * (3 - size)));
      word := word / Pow2(8 * (3 - size));
      r := FromWord(word);
      Small(word);
    } else {
      r := FromWord(word);
      ShiftLeft(r, 8 * (size - 3));
      OverflowIs(word, size);
    }
    negative := word != 0 && SignOf(compact);
    overflow := word != 0 && (size > 34 || (word > 0xff && size > 33) || (word > 0xffff && size > 32));
  }

  method FromWord(word: nat) returns (r: array<Limb>)
    requires word < BASE
    ensures fresh(r) && r.Length == WIDTH && Val(r[..]) == word
  {
    r := new Limb[WIDTH](i => 0);
    r[0] := word;
    assert r[..][1..] == Zeros(WIDTH - 1);
    ValZero(WIDTH - 1);
  }

  lemma Small(word: nat)
    requires word < 0x80_0000
    ensures word < Pow2(TOTAL_BITS) && word % Pow2(TOTAL_BITS) == word
  {
    hide Pow2;
    Pow2Limb();
    Pow2Grows(LIMB_BITS, TOTAL_BITS);
    SmallMod(word, Pow2(TOTAL_BITS));
  }

  /** The three conditions say just when the number does not fit. */
  lemma OverflowIs(word: nat, size: nat)
    requires word < 0x80_0000 && size > 3
    ensures word != 0 && (size > 34 || (word > 0xff && size > 33) || (word > 0xffff && size > 32))
       <==> word * Pow2(8 * (size - 3)) >= Pow2(TOTAL_BITS)
  {
    Bytes();
    hide Pow2;
    var e := 8 * (size - 3);
    if size > 34 {
      Pow2Grows(TOTAL_BITS, e);
      if word > 0 {
        Multiples(word, Pow2(e));
      }
    } else {
      FitsIf(word, e);
      if size <= 32 {
        Pow2Grows(24, TOTAL_BITS - e);
      }
    }
  }

  lemma Bytes()
    ensures Pow2(8) == 0x100 && Pow2(16) == 0x1_0000 && Pow2(24) == 0x100_0000
  {
    assert Pow2(8) == 0x100;
    Pow2Add(8, 8);
    Pow2Add(8, 16);
  }

  lemma FitsIf(word: nat, e: nat)
    requires e <= TOTAL_BITS
    ensures word * Pow2(e) >= Pow2(TOTAL_BITS) <==> word >= Pow2(TOTAL_BITS - e)
  {
    hide Pow2;
    Pow2Add(e, TOTAL_BITS - e);
    var p, d := Pow2(e), Pow2(TOTAL_BITS - e);
    assert p * d == d * p;
    if word >= d {
      AtLeast(d, word, p);
    } else {
      Below(word, d, p);
    }
  }

  // ----- writing the compact format -----

  /** How many low bits a compact number of a size leaves out. */
  function LeftOut(size: nat): nat {
    if size <= 3 then 0 else 8 * (size - 3)
  }

  /** The least number of bytes that hold a number and leave the top bit free for the sign. */
  ghost predicate LeastSize(x: nat, size: nat) {
    2 * x < Pow2(8 * size) && (size > 0 ==> 2 * x >= Pow2(8 * (size - 1)))
  }

  /** Write a number in compact format: it is the number without the low bits that are left out. Zero has no sign. */
  method GetCompact(pn: array<Limb>, negative: bool) returns (compact: nat)
    requires pn.Length == WIDTH
    ensures compact < BASE && (SignOf(compact) <==> negative && Val(pn[..]) != 0)
    ensures var k := LeftOut(SizeOf(compact));
      && Target(compact) == Val(pn[..]) / Pow2(k) * Pow2(k)
      && Val(pn[..]) < Pow2(k + 23) && (k > 0 ==> Val(pn[..]) >= Pow2(k + 15))
    ensures LeastSize(Val(pn[..]), SizeOf(compact)) && Mantissa(Val(pn[..]), SizeOf(compact), WordOf(compact))
  {
    hide Val, Range, Pow2, LeastSize, Mantissa, TopOf, Target, SizeOf, SignOf, WordOf, LeftOut;
    var bits := Bits(pn);
    var size := (bits + 7) / 8;
    ghost var x := Val(pn[..]);
    SizeFits(x, bits, size);
    var word := TopWord(pn, size);
    SignFree(x, size, word);
    if word >= 0x80_0000 {
      Carry(x, size, word);
      word := word / 0x100;
      size := size + 1;
    } else {
      NoCarry(x, size, word);
    }
    compact := size * 0x100_0000 + word;
    NoMantissa(x, size, word);
    var signed := negative && word != 0;
    if signed {
      compact := compact + SIGN;
    }
    Written(x, size, word, signed);
  }

  /** The upper three bytes of a number of some size. */
  ghost predicate TopOf(x: nat, size: nat, word: nat) {
    word == if size <= 3 then x * Pow2(8 * (3 - size)) else Quotient(x, Pow2(8 * (size - 3)))
  }

  method TopWord(pn: array<Limb>, size: nat) returns (word: nat)
    requires pn.Length == WIDTH && Val(pn[..]) < Pow2(8 * size) && (size > 0 ==> Val(pn[..]) >= Pow2(8 * (size - 1)))
    ensures TopOf(Val(pn[..]), size, word) && word < 0x100_0000
  {
    hide Val, Range, Pow2;
    ghost var x := Val(pn[..]);
    TopBytes(x, size);
    Pow2Limb();
    var shifted := Copy(pn);
    if size <= 3 {
      RangeIs(WIDTH);
      Pow2Grows(LIMB_BITS, TOTAL_BITS);
      SmallMod(x * Pow2(8 * (3 - size)), Pow2(TOTAL_BITS));
      ShiftLeft(shifted, 8 * (3 - size));
    } else {
      ShiftRight(shifted, 8 * (size - 3));
    }
    word := LowWord(shifted);
  }

  lemma NoCarry(x: nat, size: nat, word: nat)
    requires x < Pow2(8 * size) && (size > 0 ==> x >= Pow2(8 * (size - 1))) && TopOf(x, size, word)
    ensures Mantissa(x, size, word)
  {
    hide Pow2;
    TopBytes(x, size);
  }

  lemma NoMantissa(x: nat, size: nat, word: nat)
    requires Mantissa(x, size, word)
    ensures word == 0 <==> x == 0
  {
    hide Pow2;
    if size <= 3 {
      NonZero(x, Pow2(8 * (3 - size)));
    } else if x == 0 {
      DivBound(x, Pow2(8 * (size - 3)));
    }
  }

  lemma NonZero(x: nat, p: nat)
    requires p > 0
    ensures x * p == 0 <==> x == 0
  {
  }

  /** A mantissa for a number and a size. */
  ghost predicate Mantissa(x: nat, size: nat, word: nat) {
    if size <= 3 then word == x * Pow2(8 * (3 - size)) else word == x / Pow2(8 * (size - 3)) && word >= 0x8000
  }

  lemma SizeFits(x: nat, bits: nat, size: nat)
    requires size == (bits + 7) / 8 && (bits == 0 ==> x == 0) && (bits > 0 ==> Pow2(bits - 1) <= x < Pow2(bits))
    ensures x < Pow2(8 * size) && (size > 0 ==> x >= Pow2(8 * (size - 1)))
  {
    hide Pow2;
    if bits > 0 {
      Pow2Grows(bits, 8 * size);
      Pow2Grows(8 * (size - 1), bits - 1);
    }
  }

  lemma TopBytes(x: nat, size: nat)
    requires x < Pow2(8 * size) && (size > 0 ==> x >= Pow2(8 * (size - 1)))
    ensures size <= 3 ==> x * Pow2(8 * (3 - size)) < 0x100_0000
    ensures size > 3 ==> 0x1_0000 <= x / Pow2(8 * (size - 3)) < 0x100_0000
  {
    Bytes();
    hide Pow2;
    if size <= 3 {
      Pow2Add(8 * size, 8 * (3 - size));
      Below(x, Pow2(8 * size), Pow2(8 * (3 - size)));
    } else {
      var p := Pow2(8 * (size - 3));
      Pow2Add(24, 8 * (size - 3));
      Pow2Add(16, 8 * (size - 3));
      DivMod(x, p);
      NotMore(0x100_0000, x / p, p, x);
      QuotientAtLeast(x, p, 0x1_0000);
    }
  }

  lemma TopBitScaled(x: nat, all: nat, p: nat)
    requires all * p == 0x100_0000
    ensures x * p >= 0x80_0000 <==> 2 * x >= all
  {
    assert 2 * (x * p) == (2 * x) * p;
    if 2 * x < all {
      Below(2 * x, all, p);
    } else {
      AtLeast(all, 2 * x, p);
    }
  }

  lemma TopBitLeft(x: nat, p: nat)
    requires p > 0
    ensures x / p >= 0x80_0000 <==> 2 * x >= 0x100_0000 * p
  {
    DivMod(x, p);
    if x / p >= 0x80_0000 {
      AtLeast(0x80_0000, x / p, p);
    } else {
      Below(x / p, 0x80_0000, p);
    }
  }

  /** If the top bit of the mantissa is set, one byte more is needed for the sign. */
  lemma SignFree(x: nat, size: nat, word: nat)
    requires x < Pow2(8 * size) && (size > 0 ==> x >= Pow2(8 * (size - 1)))
    requires TopOf(x, size, word)
    ensures LeastSize(x, if word >= 0x80_0000 then size + 1 else size)
  {
    Bytes();
    hide Pow2;
    Pow2Add(8 * size, 8);
    if size <= 3 {
      Pow2Add(8 * size, 8 * (3 - size));
      TopBitScaled(x, Pow2(8 * size), Pow2(8 * (3 - size)));
    } else {
      Pow2Add(24, 8 * (size - 3));
      TopBitLeft(x, Pow2(8 * (size - 3)));
    }
  }

  lemma QuotientAtLeast(x: nat, p: nat, n: nat)
    requires p > 0 && x >= n * p
    ensures x / p >= n
  {
    DivMod(x, p);
    if x / p < n {
      Below(x / p, n, p);
    }
  }

  lemma Carry(x: nat, size: nat, word: nat)
    requires word >= 0x80_0000 && TopOf(x, size, word)
    ensures Mantissa(x, size + 1, word / 0x100)
  {
    Bytes();
    PowZero(x);
    if size < 3 {
      var p := Pow2(8 * (2 - size));
      Pow2Add(8, 8 * (2 - size));
      hide Pow2;
      assert word == (x * p) * 0x100 by { assert x * (0x100 * p) == (x * p) * 0x100; }
    } else if size > 3 {
      hide Pow2;
      Pow2Add(8 * (size - 3), 8);
      DivDiv(x, Pow2(8 * (size - 3)), 0x100);
    }
  }

  lemma Written(x: nat, size: nat, word: nat, signed: bool)
    requires Mantissa(x, size, word) && word < 0x80_0000 && size < 0x100
    ensures var c, k := size * 0x100_0000 + word + (if signed then SIGN else 0), LeftOut(size);
      && c < 0x1_0000_0000 && SizeOf(c) == size && WordOf(c) == word && SignOf(c) == signed
      && Target(c) == x / Pow2(k) * Pow2(k) && x < Pow2(k + 23) && (k > 0 ==> x >= Pow2(k + 15))
  {
    var c, k := size * 0x100_0000 + word + (if signed then SIGN else 0), LeftOut(size);
    PartsOf(size, word, signed);
    Bytes();
    Pow2Add(16, 7);
    Pow2Add(8, 7);
    hide Pow2;
    if size <= 3 {
      var p := Pow2(8 * (3 - size));
      ModMultiple(0, x, p);
      AtLeast(1, p, x);
      assert x * p == p * x;
      PowZero(x);
    } else {
      DivMod(x, Pow2(k));
      Pow2Add(23, k);
      Pow2Add(15, k);
      Below(word, 0x80_0000, Pow2(k));
      AtLeast(0x8000, word, Pow2(k));
    }
  }

  lemma PartsOf(size: nat, word: nat, signed: bool)
    requires word < 0x80_0000
    ensures var c := size * 0x100_0000 + word + (if signed then SIGN else 0);
      SizeOf(c) == size && WordOf(c) == word && SignOf(c) == signed
  {
  }

  /** The number, if it is less than a limb. */
  method LowWord(pn: array<Limb>) returns (word: nat)
    requires pn.Length == WIDTH && Val(pn[..]) < BASE
    ensures word == Val(pn[..])
  {
    word := pn[0];
  }

  // ----- work -----

  /** The work of a block: nothing for a target that is negative, too large or zero. */
  method BlockProof(bits: nat) returns (r: array<Limb>)
    requires bits < BASE
    ensures r.Length == WIDTH
    ensures Val(r[..]) ==
      if (UsedWord(bits) != 0 && SignOf(bits)) || Target(bits) >= Pow2(TOTAL_BITS) || Target(bits) == 0 then 0
      else Pow2(TOTAL_BITS) / (Target(bits) + 1)
  {
    hide Val, Range, Pow2, Target, UsedWord, SignOf;
    var target, negative, overflow := SetCompact(bits);
    RangeIs(WIDTH);
    if !overflow {
      SmallMod(Target(bits), Pow2(TOTAL_BITS));
    }
    var isZero := EqualsZero(target);
    if negative || overflow || isZero {
      r := FromWord(0);
      return;
    }
    NoWrap(bits);
    ghost var t, all := Target(bits), Pow2(TOTAL_BITS);
    r := Complement(target);
    Increment(target);
    SmallMod(t + 1, all);
    var ok := DivAssign(r, target);
    WorkIs(all, t);
    Increment(r);
    SmallMod(all / (t + 1), all);
  }

  method EqualsZero(pn: array<Limb>) returns (z: bool)
    ensures z <==> Val(pn[..]) == 0
  {
    var zero := new Limb[pn.Length](i => 0);
    assert zero[..] == Zeros(pn.Length);
    ValZero(pn.Length);
    var c := CompareTo(pn, zero);
    z := c == 0;
  }

  /** A target that fits is not the largest number, so that adding one does not wrap. */
  lemma NoWrap(bits: nat)
    requires bits < BASE && Target(bits) < Pow2(TOTAL_BITS)
    ensures Target(bits) + 1 < Pow2(TOTAL_BITS)
  {
    hide Pow2;
    var size, word := SizeOf(bits), WordOf(bits);
    if size <= 3 {
      Pow2Limb();
      Pow2Grows(LIMB_BITS, TOTAL_BITS);
      DivBound(word, Pow2(8 * (3 - size)));
    } else {
      EvenBelow(word, 8 * (size - 3));
    }
  }

  /** A multiple of a power of two is not odd. */
  lemma EvenBelow(word: nat, e: nat)
    requires e > 0 && word * Pow2(e) < Pow2(TOTAL_BITS)
    ensures word * Pow2(e) + 1 < Pow2(TOTAL_BITS)
  {
    assert word * Pow2(e) == 2 * (word * Pow2(e - 1)) by { Double(word, Pow2(e - 1)); }
    assert Pow2(TOTAL_BITS) == 2 * Pow2(TOTAL_BITS - 1);
  }

  /** How the quotient is computed without a number that does not fit. */
  lemma WorkIs(all: nat, t: nat)
    requires 0 < t && t + 1 < all
    ensures (all - 1 - t) / (t + 1) + 1 == all / (t + 1) < all
  {
    var d := t + 1;
    DivMod(all - d, d);
    var q, m := (all - d) / d, (all - d) % d;
    assert all == (q + 1) * d + m by { OneMore(q, d); }
    ModMultiple(m, q + 1, d);
    Multiples(q + 1, d);
    Double(q + 1, 1);
    AtLeast(2, d, q + 1);
    assert (q + 1) * d == d * (q + 1);
  }
}
