/** Encoding to and decoding from Bech32 strings. */
module Bech32Strings {
  import opened Collections
  import opened Bech32s
  import opened Bech32Errors

  const CHARSET: string := "qpzry9x8gf2tvdw0s3jn54khce6mua7l"

  // ----- characters -----

  function LowerCase(c: char): char {
    if 'A' <= c <= 'Z' then (c as int - 'A' as int + 'a' as int) as char else c
  }

  function LowerCases(s: string): (r: string)
    ensures |r| == |s|
  {
    if s == [] then [] else [LowerCase(s[0])] + LowerCases(s[1..])
  }

  /** The position of a character, or -1. */
  function IndexIn(s: string, c: char): (k: int)
    ensures -1 <= k < |s| && (k == -1 <==> c !in s) && (k >= 0 ==> s[k] == c && c !in s[..k])
  {
    if s == [] then -1 else if s[0] == c then 0 else
    var k := IndexIn(s[1..], c);
    if k < 0 then -1 else k + 1
  }

  /** The value of a character in either case, or -1. */
  function Rev(c: char): (k: int)
    ensures -1 <= k < 32
  {
    IndexIn(CHARSET, LowerCase(c))
  }

  function RevSym(c: char): bv32
    requires Rev(c) >= 0
  {
    Rev(c) as bv32
  }

  function CharOf(v: bv32): char
    requires v < 32
  {
    AsInt(v);
    CHARSET[v as int]
  }

  lemma AsInt(v: bv32)
    requires v < 32
    ensures 0 <= v as int < 32 && (v as int) as bv32 == v
  {
  }

  lemma CharsetDistinct(i: nat, j: nat)
    requires i < j < 32
    ensures CHARSET[i] != CHARSET[j]
  {
  }

  /** The characters of the set: digits other than the separator, and lower-case letters. */
  lemma CharsetPlain(i: nat)
    requires i < 32
    ensures CHARSET[i] != SEPARATOR && ('0' <= CHARSET[i] <= '9' || 'a' <= CHARSET[i] <= 'z')
  {
  }

  /** Characters and values are inverse to each other. */
  lemma RevChar(v: bv32)
    requires v < 32
    ensures Rev(CharOf(v)) >= 0 && RevSym(CharOf(v)) == v
  {
    AsInt(v);
    var n := v as int;
    CharsetPlain(n);
    var k := Rev(CharOf(v));
    assert LowerCase(CHARSET[n]) == CHARSET[n] && CHARSET[n] in CHARSET;
    if k < n {
      CharsetDistinct(k, n);
    } else if n < k {
      CharsetDistinct(n, k);
    }
  }

  lemma CharRev(c: char)
    requires Rev(c) >= 0
    ensures RevSym(c) < 32 && CharOf(RevSym(c)) == LowerCase(c)
  {
    AsBv(Rev(c));
  }

  lemma AsBv(n: nat)
    requires n < 32
    ensures (n as bv32) < 32 && (n as bv32) as int == n
  {
  }

  // ----- strings of characters -----

  /** Printable characters, and not of both cases. */
  ghost predicate CharsOk(s: string) {
    Printable(s) && !(HasLower(s) && HasUpper(s))
  }

  ghost predicate Printable(s: string) { forall i :: 0 <= i < |s| ==> 33 <= s[i] as int <= 126 }
  ghost predicate HasLower(s: string) { exists i :: 0 <= i < |s| && 'a' <= s[i] <= 'z' }
  ghost predicate HasUpper(s: string) { exists i :: 0 <= i < |s| && 'A' <= s[i] <= 'Z' }

  datatype Case = Neither | Lower | Upper

  ghost function CaseOf(c: char): Case {
    if 'a' <= c <= 'z' then Lower else if 'A' <= c <= 'Z' then Upper else Neither
  }

  /** The case of the first letter of a string. */
  ghost function FirstCase(s: string): Case {
    if s == [] then Neither
    else if FirstCase(s[..|s| - 1]) != Neither then FirstCase(s[..|s| - 1])
    else CaseOf(s[|s| - 1])
  }

  lemma FirstCaseNext(s: string, i: nat)
    requires i < |s|
    ensures FirstCase(s[..i + 1]) == if FirstCase(s[..i]) != Neither then FirstCase(s[..i]) else CaseOf(s[i])
  {
    assert s[..i + 1][..i] == s[..i];
  }

  /** A character is not printable, or has another case than the first letter. */
  ghost predicate ErrorAt(s: string, i: nat)
    requires i < |s|
  {
    || !(33 <= s[i] as int <= 126)
    || (CaseOf(s[i]) == Lower && FirstCase(s[..i]) == Upper) || (CaseOf(s[i]) == Upper && FirstCase(s[..i]) == Lower)
  }

  ghost predicate NoErrors(s: string, n: nat)
    requires n <= |s|
  {
    forall k: nat :: k < n ==> !ErrorAt(s, k)
  }

  /** Without errors, all letters have the case of the first one. */
  lemma {:induction false} NoErrorsIs(s: string, n: nat)
    requires n <= |s|
    ensures NoErrors(s, n) <==> CharsOk(s[..n])
    ensures NoErrors(s, n) ==> (FirstCase(s[..n]) == Lower <==> HasLower(s[..n])) && (FirstCase(s[..n]) == Upper <==> HasUpper(s[..n]))
  {
    if n > 0 {
      NoErrorsIs(s, n - 1);
      hide FirstCase, Printable, HasLower, HasUpper;
      NextChar(s[..n - 1], s[n - 1]);
      assert s[..n] == s[..n - 1] + [s[n - 1]];
      FirstCaseNext(s, n - 1);
      assert NoErrors(s, n) <==> NoErrors(s, n - 1) && !ErrorAt(s, n - 1);
    }
  }

  /** The positions of characters that are not allowed. */
  method CheckCharacters(s: string) returns (errors: seq<nat>)
    ensures errors == [] <==> CharsOk(s)
    ensures forall k: nat :: k in errors <==> k < |s| && ErrorAt(s, k)
    ensures forall j, k :: 0 <= j < k < |errors| ==> errors[j] < errors[k]
  {
    NoErrorsIs(s, |s|);
    assert s[..|s|] == s;
    NoCase(s);
    hide FirstCase, CharsOk;
    errors := [];
    var lower, upper := false, false;
    for i := 0 to |s|
      invariant (lower <==> FirstCase(s[..i]) == Lower) && (upper <==> FirstCase(s[..i]) == Upper)
      invariant forall k: nat :: k in errors <==> k < i && ErrorAt(s, k)
      invariant forall j :: 0 <= j < |errors| ==> errors[j] < i
      invariant forall j, k :: 0 <= j < k < |errors| ==> errors[j] < errors[k]
    {
      var c := s[i];
      FirstCaseNext(s, i);
      if 'a' <= c <= 'z' {
        if upper {
          errors := errors + [i];
        } else {
          lower := true;
        }
      } else if 'A' <= c <= 'Z' {
        if lower {
          errors := errors + [i];
        } else {
          upper := true;
        }
      } else if c as int < 33 || c as int > 126 {
        errors := errors + [i];
      }
    }
    assert errors != [] ==> errors[0] in errors;
  }

  lemma NoCase(s: string)
    ensures FirstCase(s[..0]) == Neither
  {
  }

  lemma NextChar(s: string, c: char)
    ensures HasLower(s + [c]) <==> HasLower(s) || 'a' <= c <= 'z'
    ensures HasUpper(s + [c]) <==> HasUpper(s) || 'A' <= c <= 'Z'
    ensures Printable(s + [c]) <==> Printable(s) && 33 <= c as int <= 126
  {
    var t := s + [c];
    assert t[|s|] == c && forall i :: 0 <= i < |s| ==> t[i] == s[i];
  }

  /** The last position of a character, or -1. */
  function LastIndex(s: string, c: char): (k: int)
    ensures -1 <= k < |s| && (k >= 0 ==> s[k] == c) && forall i :: k < i < |s| ==> s[i] != c
  {
    if s == [] then -1 else if s[|s| - 1] == c then |s| - 1 else LastIndex(s[..|s| - 1], c)
  }

  // ----- what the checksum is over -----

  /** The two symbols that a character of the prefix is expanded to. */
  function HighBits(c: char): bv32 { (c as int / 32) as bv32 }
  function LowBits(c: char): bv32 { (c as int % 32) as bv32 }

  function Uppers(hrp: string): (r: seq<bv32>)
    ensures |r| == |hrp|
  {
    seq(|hrp|, i requires 0 <= i < |hrp| => HighBits(hrp[i]))
  }

  function Lowers(hrp: string): (r: seq<bv32>)
    ensures |r| == |hrp|
  {
    seq(|hrp|, i requires 0 <= i < |hrp| => LowBits(hrp[i]))
  }

  /** The human-readable part, expanded, and the values. */
  function Prepared(hrp: string, values: seq<bv32>): seq<bv32> {
    Uppers(hrp) + [0] + Lowers(hrp) + values
  }

  lemma PreparedSymbols(hrp: string, values: seq<bv32>)
    requires Printable(hrp) && Symbols(values)
    ensures Symbols(Prepared(hrp, values))
  {
    forall i | 0 <= i < |hrp| ensures Uppers(hrp)[i] < 32 && Lowers(hrp)[i] < 32 {
      AsBv(hrp[i] as int / 32);
      AsBv(hrp[i] as int % 32);
    }
  }

  /** The encoding that a checksum is of, if any. */
  function VerifyChecksum(hrp: string, values: seq<bv32>): Option<Encoding> {
    var check := Residue(1, Prepared(hrp, values));
    if check == EncodingConstant(Bech32) then Some(Bech32)
    else if check == EncodingConstant(Bech32m) then Some(Bech32m)
    else None
  }

  // ----- encoding and decoding -----

  function Chars(v: seq<bv32>): (r: string)
    requires Symbols(v)
    ensures |r| == |v| && forall i :: 0 <= i < |v| ==> r[i] == CharOf(v[i])
  {
    if v == [] then [] else [CharOf(v[0])] + Chars(v[1..])
  }

  /** The values of characters. */
  function Values(s: string): (r: seq<bv32>)
    requires forall i :: 0 <= i < |s| ==> Rev(s[i]) >= 0
    ensures |r| == |s| && forall i :: 0 <= i < |s| ==> r[i] == RevSym(s[i])
  {
    if s == [] then [] else [RevSym(s[0])] + Values(s[1..])
  }

  ghost function Encoded(encoding: Encoding, hrp: string, values: seq<bv32>): string
    requires Symbols(values)
  {
    hrp + [SEPARATOR] + Chars(values + Checksum(encoding, Prepared(hrp, values)))
  }

  ghost function DecodedOf(s: string, limit: nat): Decoded {
    var pos := LastIndex(s, SEPARATOR);
    if !CharsOk(s) || |s| > limit || pos <= 0 || pos + CHECKSUM_SIZE >= |s| then Invalid
    else if exists i :: pos < i < |s| && Rev(s[i]) < 0 then Invalid
    else
      var values, hrp := Values(s[pos + 1..]), LowerCases(s[..pos]);
      match VerifyChecksum(hrp, values)
      case None => Invalid
      case Some(encoding) => Valid(encoding, hrp, values[..|values| - CHECKSUM_SIZE])
  }

  /** The loop over the coefficients. */
  method PolyMod(v: seq<bv32>) returns (c: bv32)
    ensures c == Residue(1, v)
  {
    hide TimesX, Xor;
    c := 1;
    for i := 0 to |v|
      invariant Residue(c, v[i..]) == Residue(1, v)
    {
      assert v[i..][1..] == v[i + 1..];
      c := Xor(TimesX(c), v[i]);
    }
    assert v[|v|..] == [];
  }

  method Encode(encoding: Encoding, hrp: string, values: seq<bv32>) returns (r: string)
    requires Symbols(values) && forall i :: 0 <= i < |hrp| ==> !('A' <= hrp[i] <= 'Z')
    ensures r == Encoded(encoding, hrp, values)
  {
    hide Residue, Groups, Chars, CharOf;
    var enc := Prepared(hrp, values);
    var mod := PolyMod(enc + Zeros(CHECKSUM_SIZE));
    var all := values + Groups(Xor(mod, EncodingConstant(encoding)));
    r := hrp + [SEPARATOR];
    for i := 0 to |all|
      invariant Symbols(all[..i]) && r == hrp + [SEPARATOR] + Chars(all[..i])
    {
      r := r + [CharOf(all[i])];
      assert all[..i + 1] == all[..i] + [all[i]];
      CharsAppend(all[..i], all[i]);
    }
    assert all[..|all|] == all;
  }

  lemma CharsAppend(v: seq<bv32>, x: bv32)
    requires Symbols(v) && x < 32
    ensures Symbols(v + [x]) && Chars(v + [x]) == Chars(v) + [CharOf(x)]
  {
  }

  method Decode(s: string, limit: nat) returns (r: Decoded)
    ensures r == DecodedOf(s, limit)
  {
    hide Residue, Rev, RevSym, CharsOk, Values, LowerCases;
    var errors := CheckCharacters(s);
    if errors != [] {
      return Invalid;
    }
    var pos := LastIndex(s, SEPARATOR);
    if |s| > limit {
      return Invalid;
    }
    if pos == -1 || pos == 0 || pos + CHECKSUM_SIZE >= |s| {
      return Invalid;
    }
    var values: seq<bv32> := [];
    ghost var tail := s[pos + 1..];
    ValuesEmpty();
    for i := 0 to |s| - 1 - pos
      invariant forall k :: 0 <= k < i ==> Rev(tail[..i][k]) >= 0
      invariant forall k :: pos < k < i + pos + 1 ==> Rev(s[k]) >= 0
      invariant values == Values(tail[..i])
    {
      var c := s[i + pos + 1];
      if Rev(c) == -1 {
        return Invalid;
      }
      assert tail[..i + 1] == tail[..i] + [c];
      ValuesAppend(tail[..i], c);
      values := values + [RevSym(c)];
    }
    assert tail[..|tail|] == tail;
    var hrp := "";
    LowerCasesEmpty();
    for i := 0 to pos
      invariant hrp == LowerCases(s[..i])
    {
      assert s[..i + 1] == s[..i] + [s[i]];
      LowerCasesAppend(s[..i], s[i]);
      hrp := hrp + [LowerCase(s[i])];
    }
    match VerifyChecksum(hrp, values) {
      case None => return Invalid;
      case Some(encoding) => return Valid(encoding, hrp, values[..|values| - CHECKSUM_SIZE]);
    }
  }

  lemma ValuesEmpty()
    ensures Values([]) == []
  {
  }

  lemma ValuesAppend(s: string, c: char)
    requires (forall i :: 0 <= i < |s| ==> Rev(s[i]) >= 0) && Rev(c) >= 0
    ensures (forall i :: 0 <= i < |s + [c]| ==> Rev((s + [c])[i]) >= 0) && Values(s + [c]) == Values(s) + [RevSym(c)]
  {
    hide Rev, RevSym;
  }

  lemma LowerCasesEmpty()
    ensures LowerCases([]) == []
  {
  }

  lemma {:induction false} LowerCasesAppend(s: string, c: char)
    ensures LowerCases(s + [c]) == LowerCases(s) + [LowerCase(c)]
  {
    if s != [] {
      assert (s + [c])[1..] == s[1..] + [c];
      LowerCasesAppend(s[1..], c);
    }
  }

  // ----- round trips -----

  /** What a human-readable part may be: printable characters, none in upper case. */
  ghost predicate GoodHrp(hrp: string) {
    hrp != [] && Printable(hrp) && forall i :: 0 <= i < |hrp| ==> !('A' <= hrp[i] <= 'Z')
  }

  /** Decoding undoes encoding. */
  lemma DecodeEncoded(encoding: Encoding, hrp: string, values: seq<bv32>, limit: nat)
    requires GoodHrp(hrp) && Symbols(values) && |hrp| + 1 + |values| + CHECKSUM_SIZE <= limit
    ensures DecodedOf(Encoded(encoding, hrp, values), limit) == Valid(encoding, hrp, values)
  {
    hide Residue, Rev, RevSym, Chars, CharOf, Checksum, Values, CharsOk, LastIndex, LowerCases;
    var check := Checksum(encoding, Prepared(hrp, values));
    var all := values + check;
    var s := Encoded(encoding, hrp, values);
    var pos := |hrp|;
    assert s[..pos] == hrp && s[pos] == SEPARATOR && s[pos + 1..] == Chars(all);
    EncodedChars(hrp, all);
    assert LastIndex(s, SEPARATOR) == pos;
    forall i | pos < i < |s| ensures Rev(s[i]) >= 0 {
      assert s[i] == s[pos + 1..][i - pos - 1] == CharOf(all[i - pos - 1]);
      RevChar(all[i - pos - 1]);
    }
    ValuesOfChars(all);
    LowerAlready(hrp);
    PreparedSymbols(hrp, values);
    ChecksumVerifies(encoding, Prepared(hrp, values));
    assert Prepared(hrp, all) == Prepared(hrp, values) + check;
    assert all[..|all| - CHECKSUM_SIZE] == values;
  }

  /** An encoded string has no upper case, and no separator after the first part. */
  lemma EncodedChars(hrp: string, all: seq<bv32>)
    requires GoodHrp(hrp) && Symbols(all)
    ensures var s := hrp + [SEPARATOR] + Chars(all);
      CharsOk(s) && forall i :: |hrp| < i < |s| ==> s[i] != SEPARATOR
  {
    var s := hrp + [SEPARATOR] + Chars(all);
    forall i | 0 <= i < |s|
      ensures 33 <= s[i] as int <= 126 && !('A' <= s[i] <= 'Z') && (i > |hrp| ==> s[i] != SEPARATOR)
    {
      if i > |hrp| {
        var v := all[i - |hrp| - 1];
        assert s[i] == CharOf(v);
        AsInt(v);
        CharsetPlain(v as int);
      }
    }
  }

  lemma ValuesOfChars(v: seq<bv32>)
    requires Symbols(v)
    ensures (forall i :: 0 <= i < |v| ==> Rev(Chars(v)[i]) >= 0) && Values(Chars(v)) == v
  {
    hide Rev, RevSym, CharOf, Values, Chars;
    forall i | 0 <= i < |v| ensures Rev(Chars(v)[i]) >= 0 && RevSym(Chars(v)[i]) == v[i] {
      RevChar(v[i]);
    }
  }

  lemma {:induction false} LowerAlready(s: string)
    requires forall i :: 0 <= i < |s| ==> !('A' <= s[i] <= 'Z')
    ensures LowerCases(s) == s
  {
    if s != [] {
      LowerAlready(s[1..]);
      assert s == [s[0]] + s[1..];
    }
  }

  /** What is decoded encodes to the same string in lower case: only encodings are accepted. */
  lemma EncodeDecoded(s: string, limit: nat)
    requires DecodedOf(s, limit).Valid?
    ensures var d := DecodedOf(s, limit); Symbols(d.data) && Encoded(d.encoding, d.hrp, d.data) == LowerCases(s)
  {
    hide DecodedOf, Residue, Rev, RevSym, Chars, CharOf, Checksum, Values, CharsOk, LastIndex, LowerCases, Prepared, VerifyChecksum;
    var d := DecodedOf(s, limit);
    var pos, tail, all := DecodedParts(s, limit);
    CharsOfValues(tail);
    var check := all[|d.data|..];
    assert all == d.data + check && Symbols(d.data) && Symbols(check);
    LowerPrintable(s, s[..pos]);
    VerifiedIs(d.encoding, d.hrp, d.data, check);
    LowerCasesSplit(s, pos);
  }

  lemma DecodedParts(s: string, limit: nat) returns (pos: nat, tail: string, all: seq<bv32>)
    requires DecodedOf(s, limit).Valid?
    ensures CharsOk(s) && pos < |s| && s[pos] == SEPARATOR && tail == s[pos + 1..] && forall i :: 0 <= i < |tail| ==> Rev(tail[i]) >= 0
    ensures var d := DecodedOf(s, limit);
      && d.hrp == LowerCases(s[..pos]) && all == Values(tail) && |all| == |d.data| + CHECKSUM_SIZE
      && d.data == all[..|d.data|] && VerifyChecksum(d.hrp, all) == Some(d.encoding)
  {
    hide Residue, Rev, Values, CharsOk, LastIndex, LowerCases, VerifyChecksum;
    pos := LastIndex(s, SEPARATOR);
    tail := s[pos + 1..];
    forall i | 0 <= i < |tail| ensures Rev(tail[i]) >= 0 {
      assert tail[i] == s[pos + 1 + i];
    }
    all := Values(tail);
  }

  lemma VerifiedIs(encoding: Encoding, hrp: string, data: seq<bv32>, check: seq<bv32>)
    requires Printable(hrp) && Symbols(data) && Symbols(check) && |check| == CHECKSUM_SIZE
    requires VerifyChecksum(hrp, data + check) == Some(encoding)
    ensures check == Checksum(encoding, Prepared(hrp, data))
  {
    hide Residue, Checksum;
    PreparedSymbols(hrp, data);
    assert Prepared(hrp, data + check) == Prepared(hrp, data) + check;
    ChecksumUnique(encoding, Prepared(hrp, data), check);
  }

  lemma LowerPrintable(s: string, t: string)
    requires CharsOk(s) && t <= s
    ensures Printable(LowerCases(t))
  {
    LowerCasesAt(t);
    assert forall i :: 0 <= i < |t| ==> t[i] == s[i];
  }

  lemma {:induction false} LowerCasesAt(t: string)
    ensures forall i :: 0 <= i < |t| ==> LowerCases(t)[i] == LowerCase(t[i])
  {
    if t != [] {
      LowerCasesAt(t[1..]);
    }
  }

  lemma LowerCasesSplit(s: string, pos: nat)
    requires pos < |s| && s[pos] == SEPARATOR
    ensures LowerCases(s) == LowerCases(s[..pos]) + [SEPARATOR] + LowerCases(s[pos + 1..])
  {
    hide LowerCases;
    assert s == s[..pos] + ([SEPARATOR] + s[pos + 1..]);
    LowerCasesConcat(s[..pos], [SEPARATOR] + s[pos + 1..]);
    LowerCasesConcat([SEPARATOR], s[pos + 1..]);
    LowerAlready([SEPARATOR]);
  }

  lemma {:induction false} LowerCasesConcat(s: string, t: string)
    ensures LowerCases(s + t) == LowerCases(s) + LowerCases(t)
  {
    if s == [] {
      assert s + t == t;
    } else {
      assert (s + t)[1..] == s[1..] + t;
      LowerCasesConcat(s[1..], t);
    }
  }

  lemma CharsOfValues(s: string)
    requires forall i :: 0 <= i < |s| ==> Rev(s[i]) >= 0
    ensures Symbols(Values(s)) && Chars(Values(s)) == LowerCases(s)
  {
    hide Rev, RevSym, CharOf, Values, Chars, LowerCases, LowerCase;
    LowerCasesAt(s);
    forall i | 0 <= i < |s| ensures RevSym(s[i]) < 32 && CharOf(RevSym(s[i])) == LowerCase(s[i]) {
      CharRev(s[i]);
    }
    assert Symbols(Values(s));
  }

  // ----- how far encodings are apart -----

  /** The symbols of an encoding after the separator. */
  ghost function CodeWord(encoding: Encoding, hrp: string, values: seq<bv32>): seq<bv32>
    requires Symbols(values)
  {
    values + Checksum(encoding, Prepared(hrp, values))
  }

  lemma {:induction false} SameWords(v: seq<bv32>, w: seq<bv32>)
    requires |v| == |w| && Distance(v, w) == 0
    ensures v == w
  {
    if v != [] {
      SameWords(v[1..], w[1..]);
      assert v == [v[0]] + v[1..] && w == [w[0]] + w[1..];
    }
  }

  /** Encodings of different data differ in four symbols at least, so that no string with up to three of them
      substituted is accepted as that encoding. */
  lemma EncodingsFarApart(encoding: Encoding, hrp: string, v: seq<bv32>, w: seq<bv32>)
    requires Printable(hrp) && Symbols(v) && Symbols(w) && v != w && |v| == |w| && |v| + CHECKSUM_SIZE <= 1023
    ensures |CodeWord(encoding, hrp, v)| == |CodeWord(encoding, hrp, w)|
    ensures Distance(CodeWord(encoding, hrp, v), CodeWord(encoding, hrp, w)) >= 4
  {
    hide Residue, Checksum, Distance, Symbols;
    var x, y := CodeWord(encoding, hrp, v), CodeWord(encoding, hrp, w);
    var front := Uppers(hrp) + [0] + Lowers(hrp);
    WordVerifies(encoding, hrp, v);
    WordVerifies(encoding, hrp, w);
    assert v == x[..|v|] && w == y[..|w|];
    assert front + x + [] == front + x && front + y + [] == front + y;
    NoSymbols();
    if Distance(x, y) == 0 {
      SameWords(x, y);
    } else if Distance(x, y) <= 3 {
      ThreeErrorsAreDetected(front, x, y, []);
    }
  }

  lemma NoSymbols()
    ensures Symbols([])
  {
  }

  lemma WordVerifies(encoding: Encoding, hrp: string, v: seq<bv32>)
    requires Printable(hrp) && Symbols(v)
    ensures var x := CodeWord(encoding, hrp, v);
      && |x| == |v| + CHECKSUM_SIZE && Symbols(x) && Symbols(Uppers(hrp) + [0] + Lowers(hrp))
      && Residue(1, Uppers(hrp) + [0] + Lowers(hrp) + x) == EncodingConstant(encoding)
  {
    hide Residue;
    PreparedSymbols(hrp, v);
    PreparedSymbols(hrp, []);
    ChecksumVerifies(encoding, Prepared(hrp, v));
    assert Prepared(hrp, []) == Uppers(hrp) + [0] + Lowers(hrp);
    assert Uppers(hrp) + [0] + Lowers(hrp) + CodeWord(encoding, hrp, v)
        == Prepared(hrp, v) + Checksum(encoding, Prepared(hrp, v));
  }

  // ----- the prefix -----

  lemma {:induction false} SameMiddle(mid: seq<bv32>, b: bv32, d: bv32)
    ensures Distance(mid + [b], mid + [d]) == if b == d then 0 else 1
  {
    if mid == [] {
      assert mid + [b] == [b] && mid + [d] == [d];
      assert Distance([b][1..], [d][1..]) == 0;
    } else {
      assert (mid + [b])[1..] == mid[1..] + [b] && (mid + [d])[1..] == mid[1..] + [d];
      SameMiddle(mid[1..], b, d);
    }
  }

  lemma BothEnds(a: bv32, c: bv32, mid: seq<bv32>, b: bv32, d: bv32)
    ensures Distance([a] + (mid + [b]), [c] + (mid + [d])) == (if a == c then 0 else 1) + (if b == d then 0 else 1)
  {
    SameMiddle(mid, b, d);
    assert ([a] + (mid + [b]))[1..] == mid + [b] && ([c] + (mid + [d]))[1..] == mid + [d];
  }

  /** A character is determined by the two symbols that it is expanded to. */
  lemma TwoParts(c: char, d: char)
    requires c as int < 128 && d as int < 128 && c != d
    ensures HighBits(c) != HighBits(d) || LowBits(c) != LowBits(d)
  {
    AsBv(c as int / 32);
    AsBv(d as int / 32);
    AsBv(c as int % 32);
    AsBv(d as int % 32);
  }

  /** What is between the two symbols of a character in the expanded prefix, in front of them and behind them. */
  ghost function Middle(hrp: string, i: nat): seq<bv32>
    requires i < |hrp|
  {
    Uppers(hrp)[i + 1..] + [0] + Lowers(hrp)[..i]
  }

  ghost function Window(hrp: string, i: nat): seq<bv32>
    requires i < |hrp|
  {
    [Uppers(hrp)[i]] + (Middle(hrp, i) + [Lowers(hrp)[i]])
  }

  ghost function Ahead(hrp: string, i: nat): seq<bv32>
    requires i < |hrp|
  {
    Uppers(hrp)[..i]
  }

  ghost function Behind(hrp: string, i: nat, values: seq<bv32>): seq<bv32>
    requires i < |hrp|
  {
    Lowers(hrp)[i + 1..] + values
  }

  lemma PreparedAt(hrp: string, i: nat, values: seq<bv32>)
    requires i < |hrp|
    ensures Prepared(hrp, values) == Ahead(hrp, i) + Window(hrp, i) + Behind(hrp, i, values) && |Window(hrp, i)| == |hrp| + 2
  {
    var u, l := Uppers(hrp), Lowers(hrp);
    assert u == u[..i] + [u[i]] + u[i + 1..] && l == l[..i] + [l[i]] + l[i + 1..];
  }

  lemma PrefixSymbols(hrp: string)
    requires Printable(hrp)
    ensures Symbols(Uppers(hrp)) && Symbols(Lowers(hrp))
  {
    forall i | 0 <= i < |hrp| ensures Uppers(hrp)[i] < 32 && Lowers(hrp)[i] < 32 {
      AsBv(hrp[i] as int / 32);
      AsBv(hrp[i] as int % 32);
    }
  }

  lemma PrefixParts(hrp: string, i: nat, values: seq<bv32>)
    requires Printable(hrp) && i < |hrp| && Symbols(values)
    ensures Symbols(Ahead(hrp, i)) && Symbols(Window(hrp, i)) && Symbols(Behind(hrp, i, values))
  {
    hide Uppers, Lowers;
    PrefixSymbols(hrp);
  }

  lemma Elsewhere(hrp: string, i: nat, c: char)
    requires i < |hrp|
    ensures Uppers(hrp[i := c]) == Uppers(hrp)[i := HighBits(c)]
    ensures Lowers(hrp[i := c]) == Lowers(hrp)[i := LowBits(c)]
  {
    hide HighBits, LowBits;
  }

  lemma SymbolsDiffer(hrp: string, i: nat, c: char)
    requires Printable(hrp) && i < |hrp| && 33 <= c as int <= 126 && c != hrp[i]
    ensures Uppers(hrp[i := c])[i] != Uppers(hrp)[i] || Lowers(hrp[i := c])[i] != Lowers(hrp)[i]
  {
    hide HighBits, LowBits;
    TwoParts(hrp[i], c);
  }

  /** Changing a character changes only its own symbols, and one of them at least. */
  lemma WindowChanges(hrp: string, i: nat, c: char, values: seq<bv32>)
    requires Printable(hrp) && i < |hrp| && 33 <= c as int <= 126 && c != hrp[i]
    ensures Ahead(hrp[i := c], i) == Ahead(hrp, i) && Behind(hrp[i := c], i, values) == Behind(hrp, i, values)
    ensures |Window(hrp, i)| == |Window(hrp[i := c], i)| && 1 <= Distance(Window(hrp, i), Window(hrp[i := c], i)) <= 2
  {
    hide Distance, Uppers, Lowers;
    var other := hrp[i := c];
    Elsewhere(hrp, i, c);
    SymbolsDiffer(hrp, i, c);
    BothEnds(Uppers(hrp)[i], Uppers(other)[i], Middle(hrp, i), Lowers(hrp)[i], Lowers(other)[i]);
    assert Middle(hrp, i) == Middle(other, i);
  }

  /** Changing one character of the prefix always changes the residue. */
  lemma PrefixIsChecked(hrp: string, i: nat, c: char, values: seq<bv32>)
    requires Printable(hrp) && i < |hrp| <= 1021 && 33 <= c as int <= 126 && c != hrp[i] && Symbols(values)
    ensures Residue(1, Prepared(hrp[i := c], values)) != Residue(1, Prepared(hrp, values))
  {
    hide Residue, Distance, Uppers, Lowers, Prepared, Ahead, Window, Behind, Symbols;
    PreparedAt(hrp, i, values);
    PreparedAt(hrp[i := c], i, values);
    PrefixParts(hrp, i, values);
    PrefixParts(hrp[i := c], i, values);
    WindowChanges(hrp, i, c, values);
    ThreeErrorsAreDetected(Ahead(hrp, i), Window(hrp, i), Window(hrp[i := c], i), Behind(hrp, i, values));
  }
}
