/** Published test vectors. They tie the alphabets, the constants and the expansion of the prefix to the formats. */
module FormatVectors {
  import opened Bech32s
  import Bech32Strings
  import Base58s
  import DigitStrings

  // ----- Bech32 -----

  lemma Next(c: bv32, v: seq<bv32>, i: nat, x: bv32, d: bv32)
    requires i < |v| && v[i] == x && Xor(TimesX(c), x) == d
    ensures Residue(c, v[i..]) == Residue(d, v[i + 1..])
  {
    hide Xor, TimesX, Residue;
    assert v[i..] == [x] + v[i + 1..];
    ResidueNext(c, x, v[i + 1..]);
  }

  lemma PrefixResidue(v: seq<bv32>)
    requires v == [3, 0, 1]
    ensures Residue(0x1, v) == 0x8c01
  {
    hide Residue;
    assert v[0..] == v && v[3..] == [];
    Next(0x1, v, 0, 3, 0x23);
    Next(0x23, v, 1, 0, 0x460);
    Next(0x460, v, 2, 1, 0x8c01);
    ResidueEmpty(0x8c01);
  }

  lemma ChecksumResidue(v: seq<bv32>)
    requires v == [10, 28, 25, 31, 20, 31]
    ensures Residue(0x8c01, v) == 0x1
  {
    hide Residue;
    assert v[0..] == v && v[6..] == [];
    Next(0x8c01, v, 0, 10, 0x11802a);
    Next(0x11802a, v, 1, 28, 0x230055c);
    Next(0x230055c, v, 2, 25, 0x3d6afc2b);
    Next(0x3d6afc2b, v, 3, 31, 0x2f84386);
    Next(0x2f84386, v, 4, 20, 0x24622766);
    Next(0x24622766, v, 5, 31, 0x1);
    ResidueEmpty(0x1);
  }

  lemma ChecksumResiduem(v: seq<bv32>)
    requires v == [31, 0, 9, 19, 17, 29]
    ensures Residue(0x8c01, v) == 0x2bc830a3
  {
    hide Residue;
    assert v[0..] == v && v[6..] == [];
    Next(0x8c01, v, 0, 31, 0x11803f);
    Next(0x11803f, v, 1, 0, 0x23007e0);
    Next(0x23007e0, v, 2, 9, 0x3d6aabbb);
    Next(0x3d6aabbb, v, 3, 19, 0x2f2b18a);
    Next(0x2f2b18a, v, 4, 17, 0x253c66e3);
    Next(0x253c66e3, v, 5, 29, 0x2bc830a3);
    ResidueEmpty(0x2bc830a3);
  }

  lemma Letter(n: nat, c: char)
    requires n < 32 && Bech32Strings.CHARSET[n] == c
    ensures (n as bv32) < 32 && Bech32Strings.CharOf(n as bv32) == c
  {
    Bech32Strings.AsBv(n);
  }

  lemma ChecksumChars(check: seq<bv32>)
    requires check == [10, 28, 25, 31, 20, 31]
    ensures Symbols(check) && Bech32Strings.Chars(check) == "2uel5l"
  {
    hide Bech32Strings.CharOf, Bech32Strings.Chars;
    Letter(10, '2');
    Letter(28, 'u');
    Letter(25, 'e');
    Letter(31, 'l');
    Letter(20, '5');
    Letter(31, 'l');
  }

  lemma ChecksumCharsm(check: seq<bv32>)
    requires check == [31, 0, 9, 19, 17, 29]
    ensures Symbols(check) && Bech32Strings.Chars(check) == "lqfn3a"
  {
    hide Bech32Strings.CharOf, Bech32Strings.Chars;
    Letter(31, 'l');
    Letter(0, 'q');
    Letter(9, 'f');
    Letter(19, 'n');
    Letter(17, '3');
    Letter(29, 'a');
  }

  lemma Expansion()
    ensures Bech32Strings.Uppers("a") + [0] + Bech32Strings.Lowers("a") == [3, 0, 1]
  {
    assert Bech32Strings.Uppers("a") == [3];
    assert Bech32Strings.Lowers("a") == [1];
  }

  lemma CheckedWord(encoding: Encoding, check: seq<bv32>, chars: string)
    requires Symbols(check) && |check| == CHECKSUM_SIZE && Residue(0x8c01, check) == EncodingConstant(encoding)
    requires Bech32Strings.Chars(check) == chars
    ensures Symbols([]) && Bech32Strings.Encoded(encoding, "a", []) == "a1" + chars
  {
    hide Residue, Checksum, Bech32Strings.Chars, Bech32Strings.Uppers, Bech32Strings.Lowers;
    var front: seq<bv32> := [3, 0, 1];
    Expansion();
    assert Bech32Strings.Prepared("a", []) == front;
    PrefixResidue(front);
    ResidueAppend(1, front, check);
    ChecksumUnique(encoding, front, check);
    assert [] + check == check;
  }

  /** A vector of BIP 173. */
  lemma Bech32Vector()
    ensures Symbols([]) && Bech32Strings.Encoded(Bech32, "a", []) == "a1" + "2uel5l"
  {
    hide Residue, Bech32Strings.Encoded, Bech32Strings.Chars;
    var check: seq<bv32> := [10, 28, 25, 31, 20, 31];
    ChecksumResidue(check);
    ChecksumChars(check);
    CheckedWord(Bech32, check, "2uel5l");
  }

  /** A vector of BIP 350. */
  lemma Bech32mVector()
    ensures Symbols([]) && Bech32Strings.Encoded(Bech32m, "a", []) == "a1" + "lqfn3a"
  {
    hide Residue, Bech32Strings.Encoded, Bech32Strings.Chars;
    var check: seq<bv32> := [31, 0, 9, 19, 17, 29];
    ChecksumResiduem(check);
    ChecksumCharsm(check);
    CheckedWord(Bech32m, check, "lqfn3a");
  }

  // ----- Base58 -----

  /** The digits from 1 to `k`. */
  ghost function UpTo(k: nat): (r: seq<nat>)
    ensures |r| == k
  {
    seq(k, i => i + 1)
  }

  lemma ThreeDigits(k: nat, n: nat)
    requires DigitStrings.Number(UpTo(k), 58) == n
    ensures DigitStrings.Number(UpTo(k + 3), 58) == ((n * 58 + k + 1) * 58 + k + 2) * 58 + k + 3
  {
    assert UpTo(k + 1)[..k] == UpTo(k) && UpTo(k + 2)[..k + 1] == UpTo(k + 1) && UpTo(k + 3)[..k + 2] == UpTo(k + 2);
    assert DigitStrings.Number(UpTo(k + 1), 58) == n * 58 + k + 1;
    assert DigitStrings.Number(UpTo(k + 2), 58) == (n * 58 + k + 1) * 58 + k + 2;
  }

  lemma ThreeBytes(s: seq<nat>, n: nat, x: nat, y: nat, z: nat)
    requires DigitStrings.Number(s, 256) == n
    ensures DigitStrings.Number(s + [x, y, z], 256) == ((n * 256 + x) * 256 + y) * 256 + z
  {
    var t := s + [x, y, z];
    assert t[..|s| + 1][..|s|] == s && t[..|s| + 2][..|s| + 1] == t[..|s| + 1] && t[..|s| + 3] == t;
    assert DigitStrings.Number(t[..|s| + 1], 256) == n * 256 + x;
    assert DigitStrings.Number(t[..|s| + 2], 256) == (n * 256 + x) * 256 + y;
  }

  lemma DigitsNumber()
    ensures DigitStrings.Number(UpTo(57), 58) == 584889621711786543479188656466418868554454211731455017244085522414579008191811299673190496036017573
  {
    hide DigitStrings.Number, UpTo;
    NoDigits();
    ThreeDigits(0, 0);
    ThreeDigits(3, 3483);
    ThreeDigits(6, 679588848);
    ThreeDigits(9, 132595939334997);
    ThreeDigits(12, 25871058915529968954);
    ThreeDigits(15, 5047754047126883302597407);
    ThreeDigits(18, 984877387643020454936385329412);
    ThreeDigits(21, 192161396857805007003548014392299241);
    ThreeDigits(24, 37492994463720050526476260184110289585358);
    ThreeDigits(27, 7315333135805346498321836077042126821578455731);
    ThreeDigits(30, 1427309278793252765980570080663843448411815654682776);
    ThreeDigits(33, 278485168003909133676000989578483822906526176016465897085);
    ThreeDigits(36, 54335798099578718889791905078637135654938135254924694112164962);
    ThreeDigits(39, 10601566238805003000025078183703048811906289445858866917612730192455);
    ThreeDigits(42, 2068492791985721745340893054578669259788659946360415242029255013310416940);
    ThreeDigits(45, 403587765629918141176952325664953316615885019454273338702812004157022070144529);
    ThreeDigits(48, 78744816127584588361317522165140371511558557915762179660983055755084890150039499766);
    ThreeDigits(51, 15364058564285284204353384384684868166363213352060190398013725974486123086954506878511579);
    ThreeDigits(54, 2997712194594830371679797534064633997675459283547167868937254102333936447741867746080151379904);
  }

  lemma NoDigits()
    ensures DigitStrings.Number(UpTo(0), 58) == 0 && DigitStrings.Number([], 256) == 0
  {
  }

  ghost function VectorBytes(): seq<nat> {
    [0x01, 0x11, 0xd3] + [0x8e, 0x5f, 0xc9] + [0x07, 0x1f, 0xfc] + [0xd2, 0x0b, 0x4a] + [0x76, 0x3c, 0xc9] +
    [0xae, 0x4f, 0x25] + [0x2b, 0xb4, 0xe4] + [0x8f, 0xd6, 0x6a] + [0x83, 0x5e, 0x25] + [0x2a, 0xda, 0x93] +
    [0xff, 0x48, 0x0d] + [0x6d, 0xd4, 0x3d] + [0xc6, 0x2a, 0x64] + [0x11, 0x55, 0xa5]
  }

  lemma BytesNumber()
    ensures DigitStrings.Number(VectorBytes(), 256) == 584889621711786543479188656466418868554454211731455017244085522414579008191811299673190496036017573
  {
    hide DigitStrings.Number;
    NoDigits();
    var s: seq<nat> := [];
    ThreeBytes(s, 0, 0x01, 0x11, 0xd3);
    s := s + [0x01, 0x11, 0xd3];
    ThreeBytes(s, 70099, 0x8e, 0x5f, 0xc9);
    s := s + [0x8e, 0x5f, 0xc9];
    ThreeBytes(s, 1176075395017, 0x07, 0x1f, 0xfc);
    s := s + [0x07, 0x1f, 0xfc];
    ThreeBytes(s, 19731270934485999612, 0xd2, 0x0b, 0x4a);
    s := s + [0xd2, 0x0b, 0x4a];
    ThreeBytes(s, 331035794422393464480205642, 0x76, 0x3c, 0xc9);
    s := s + [0x76, 0x3c, 0xc9];
    ThreeBytes(s, 5553859026756090390572737788001481, 0xae, 0x4f, 0x25);
    s := s + [0xae, 0x4f, 0x25];
    ThreeBytes(s, 93178292525436707798163185580663066480421, 0x2b, 0xb4, 0xe4);
    s := s + [0x2b, 0xb4, 0xe4];
    ThreeBytes(s, 1563272340210437141058668167734869689564385752292, 0x8f, 0xd6, 0x6a);
    s := s + [0x8f, 0xd6, 0x6a];
    ThreeBytes(s, 26227357718535989369963744522412139513674645673534805610, 0x83, 0x5e, 0x25);
    s := s + [0x83, 0x5e, 0x25];
    ThreeBytes(s, 440022045553145497433585654021325305643054484188358917245591077, 0x2a, 0xda, 0x93);
    s := s + [0x2a, 0xda, 0x93];
    ThreeBytes(s, 7382344903006961489870712172017043259039543980996682240155406549310099, 0xff, 0x48, 0x0d);
    s := s + [0xff, 0x48, 0x0d];
    ThreeBytes(s, 123855195024246842419242750183759090438250381910681233226451129245590198634509, 0x6d, 0xd4, 0x3d);
    s := s + [0x6d, 0xd4, 0x3d];
    ThreeBytes(s, 2077945359643914512585598176266965952246061319397991756986547508797183809974069744701, 0xc6, 0x2a, 0x64);
    s := s + [0xc6, 0x2a, 0x64];
    ThreeBytes(s, 34862138134943636863183299092436961445477855904785097673182816649352252971637922505926519396, 0x11, 0x55, 0xa5);
    s := s + [0x11, 0x55, 0xa5];
    assert s == VectorBytes();
  }

  lemma Run(k: nat, text: string)
    requires k + |text| <= 57 && forall i :: 0 <= i < |text| ==> Base58s.CharOf(k + 1 + i) == text[i]
    ensures DigitStrings.IsDigits(UpTo(57), 58) && Base58s.Chars(UpTo(57))[k..k + |text|] == text
  {
  }

  lemma AlphabetChars()
    ensures DigitStrings.IsDigits(UpTo(57), 58)
    ensures Base58s.Chars(UpTo(57)) == "23456789" + "ABCDEFGH" + "JKLMN" + "PQRSTUVWXYZ" + "abcdefghijk" + "mnopqrstuvwxyz"
  {
    hide UpTo, Base58s.Chars;
    Run(0, "23456789");
    Run(8, "ABCDEFGH");
    Run(16, "JKLMN");
    Run(21, "PQRSTUVWXYZ");
    Run(32, "abcdefghijk");
    Run(43, "mnopqrstuvwxyz");
    var chars := Base58s.Chars(UpTo(57));
    assert chars == chars[0..8] + chars[8..16] + chars[16..21] + chars[21..32] + chars[32..43] + chars[43..57];
  }

  /** The vector whose encoding is the alphabet. */
  lemma Base58Vector()
    ensures Base58s.Encoded([0] + VectorBytes()) == "1" + ("23456789" + "ABCDEFGH" + "JKLMN" + "PQRSTUVWXYZ" + "abcdefghijk" + "mnopqrstuvwxyz")
  {
    hide DigitStrings.Number, DigitStrings.DigitsOf, Base58s.Chars, Base58s.LeadingZeroes;
    var bytes := VectorBytes();
    BytesNumber();
    DigitsNumber();
    AlphabetChars();
    DigitStrings.LeadingZeros(1, bytes, 256);
    assert seq(1, i => 0) == [0];
    DigitStrings.DigitsOfNumber(UpTo(57), 58);
    FirstByte();
    var input := [0] + bytes;
    assert input[0] == 0 && input[1] == 1;
    assert Base58s.LeadingZeroes(input) == 1;
    assert seq(1, i => '1') == "1";
  }

  lemma FirstByte()
    ensures |VectorBytes()| == 42 && VectorBytes()[0] == 1
  {
  }
}
