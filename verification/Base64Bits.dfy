/** Base64 as section 4 of RFC 4648 tells it: one string of bits, cut in sixes. */
module Base64Bits {
  import opened Common
  import opened Division
  import opened Base64

  type Bits = seq<nat>

  /** The bits of a number, the highest first. */
  function SixBits(v: nat): Bits {
    [v / 32 % 2, v / 16 % 2, v / 8 % 2, v / 4 % 2, v / 2 % 2, v % 2]
  }

  function EightBits(v: nat): Bits {
    [v / 128 % 2, v / 64 % 2] + SixBits(v)
  }

  function BitsOfSextets(sextets: seq<nat>): (bits: Bits)
    ensures |bits| == 6 * |sextets|
  {
    if sextets == [] then [] else SixBits(sextets[0]) + BitsOfSextets(sextets[1..])
  }

  function BitsOfBytes(bytes: seq<Byte>): (bits: Bits)
    ensures |bits| == 8 * |bytes|
  {
    if bytes == [] then [] else EightBits(bytes[0]) + BitsOfBytes(bytes[1..])
  }

  predicate AllSmall(sextets: seq<nat>) {
    forall i :: 0 <= i < |sextets| ==> sextets[i] < 64
  }

  function Zeros(n: nat): Bits {
    seq(n, _ => 0)
  }

  // ---------------------------------------------------------------------
  // One group
  // ---------------------------------------------------------------------

  lemma FirstSix(a: Byte)
    ensures SixBits(a / 4) == EightBits(a)[..6]
  {
    hide SixBits, EightBits;
    QuarterBits(a);
    SixAre(a / 4);
    EightAre(a);
  }

  lemma SixAre(v: nat)
    ensures SixBits(v) == [v / 32 % 2, v / 16 % 2, v / 8 % 2, v / 4 % 2, v / 2 % 2, v % 2]
  {
  }

  lemma EightAre(v: nat)
    ensures EightBits(v) ==
            [v / 128 % 2, v / 64 % 2, v / 32 % 2, v / 16 % 2, v / 8 % 2, v / 4 % 2, v / 2 % 2, v % 2]
  {
  }

  lemma QuarterBits(a: nat)
    ensures a / 4 / 32 == a / 128 && a / 4 / 16 == a / 64 && a / 4 / 8 == a / 32
    ensures a / 4 / 4 == a / 16 && a / 4 / 2 == a / 8
  {
    HalveThenDivide(a, 2);
    HalveThenDivide(a / 2, 32);
    HalveThenDivide(a, 64);
    HalveThenDivide(a / 2, 16);
    HalveThenDivide(a, 32);
    HalveThenDivide(a / 2, 8);
    HalveThenDivide(a, 16);
    HalveThenDivide(a / 2, 4);
    HalveThenDivide(a, 8);
    HalveThenDivide(a / 2, 2);
    HalveThenDivide(a, 4);
  }

  /** An even number of times the place value does not change the bit at that place. */
  lemma SameBit(n: nat, k: nat, q: nat, r: nat)
    requires k >= 1 && n == q * (2 * k) + r
    ensures n / k % 2 == r / k % 2
  {
    var b := r / k;
    assert n == (2 * q + b) * k + r % k by {
      assert q * (2 * k) == 2 * q * k;
    }
    QuotientIs(n, k, 2 * q + b, r % k);
  }

  lemma LastSix(c: Byte)
    ensures SixBits(c % 64) == EightBits(c)[2..]
  {
    var q, r := c / 64, c % 64;
    SameBit(c, 32, q, r);
    SameBit(c, 16, 2 * q, r);
    SameBit(c, 8, 4 * q, r);
    SameBit(c, 4, 8 * q, r);
    SameBit(c, 2, 16 * q, r);
    SameBit(c, 1, 32 * q, r);
  }

  /** Two bits and four bits side by side. */
  lemma TwoAndFour(x: nat, y: nat)
    requires x < 4 && y < 16
    ensures SixBits(x * 16 + y) == [x / 2, x % 2, y / 8, y / 4 % 2, y / 2 % 2, y % 2]
  {
    var n := x * 16 + y;
    QuotientIs(n, 32, x / 2, x % 2 * 16 + y);
    QuotientIs(n, 16, x, y);
    SameBit(n, 8, x, y);
    SameBit(n, 4, 2 * x, y);
    SameBit(n, 2, 4 * x, y);
    SameBit(n, 1, 8 * x, y);
    assert x / 2 < 2 && y / 8 < 2;
  }

  lemma FourAndTwo(x: nat, y: nat)
    requires x < 16 && y < 4
    ensures SixBits(x * 4 + y) == [x / 8, x / 4 % 2, x / 2 % 2, x % 2, y / 2, y % 2]
  {
    var n := x * 4 + y;
    QuotientIs(n, 32, x / 8, x % 8 * 4 + y);
    QuotientIs(n, 16, x / 4, x % 4 * 4 + y);
    QuotientIs(n, 8, x / 2, x % 2 * 4 + y);
    QuotientIs(n, 4, x, y);
    SameBit(n, 2, x, y);
    SameBit(n, 1, 2 * x, y);
    assert x / 8 < 2 && y / 2 < 2;
  }

  lemma HalvesOf(a: Byte)
    ensures var e := EightBits(a);
            && a % 4 / 2 == e[6] && a % 4 % 2 == e[7]
            && a / 16 / 8 == e[0] && a / 16 / 4 % 2 == e[1] && a / 16 / 2 % 2 == e[2] && a / 16 % 2 == e[3]
            && a % 16 / 8 == e[4] && a % 16 / 4 % 2 == e[5] && a % 16 / 2 % 2 == e[6] && a % 16 % 2 == e[7]
            && a / 64 / 2 == e[0] && a / 64 % 2 == e[1]
  {
    LowTwo(a);
    LowFour(a);
    QuotientOfQuotient(a);
  }

  lemma LowTwo(a: Byte)
    ensures a % 4 / 2 == a / 2 % 2 && a % 4 % 2 == a % 2
  {
    var q, r := a / 4, a % 4;
    SameBit(a, 2, q, r);
    SameBit(a, 1, 2 * q, r);
    assert r / 2 < 2;
  }

  lemma LowFour(a: Byte)
    ensures a % 16 / 8 == a / 8 % 2 && a % 16 / 4 % 2 == a / 4 % 2 && a % 16 / 2 % 2 == a / 2 % 2 && a % 16 % 2 == a % 2
  {
    var q, r := a / 16, a % 16;
    SameBit(a, 8, q, r);
    SameBit(a, 4, 2 * q, r);
    SameBit(a, 2, 4 * q, r);
    SameBit(a, 1, 8 * q, r);
    assert r / 8 < 2;
  }

  lemma QuotientOfQuotient(a: Byte)
    ensures a / 16 / 8 == a / 128 && a / 16 / 4 == a / 64 && a / 16 / 2 == a / 32 && a / 64 / 2 == a / 128
    ensures a / 128 < 2
  {
  }

  /** Three bytes and their four sextets are the same bits. */
  lemma GroupBits(a: Byte, b: Byte, c: Byte)
    ensures BitsOfSextets(Four(a, b, c)) == EightBits(a) + EightBits(b) + EightBits(c)
  {
    hide SixBits, EightBits;
    var s := Four(a, b, c);
    assert s[1..][1..] == s[2..] && s[2..][1..] == s[3..] && s[3..][1..] == [];
    assert BitsOfSextets(s) == SixBits(s[0]) + (SixBits(s[1]) + (SixBits(s[2]) + (SixBits(s[3]) + []))) by {
      FourSextets(s);
    }
    FirstSix(a);
    LastSix(c);
    TwoAndFour(a % 4, b / 16);
    FourAndTwo(b % 16, c / 64);
    HalvesOf(a);
    HalvesOf(b);
    HalvesOf(c);
    assert |EightBits(a)| == 8 && |EightBits(b)| == 8 && |EightBits(c)| == 8 by {
      Widths(a, 0);
      Widths(b, 0);
      Widths(c, 0);
    }
    assert SixBits(s[1]) == EightBits(a)[6..] + EightBits(b)[..4];
    assert SixBits(s[2]) == EightBits(b)[4..] + EightBits(c)[..2];
    assert EightBits(a) == EightBits(a)[..6] + EightBits(a)[6..];
    assert EightBits(b) == EightBits(b)[..4] + EightBits(b)[4..];
    assert EightBits(c) == EightBits(c)[..2] + EightBits(c)[2..];
  }

  lemma FourSextets(s: seq<nat>)
    requires |s| == 4
    ensures BitsOfSextets(s) == SixBits(s[0]) + (SixBits(s[1]) + (SixBits(s[2]) + (SixBits(s[3]) + [])))
  {
    hide SixBits;
    assert BitsOfSextets(s[3..]) == SixBits(s[3]) + [];
    assert s[2..][1..] == s[3..] && s[1..][1..] == s[2..];
    assert BitsOfSextets(s[2..]) == SixBits(s[2]) + BitsOfSextets(s[3..]);
    assert BitsOfSextets(s[1..]) == SixBits(s[1]) + BitsOfSextets(s[2..]);
  }

  lemma Widths(a: nat, b: nat)
    ensures |EightBits(a)| == 8 && |SixBits(b)| == 6
  {
  }

  // ---------------------------------------------------------------------
  // Encoding
  // ---------------------------------------------------------------------

  lemma {:induction false} SextetBitsConcat(x: seq<nat>, y: seq<nat>)
    ensures BitsOfSextets(x + y) == BitsOfSextets(x) + BitsOfSextets(y)
  {
    hide SixBits;
    if x == [] {
      assert x + y == y;
    } else {
      assert (x + y)[1..] == x[1..] + y;
      SextetBitsConcat(x[1..], y);
    }
  }

  lemma OneByte(bytes: seq<Byte>)
    requires |bytes| >= 1
    ensures BitsOfBytes(bytes) == EightBits(bytes[0]) + BitsOfBytes(bytes[1..])
  {
  }

  lemma Concat(a: Bits, b: Bits, c: Bits, d: Bits)
    ensures a + (b + (c + d)) == a + b + c + d
  {
  }

  lemma ThreeBytes(bytes: seq<Byte>)
    requires |bytes| >= 3
    ensures BitsOfBytes(bytes) == EightBits(bytes[0]) + EightBits(bytes[1]) + EightBits(bytes[2]) + BitsOfBytes(bytes[3..])
  {
    hide EightBits, BitsOfBytes;
    assert bytes[1..][1..] == bytes[2..] && bytes[2..][1..] == bytes[3..];
    OneByte(bytes);
    OneByte(bytes[1..]);
    OneByte(bytes[2..]);
    Concat(EightBits(bytes[0]), EightBits(bytes[1]), EightBits(bytes[2]), BitsOfBytes(bytes[3..]));
  }

  /** A cut in the sextets is a cut in their bits. */
  lemma FirstSextets(s: seq<nat>, n: nat)
    requires n <= |s|
    ensures BitsOfSextets(s[..n]) == BitsOfSextets(s)[..6 * n]
  {
    assert s == s[..n] + s[n..];
    SextetBitsConcat(s[..n], s[n..]);
  }

  lemma NoBits()
    ensures EightBits(0) == Zeros(8)
  {
  }

  /** The bits of the sextets are those of the bytes, filled up with zeros. */
  lemma {:induction false} SextetsAreBits(bytes: seq<Byte>)
    ensures 0 <= 6 * |Sextets(bytes)| - 8 * |bytes| < 6
    ensures BitsOfSextets(Sextets(bytes)) == BitsOfBytes(bytes) + Zeros(6 * |Sextets(bytes)| - 8 * |bytes|)
  {
    hide Four, EightBits, SixBits;
    if 1 <= |bytes| <= 2 {
      var n, b := |bytes|, if |bytes| == 2 then bytes[1] else 0;
      var four := Four(bytes[0], b, 0);
      assert Sextets(bytes) == four[..n + 1];
      GroupBits(bytes[0], b, 0);
      FirstSextets(four, n + 1);
      NoBits();
      Widths(bytes[0], 0);
      Widths(b, 0);
      assert BitsOfBytes(bytes) == if n == 1 then EightBits(bytes[0]) else EightBits(bytes[0]) + EightBits(b) by {
        FewBytes(bytes);
      }
    } else if |bytes| >= 3 {
      var rest := bytes[3..];
      SextetsAreBits(rest);
      GroupBits(bytes[0], bytes[1], bytes[2]);
      ThreeBytes(bytes);
      SextetBitsConcat(Four(bytes[0], bytes[1], bytes[2]), Sextets(rest));
    }
  }

  lemma FewBytes(bytes: seq<Byte>)
    requires 1 <= |bytes| <= 2
    ensures BitsOfBytes(bytes) == if |bytes| == 1 then EightBits(bytes[0]) else EightBits(bytes[0]) + EightBits(bytes[1])
  {
    hide EightBits;
    assert BitsOfBytes(bytes[1..]) == if |bytes| == 1 then [] else EightBits(bytes[1]) + BitsOfBytes(bytes[1..][1..]);
  }

  /** An encoded text is the bits of the bytes in sixes, each as its character, and
      then the padding that makes groups of four. */
  lemma EncodeMeans(bytes: seq<Byte>, chars: string, padding: bool)
    requires IsAlphabet(chars)
    ensures var text, n := Encode(bytes, chars, padding), (4 * |bytes| + 2) / 3;
            && n <= |text|
            && BitsOfSextets(Indices(chars, text[..n])) == BitsOfBytes(bytes) + Zeros(6 * n - 8 * |bytes|)
            && (forall i :: 0 <= i < n ==> text[i] in chars)
            && (forall i :: n <= i < |text| ==> text[i] == '=')
            && (if padding then |text| % 4 == 0 && |text| < n + 4 else |text| == n)
  {
    hide Sextets, BitsOfSextets, BitsOfBytes, Index, Padding, IsAlphabet;
    SextetsSmall(bytes);
    SextetsAreBits(bytes);
    AlphabetSize(chars);
    EncodedLength(bytes, chars);
    var sextets := Sextets(bytes);
    var symbols, text := Symbols(chars, sextets), Encode(bytes, chars, padding);
    SymbolIndices(chars, sextets);
    assert text[..|symbols|] == symbols;
    PaddingMeans(|bytes|);
    forall i | |symbols| <= i < |text| ensures text[i] == '=' {
      assert text[i] == Padding(|bytes|)[i - |symbols|];
    }
  }

  lemma SymbolIndices(chars: string, sextets: seq<nat>)
    requires IsAlphabet(chars) && AllSmall(sextets)
    ensures Indices(chars, Symbols(chars, sextets)) == sextets
    ensures |chars| == 64 && forall i :: 0 <= i < |sextets| ==> Symbols(chars, sextets)[i] in chars
  {
    var symbols := Symbols(chars, sextets);
    forall i | 0 <= i < |symbols| ensures Index(chars, symbols[i]) == sextets[i] {
      IndexOfSymbol(chars, sextets[i]);
    }
    assert Indices(chars, symbols) == sextets;
  }

  lemma PaddingMeans(n: nat)
    ensures |Padding(n)| < 4 && forall i :: 0 <= i < |Padding(n)| ==> Padding(n)[i] == '='
    ensures (n + 2) / 3 * 4 % 4 == 0
  {
    var k := (n + 2) / 3;
    QuotientIs(k * 4, 4, k, 0);
  }

  lemma AlphabetSize(chars: string)
    requires IsAlphabet(chars)
    ensures |chars| == 64
  {
  }

  // ---------------------------------------------------------------------
  // Decoding
  // ---------------------------------------------------------------------

  /** Four sextets and their three bytes are the same bits. */
  lemma UngroupBits(w: nat, x: nat, y: nat, z: nat)
    requires w < 64 && x < 64 && y < 64 && z < 64
    ensures var t := Three(w, x, y, z);
            EightBits(t[0]) + EightBits(t[1]) + EightBits(t[2]) == BitsOfSextets([w, x, y, z])
  {
    hide SixBits, EightBits, BitsOfSextets;
    var t := Three(w, x, y, z);
    FourOfThree(w, x, y, z);
    GroupBits(t[0], t[1], t[2]);
  }

  lemma FourOfThree(w: nat, x: nat, y: nat, z: nat)
    requires w < 64 && x < 64 && y < 64 && z < 64
    ensures var t := Three(w, x, y, z); Four(t[0], t[1], t[2]) == [w, x, y, z]
  {
    hide First, Second, Third;
    BytesOf(w, x, y, z);
    QuotientIs(w * 4 + x / 16, 4, w, x / 16);
    QuotientIs(x % 16 * 16 + y / 4, 16, x % 16, y / 4);
    QuotientIs(y % 4 * 64 + z, 64, y % 4, z);
    assert x / 16 * 16 + x % 16 == x && y / 4 * 4 + y % 4 == y;
  }

  lemma BytesOf(w: nat, x: nat, y: nat, z: nat)
    requires w < 64 && x < 64 && y < 64 && z < 64
    ensures x / 16 < 4 && y / 4 < 16
    ensures First(w, x) == w * 4 + x / 16 && Second(x, y) == x % 16 * 16 + y / 4 && Third(y, z) == y % 4 * 64 + z
  {
    SmallRemainder(x / 16, 4);
    SmallRemainder(y / 4, 16);
    SmallRemainder(w * 4 + x / 16, 256);
    SmallRemainder(x % 16 * 16 + y / 4, 256);
    SmallRemainder(y % 4 * 64 + z, 256);
  }

  lemma FirstBytes(b: seq<Byte>, n: nat)
    requires n <= |b| <= 3 && |b| == 3
    ensures BitsOfBytes(b[..n]) == (EightBits(b[0]) + EightBits(b[1]) + EightBits(b[2]))[..8 * n]
  {
    hide EightBits;
    Widths(b[0], 0);
    Widths(b[1], 0);
    Widths(b[2], 0);
    if n == 3 {
      ThreeBytes(b);
      assert b[..3] == b && b[3..] == [];
    } else if n >= 1 {
      FewBytes(b[..n]);
    }
  }

  /** The bits of the bytes are those of the sextets, cut off at a whole byte. */
  lemma {:induction false} OctetsAreBits(sextets: seq<nat>)
    requires AllSmall(sextets)
    ensures |Octets(sextets)| == 6 * |sextets| / 8
    ensures BitsOfBytes(Octets(sextets)) == BitsOfSextets(sextets)[..8 * (6 * |sextets| / 8)]
  {
    hide Three, EightBits, SixBits;
    if 2 <= |sextets| <= 3 {
      var n := |sextets|;
      var full := sextets + (if n == 2 then [0, 0] else [0]);
      var three := Three(full[0], full[1], full[2], full[3]);
      assert full == [full[0], full[1], full[2], full[3]] && full[..n] == sextets;
      assert Octets(sextets) == three[..n - 1];
      UngroupBits(full[0], full[1], full[2], full[3]);
      FirstSextets(full, n);
      FirstBytes(three, n - 1);
    } else if |sextets| >= 4 {
      var rest := sextets[4..];
      var head := [sextets[0], sextets[1], sextets[2], sextets[3]];
      assert sextets == head + rest;
      OctetsAreBits(rest);
      UngroupBits(sextets[0], sextets[1], sextets[2], sextets[3]);
      SextetBitsConcat(head, rest);
      var octets := Octets(sextets);
      assert octets == Three(sextets[0], sextets[1], sextets[2], sextets[3]) + Octets(rest);
      assert octets[3..] == Octets(rest);
      ThreeBytes(octets);
    }
  }

  /** No padding character up to this place. */
  predicate Unpadded(s: string, i: nat)
    requires i < |s|
  {
    forall j :: 0 <= j <= i ==> s[j] != '='
  }

  /** A text decodes exactly when all before its first padding character is in the
      alphabet, and then to the bits of those characters, cut off at a whole byte. */
  lemma DecodeMeans(s: string, chars: string)
    requires IsAlphabet(chars)
    ensures Decode(s, chars).Ok? <==> forall i :: 0 <= i < |s| && Unpadded(s, i) ==> s[i] in chars
    ensures Decode(s, chars).Ok? ==>
              var body := Body(s);
              && |Decode(s, chars).value| == 6 * |body| / 8
              && BitsOfBytes(Decode(s, chars).value) == BitsOfSextets(Indices(chars, body))[..8 * (6 * |body| / 8)]
  {
    hide Octets, BitsOfSextets, BitsOfBytes;
    var body := Body(s);
    forall c ensures IsBase64(chars, c) <==> c in chars {
      AcceptedMeans(chars, c);
    }
    forall i | 0 <= i < |s| ensures i < |body| <==> Unpadded(s, i) {
      if i >= |body| {
        assert s[|body|] == '=';
      }
    }
    if Decode(s, chars).Ok? {
      forall i | 0 <= i < |body| ensures Indices(chars, body)[i] < 64 {
        assert body[i] in chars;
      }
      OctetsAreBits(Indices(chars, body));
    }
  }

  lemma AcceptedMeans(chars: string, c: char)
    requires IsAlphabet(chars)
    ensures IsBase64(chars, c) <==> c in chars
  {
    if c in chars {
      var i :| 0 <= i < 64 && chars[i] == c;
      assert i < 62 ==> IsAlnum(chars[i]);
    }
  }

  /** The two alphabets, character by character. */
  lemma AlphabetTable(i: nat)
    requires i < 64
    ensures |STANDARD_CHARS| == 64 == |URL_SAFE_CHARS|
    ensures i < 26 ==> STANDARD_CHARS[i] as int == 65 + i
    ensures 26 <= i < 52 ==> STANDARD_CHARS[i] as int == 97 + (i - 26)
    ensures 52 <= i < 62 ==> STANDARD_CHARS[i] as int == 48 + (i - 52)
    ensures i < 62 ==> URL_SAFE_CHARS[i] == STANDARD_CHARS[i]
    ensures STANDARD_CHARS[62] == '+' && STANDARD_CHARS[63] == '/'
    ensures URL_SAFE_CHARS[62] == '-' && URL_SAFE_CHARS[63] == '_'
  {
    LettersAndDigits();
  }
}
