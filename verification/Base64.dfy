/** Base64 with the standard and the URL-safe alphabet (sections 4 and 5 of RFC 4648). */
module Base64 {
  import opened Common

  type Byte = x: nat | x < 256

  const UPPER_CASE: string := "ABCDEFGHIJKLMNOPQRSTUVWXYZ"
  const LOWER_CASE: string := "abcdefghijklmnopqrstuvwxyz"
  const LETTERS_AND_DIGITS: string := UPPER_CASE + LOWER_CASE + "0123456789"
  const STANDARD_CHARS: string := LETTERS_AND_DIGITS + "+/"
  const URL_SAFE_CHARS: string := LETTERS_AND_DIGITS + "-_"

  /** `chars.find(c)` cast to an unsigned character: a missing character gives 255. */
  function IndexFrom(chars: string, c: char, from: nat): (i: nat)
    requires from <= |chars|
    ensures (from <= i < |chars| && chars[i] == c && (forall k :: from <= k < i ==> chars[k] != c))
            || (i == 255 && forall k :: from <= k < |chars| ==> chars[k] != c)
    decreases |chars| - from
  {
    if from == |chars| then 255 else if chars[from] == c then from else IndexFrom(chars, c, from + 1)
  }

  function Index(chars: string, c: char): nat {
    IndexFrom(chars, c, 0)
  }

  /** What the code relies on: 64 distinct characters, the alphanumeric ones all
      among the first 62, and no padding character. */
  ghost predicate IsAlphabet(chars: string) {
    && |chars| == 64
    && (forall i, j :: 0 <= i < j < 64 ==> chars[i] != chars[j])
    && (forall i :: 0 <= i < 62 ==> IsAlnum(chars[i]))
    && (forall c :: IsAlnum(c) ==> c in chars)
    && '=' !in chars
  }

  predicate IsBase64(chars: string, c: char)
    requires |chars| == 64
  {
    IsAlnum(c) || c == chars[62] || c == chars[63]
  }

  // ---------------------------------------------------------------------
  // Specification: groups of three bytes and of four sextets
  // ---------------------------------------------------------------------

  function Four(a: Byte, b: Byte, c: Byte): (s: seq<nat>)
    ensures |s| == 4 && forall i :: 0 <= i < 4 ==> s[i] < 64
  {
    [a / 4, a % 4 * 16 + b / 16, b % 16 * 4 + c / 64, c % 64]
  }

  function First(w: nat, x: nat): Byte {
    (w * 4 + x / 16 % 4) % 256
  }

  function Second(x: nat, y: nat): Byte {
    (x % 16 * 16 + y / 4 % 16) % 256
  }

  function Third(y: nat, z: nat): Byte {
    (y % 4 * 64 + z) % 256
  }

  function Three(w: nat, x: nat, y: nat, z: nat): (s: seq<Byte>)
    ensures |s| == 3
  {
    [First(w, x), Second(x, y), Third(y, z)]
  }

  function Sextets(bytes: seq<Byte>): seq<nat> {
    if |bytes| == 0 then []
    else if |bytes| == 1 then Four(bytes[0], 0, 0)[..2]
    else if |bytes| == 2 then Four(bytes[0], bytes[1], 0)[..3]
    else Four(bytes[0], bytes[1], bytes[2]) + Sextets(bytes[3..])
  }

  function Octets(sextets: seq<nat>): seq<Byte> {
    if |sextets| < 2 then []
    else if |sextets| == 2 then Three(sextets[0], sextets[1], 0, 0)[..1]
    else if |sextets| == 3 then Three(sextets[0], sextets[1], sextets[2], 0)[..2]
    else Three(sextets[0], sextets[1], sextets[2], sextets[3]) + Octets(sextets[4..])
  }

  function Symbols(chars: string, sextets: seq<nat>): string
    requires |chars| == 64 && forall i :: 0 <= i < |sextets| ==> sextets[i] < 64
  {
    seq(|sextets|, i requires 0 <= i < |sextets| => chars[sextets[i]])
  }

  function Padding(n: nat): string {
    if n % 3 == 0 then "" else if n % 3 == 1 then "==" else "="
  }

  lemma {:induction false} SextetsSmall(bytes: seq<Byte>)
    ensures forall i :: 0 <= i < |Sextets(bytes)| ==> Sextets(bytes)[i] < 64
    ensures |Sextets(bytes)| == (4 * |bytes| + 2) / 3
  {
    if |bytes| >= 3 {
      SextetsSmall(bytes[3..]);
    }
  }

  function Encode(bytes: seq<Byte>, chars: string, padding: bool): string
    requires |chars| == 64
  {
    SextetsSmall(bytes);
    Symbols(chars, Sextets(bytes)) + if padding then Padding(|bytes|) else ""
  }

  /** The part before the first padding character. */
  function Body(s: string): (b: string)
    ensures b <= s && '=' !in b && (|b| < |s| ==> s[|b|] == '=')
  {
    if s == "" || s[0] == '=' then "" else [s[0]] + Body(s[1..])
  }

  function Indices(chars: string, body: string): seq<nat> {
    seq(|body|, i requires 0 <= i < |body| => Index(chars, body[i]))
  }

  function Decode(s: string, chars: string): Try<seq<Byte>>
    requires |chars| == 64
  {
    var body := Body(s);
    if exists i :: 0 <= i < |body| && !IsBase64(chars, body[i]) then Error
    else Ok(Octets(Indices(chars, body)))
  }

  // ---------------------------------------------------------------------
  // The loops
  // ---------------------------------------------------------------------

  lemma SextetsCons(bytes: seq<Byte>)
    requires |bytes| >= 3
    ensures Sextets(bytes) == Four(bytes[0], bytes[1], bytes[2]) + Sextets(bytes[3..])
  {
  }

  lemma {:induction false} SextetsSplit(bytes: seq<Byte>, n: nat)
    requires n % 3 == 0 && n <= |bytes|
    ensures Sextets(bytes) == Sextets(bytes[..n]) + Sextets(bytes[n..])
  {
    hide Four;
    if n == 0 {
      assert bytes[0..] == bytes;
    } else {
      hide Sextets;
      var rest := bytes[3..];
      SextetsSplit(rest, n - 3);
      SextetsCons(bytes);
      SextetsCons(bytes[..n]);
      assert bytes[..n][3..] == rest[..n - 3] && rest[n - 3..] == bytes[n..];
    }
  }

  lemma OctetsCons(x: seq<nat>)
    requires |x| >= 4
    ensures Octets(x) == Three(x[0], x[1], x[2], x[3]) + Octets(x[4..])
  {
  }

  lemma {:induction false} OctetsSplit(x: seq<nat>, n: nat)
    requires n % 4 == 0 && n <= |x|
    ensures Octets(x) == Octets(x[..n]) + Octets(x[n..])
  {
    hide Three;
    if n == 0 {
      assert x[0..] == x;
    } else {
      hide Octets;
      var rest := x[4..];
      OctetsSplit(rest, n - 4);
      OctetsCons(x);
      OctetsCons(x[..n]);
      assert x[..n][4..] == rest[..n - 4] && rest[n - 4..] == x[n..];
    }
  }

  /** Three buffered bytes regrouped into four sextets. */
  method Regroup(triple: array<Byte>, quad: array<nat>)
    requires triple.Length == 3 && quad.Length == 4
    modifies quad
    ensures quad[..] == Four(triple[0], triple[1], triple[2])
  {
    quad[0] := triple[0] / 4;
    quad[1] := triple[0] % 4 * 16 + triple[1] / 16;
    quad[2] := triple[1] % 16 * 4 + triple[2] / 64;
    quad[3] := triple[2] % 64;
  }

  method Emit(chars: string, quad: array<nat>, n: nat) returns (text: string)
    requires |chars| == 64 && n <= quad.Length && forall i :: 0 <= i < n ==> quad[i] < 64
    ensures text == Symbols(chars, quad[..n])
  {
    text := "";
    for i := 0 to n
      invariant text == Symbols(chars, quad[..i])
    {
      text := text + [chars[quad[i]]];
    }
  }

  /** The characters of `n` buffered bytes, the missing ones taken as zero. */
  method EncodeGroup(chars: string, triple: array<Byte>, quad: array<nat>, n: nat) returns (text: string)
    requires |chars| == 64 && triple.Length == 3 && quad.Length == 4 && 1 <= n <= 3
    modifies triple, quad
    ensures var group := old(triple[..n]); SextetsOk(group) && text == Symbols(chars, Sextets(group))
  {
    hide Sextets, Four, Symbols;
    ghost var group := triple[..n];
    assert triple[0] == group[0] && (n >= 2 ==> triple[1] == group[1]) && (n == 3 ==> triple[2] == group[2]);
    var i := n;
    while i < 3
      invariant n <= i <= 3
      invariant triple[0] == group[0] && (n >= 2 ==> triple[1] == group[1]) && (n == 3 ==> triple[2] == group[2])
      invariant forall t :: n <= t < i ==> triple[t] == 0
    {
      triple[i] := 0;
      i := i + 1;
    }
    Regroup(triple, quad);
    GroupSextets(group, triple[0], triple[1], triple[2]);
    assert quad[..n + 1] == Sextets(group);
    text := Emit(chars, quad, n + 1);
  }

  method Pad(text: string, n: nat) returns (padded: string)
    requires 1 <= n <= 3
    ensures padded == text + seq(3 - n, _ => '=')
  {
    padded := text;
    var i := n;
    while i < 3
      invariant n <= i <= 3
      invariant padded == text + seq(i - n, _ => '=')
    {
      padded := padded + "=";
      i := i + 1;
    }
  }

  method EncodeLoop(s: seq<Byte>, chars: string, padding: bool) returns (result: string)
    requires |chars| == 64
    ensures result == Encode(s, chars, padding)
  {
    hide Sextets, Symbols;
    result := "";
    var i := 0;
    var triple := new Byte[3](_ => 0);
    var quad := new nat[4](_ => 0);
    var k := 0;
    ghost var m := 0;
    NoSymbols(chars);
    assert s[..0] == [];
    while k < |s|
      invariant k <= |s| && 0 <= i < 3 && k == m + i && m % 3 == 0
      invariant triple[..i] == s[m..k]
      invariant SextetsOk(s[..m]) && result == Symbols(chars, Sextets(s[..m]))
    {
      triple[i] := s[k];
      assert triple[..i + 1] == s[m..k + 1] by {
        assert triple[..i] == s[m..k] && s[m..k + 1] == s[m..k] + [s[k]];
      }
      i := i + 1;
      k := k + 1;
      if i == 3 {
        var text := EncodeGroup(chars, triple, quad, 3);
        AppendGroup(chars, s, m, k);
        result := result + text;
        i := 0;
        m := k;
        assert s[m..k] == [];
      }
    }
    assert s[..k] == s;
    if i != 0 {
      var text := EncodeGroup(chars, triple, quad, i);
      AppendGroup(chars, s, m, k);
      result := result + text;
      if padding {
        result := Pad(result, i);
      }
      assert |s| % 3 == i;
      assert seq(3 - i, _ => '=') == Padding(|s|);
    } else {
      assert m == |s|;
    }
  }

  lemma NoSymbols(chars: string)
    requires |chars| == 64
    ensures SextetsOk([]) && Symbols(chars, Sextets([])) == ""
  {
  }

  /** The sextets of one group: a missing byte is taken as zero. */
  lemma GroupSextets(group: seq<Byte>, a: Byte, b: Byte, c: Byte)
    requires 1 <= |group| <= 3 && group[0] == a
    requires (if |group| >= 2 then group[1] else 0) == b && (if |group| == 3 then group[2] else 0) == c
    ensures Sextets(group) == Four(a, b, c)[..|group| + 1] && SextetsOk(group)
  {
    hide Four;
    if |group| == 3 {
      assert group[3..] == [];
      assert Sextets(group) == Four(a, b, c) + [];
    }
  }

  ghost predicate SextetsOk(bytes: seq<Byte>) {
    forall i :: 0 <= i < |Sextets(bytes)| ==> Sextets(bytes)[i] < 64
  }

  lemma AppendGroup(chars: string, s: seq<Byte>, m: nat, k: nat)
    requires |chars| == 64 && m % 3 == 0 && m <= k <= |s|
    ensures SextetsOk(s[..m]) && SextetsOk(s[m..k]) && SextetsOk(s[..k])
    ensures Symbols(chars, Sextets(s[..k])) == Symbols(chars, Sextets(s[..m])) + Symbols(chars, Sextets(s[m..k]))
  {
    hide Sextets;
    SextetsSmall(s[..m]);
    SextetsSmall(s[m..k]);
    SextetsSmall(s[..k]);
    SextetsSplit(s[..k], m);
    assert s[..k][..m] == s[..m] && s[..k][m..] == s[m..k];
  }

  /** Four buffered sextets regrouped into three bytes. */
  method Ungroup(quad: array<nat>, triple: array<Byte>)
    requires triple.Length == 3 && quad.Length == 4
    modifies triple
    ensures triple[..] == Three(quad[0], quad[1], quad[2], quad[3])
  {
    triple[0] := First(quad[0], quad[1]);
    triple[1] := Second(quad[1], quad[2]);
    triple[2] := Third(quad[2], quad[3]);
  }

  /** The bytes of `n` buffered sextets. */
  method Flush(quad: array<nat>, triple: array<Byte>, n: nat) returns (bytes: seq<Byte>)
    requires triple.Length == 3 && quad.Length == 4 && 1 <= n <= 4
    modifies triple
    ensures bytes == Octets(quad[..n])
  {
    hide Octets, Three;
    Ungroup(quad, triple);
    GroupOctets(quad[..n], quad[0], quad[1], quad[2], quad[3]);
    bytes := triple[..n - 1];
  }

  method DecodeLoop(s: string, chars: string) returns (result: Try<seq<Byte>>)
    requires |chars| == 64
    ensures result == Decode(s, chars)
  {
    hide Octets, Index;
    ghost var body := Body(s);
    ghost var all := Indices(chars, body);
    var i := 0;
    var triple := new Byte[3](_ => 0);
    var quad := new nat[4](_ => 0);
    var out: seq<Byte> := [];
    var k := 0;
    ghost var m := 0;
    NoOctets();
    assert all[..0] == [];
    while k < |s| && s[k] != '='
      invariant 0 <= i < 4 && k == m + i && k <= |body| && m % 4 == 0
      invariant forall t :: 0 <= t < k ==> IsBase64(chars, body[t])
      invariant quad[..i] == all[m..k]
      invariant out == Octets(all[..m])
    {
      var c := s[k];
      assert k < |body| && body[k] == c;
      if !IsBase64(chars, c) {
        return Error;
      }
      quad[i] := Index(chars, c);
      assert quad[..i + 1] == all[m..k + 1] by {
        assert quad[..i] == all[m..k] && all[m..k + 1] == all[m..k] + [all[k]];
      }
      i := i + 1;
      k := k + 1;
      if i == 4 {
        var bytes := Flush(quad, triple, 4);
        AppendOctets(all, m, k);
        out := out + bytes;
        i := 0;
        m := k;
        assert all[m..k] == [];
      }
    }
    assert k == |body|;
    assert all[..k] == all;
    if i != 0 {
      for j := i to 4
        invariant quad[..i] == all[m..k]
      {
        quad[j] := Index(chars, '\0');
      }
      var bytes := Flush(quad, triple, i);
      AppendOctets(all, m, k);
      out := out + bytes;
    } else {
      assert m == k;
    }
    result := Ok(out);
  }

  lemma NoOctets()
    ensures Octets([]) == []
  {
  }

  /** The bytes of a last group: what fills up the missing sextets does not matter. */
  lemma GroupOctets(group: seq<nat>, w: nat, x: nat, y: nat, z: nat)
    requires 1 <= |group| <= 4 && group[0] == w
    requires (|group| >= 2 ==> group[1] == x) && (|group| >= 3 ==> group[2] == y) && (|group| == 4 ==> group[3] == z)
    ensures Octets(group) == Three(w, x, y, z)[..|group| - 1]
  {
    hide First, Second, Third;
    if |group| == 4 {
      assert group[4..] == [];
      assert Octets(group[4..]) == [];
      assert Octets(group) == Three(w, x, y, z) + [];
    } else if |group| == 3 {
      assert Octets(group) == Three(w, x, y, 0)[..2];
    } else if |group| == 2 {
      assert Octets(group) == Three(w, x, 0, 0)[..1];
    }
  }

  lemma AppendOctets(x: seq<nat>, m: nat, k: nat)
    requires m % 4 == 0 && m <= k <= |x|
    ensures Octets(x[..k]) == Octets(x[..m]) + Octets(x[m..k])
  {
    hide Octets;
    OctetsSplit(x[..k], m);
    assert x[..k][..m] == x[..m] && x[..k][m..] == x[m..k];
  }

  // ---------------------------------------------------------------------
  // Decoding undoes encoding
  // ---------------------------------------------------------------------

  lemma GroupRoundTrip(a: Byte, b: Byte, c: Byte)
    ensures var s := Four(a, b, c); Three(s[0], s[1], s[2], s[3]) == [a, b, c]
  {
    hide First, Second, Third;
    FirstByte(a, b);
    SecondByte(a, b, c);
    ThirdByte(b, c);
  }

  lemma FirstByte(a: Byte, b: Byte)
    ensures First(a / 4, a % 4 * 16 + b / 16) == a
  {
    assert (a % 4 * 16 + b / 16) / 16 == a % 4;
    assert a / 4 * 4 + a % 4 == a;
  }

  lemma SecondByte(a: Byte, b: Byte, c: Byte)
    ensures Second(a % 4 * 16 + b / 16, b % 16 * 4 + c / 64) == b
  {
    assert (a % 4 * 16 + b / 16) % 16 == b / 16;
    assert (b % 16 * 4 + c / 64) / 4 == b % 16;
    assert b / 16 * 16 + b % 16 == b;
  }

  lemma ThirdByte(b: Byte, c: Byte)
    ensures Third(b % 16 * 4 + c / 64, c % 64) == c
  {
    assert (b % 16 * 4 + c / 64) % 4 == c / 64;
    assert c / 64 * 64 + c % 64 == c;
  }

  lemma {:induction false} OctetsOfSextets(bytes: seq<Byte>)
    ensures Octets(Sextets(bytes)) == bytes
  {
    hide First, Second, Third;
    if |bytes| == 1 {
      FirstByte(bytes[0], 0);
    } else if |bytes| == 2 {
      FirstByte(bytes[0], bytes[1]);
      SecondByte(bytes[0], bytes[1], 0);
    } else if |bytes| >= 3 {
      GroupRoundTrip(bytes[0], bytes[1], bytes[2]);
      OctetsOfSextets(bytes[3..]);
      var s := Sextets(bytes);
      assert s[4..] == Sextets(bytes[3..]);
      assert s[0] == Four(bytes[0], bytes[1], bytes[2])[0];
    }
  }

  lemma IndexOfSymbol(chars: string, i: nat)
    requires IsAlphabet(chars) && i < 64
    ensures Index(chars, chars[i]) == i && IsBase64(chars, chars[i]) && chars[i] != '='
  {
  }

  lemma {:induction false} BodyOf(body: string, pad: string)
    requires '=' !in body && (pad != "" ==> pad[0] == '=')
    ensures Body(body + pad) == body
  {
    if body == "" {
      assert body + pad == pad;
    } else {
      assert (body + pad)[0] == body[0] && (body + pad)[1..] == body[1..] + pad;
      assert body == [body[0]] + body[1..];
      BodyOf(body[1..], pad);
    }
  }

  /** Decoding gives the bytes back, with or without padding, in any alphabet. */
  lemma DecodeEncode(bytes: seq<Byte>, chars: string, padding: bool)
    requires IsAlphabet(chars)
    ensures Decode(Encode(bytes, chars, padding), chars) == Ok(bytes)
  {
    SextetsSmall(bytes);
    var sextets := Sextets(bytes);
    var symbols := Symbols(chars, sextets);
    forall i | 0 <= i < |symbols|
      ensures symbols[i] != '=' && IsBase64(chars, symbols[i]) && Index(chars, symbols[i]) == sextets[i]
    {
      IndexOfSymbol(chars, sextets[i]);
    }
    BodyOf(symbols, if padding then Padding(|bytes|) else "");
    assert Indices(chars, symbols) == sextets;
    OctetsOfSextets(bytes);
  }

  /** The encoded length is a closed form of the number of bytes. */
  lemma EncodedLength(bytes: seq<Byte>, chars: string)
    requires |chars| == 64
    ensures |Encode(bytes, chars, true)| == (|bytes| + 2) / 3 * 4
    ensures |Encode(bytes, chars, false)| == (4 * |bytes| + 2) / 3
  {
    hide Sextets, Padding;
    SextetsSmall(bytes);
    PaddedLength(|bytes|);
  }

  lemma PaddedLength(n: nat)
    ensures (4 * n + 2) / 3 + |Padding(n)| == (n + 2) / 3 * 4
  {
    var q, r := n / 3, n % 3;
    assert n == 3 * q + r;
    assert (4 * n + 2) / 3 == 4 * q + (4 * r + 2) / 3 && (n + 2) / 3 == q + (r + 2) / 3;
  }

  // ---------------------------------------------------------------------
  // The two alphabets
  // ---------------------------------------------------------------------

  function Symbol(i: nat): char
    requires i < 62
  {
    if i < 26 then 'A' + i as char else if i < 52 then 'a' + (i - 26) as char else '0' + (i - 52) as char
  }

  lemma LettersAndDigits()
    ensures |LETTERS_AND_DIGITS| == 62
    ensures forall i :: 0 <= i < 62 ==> LETTERS_AND_DIGITS[i] == Symbol(i)
  {
    assert forall i :: 0 <= i < 26 ==> UPPER_CASE[i] == 'A' + i as char;
    assert forall i :: 0 <= i < 26 ==> LOWER_CASE[i] == 'a' + i as char;
    assert forall i :: 0 <= i < 10 ==> "0123456789"[i] == '0' + i as char;
    forall i | 0 <= i < 62 ensures LETTERS_AND_DIGITS[i] == Symbol(i) {
      assert LETTERS_AND_DIGITS[i] ==
             if i < 26 then UPPER_CASE[i] else if i < 52 then LOWER_CASE[i - 26] else "0123456789"[i - 52];
    }
  }

  function Rank(c: char): (i: nat)
    requires IsAlnum(c)
    ensures i < 62 && Symbol(i) == c
  {
    if c <= '9' then 52 + (c - '0') as nat else if c <= 'Z' then (c - 'A') as nat else 26 + (c - 'a') as nat
  }

  lemma MakesAlphabet(chars: string)
    requires |chars| == 64 && (forall i :: 0 <= i < 62 ==> chars[i] == Symbol(i))
    requires !IsAlnum(chars[62]) && !IsAlnum(chars[63]) && chars[62] != chars[63] && '=' !in chars[62..]
    ensures IsAlphabet(chars)
  {
    forall c | IsAlnum(c) ensures c in chars {
      assert chars[Rank(c)] == c;
    }
    forall i | 0 <= i < 64 ensures chars[i] != '=' {
      assert i >= 62 ==> chars[i] == chars[62..][i - 62];
    }
  }

  /** Both alphabets of the program are alphabets in this sense. */
  lemma AlphabetsAreAlphabets()
    ensures IsAlphabet(STANDARD_CHARS) && IsAlphabet(URL_SAFE_CHARS)
  {
    LettersAndDigits();
    MakesAlphabet(STANDARD_CHARS);
    MakesAlphabet(URL_SAFE_CHARS);
  }

  function EncodeStandard(bytes: seq<Byte>): string {
    AlphabetsAreAlphabets();
    Encode(bytes, STANDARD_CHARS, true)
  }

  function DecodeStandard(s: string): Try<seq<Byte>> {
    AlphabetsAreAlphabets();
    Decode(s, STANDARD_CHARS)
  }

  function EncodeUrlSafe(bytes: seq<Byte>, padding: bool): string {
    AlphabetsAreAlphabets();
    Encode(bytes, URL_SAFE_CHARS, padding)
  }

  function DecodeUrlSafe(s: string): Try<seq<Byte>> {
    AlphabetsAreAlphabets();
    Decode(s, URL_SAFE_CHARS)
  }

  /** Both alphabets give the bytes back. */
  lemma AlphabetRoundTrips(bytes: seq<Byte>, padding: bool)
    ensures DecodeStandard(EncodeStandard(bytes)) == Ok(bytes)
    ensures DecodeUrlSafe(EncodeUrlSafe(bytes, padding)) == Ok(bytes)
  {
    hide Encode, Decode;
    AlphabetsAreAlphabets();
    DecodeEncode(bytes, STANDARD_CHARS, true);
    DecodeEncode(bytes, URL_SAFE_CHARS, padding);
  }
}
