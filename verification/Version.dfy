/** Version numbers: precedence (section 11 of Semantic Versioning 2.0.0), parsing and printing. */
module Version {
  import opened Common
  import opened Decimals
  import opened Strings

  datatype Version = Version(major: nat, minor: nat, patch: nat, prerelease: seq<string>, build: seq<string>)

  /** The version numbers have 32 bits. */
  const NUMBER_LIMIT: nat := 0x1_0000_0000

  predicate IsIdentifier(s: string) {
    s != "" && forall i :: 0 <= i < |s| ==> IsAlnum(s[i]) || s[i] == '-'
  }

  predicate AreIdentifiers(ids: seq<string>) {
    forall i :: 0 <= i < |ids| ==> IsIdentifier(ids[i])
  }

  /** What the constructor checks of its labels. */
  predicate Valid(v: Version) {
    AreIdentifiers(v.prerelease) && AreIdentifiers(v.build)
  }

  /** `parseNumericIdentifier`, for any `numify<uint32_t>`. */
  function ParseNumber(numify: string -> Try<nat>, s: string): Try<nat> {
    if s != "" && s[0] == '-' then Error else numify(s)
  }

  predicate SameVersion(a: Version, b: Version) {
    a.major == b.major && a.minor == b.minor && a.patch == b.patch && a.prerelease == b.prerelease
  }

  // ---------------------------------------------------------------------
  // Precedence, defined on what an identifier stands for
  // ---------------------------------------------------------------------

  datatype Rank = Number(n: nat) | Text(s: string)

  datatype Precedence = Precedence(major: nat, minor: nat, patch: nat, ids: seq<Rank>)

  function RankOf(numify: string -> Try<nat>, s: string): Rank {
    var n := ParseNumber(numify, s);
    if n.Ok? then Number(n.value) else Text(s)
  }

  function Ranks(numify: string -> Try<nat>, ids: seq<string>): seq<Rank> {
    seq(|ids|, i requires 0 <= i < |ids| => RankOf(numify, ids[i]))
  }

  function PrecedenceOf(numify: string -> Try<nat>, v: Version): Precedence {
    Precedence(v.major, v.minor, v.patch, Ranks(numify, v.prerelease))
  }

  predicate TextLess(a: string, b: string) {
    b != "" && (a == "" || if a[0] != b[0] then a[0] < b[0] else TextLess(a[1..], b[1..]))
  }

  predicate RankLess(x: Rank, y: Rank) {
    match (x, y)
    case (Number(m), Number(n)) => m < n
    case (Number(_), Text(_)) => true
    case (Text(_), Number(_)) => false
    case (Text(s), Text(t)) => TextLess(s, t)
  }

  predicate LabelLess(x: seq<Rank>, y: seq<Rank>) {
    y != [] && (x == [] || if x[0] != y[0] then RankLess(x[0], y[0]) else LabelLess(x[1..], y[1..]))
  }

  /** A version without a prerelease label comes after all those with one. */
  predicate ReleaseLess(x: seq<Rank>, y: seq<Rank>) {
    x != [] && (y == [] || LabelLess(x, y))
  }

  predicate Before(x: Precedence, y: Precedence) {
    if x.major != y.major then x.major < y.major
    else if x.minor != y.minor then x.minor < y.minor
    else if x.patch != y.patch then x.patch < y.patch
    else ReleaseLess(x.ids, y.ids)
  }

  // ---------------------------------------------------------------------
  // Before is a strict total order
  // ---------------------------------------------------------------------

  lemma {:induction false} TextIsOrdered(a: string, b: string)
    ensures !(TextLess(a, b) && TextLess(b, a)) && !TextLess(a, a)
    ensures TextLess(a, b) || TextLess(b, a) || a == b
    decreases |a|
  {
    if a != "" {
      TextIsOrdered(a[1..], a[1..]);
      if b != "" {
        TextIsOrdered(a[1..], b[1..]);
        assert a[0] == b[0] && a[1..] == b[1..] ==> a == [a[0]] + a[1..] == b;
      }
    }
  }

  lemma {:induction false} TextIsTransitive(a: string, b: string, c: string)
    requires TextLess(a, b) && TextLess(b, c)
    ensures TextLess(a, c)
  {
    if a != "" && a[0] == b[0] == c[0] {
      TextIsTransitive(a[1..], b[1..], c[1..]);
    }
  }

  lemma RankIsOrdered(x: Rank, y: Rank)
    ensures !(RankLess(x, y) && RankLess(y, x)) && !RankLess(x, x)
    ensures RankLess(x, y) || RankLess(y, x) || x == y
  {
    if x.Text? {
      TextIsOrdered(x.s, x.s);
      if y.Text? {
        TextIsOrdered(x.s, y.s);
      }
    }
  }

  lemma RankIsTransitive(x: Rank, y: Rank, z: Rank)
    requires RankLess(x, y) && RankLess(y, z)
    ensures RankLess(x, z)
  {
    if x.Text? {
      TextIsTransitive(x.s, y.s, z.s);
    }
  }

  lemma {:induction false} LabelIsOrdered(x: seq<Rank>, y: seq<Rank>)
    ensures !(LabelLess(x, y) && LabelLess(y, x)) && !LabelLess(x, x)
    ensures LabelLess(x, y) || LabelLess(y, x) || x == y
    decreases |x|
  {
    hide RankLess;
    if x != [] {
      LabelIsOrdered(x[1..], x[1..]);
      if y != [] {
        RankIsOrdered(x[0], y[0]);
        LabelIsOrdered(x[1..], y[1..]);
        assert x[0] == y[0] && x[1..] == y[1..] ==> x == [x[0]] + x[1..] == y;
      }
    }
  }

  lemma {:induction false} LabelIsTransitive(x: seq<Rank>, y: seq<Rank>, z: seq<Rank>)
    requires LabelLess(x, y) && LabelLess(y, z)
    ensures LabelLess(x, z)
  {
    hide RankLess;
    if x != [] {
      if x[0] == y[0] == z[0] {
        LabelIsTransitive(x[1..], y[1..], z[1..]);
      } else if x[0] != y[0] && y[0] != z[0] {
        RankIsTransitive(x[0], y[0], z[0]);
        RankIsOrdered(x[0], y[0]);
      }
    }
  }

  lemma BeforeIsOrdered(x: Precedence, y: Precedence)
    ensures !(Before(x, y) && Before(y, x)) && !Before(x, x)
    ensures Before(x, y) || Before(y, x) || x == y
  {
    LabelIsOrdered(x.ids, y.ids);
    LabelIsOrdered(x.ids, x.ids);
  }

  lemma BeforeIsTransitive(x: Precedence, y: Precedence, z: Precedence)
    requires Before(x, y) && Before(y, z)
    ensures Before(x, z)
  {
    if LabelLess(x.ids, y.ids) && LabelLess(y.ids, z.ids) {
      LabelIsTransitive(x.ids, y.ids, z.ids);
    }
  }

  // ---------------------------------------------------------------------
  // The comparison
  // ---------------------------------------------------------------------

  predicate Less(numify: string -> Try<nat>, a: Version, b: Version) {
    Before(PrecedenceOf(numify, a), PrecedenceOf(numify, b))
  }

  method LessLoop(numify: string -> Try<nat>, a: Version, b: Version) returns (less: bool)
    ensures less == Less(numify, a, b)
  {
    if a.major != b.major {
      return a.major < b.major;
    }
    if a.minor != b.minor {
      return a.minor < b.minor;
    }
    if a.patch != b.patch {
      return a.patch < b.patch;
    }
    if a.prerelease != [] && b.prerelease == [] {
      return true;
    }
    if a.prerelease == [] && b.prerelease != [] {
      return false;
    }
    ghost var x, y := Ranks(numify, a.prerelease), Ranks(numify, b.prerelease);
    assert x[0..] == x && y[0..] == y;
    var size := if |a.prerelease| < |b.prerelease| then |a.prerelease| else |b.prerelease|;
    for i := 0 to size
      invariant Less(numify, a, b) == LabelLess(x[i..], y[i..])
    {
      assert x[i..][0] == x[i] && x[i..][1..] == x[i + 1..] && y[i..][0] == y[i] && y[i..][1..] == y[i + 1..];
      var m, n := ParseNumber(numify, a.prerelease[i]), ParseNumber(numify, b.prerelease[i]);
      if m.Ok? && n.Ok? {
        if m.value != n.value {
          return m.value < n.value;
        }
      } else if m.Ok? {
        return true;
      } else if n.Ok? {
        return false;
      } else if a.prerelease[i] != b.prerelease[i] {
        return TextLess(a.prerelease[i], b.prerelease[i]);
      }
    }
    less := |a.prerelease| < |b.prerelease|;
  }

  // ---------------------------------------------------------------------
  // What precedence means, without the recursion
  // ---------------------------------------------------------------------

  /** The same up to the place of the first difference, where the first sequence ends
      or has the lower element. */
  ghost predicate FirstDiffers<T(!new)>(x: seq<T>, y: seq<T>, i: nat, lower: (T, T) -> bool) {
    && i <= |x| && i < |y| && x[..i] == y[..i]
    && (i < |x| ==> x[i] != y[i] && lower(x[i], y[i]))
  }

  const LOWER_CODE: (char, char) -> bool := (c: char, d: char) => c as int < d as int

  /** In the order of character codes. */
  ghost predicate PrecedesAsText(s: string, t: string) {
    exists i: nat :: FirstDiffers(s, t, i, LOWER_CODE)
  }

  lemma {:induction false} TextLessMeans(s: string, t: string)
    ensures TextLess(s, t) <==> PrecedesAsText(s, t)
    decreases |s|
  {
    if s != "" && t != "" {
      TextLessMeans(s[1..], t[1..]);
      if TextLess(s[1..], t[1..]) && s[0] == t[0] {
        var i: nat :| FirstDiffers(s[1..], t[1..], i, LOWER_CODE);
        assert s[..i + 1] == [s[0]] + s[1..][..i] && t[..i + 1] == [t[0]] + t[1..][..i];
        assert FirstDiffers(s, t, i + 1, LOWER_CODE);
      } else if TextLess(s, t) {
        assert FirstDiffers(s, t, 0, LOWER_CODE);
      }
      if i: nat :| FirstDiffers(s, t, i, LOWER_CODE) {
        if i > 0 {
          assert s[0] == s[..i][0] && t[0] == t[..i][0];
          assert s[1..][..i - 1] == s[..i][1..] && t[1..][..i - 1] == t[..i][1..];
          assert FirstDiffers(s[1..], t[1..], i - 1, LOWER_CODE);
        }
      }
    } else if t != "" {
      assert FirstDiffers(s, t, 0, LOWER_CODE);
    }
  }

  /** A numeric identifier: it does not start with a dash and reads as a number. */
  predicate IsNumeric(numify: string -> Try<nat>, s: string) {
    numify(s).Ok? && (s == "" || s[0] != '-')
  }

  /** The same identifier, or the same number. */
  predicate Ties(numify: string -> Try<nat>, s: string, t: string) {
    s == t || (IsNumeric(numify, s) && IsNumeric(numify, t) && numify(s).value == numify(t).value)
  }

  /** Numbers come in their order and before all other identifiers. */
  ghost predicate Precedes(numify: string -> Try<nat>, s: string, t: string) {
    if IsNumeric(numify, s) then IsNumeric(numify, t) ==> numify(s).value < numify(t).value
    else !IsNumeric(numify, t) && PrecedesAsText(s, t)
  }

  lemma RanksMean(numify: string -> Try<nat>, s: string, t: string)
    ensures RankOf(numify, s) == RankOf(numify, t) <==> Ties(numify, s, t)
    ensures RankLess(RankOf(numify, s), RankOf(numify, t)) <==> Precedes(numify, s, t)
  {
    hide TextLess, PrecedesAsText;
    TextLessMeans(s, t);
  }

  /** Labels that tie up to the place where one ends or has the lower identifier. */
  ghost predicate PrecedesAt(numify: string -> Try<nat>, a: seq<string>, b: seq<string>, i: nat) {
    && i <= |a| && i < |b| && (forall j :: 0 <= j < i ==> Ties(numify, a[j], b[j]))
    && (i < |a| ==> Precedes(numify, a[i], b[i]))
  }

  lemma {:induction false} LabelLessMeans(numify: string -> Try<nat>, a: seq<string>, b: seq<string>)
    ensures LabelLess(Ranks(numify, a), Ranks(numify, b)) <==> exists i: nat :: PrecedesAt(numify, a, b, i)
    decreases |a|
  {
    hide RankLess, RankOf, Ties, Precedes;
    var x, y := Ranks(numify, a), Ranks(numify, b);
    if a != [] && b != [] {
      var c, d := a[1..], b[1..];
      assert x[1..] == Ranks(numify, c) && y[1..] == Ranks(numify, d);
      LabelLessMeans(numify, c, d);
      RanksMean(numify, a[0], b[0]);
      RankIsOrdered(x[0], y[0]);
      RankIsOrdered(x[0], x[0]);
      assert PrecedesAt(numify, a, b, 0) <==> RankLess(x[0], y[0]);
      forall i: nat ensures PrecedesAt(numify, a, b, i + 1) <==> x[0] == y[0] && PrecedesAt(numify, c, d, i) {
        assert a == [a[0]] + c && b == [b[0]] + d;
        if PrecedesAt(numify, a, b, i + 1) {
          assert Ties(numify, a[0], b[0]);
          forall j | 0 <= j < i ensures Ties(numify, c[j], d[j]) {
            assert Ties(numify, a[j + 1], b[j + 1]);
          }
        }
      }
      if LabelLess(x, y) && x[0] == y[0] {
        var i: nat :| PrecedesAt(numify, c, d, i);
        assert PrecedesAt(numify, a, b, i + 1);
      }
      if i: nat :| PrecedesAt(numify, a, b, i) {
        if i > 0 {
          assert PrecedesAt(numify, a, b, (i - 1) + 1);
          assert PrecedesAt(numify, c, d, i - 1);
        }
      }
    } else if b != [] {
      assert PrecedesAt(numify, a, b, 0);
    }
  }

  /** `<` compares major, minor and patch in turn; of two that agree there, one with a
      prerelease label comes before the one without, and two labels are compared
      identifier by identifier. */
  lemma LessMeans(numify: string -> Try<nat>, a: Version, b: Version)
    ensures Less(numify, a, b) <==>
            || a.major < b.major
            || (a.major == b.major && a.minor < b.minor)
            || (a.major == b.major && a.minor == b.minor && a.patch < b.patch)
            || (a.major == b.major && a.minor == b.minor && a.patch == b.patch && |a.prerelease| > 0
                && (|b.prerelease| == 0 || exists i: nat :: PrecedesAt(numify, a.prerelease, b.prerelease, i)))
  {
    hide LabelLess, PrecedesAt;
    LabelLessMeans(numify, a.prerelease, b.prerelease);
  }

  /** `<` is a strict weak order that ignores the build label. */
  lemma LessIsStrictWeakOrder(numify: string -> Try<nat>, a: Version, b: Version, c: Version)
    ensures !(Less(numify, a, b) && Less(numify, b, a))
    ensures Less(numify, a, b) && Less(numify, b, c) ==> Less(numify, a, c)
    ensures Less(numify, a, c) ==> Less(numify, a, b) || Less(numify, b, c)
    ensures Less(numify, a, b) == Less(numify, a.(build := []), b.(build := []))
  {
    hide Before;
    var x, y, z := PrecedenceOf(numify, a), PrecedenceOf(numify, b), PrecedenceOf(numify, c);
    BeforeIsOrdered(x, y);
    BeforeIsOrdered(y, z);
    if Before(x, y) && Before(y, z) {
      BeforeIsTransitive(x, y, z);
    }
    if Before(x, z) && Before(y, x) {
      BeforeIsTransitive(y, x, z);
    }
  }

  /** Two labels differ only in how they spell the same numbers. */
  ghost predicate Respelled(numify: string -> Try<nat>, a: seq<string>, b: seq<string>) {
    && |a| == |b|
    && forall i :: 0 <= i < |a| && a[i] != b[i] ==>
         ParseNumber(numify, a[i]).Ok? && ParseNumber(numify, a[i]) == ParseNumber(numify, b[i])
  }

  /** Incomparable versions are equal up to the spelling of their numeric identifiers. */
  lemma IncomparableMeans(numify: string -> Try<nat>, a: Version, b: Version)
    ensures !Less(numify, a, b) && !Less(numify, b, a) <==>
            a.major == b.major && a.minor == b.minor && a.patch == b.patch
            && Respelled(numify, a.prerelease, b.prerelease)
  {
    hide Before;
    var x, y := PrecedenceOf(numify, a), PrecedenceOf(numify, b);
    BeforeIsOrdered(x, y);
    BeforeIsOrdered(x, x);
    assert !Less(numify, a, b) && !Less(numify, b, a) <==> x == y;
    if x == y {
      forall i | 0 <= i < |a.prerelease| && a.prerelease[i] != b.prerelease[i]
        ensures ParseNumber(numify, a.prerelease[i]).Ok?
        ensures ParseNumber(numify, a.prerelease[i]) == ParseNumber(numify, b.prerelease[i])
      {
        assert x.ids[i] == y.ids[i];
      }
    }
    if Respelled(numify, a.prerelease, b.prerelease) {
      assert x.ids == y.ids;
    }
  }

  /** `<=`, which is `<` or `==`, orders two versions exactly when their labels are
      not two spellings of the same numbers. */
  lemma LessOrEqualIsTotal(numify: string -> Try<nat>, a: Version, b: Version)
    ensures Less(numify, a, b) || SameVersion(a, b) || Less(numify, b, a) || SameVersion(b, a) <==>
            !(a.major == b.major && a.minor == b.minor && a.patch == b.patch && a.prerelease != b.prerelease
              && Respelled(numify, a.prerelease, b.prerelease))
  {
    IncomparableMeans(numify, a, b);
  }

  /** 1.0.0-1 and 1.0.0-01 are neither equal nor ordered. */
  lemma LeadingZerosTie(numify: string -> Try<nat>)
    requires ReadsDecimals(numify, NUMBER_LIMIT)
    ensures var a, b := Version(1, 0, 0, ["1"], []), Version(1, 0, 0, ["01"], []);
            !SameVersion(a, b) && !Less(numify, a, b) && !Less(numify, b, a)
  {
    var a, b := Version(1, 0, 0, ["1"], []), Version(1, 0, 0, ["01"], []);
    assert "01"[..1] == "0" && "0"[..0] == "" && "1"[..0] == "";
    assert ValueOf("0") == 0 && ValueOf("01") == 1 && ValueOf("1") == 1;
    assert |"1"| != |"01"|;
    IncomparableMeans(numify, a, b);
  }

  // ---------------------------------------------------------------------
  // Parsing and printing
  // ---------------------------------------------------------------------

  function ParseLabel(s: string): Try<seq<string>> {
    var identifiers := Split(s, ".", None);
    if s == "" || !AreIdentifiers(identifiers) then Error else Ok(identifiers)
  }

  /** The optional label after a separator: no label when the separator is missing. */
  function OptionalLabel(parts: seq<string>): Try<seq<string>> {
    if |parts| == 2 then ParseLabel(parts[1]) else Ok([])
  }

  function NumberAt(numify: string -> Try<nat>, parts: seq<string>, i: nat): Try<nat> {
    if i < |parts| then ParseNumber(numify, parts[i]) else Ok(0)
  }

  function Parse(numify: string -> Try<nat>, s: string): Try<Version> {
    var atPlus := Split(s, "+", Some(2));
    SplitInTwo(s, '+');
    var build := OptionalLabel(atPlus);
    if build.Error? then Error
    else
      var atHyphen := Split(atPlus[0], "-", Some(2));
      SplitInTwo(atPlus[0], '-');
      var prerelease := OptionalLabel(atHyphen);
      if prerelease.Error? then Error
      else
        var parts := Split(atHyphen[0], ".", None);
        var major, minor, patch := NumberAt(numify, parts, 0), NumberAt(numify, parts, 1), NumberAt(numify, parts, 2);
        if |parts| > 3 || major.Error? || minor.Error? || patch.Error? then Error
        else Ok(Version(major.value, minor.value, patch.value, prerelease.value, build.value))
  }

  method ParseLabelLoop(s: string) returns (r: Try<seq<string>>)
    ensures r == ParseLabel(s)
  {
    if s == "" {
      return Error;
    }
    var identifiers := Split(s, ".", None);
    for i := 0 to |identifiers|
      invariant forall k :: 0 <= k < i ==> IsIdentifier(identifiers[k])
    {
      if !IsIdentifier(identifiers[i]) {
        return Error;
      }
    }
    r := Ok(identifiers);
  }

  method ParseLoop(numify: string -> Try<nat>, s: string) returns (r: Try<Version>)
    ensures r == Parse(numify, s)
  {
    hide Split, AreIdentifiers, IsIdentifier;
    var build: seq<string> := [];
    var atPlus := Split(s, "+", Some(2));
    SplitInTwo(s, '+');
    if |atPlus| == 2 {
      var parsed := ParseLabelLoop(atPlus[1]);
      if parsed.Error? {
        return Error;
      }
      build := parsed.value;
    }
    var prerelease: seq<string> := [];
    var atHyphen := Split(atPlus[0], "-", Some(2));
    SplitInTwo(atPlus[0], '-');
    if |atHyphen| == 2 {
      var parsed := ParseLabelLoop(atHyphen[1]);
      if parsed.Error? {
        return Error;
      }
      prerelease := parsed.value;
    }
    var parts := Split(atHyphen[0], ".", None);
    if |parts| > 3 {
      return Error;
    }
    var numbers := new nat[3](_ => 0);
    for i := 0 to |parts|
      invariant forall k :: 0 <= k < i ==> NumberAt(numify, parts, k) == Ok(numbers[k])
      invariant forall k :: i <= k < 3 ==> numbers[k] == 0
    {
      var number := ParseNumber(numify, parts[i]);
      if number.Error? {
        return Error;
      }
      numbers[i] := number.value;
    }
    r := Ok(Version(numbers[0], numbers[1], numbers[2], prerelease, build));
  }

  function PrintLabel(separator: char, ids: seq<string>): string {
    if ids == [] then "" else [separator] + Join(".", ids)
  }

  function Print(v: Version): string {
    Join(".", Numbers(v)) + PrintLabel('-', v.prerelease) + PrintLabel('+', v.build)
  }

  /** A split in at most two pieces cuts at the first delimiter, if there is one. */
  lemma SplitInTwo(s: string, delim: char)
    ensures var parts := Split(s, [delim], Some(2));
            if delim in s then |parts| == 2 && Avoids(parts[0], [delim]) && s == parts[0] + [delim] + parts[1]
            else parts == [s]
  {
    hide SplitFrom;
    var next := Find(s, [delim], 0, true);
    SplitFromUnfolds(s, [delim], 0, Some(2));
    assert s[0..] == s;
    if next < |s| {
      SplitFromUnfolds(s, [delim], next + 1, Some(1));
      assert s[0..next] + [delim] + s[next + 1..] == s;
    }
  }

  lemma CutAt(head: string, delim: char, tail: string)
    requires Avoids(head, [delim])
    ensures Split(head + [delim] + tail, [delim], Some(2)) == [head, tail]
  {
    hide Split;
    var s := head + [delim] + tail;
    assert s[|head|] == delim;
    SplitInTwo(s, delim);
    var parts := Split(s, [delim], Some(2));
    var n := |parts[0]|;
    assert s[n] == delim;
    assert n == |head|;
    assert parts[0] == s[..n] && head == s[..|head|] && parts[1] == s[n + 1..] && tail == s[|head| + 1..];
  }

  lemma {:induction false} JoinAvoids(delims: string, separator: string, parts: seq<string>)
    requires Avoids(separator, delims) && forall k :: 0 <= k < |parts| ==> Avoids(parts[k], delims)
    ensures Avoids(Join(separator, parts), delims)
  {
    if |parts| > 1 {
      JoinAvoids(delims, separator, parts[1..]);
    }
  }

  lemma LabelRoundTrip(ids: seq<string>)
    requires AreIdentifiers(ids) && ids != []
    ensures ParseLabel(Join(".", ids)) == Ok(ids)
    ensures Avoids(Join(".", ids), "+")
  {
    SplitJoin('.', ids);
    JoinAvoids("+", ".", ids);
    assert Join(".", ids) != "" by {
      assert ids[0] != "";
    }
  }

  lemma NumberRoundTrip(numify: string -> Try<nat>, n: nat)
    requires ReadsDecimals(numify, NUMBER_LIMIT) && n < NUMBER_LIMIT
    ensures ParseNumber(numify, Decimal(n)) == Ok(n)
    ensures Avoids(Decimal(n), ".") && Avoids(Decimal(n), "+") && Avoids(Decimal(n), "-")
  {
    hide Decimal, ValueOf;
    DecimalRoundTrip(n);
    NumifyDecimal(numify, NUMBER_LIMIT, n);
  }

  function Numbers(v: Version): seq<string> {
    [Decimal(v.major), Decimal(v.minor), Decimal(v.patch)]
  }

  lemma NumbersRoundTrip(numify: string -> Try<nat>, v: Version)
    requires ReadsDecimals(numify, NUMBER_LIMIT)
    requires v.major < NUMBER_LIMIT && v.minor < NUMBER_LIMIT && v.patch < NUMBER_LIMIT
    ensures var core := Join(".", Numbers(v));
            Split(core, ".", None) == Numbers(v) && Avoids(core, "+") && Avoids(core, "-")
    ensures NumberAt(numify, Numbers(v), 0) == Ok(v.major) && NumberAt(numify, Numbers(v), 1) == Ok(v.minor)
            && NumberAt(numify, Numbers(v), 2) == Ok(v.patch)
  {
    hide Split, Join, Decimal, ReadsDecimals, ParseNumber, Avoids;
    NumberRoundTrip(numify, v.major);
    NumberRoundTrip(numify, v.minor);
    NumberRoundTrip(numify, v.patch);
    SplitJoin('.', Numbers(v));
    DotAvoids();
    JoinAvoids("+", ".", Numbers(v));
    JoinAvoids("-", ".", Numbers(v));
  }

  lemma DotAvoids()
    ensures Avoids(".", "+") && Avoids(".", "-")
  {
  }

  /** What an optional label printed after a clean text is read back as. */
  lemma OptionalRoundTrip(head: string, separator: char, ids: seq<string>)
    requires Avoids(head, [separator]) && AreIdentifiers(ids)
    ensures var parts := Split(head + PrintLabel(separator, ids), [separator], Some(2));
            parts != [] && parts[0] == head && OptionalLabel(parts) == Ok(ids)
  {
    hide Split;
    if ids == [] {
      SplitInTwo(head, separator);
      assert head + "" == head;
    } else {
      LabelRoundTrip(ids);
      CutAt(head, separator, Join(".", ids));
      assert head + ([separator] + Join(".", ids)) == head + [separator] + Join(".", ids);
    }
  }

  /** Parsing a printed version gives it back. */
  lemma ParsePrint(numify: string -> Try<nat>, v: Version)
    requires Valid(v) && ReadsDecimals(numify, NUMBER_LIMIT)
    requires v.major < NUMBER_LIMIT && v.minor < NUMBER_LIMIT && v.patch < NUMBER_LIMIT
    ensures Parse(numify, Print(v)) == Ok(v)
  {
    hide Split, Join, OptionalLabel, NumberAt, PrintLabel;
    var core := Join(".", Numbers(v));
    NumbersRoundTrip(numify, v);
    var head := core + PrintLabel('-', v.prerelease);
    LabelAvoidsPlus(v.prerelease);
    OptionalRoundTrip(core, '-', v.prerelease);
    OptionalRoundTrip(head, '+', v.build);
  }

  lemma LabelAvoidsPlus(ids: seq<string>)
    requires AreIdentifiers(ids)
    ensures Avoids(PrintLabel('-', ids), "+")
  {
    if ids != [] {
      LabelRoundTrip(ids);
    }
  }

  /** One or more letters, digits and dashes. */
  predicate IsWord(s: string) {
    |s| > 0 && forall i :: 0 <= i < |s| ==>
      var c := s[i] as int; 48 <= c <= 57 || 65 <= c <= 90 || 97 <= c <= 122 || c == 45
  }

  predicate AreWords(ids: seq<string>) {
    forall i :: 0 <= i < |ids| ==> IsWord(ids[i])
  }

  lemma IdentifiersAreWords(v: Version)
    ensures Valid(v) <==> AreWords(v.prerelease) && AreWords(v.build)
  {
    forall s ensures IsIdentifier(s) <==> IsWord(s) {
      if IsWord(s) {
        forall i | 0 <= i < |s| ensures IsAlnum(s[i]) || s[i] == '-' {}
      }
    }
  }

  /** `==` compares everything but the build label. */
  lemma SameVersionMeans(a: Version, b: Version)
    ensures SameVersion(a, b) <==> a.(build := b.build) == b
  {
  }

  /** One to three clean numbers that are read, and labels of words. */
  ghost predicate Spells(numify: string -> Try<nat>, numbers: seq<string>, v: Version, s: string) {
    && 1 <= |numbers| <= 3 && AreWords(v.prerelease) && AreWords(v.build)
    && (forall k :: 0 <= k < |numbers| ==> Avoids(numbers[k], ".-+"))
    && s == Join(".", numbers) + PrintLabel('-', v.prerelease) + PrintLabel('+', v.build)
    && Ok(v.major) == ParseNumber(numify, numbers[0])
    && Ok(v.minor) == (if |numbers| > 1 then ParseNumber(numify, numbers[1]) else Ok(0))
    && Ok(v.patch) == (if |numbers| > 2 then ParseNumber(numify, numbers[2]) else Ok(0))
  }

  lemma AvoidsEach(s: string)
    ensures Avoids(s, ".-+") <==> Avoids(s, ".") && Avoids(s, "-") && Avoids(s, "+")
  {
    assert forall c :: c in ".-+" <==> c in "." || c in "-" || c in "+";
  }

  lemma SpelledIsParsed(numify: string -> Try<nat>, numbers: seq<string>, v: Version, s: string)
    requires Spells(numify, numbers, v, s)
    ensures Parse(numify, s) == Ok(v)
  {
    hide Split, Join, OptionalLabel, PrintLabel, Avoids, ParseNumber, AreIdentifiers, AreWords;
    IdentifiersAreWords(v);
    forall k | 0 <= k < |numbers| ensures Avoids(numbers[k], ".") && Avoids(numbers[k], "-") && Avoids(numbers[k], "+") {
      AvoidsEach(numbers[k]);
    }
    var core := Join(".", numbers);
    SplitJoin('.', numbers);
    DotAvoids();
    JoinAvoids("+", ".", numbers);
    JoinAvoids("-", ".", numbers);
    var head := core + PrintLabel('-', v.prerelease);
    LabelAvoidsPlus(v.prerelease);
    ConcatAvoids(core, PrintLabel('-', v.prerelease), "+");
    OptionalRoundTrip(core, '-', v.prerelease);
    OptionalRoundTrip(head, '+', v.build);
  }

  lemma ConcatAvoids(a: string, b: string, delims: string)
    requires Avoids(a, delims) && Avoids(b, delims)
    ensures Avoids(a + b, delims)
  {
  }

  lemma ParsedIsSpelled(numify: string -> Try<nat>, s: string) returns (numbers: seq<string>)
    requires Parse(numify, s).Ok?
    ensures Spells(numify, numbers, Parse(numify, s).value, s)
  {
    hide Split, Join, PrintLabel, OptionalLabel, ParseNumber, AreIdentifiers, AreWords;
    numbers := ParsedText(numify, s);
    IdentifiersAreWords(Parse(numify, s).value);
    var head := Split(s, "+", Some(2))[0];
    SplitInTwo(s, '+');
    SplitInTwo(head, '-');
    var core := Split(head, "-", Some(2))[0];
    assert Avoids(core, "-") && Avoids(core, "+") by {
      CoreIsClean(s);
    }
    assert numbers == Split(core, ".", None);
    CleanNumbers(core);
  }

  lemma CoreIsClean(s: string)
    ensures var atPlus := Split(s, "+", Some(2));
            && |atPlus| > 0
            && (var atHyphen := Split(atPlus[0], "-", Some(2));
                |atHyphen| > 0 && Avoids(atHyphen[0], "-") && Avoids(atHyphen[0], "+"))
  {
    hide Split;
    SplitInTwo(s, '+');
    var head := Split(s, "+", Some(2))[0];
    assert Avoids(head, "+");
    SplitInTwo(head, '-');
    var core := Split(head, "-", Some(2))[0];
    assert core <= head;
  }

  lemma CleanNumbers(core: string)
    requires Avoids(core, "-") && Avoids(core, "+")
    ensures forall k :: 0 <= k < |Split(core, ".", None)| ==> Avoids(Split(core, ".", None)[k], ".-+")
  {
    PiecesAreClean(core, ".", 0, None);
    PiecesAreParts(core, ".", 0, None);
    var pieces := Split(core, ".", None);
    forall k | 0 <= k < |pieces| ensures Avoids(pieces[k], ".-+") {
      forall i | 0 <= i < |pieces[k]| ensures pieces[k][i] !in ".-+" {
        var c := pieces[k][i];
        assert c in pieces[k] && c in core;
      }
    }
  }

  /** A text parses as a version exactly when it spells that version. */
  lemma ParseMeans(numify: string -> Try<nat>, s: string, v: Version)
    ensures Parse(numify, s) == Ok(v) <==> exists numbers :: Spells(numify, numbers, v, s)
  {
    hide Parse, Spells;
    if Parse(numify, s) == Ok(v) {
      var numbers := ParsedIsSpelled(numify, s);
    }
    if numbers :| Spells(numify, numbers, v, s) {
      SpelledIsParsed(numify, numbers, v, s);
    }
  }

  /** What a parsed text looked like: one to three numbers, missing ones zero, and valid labels. */
  lemma ParsedText(numify: string -> Try<nat>, s: string) returns (numbers: seq<string>)
    requires Parse(numify, s).Ok?
    ensures var v := Parse(numify, s).value;
            && Valid(v) && 1 <= |numbers| <= 3
            && s == Join(".", numbers) + PrintLabel('-', v.prerelease) + PrintLabel('+', v.build)
            && Ok(v.major) == ParseNumber(numify, numbers[0])
            && Ok(v.minor) == NumberAt(numify, numbers, 1)
            && Ok(v.patch) == NumberAt(numify, numbers, 2)
    ensures |Split(s, "+", Some(2))| > 0 && |Split(Split(s, "+", Some(2))[0], "-", Some(2))| > 0
    ensures numbers == Split(Split(Split(s, "+", Some(2))[0], "-", Some(2))[0], ".", None)
  {
    hide Split, Join;
    var atPlus := Split(s, "+", Some(2));
    SplitInTwo(s, '+');
    OptionalText(s, '+');
    var head := atPlus[0];
    SplitInTwo(head, '-');
    OptionalText(head, '-');
    numbers := Split(Split(head, "-", Some(2))[0], ".", None);
    SplitIsNotEmpty(Split(head, "-", Some(2))[0]);
    JoinSplit(Split(head, "-", Some(2))[0], '.', None);
  }

  lemma SplitIsNotEmpty(s: string)
    ensures Split(s, ".", None) != []
  {
  }

  lemma OptionalText(s: string, separator: char)
    ensures var parts := Split(s, [separator], Some(2));
            parts != [] && (OptionalLabel(parts).Ok? ==>
              AreIdentifiers(OptionalLabel(parts).value) && s == parts[0] + PrintLabel(separator, OptionalLabel(parts).value))
  {
    var parts := Split(s, [separator], Some(2));
    SplitInTwo(s, separator);
    if |parts| == 2 && OptionalLabel(parts).Ok? {
      JoinSplit(parts[1], '.', None);
      SplitIsNotEmpty(parts[1]);
      assert s == parts[0] + ([separator] + parts[1]);
    } else {
      assert s == s + "";
    }
  }
}
