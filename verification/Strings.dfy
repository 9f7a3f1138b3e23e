/** `strings::tokenize`, `strings::split` and `strings::join`. */
module Strings {
  import opened Common

  /** `find_first_of` (wanted) and `find_first_not_of` (not wanted): the first
      position from `from` on, or the length when there is none. */
  function Find(s: string, delims: string, from: nat, wanted: bool): (i: nat)
    requires from <= |s|
    ensures from <= i <= |s|
    ensures forall j :: from <= j < i ==> (s[j] in delims) != wanted
    ensures i < |s| ==> (s[i] in delims) == wanted
    decreases |s| - from
  {
    if from == |s| || (s[from] in delims) == wanted then from else Find(s, delims, from + 1, wanted)
  }

  function Fewer(limit: Option<nat>): Option<nat> {
    if limit.Some? && limit.value > 0 then Some(limit.value - 1) else limit
  }

  /** The pieces between the delimiters from `offset` on; at most `limit` of them. */
  function SplitFrom(s: string, delims: string, offset: nat, limit: Option<nat>): seq<string>
    requires offset <= |s|
    decreases |s| - offset
  {
    var next := Find(s, delims, offset, true);
    if next == |s| || limit == Some(1) then [s[offset..]]
    else
      [s[offset..next]] + SplitFrom(s, delims, next + 1, Fewer(limit))
  }

  function Split(s: string, delims: string, limit: Option<nat>): seq<string> {
    if limit == Some(0) then [] else SplitFrom(s, delims, 0, limit)
  }

  /** The non-empty pieces between the delimiters from `offset` on. */
  function TokenizeFrom(s: string, delims: string, offset: nat): seq<string>
    requires offset <= |s|
    decreases |s| - offset
  {
    var start := Find(s, delims, offset, false);
    if start == |s| then []
    else
      var end := Find(s, delims, start, true);
      if end == |s| then [s[start..]] else [s[start..end]] + TokenizeFrom(s, delims, end)
  }

  function Tokenize(s: string, delims: string): seq<string> {
    TokenizeFrom(s, delims, 0)
  }

  function Join(separator: string, parts: seq<string>): string {
    if parts == [] then ""
    else if |parts| == 1 then parts[0]
    else parts[0] + separator + Join(separator, parts[1..])
  }

  predicate Avoids(s: string, delims: string) {
    forall i :: 0 <= i < |s| ==> s[i] !in delims
  }

  // ---------------------------------------------------------------------
  // The loops
  // ---------------------------------------------------------------------

  lemma SplitFromUnfolds(s: string, delims: string, offset: nat, limit: Option<nat>)
    requires offset <= |s|
    ensures var next := Find(s, delims, offset, true);
            SplitFrom(s, delims, offset, limit) ==
              if next == |s| || limit == Some(1) then [s[offset..]]
              else [s[offset..next]] + SplitFrom(s, delims, next + 1, Fewer(limit))
  {
  }

  /** The tokens so far, and then the pieces from `offset` on, are all the pieces. */
  ghost predicate SplitSoFar(all: seq<string>, tokens: seq<string>, s: string, delims: string, offset: nat,
                             limit: Option<nat>)
  {
    offset <= |s| && all == tokens + SplitFrom(s, delims, offset, limit)
  }

  lemma SplitStarts(s: string, delims: string, limit: Option<nat>)
    requires limit != Some(0)
    ensures SplitSoFar(Split(s, delims, limit), [], s, delims, 0, limit)
  {
    hide SplitFrom;
  }

  /** One turn of the loop: what is split off goes to the tokens. */
  lemma SplitTurn(all: seq<string>, tokens: seq<string>, s: string, delims: string, offset: nat, limit: Option<nat>)
    requires offset <= |s| && SplitSoFar(all, tokens, s, delims, offset, limit)
    ensures var next := Find(s, delims, offset, true);
            if next == |s| || limit == Some(1) then all == tokens + [s[offset..]]
            else SplitSoFar(all, tokens + [s[offset..next]], s, delims, next + 1, Fewer(limit))
  {
    hide SplitFrom, Find;
    SplitFromUnfolds(s, delims, offset, limit);
  }

  method SplitLoop(s: string, delims: string, maxTokens: Option<nat>) returns (tokens: seq<string>)
    ensures tokens == Split(s, delims, maxTokens)
  {
    hide Split, Find, SplitSoFar;
    ghost var all := Split(s, delims, maxTokens);
    if maxTokens == Some(0) {
      NoPieces(s, delims);
      return [];
    }
    tokens := [];
    var offset: nat := 0;
    ghost var limit := maxTokens;
    SplitStarts(s, delims, maxTokens);
    while true
      invariant offset <= |s| && SplitSoFar(all, tokens, s, delims, offset, limit)
      invariant maxTokens.Some? == limit.Some?
      invariant limit.Some? ==> limit.value > 0 && |tokens| == maxTokens.value - limit.value
      decreases |s| - offset
    {
      SplitTurn(all, tokens, s, delims, offset, limit);
      var next := Find(s, delims, offset, true);
      if next == |s| || (maxTokens.Some? && |tokens| == maxTokens.value - 1) {
        tokens := tokens + [s[offset..]];
        break;
      }
      tokens := tokens + [s[offset..next]];
      offset := next + 1;
      limit := Fewer(limit);
    }
  }

  lemma NoPieces(s: string, delims: string)
    ensures Split(s, delims, Some(0)) == []
  {
  }

  method TokenizeLoop(s: string, delims: string) returns (tokens: seq<string>)
    ensures tokens == Tokenize(s, delims)
  {
    tokens := [];
    var offset: nat := 0;
    while true
      invariant offset <= |s|
      invariant Tokenize(s, delims) == tokens + TokenizeFrom(s, delims, offset)
      decreases |s| - offset
    {
      var nonDelim := Find(s, delims, offset, false);
      if nonDelim == |s| {
        break;
      }
      var delim := Find(s, delims, nonDelim, true);
      if delim == |s| {
        tokens := tokens + [s[nonDelim..]];
        break;
      }
      tokens := tokens + [s[nonDelim..delim]];
      offset := delim;
    }
  }

  method JoinLoop(separator: string, parts: seq<string>) returns (result: string)
    ensures result == Join(separator, parts)
  {
    result := "";
    var i := 0;
    while i < |parts|
      invariant 0 <= i <= |parts|
      invariant Join(separator, parts) == result + Join(separator, parts[i..])
    {
      result := result + parts[i];
      i := i + 1;
      if i < |parts| {
        result := result + separator;
      }
    }
  }

  // ---------------------------------------------------------------------
  // Properties
  // ---------------------------------------------------------------------

  /** Tokens are never empty and hold no delimiter. */
  lemma {:induction false} TokensAreClean(s: string, delims: string, offset: nat)
    requires offset <= |s|
    ensures forall k :: 0 <= k < |TokenizeFrom(s, delims, offset)| ==>
              TokenizeFrom(s, delims, offset)[k] != "" && Avoids(TokenizeFrom(s, delims, offset)[k], delims)
    decreases |s| - offset
  {
    var start := Find(s, delims, offset, false);
    if start < |s| {
      var end := Find(s, delims, start, true);
      if end < |s| {
        TokensAreClean(s, delims, end);
      }
    }
  }

  lemma JoinOne(separator: string, part: string)
    ensures Join(separator, [part]) == part
  {
  }

  lemma JoinMore(separator: string, part: string, parts: seq<string>)
    requires parts != []
    ensures Join(separator, [part] + parts) == part + separator + Join(separator, parts)
  {
    assert ([part] + parts)[1..] == parts;
  }

  /** With one delimiter, joining the pieces of an unlimited or limited split gives the string back. */
  lemma {:induction false} JoinSplitFrom(s: string, delim: char, offset: nat, limit: Option<nat>)
    requires offset <= |s| && limit != Some(0)
    ensures SplitFrom(s, [delim], offset, limit) != []
    ensures Join([delim], SplitFrom(s, [delim], offset, limit)) == s[offset..]
    decreases |s| - offset
  {
    hide SplitFrom, Find, Join;
    var next := Find(s, [delim], offset, true);
    SplitFromUnfolds(s, [delim], offset, limit);
    if next < |s| && limit != Some(1) {
      var rest := Fewer(limit);
      JoinSplitFrom(s, delim, next + 1, rest);
      JoinMore([delim], s[offset..next], SplitFrom(s, [delim], next + 1, rest));
      assert s[next] == delim;
      assert s[offset..] == s[offset..next] + [delim] + s[next + 1..];
    } else {
      JoinOne([delim], s[offset..]);
    }
  }

  lemma JoinSplit(s: string, delim: char, limit: Option<nat>)
    requires limit != Some(0)
    ensures Join([delim], Split(s, [delim], limit)) == s
  {
    JoinSplitFrom(s, delim, 0, limit);
    assert s[0..] == s;
  }

  lemma FindAt(s: string, delims: string, from: nat, at: nat)
    requires from <= at <= |s|
    requires forall j :: from <= j < at ==> s[j] !in delims
    requires at < |s| ==> s[at] in delims
    ensures Find(s, delims, from, true) == at
  {
  }

  /** The first piece of a string from `from` on, when it ends at a delimiter or the end. */
  lemma SplitPiece(s: string, delim: char, from: nat, piece: string)
    requires from + |piece| <= |s| && s[from..from + |piece|] == piece && Avoids(piece, [delim])
    requires from + |piece| < |s| ==> s[from + |piece|] == delim
    ensures SplitFrom(s, [delim], from, None) ==
              if from + |piece| == |s| then [piece]
              else [piece] + SplitFrom(s, [delim], from + |piece| + 1, None)
  {
    hide SplitFrom, Find;
    var at := from + |piece|;
    forall j | from <= j < at ensures s[j] !in [delim] {
      assert s[j] == piece[j - from];
    }
    FindAt(s, [delim], from, at);
    SplitFromUnfolds(s, [delim], from, None);
    assert at == |s| ==> s[from..] == s[from..at];
  }

  /** Splitting a join of clean parts gives the parts back, wherever it starts. */
  lemma {:induction false} SplitJoinFrom(before: string, delim: char, parts: seq<string>)
    requires parts != []
    requires forall k :: 0 <= k < |parts| ==> Avoids(parts[k], [delim])
    ensures SplitFrom(before + Join([delim], parts), [delim], |before|, None) == parts
    decreases parts
  {
    hide SplitFrom, Avoids;
    var first, s := parts[0], before + Join([delim], parts);
    if |parts| == 1 {
      SplitPiece(s, delim, |before|, first);
    } else {
      var before' := before + first + [delim];
      assert s == before' + Join([delim], parts[1..]);
      SplitJoinFrom(before', delim, parts[1..]);
      SplitPiece(s, delim, |before|, first);
    }
  }

  lemma SplitJoin(delim: char, parts: seq<string>)
    requires parts != []
    requires forall k :: 0 <= k < |parts| ==> Avoids(parts[k], [delim])
    ensures Split(Join([delim], parts), [delim], None) == parts
  {
    SplitJoinFrom("", delim, parts);
    assert "" + Join([delim], parts) == Join([delim], parts);
  }

  /** Pieces hold no delimiter unless the limit cut the split short, which leaves at
      most that many pieces. */
  lemma {:induction false} PiecesAreClean(s: string, delims: string, offset: nat, limit: Option<nat>)
    requires offset <= |s| && limit != Some(0)
    ensures var pieces := SplitFrom(s, delims, offset, limit);
            && |pieces| >= 1 && (limit.Some? ==> |pieces| <= limit.value)
            && (forall k :: 0 <= k < |pieces| - 1 ==> Avoids(pieces[k], delims))
            && (limit.None? || |pieces| < limit.value ==> Avoids(pieces[|pieces| - 1], delims))
    decreases |s| - offset
  {
    var next := Find(s, delims, offset, true);
    if next < |s| && limit != Some(1) {
      PiecesAreClean(s, delims, next + 1, Fewer(limit));
    }
  }

  /** Pieces hold only characters of the string. */
  lemma {:induction false} PiecesAreParts(s: string, delims: string, offset: nat, limit: Option<nat>)
    requires offset <= |s|
    ensures forall k, c :: 0 <= k < |SplitFrom(s, delims, offset, limit)| && c in SplitFrom(s, delims, offset, limit)[k] ==>
              c in s
    decreases |s| - offset
  {
    var next := Find(s, delims, offset, true);
    if next < |s| && limit != Some(1) {
      PiecesAreParts(s, delims, next + 1, Fewer(limit));
    }
  }
}
