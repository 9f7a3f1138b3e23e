/** Tokens and pieces of a string. */
module Tokens {
  import opened Common
  import opened Strings

  ghost function NonEmpty(parts: seq<string>): seq<string> {
    if parts == [] then [] else (if parts[0] == "" then [] else [parts[0]]) + NonEmpty(parts[1..])
  }

  lemma FromDelimiter(s: string, delims: string, offset: nat)
    requires offset < |s| && s[offset] in delims
    ensures TokenizeFrom(s, delims, offset) == TokenizeFrom(s, delims, offset + 1)
  {
    assert Find(s, delims, offset, false) == Find(s, delims, offset + 1, false);
  }

  /** Tokens are the pieces of a split that are not empty. */
  lemma {:induction false} TokensArePieces(s: string, delims: string, offset: nat)
    requires offset <= |s|
    ensures TokenizeFrom(s, delims, offset) == NonEmpty(SplitFrom(s, delims, offset, None))
    decreases |s| - offset
  {
    hide TokenizeFrom;
    var next := Find(s, delims, offset, true);
    SplitFromUnfolds(s, delims, offset, None);
    if next < |s| {
      TokensArePieces(s, delims, next + 1);
      FromDelimiter(s, delims, next);
    }
    if next == offset {
      if offset == |s| {
        NoTokensAtEnd(s, delims);
      }
    } else {
      TokenUnfolds(s, delims, offset);
    }
  }

  lemma NoTokensAtEnd(s: string, delims: string)
    ensures TokenizeFrom(s, delims, |s|) == []
  {
  }

  lemma TokenUnfolds(s: string, delims: string, offset: nat)
    requires offset < |s| && s[offset] !in delims
    ensures var end := Find(s, delims, offset, true);
            TokenizeFrom(s, delims, offset) ==
            if end == |s| then [s[offset..]] else [s[offset..end]] + TokenizeFrom(s, delims, end)
  {
  }
}
