/** Optional and fallible values, used throughout the model. */
module Common {

  datatype Option<+T> = None | Some(value: T)

  /** A computation that may fail. Error texts are not part of the model. */
  datatype Try<+T> = Ok(value: T) | Error

  /** `isalnum` in the C locale. */
  predicate IsAlnum(c: char) {
    'A' <= c <= 'Z' || 'a' <= c <= 'z' || '0' <= c <= '9'
  }

  function RemoveAt<T>(s: seq<T>, i: nat): seq<T>
    requires i < |s|
  {
    s[..i] + s[i + 1..]
  }

  lemma SubsetIsSmaller<T>(a: set<T>, b: set<T>)
    requires a <= b
    ensures |a| <= |b|
  {
    assert b == a + (b - a);
  }
}
