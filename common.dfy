/** Option and Result wrappers used for C#'s nullable values and thrown exceptions. */
module Common {

  /** A value that C# may leave `null`. */
  datatype Option<+T> = None | Some(value: T)

  /** An operation that either returns a value or throws. */
  datatype Result<+T, +E> = Ok(value: T) | Err(error: E)

  /** The elements of `s` that are present, in order (LINQ's filter on non-null). */
  function Somes<T>(s: seq<Option<T>>): (r: seq<T>)
    ensures |r| <= |s|
  {
    if s == [] then []
    else if s[0].Some? then [s[0].value] + Somes(s[1..])
    else Somes(s[1..])
  }

  lemma SomesAppend<T>(s: seq<Option<T>>, x: Option<T>)
    ensures Somes(s + [x]) == Somes(s) + (if x.Some? then [x.value] else [])
  {
    if s != [] {
      assert (s + [x])[1..] == s[1..] + [x];
      SomesAppend(s[1..], x);
    }
  }

  /** No element of `s` occurs twice. */
  predicate NoDuplicates<T(==)>(s: seq<T>)
  {
    forall i, j :: 0 <= i < j < |s| ==> s[i] != s[j]
  }
}
