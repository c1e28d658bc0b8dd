/** Optional values and results, shared by every module. */
module Wrappers {

  datatype Option<+T> = None | Some(value: T)

  datatype Result<+T, +E> = Ok(value: T) | Err(error: E)

  /** The set of elements of a sequence. */
  function Elements<T(==)>(s: seq<T>): set<T> {
    set x | x in s
  }

  /** No element occurs twice. */
  ghost predicate Distinct<T>(s: seq<T>) {
    forall i, j :: 0 <= i < j < |s| ==> s[i] != s[j]
  }

  /** How concatenations are grouped does not matter. */
  lemma Glue<T>(a: seq<T>, b: seq<T>, c: seq<T>)
    ensures a + (b + c) == (a + b) + c
  {
  }

  /** A result set in some order: the order of the rows of a SELECT and of the
      entries of a hash map is not specified, so it is left open here. */
  method Listed<T(==)>(s: set<T>) returns (rows: seq<T>)
    ensures Distinct(rows)
    ensures Elements(rows) == s
    ensures |rows| == |s|
  {
    rows := [];
    var rest := s;
    while rest != {}
      invariant rest <= s
      invariant Elements(rows) == s - rest
      invariant Distinct(rows)
      invariant |rows| + |rest| == |s|
      decreases rest
    {
      var x :| x in rest;
      assert x !in Elements(rows);
      assert Elements(rows + [x]) == Elements(rows) + {x};
      rows, rest := rows + [x], rest - {x};
    }
  }
}
