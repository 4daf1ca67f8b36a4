// Result shapes shared by every component model.
module Outcomes {
  // Python's `None`-or-value.
  datatype Option<+T> = None | Some(value: T)

  // A call that returns a value or raises; the error names which check raised.
  datatype Result<+T, +E> = Success(value: T) | Failure(error: E)

  lemma HeadAndTail<T>(s: seq<T>)
    requires s != []
    ensures s == [s[0]] + s[1..]
  {
  }

  lemma SubsetSize<T>(a: set<T>, b: set<T>)
    requires a <= b
    ensures |a| <= |b| && (a != b ==> |a| < |b|)
  {
    assert b == a + (b - a);
  }
}
