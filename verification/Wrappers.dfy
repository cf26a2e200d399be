/**
 A value that may be absent, and a step along a sequence.
 */
module Wrappers {
  datatype Option<+T> = None | Some(value: T)

  lemma {:induction false} UpTo<T>(xs: seq<T>, i: nat)
    requires i < |xs|
    ensures xs[..i + 1] == xs[..i] + [xs[i]]
  {
  }
}
