/** Sequences that are kept in the order of a key. */
module Sorting {
  ghost predicate Sorted<T(!new)>(xs: seq<T>, key: T -> int) {
    forall i, j :: 0 <= i < j < |xs| ==> key(xs[i]) < key(xs[j])
  }

  /** Inserts x behind all smaller keys. */
  method Insert<T(!new)>(xs: seq<T>, key: T -> int, x: T) returns (longer: seq<T>)
    requires Sorted(xs, key) && forall i :: 0 <= i < |xs| ==> key(xs[i]) != key(x)
    ensures Sorted(longer, key)
    ensures forall y :: y in longer <==> y in xs || y == x
  {
    var p := 0;
    while p < |xs| && key(xs[p]) < key(x)
      invariant 0 <= p <= |xs|
      invariant forall i :: 0 <= i < p ==> key(xs[i]) < key(x)
    {
      p := p + 1;
    }
    longer := xs[..p] + [x] + xs[p..];
  }
}
