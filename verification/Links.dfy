/**
  What the kernel's two kinds of linked lists have in common: the run queue through `next` fields and the
  children of a node through `sibling` fields.
*/
module Links {

  const NIL: int := -1

  /** The `i`-th element, NIL behind the last. */
  function At(q: seq<int>, i: int): int { if 0 <= i < |q| then q[i] else NIL }

  ghost predicate Distinct(q: seq<int>) { forall i, j :: 0 <= i < j < |q| ==> q[i] != q[j] }
}
