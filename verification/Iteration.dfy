/** Go's `range` over a map visits the entries in an order the program cannot know. Loops over maps
    are written with `Pick`, whose contract leaves the choice of the next element open. */
module Iteration {

  method Pick<T>(rest: set<T>) returns (x: T)
    requires rest != {}
    ensures x in rest
  {
    x :| x in rest;
  }

  ghost predicate NoDuplicates<T>(list: seq<T>) {
    forall i, j :: 0 <= i < j < |list| ==> list[i] != list[j]
  }

  /** The elements of a set, each once, in an unknown order. */
  method Listed<T(==)>(elements: set<T>) returns (list: seq<T>)
    ensures NoDuplicates(list)
    ensures forall x :: x in list <==> x in elements
  {
    list := [];
    var rest := elements;
    while rest != {}
      invariant NoDuplicates(list)
      invariant rest <= elements
      invariant forall x :: x in list <==> x in elements && x !in rest
    {
      var x := Pick(rest);
      assert x !in list;
      list := list + [x];
      rest := rest - {x};
    }
  }
}
