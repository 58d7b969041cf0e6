/** Array difference and union, as in clients/typescript/src/util/sets.ts. */
module Sets {

  /** The elements of `a` that do not occur in `b`, in order and with repetitions kept. */
  function Difference<T(==,!new)>(a: seq<T>, b: seq<T>): (r: seq<T>)
    ensures forall x :: x in r <==> x in a && x !in b
  {
    if a == [] then []
    else if a[0] in b then Difference(a[1..], b)
    else [a[0]] + Difference(a[1..], b)
  }

  /** First occurrences only: the insertion order of a JavaScript `Set`. */
  function Distinct<T(==,!new)>(a: seq<T>): (r: seq<T>)
    ensures forall x :: x in r <==> x in a
    ensures forall i, j :: 0 <= i < j < |r| ==> r[i] != r[j]
  {
    if a == [] then []
    else
      var last := a[|a| - 1];
      var front := Distinct(a[..|a| - 1]);
      if last in front then front else front + [last]
  }

  function Union<T(==,!new)>(a: seq<T>, b: seq<T>): (r: seq<T>)
    ensures forall x :: x in r <==> x in a || x in b
    ensures forall i, j :: 0 <= i < j < |r| ==> r[i] != r[j]
  {
    Distinct(a + b)
  }

  /** Each element stays in its place or goes, on its own. */
  lemma {:induction false} DifferenceKeepsOrder<T(!new)>(a: seq<T>, x: T, b: seq<T>, c: seq<T>)
    ensures Difference(a + [x] + b, c) == Difference(a, c) + (if x in c then [] else [x]) + Difference(b, c)
  {
    if a == [] {
      assert (a + [x] + b)[0] == x && (a + [x] + b)[1..] == b;
    } else {
      assert (a + [x] + b)[0] == a[0] && (a + [x] + b)[1..] == a[1..] + [x] + b;
      DifferenceKeepsOrder(a[1..], x, b, c);
    }
  }

  /** The elements of the first list come first, each where it was first. */
  lemma {:induction false} UnionKeepsOrder<T(!new)>(a: seq<T>, b: seq<T>)
    ensures Distinct(a) <= Union(a, b)
  {
    if b == [] {
      assert a + b == a;
    } else {
      assert (a + b)[..|a + b| - 1] == a + b[..|b| - 1];
      UnionKeepsOrder(a, b[..|b| - 1]);
    }
  }

  lemma {:induction false} DistinctStays<T(!new)>(a: seq<T>)
    requires forall i, j :: 0 <= i < j < |a| ==> a[i] != a[j]
    ensures Distinct(a) == a
  {
    if a != [] {
      assert a == a[..|a| - 1] + [a[|a| - 1]];
      DistinctStays(a[..|a| - 1]);
    }
  }
}
