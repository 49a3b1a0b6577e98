/** Python's stable `sorted`, as insertion from the right under a comparison. */
module Sorting {

  ghost predicate TotalPreorder<T(!new)>(leq: (T, T) -> bool) {
    && (forall a, b :: leq(a, b) || leq(b, a))
    && forall a, b, c :: leq(a, b) && leq(b, c) ==> leq(a, c)
  }

  ghost predicate Sorted<T>(xs: seq<T>, leq: (T, T) -> bool) {
    forall i, j | 0 <= i < j < |xs| :: leq(xs[i], xs[j])
  }

  function Insert<T>(x: T, xs: seq<T>, leq: (T, T) -> bool): seq<T> {
    if xs == [] || leq(x, xs[0]) then [x] + xs else [xs[0]] + Insert(x, xs[1..], leq)
  }

  function Sort<T>(xs: seq<T>, leq: (T, T) -> bool): seq<T> {
    if xs == [] then [] else Insert(xs[0], Sort(xs[1..], leq), leq)
  }

  lemma {:induction false} InsertSorts<T(!new)>(x: T, xs: seq<T>, leq: (T, T) -> bool)
    requires TotalPreorder(leq) && Sorted(xs, leq)
    ensures Sorted(Insert(x, xs, leq), leq) && multiset(Insert(x, xs, leq)) == multiset{x} + multiset(xs)
  {
    if xs != [] {
      assert xs == [xs[0]] + xs[1..];
      if !leq(x, xs[0]) {
        InsertSorts(x, xs[1..], leq);
        LeastStaysLeast(x, xs, Insert(x, xs[1..], leq), leq);
      }
    }
  }

  lemma LeastStaysLeast<T(!new)>(x: T, xs: seq<T>, rest: seq<T>, leq: (T, T) -> bool)
    requires xs != [] && Sorted(xs, leq) && leq(xs[0], x) && multiset(rest) == multiset{x} + multiset(xs[1..])
    ensures forall k | 0 <= k < |rest| :: leq(xs[0], rest[k])
  {
    forall k | 0 <= k < |rest| ensures leq(xs[0], rest[k]) {
      assert rest[k] in multiset(rest);
      if rest[k] != x {
        assert rest[k] in xs[1..];
      }
    }
  }

  /** Sorting orders the elements and keeps each as often as it was. */
  lemma {:induction false} SortSorts<T(!new)>(xs: seq<T>, leq: (T, T) -> bool)
    requires TotalPreorder(leq)
    ensures Sorted(Sort(xs, leq), leq) && multiset(Sort(xs, leq)) == multiset(xs)
    ensures |Sort(xs, leq)| == |xs| && forall x :: x in Sort(xs, leq) <==> x in xs
  {
    if xs != [] {
      SortSorts(xs[1..], leq);
      InsertSorts(xs[0], Sort(xs[1..], leq), leq);
      assert xs == [xs[0]] + xs[1..];
    }
    forall x ensures x in Sort(xs, leq) <==> x in xs {
      assert x in multiset(Sort(xs, leq)) <==> x in multiset(xs);
    }
    assert |multiset(Sort(xs, leq))| == |multiset(xs)|;
  }
}
