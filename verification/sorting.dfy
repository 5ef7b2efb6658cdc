/** The stable sort behind `Array.prototype.sort` with a comparator, written
    as an insertion sort over an abstract "sorts no later than" relation. */
module Sorting {

  /** `le` is total and transitive: what a consistent comparator provides. */
  ghost predicate TotalPreorder<T(!new)>(le: (T, T) -> bool) {
    && (forall x, y :: le(x, y) || le(y, x))
    && (forall x, y, z :: le(x, y) && le(y, z) ==> le(x, z))
  }

  /** Every element sorts no later than every element after it. */
  ghost predicate SortedBy<T>(le: (T, T) -> bool, xs: seq<T>) {
    forall i, j :: 0 <= i < j < |xs| ==> le(xs[i], xs[j])
  }

  /** Places `x` before the first element it sorts no later than; elements
      that compare equal to `x` and are already in `ys` stay after it. */
  function Insert<T(!new)>(x: T, ys: seq<T>, le: (T, T) -> bool): (r: seq<T>)
    ensures multiset(r) == multiset(ys) + multiset{x}
  {
    if ys == [] then [x]
    else if le(x, ys[0]) then [x] + ys
    else
      assert ys == [ys[0]] + ys[1..];
      [ys[0]] + Insert(x, ys[1..], le)
  }

  /** Inserting into a sorted sequence keeps it sorted. */
  lemma {:induction false} InsertSorted<T(!new)>(x: T, ys: seq<T>, le: (T, T) -> bool)
    requires TotalPreorder(le) && SortedBy(le, ys)
    ensures SortedBy(le, Insert(x, ys, le))
  {
    if ys != [] {
      if le(x, ys[0]) {
        forall j | 0 <= j < |ys|
          ensures le(x, ys[j])
        {
          assert j == 0 || le(ys[0], ys[j]);
        }
      } else {
        var rest := Insert(x, ys[1..], le);
        InsertSorted(x, ys[1..], le);
        assert ys == [ys[0]] + ys[1..];
        forall j | 0 <= j < |rest|
          ensures le(ys[0], rest[j])
        {
          assert rest[j] in multiset(rest);
          if rest[j] != x {
            assert rest[j] in ys[1..];
          }
        }
      }
    }
  }

  /** Insertion sort: the result is a permutation of the input, and sorted
      whenever `le` is a total preorder. */
  function Sort<T(!new)>(xs: seq<T>, le: (T, T) -> bool): (r: seq<T>)
    ensures multiset(r) == multiset(xs)
    ensures |r| == |xs|
    ensures TotalPreorder(le) ==> SortedBy(le, r)
  {
    if xs == [] then []
    else
      assert xs == [xs[0]] + xs[1..];
      var sorted := Sort(xs[1..], le);
      assert TotalPreorder(le) ==> SortedBy(le, Insert(xs[0], sorted, le)) by {
        if TotalPreorder(le) {
          InsertSorted(xs[0], sorted, le);
        }
      }
      Insert(xs[0], sorted, le)
  }
}
