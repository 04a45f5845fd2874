/** What an insertion sort should give, on sequences: the specification the queue sort is proved
    against, and its properties. */
module StableSort {

  /** `x` goes behind the last element that does not have to come after it. */
  function Insert<T>(cmp: (T, T) -> int, xs: seq<T>, x: T): (r: seq<T>)
    ensures |r| == |xs| + 1
  {
    if xs == [] then [x]
    else
      var last := xs[|xs| - 1];
      if cmp(last, x) <= 0 then xs + [x] else Insert(cmp, xs[..|xs| - 1], x) + [last]
  }

  function Sorted<T>(cmp: (T, T) -> int, xs: seq<T>): (r: seq<T>)
    ensures |r| == |xs|
  {
    if xs == [] then [] else Insert(cmp, Sorted(cmp, xs[..|xs| - 1]), xs[|xs| - 1])
  }

  // ----- a permutation, for every comparator -----

  lemma AllButLast<T>(xs: seq<T>)
    requires xs != []
    ensures multiset(xs) == multiset(xs[..|xs| - 1]) + multiset{xs[|xs| - 1]}
  {
    assert xs == xs[..|xs| - 1] + [xs[|xs| - 1]];
  }

  lemma Swapped<T>(m: multiset<T>, x: T, y: T)
    ensures m + multiset{x} + multiset{y} == m + multiset{y} + multiset{x}
  {
  }

  lemma {:induction false} InsertPermutes<T>(cmp: (T, T) -> int, xs: seq<T>, x: T)
    ensures multiset(Insert(cmp, xs, x)) == multiset(xs) + multiset{x}
    decreases |xs|
  {
    if xs != [] {
      var n := |xs| - 1;
      InsertPermutes(cmp, xs[..n], x);
      AllButLast(xs);
      Swapped(multiset(xs[..n]), x, xs[n]);
    }
  }

  lemma {:induction false} SortPermutes<T>(cmp: (T, T) -> int, xs: seq<T>)
    ensures multiset(Sorted(cmp, xs)) == multiset(xs)
    decreases |xs|
  {
    if xs != [] {
      var n := |xs| - 1;
      SortPermutes(cmp, xs[..n]);
      InsertPermutes(cmp, Sorted(cmp, xs[..n]), xs[n]);
      AllButLast(xs);
    }
  }

  // ----- in order and stable, for a total preorder -----

  /** Any two elements of `s` can be compared, and comparisons chain. */
  ghost predicate TotalPreorder<T>(cmp: (T, T) -> int, s: set<T>) {
    && (forall a, b | a in s && b in s :: cmp(a, b) <= 0 || cmp(b, a) <= 0)
    && (forall a, b, c | a in s && b in s && c in s :: cmp(a, b) <= 0 && cmp(b, c) <= 0 ==> cmp(a, c) <= 0)
  }

  ghost predicate Within<T>(xs: seq<T>, s: set<T>) { forall i | 0 <= i < |xs| :: xs[i] in s }

  ghost predicate InOrder<T>(cmp: (T, T) -> int, xs: seq<T>) {
    forall i, j | 0 <= i < j < |xs| :: cmp(xs[i], xs[j]) <= 0
  }

  /** Nothing in `xs` has to come after `y`. */
  ghost predicate AllBefore<T>(cmp: (T, T) -> int, xs: seq<T>, y: T) {
    forall i | 0 <= i < |xs| :: cmp(xs[i], y) <= 0
  }

  lemma InOrderAppend<T>(cmp: (T, T) -> int, xs: seq<T>, y: T)
    requires InOrder(cmp, xs) && AllBefore(cmp, xs, y)
    ensures InOrder(cmp, xs + [y])
  {
  }

  lemma InOrderPrefix<T>(cmp: (T, T) -> int, xs: seq<T>)
    requires InOrder(cmp, xs) && xs != []
    ensures InOrder(cmp, xs[..|xs| - 1]) && AllBefore(cmp, xs[..|xs| - 1], xs[|xs| - 1])
  {
  }

  lemma {:induction false} InsertBefore<T>(cmp: (T, T) -> int, xs: seq<T>, x: T, y: T)
    requires AllBefore(cmp, xs, y) && cmp(x, y) <= 0
    ensures AllBefore(cmp, Insert(cmp, xs, x), y)
    decreases |xs|
  {
    if xs != [] { InsertBefore(cmp, xs[..|xs| - 1], x, y); }
  }

  lemma {:induction false} InsertInOrder<T>(cmp: (T, T) -> int, s: set<T>, xs: seq<T>, x: T)
    requires TotalPreorder(cmp, s) && Within(xs, s) && x in s && InOrder(cmp, xs)
    ensures InOrder(cmp, Insert(cmp, xs, x))
    decreases |xs|
  {
    if xs != [] {
      var n := |xs| - 1;
      InOrderPrefix(cmp, xs);
      if cmp(xs[n], x) <= 0 {
        assert AllBefore(cmp, xs, x) by {
          forall i | 0 <= i < |xs| ensures cmp(xs[i], x) <= 0 {
            if i < n { assert cmp(xs[i], xs[n]) <= 0; }
          }
        }
        InOrderAppend(cmp, xs, x);
      } else {
        InsertInOrder(cmp, s, xs[..n], x);
        InsertBefore(cmp, xs[..n], x, xs[n]);
        InOrderAppend(cmp, Insert(cmp, xs[..n], x), xs[n]);
      }
    }
  }

  /** The elements of `xs` that compare equal to `y`, in their order. */
  function Class<T>(cmp: (T, T) -> int, xs: seq<T>, y: T): seq<T> {
    if xs == [] then []
    else
      var n := |xs| - 1;
      var front := Class(cmp, xs[..n], y);
      if cmp(xs[n], y) <= 0 && cmp(y, xs[n]) <= 0 then front + [xs[n]] else front
  }

  lemma ClassAppend<T>(cmp: (T, T) -> int, xs: seq<T>, z: T, y: T)
    ensures Class(cmp, xs + [z], y)
         == Class(cmp, xs, y) + (if cmp(z, y) <= 0 && cmp(y, z) <= 0 then [z] else [])
  {
    assert (xs + [z])[..|xs|] == xs;
    assert Class(cmp, xs, y) + [] == Class(cmp, xs, y);
  }

  /** Two elements that compare unequal do not belong to one class, so their order does not matter to it. */
  lemma ClassSwap<T>(cmp: (T, T) -> int, s: set<T>, front: seq<T>, inserted: seq<T>, last: T, x: T, y: T)
    requires TotalPreorder(cmp, s) && last in s && x in s && y in s && cmp(last, x) > 0
    requires Class(cmp, inserted, y) == Class(cmp, front + [x], y)
    ensures Class(cmp, inserted + [last], y) == Class(cmp, front + [last] + [x], y)
  {
    ClassAppend(cmp, inserted, last, y);
    ClassAppend(cmp, front, x, y);
    ClassAppend(cmp, front + [last], x, y);
    ClassAppend(cmp, front, last, y);
    assert Class(cmp, front, y) + [] == Class(cmp, front, y);
  }

  lemma {:induction false} InsertStable<T>(cmp: (T, T) -> int, s: set<T>, xs: seq<T>, x: T, y: T)
    requires TotalPreorder(cmp, s) && Within(xs, s) && x in s && y in s
    ensures Class(cmp, Insert(cmp, xs, x), y) == Class(cmp, xs + [x], y)
    decreases |xs|
  {
    if xs == [] {
      assert xs + [x] == [x];
    } else {
      var n := |xs| - 1;
      var front, last := xs[..n], xs[n];
      if cmp(last, x) > 0 {
        InsertStable(cmp, s, front, x, y);
        assert xs == front + [last];
        ClassSwap(cmp, s, front, Insert(cmp, front, x), last, x, y);
      }
    }
  }

  lemma SortWithin<T>(cmp: (T, T) -> int, s: set<T>, xs: seq<T>)
    requires Within(xs, s)
    ensures Within(Sorted(cmp, xs), s)
  {
    SortPermutes(cmp, xs);
    var r := Sorted(cmp, xs);
    forall i | 0 <= i < |r| ensures r[i] in s {
      assert r[i] in multiset(r) && r[i] in multiset(xs);
    }
  }

  /** The sort orders its elements. */
  lemma {:induction false} SortOrders<T>(cmp: (T, T) -> int, s: set<T>, xs: seq<T>)
    requires TotalPreorder(cmp, s) && Within(xs, s)
    ensures InOrder(cmp, Sorted(cmp, xs))
    decreases |xs|
  {
    if xs != [] {
      var n := |xs| - 1;
      SortOrders(cmp, s, xs[..n]);
      SortWithin(cmp, s, xs[..n]);
      InsertInOrder(cmp, s, Sorted(cmp, xs[..n]), xs[n]);
    }
  }

  /** Elements that compare equal keep their order. */
  lemma {:induction false} SortIsStable<T>(cmp: (T, T) -> int, s: set<T>, xs: seq<T>, y: T)
    requires TotalPreorder(cmp, s) && Within(xs, s) && y in s
    ensures Class(cmp, Sorted(cmp, xs), y) == Class(cmp, xs, y)
    decreases |xs|
  {
    if xs != [] {
      var n := |xs| - 1;
      var front := Sorted(cmp, xs[..n]);
      SortIsStable(cmp, s, xs[..n], y);
      SortWithin(cmp, s, xs[..n]);
      InsertStable(cmp, s, front, xs[n], y);
      ClassAppend(cmp, front, xs[n], y);
    }
  }

  // ----- a run of the inner loop -----

  lemma InsertBehind<T>(cmp: (T, T) -> int, front: seq<T>, last: T, x: T)
    requires cmp(last, x) > 0
    ensures Insert(cmp, front + [last], x) == Insert(cmp, front, x) + [last]
  {
    assert (front + [last])[..|front|] == front;
  }

  /** Walking back over an element that must come after `x` does not change where `x` belongs. */
  lemma InsertWalk<T>(cmp: (T, T) -> int, front: seq<T>, y: T, back: seq<T>, x: T, whole: seq<T>)
    requires cmp(y, x) > 0 && whole == Insert(cmp, front + [y], x) + back
    ensures whole == Insert(cmp, front, x) + ([y] + back)
  {
    InsertBehind(cmp, front, y, x);
    Regroup(Insert(cmp, front, x), y, back);
  }

  lemma Regroup<T>(a: seq<T>, y: T, b: seq<T>)
    ensures a + [y] + b == a + ([y] + b)
  {
  }
}
