/** The circular doubly linked queue and its stable insertion sort.  A queue is a ring of nodes
    whose first node is the sentinel; the ring is kept as a ghost sequence. */
module NgxQueue {
  import opened StableSort

  class Node {
    var prev: Node
    var next: Node

    /** `ngx_queue_init`. */
    constructor ()
      ensures prev == this && next == this && Ring([this])
    {
      prev, next := this, this;
    }
  }

  function After(i: nat, n: nat): nat { if i + 1 == n then 0 else i + 1 }
  function Before(i: nat, n: nat): int { if i == 0 then n - 1 else i - 1 }

  ghost predicate Distinct<T>(r: seq<T>) { forall i, j | 0 <= i < j < |r| :: r[i] != r[j] }

  /** Node `i` of the ring points to its neighbours. */
  ghost predicate Linked(r: seq<Node>, i: nat)
    requires i < |r|
    reads r
  {
    r[i].next == r[After(i, |r|)] && r[i].prev == r[Before(i, |r|)]
  }

  /** The nodes of `r`, all different, linked in this order, the last one back to the first. */
  ghost predicate Ring(r: seq<Node>)
    reads r
  {
    |r| > 0 && Distinct(r) && forall i | 0 <= i < |r| :: Linked(r, i)
  }

  lemma DistinctInsert<T>(r: seq<T>, k: nat, x: T)
    requires Distinct(r) && k <= |r| && x !in r
    ensures Distinct(r[..k] + [x] + r[k..])
  {
  }

  lemma DistinctRemove<T>(r: seq<T>, k: nat)
    requires Distinct(r) && k < |r|
    ensures Distinct(r[..k] + r[k + 1..])
  {
  }

  /** Node `i` and the one after it point to each other. */
  ghost predicate Coupled(r: seq<Node>, i: nat)
    requires i < |r|
    reads r
  {
    r[i].next == r[After(i, |r|)] && r[After(i, |r|)].prev == r[i]
  }

  lemma InsertedRing(r: seq<Node>, k: nat, x: Node)
    requires k < |r| && Distinct(r) && x !in r
    requires forall i | 0 <= i < |r| && i != k :: Coupled(r, i)
    requires r[k].next == x && x.prev == r[k] && x.next == r[After(k, |r|)] && r[After(k, |r|)].prev == x
    ensures Ring(r[..k + 1] + [x] + r[k + 1..])
  {
    var s := r[..k + 1] + [x] + r[k + 1..];
    DistinctInsert(r, k + 1, x);
    forall i | 0 <= i < |s| ensures Linked(s, i) {
      if i <= k {
        assert s[i] == r[i] && Before(i, |s|) == if i == 0 then |r| else i - 1;
        assert i != k ==> Coupled(r, i);
        assert i > 0 ==> Coupled(r, i - 1);
        assert i == 0 && k < |r| - 1 ==> Coupled(r, |r| - 1);
      } else if i > k + 1 {
        assert s[i] == r[i - 1] && Coupled(r, i - 1);
        assert i > k + 2 ==> Coupled(r, i - 2);
      }
    }
  }

  // ----- the list macros -----

  /** `ngx_queue_insert_head` and `ngx_queue_insert_after`. */
  method InsertAfter(h: Node, x: Node, ghost r: seq<Node>, ghost k: nat)
    requires Ring(r) && k < |r| && r[k] == h && x !in r
    modifies r, x
    ensures Ring(r[..k + 1] + [x] + r[k + 1..])
  {
    assert Linked(r, k) && Linked(r, After(k, |r|));
    x.next := h.next;
    x.next.prev := x;
    x.prev := h;
    h.next := x;
    forall i | 0 <= i < |r| && i != k ensures Coupled(r, i) {
      assert old(Linked(r, i) && Linked(r, After(i, |r|)));
    }
    InsertedRing(r, k, x);
  }

  /** `ngx_queue_insert_tail`. */
  method InsertTail(h: Node, x: Node, ghost r: seq<Node>)
    requires Ring(r) && r[0] == h && x !in r
    modifies r, x
    ensures Ring(r + [x])
  {
    ghost var n, s := |r|, r + [x];
    assert Linked(r, 0) && Linked(r, n - 1);
    x.prev := h.prev;
    x.prev.next := x;
    x.next := h;
    h.prev := x;
    assert forall i | 0 <= i < n :: s[i] == r[i];
    forall i | 0 <= i < |s| ensures Linked(s, i) {
      if i < n { assert old(Linked(r, i)); }
    }
  }

  /** `ngx_queue_remove`; the removed node keeps its own links. */
  method Remove(x: Node, ghost r: seq<Node>, ghost k: nat)
    requires Ring(r) && 0 < k < |r| && r[k] == x
    modifies r
    ensures Ring(r[..k] + r[k + 1..])
    ensures x.prev == old(x.prev) && x.next == old(x.next)
  {
    assert Linked(r, k) && Linked(r, k - 1) && Linked(r, After(k, |r|));
    x.next.prev := x.prev;
    x.prev.next := x.next;
    forall i | 0 <= i < |r| && i != k && i != k - 1 ensures Coupled(r, i) {
      assert old(Linked(r, i) && Linked(r, After(i, |r|)));
    }
    RemovedRing(r, k);
  }

  lemma RemovedRing(r: seq<Node>, k: nat)
    requires 0 < k < |r| && Distinct(r)
    requires forall i | 0 <= i < |r| && i != k && i != k - 1 :: Coupled(r, i)
    requires r[k - 1].next == r[After(k, |r|)] && r[After(k, |r|)].prev == r[k - 1]
    ensures Ring(r[..k] + r[k + 1..])
  {
    var s := r[..k] + r[k + 1..];
    DistinctRemove(r, k);
    forall i | 0 <= i < |s| ensures Linked(s, i) {
      if i < k {
        assert s[i] == r[i];
        assert i != k - 1 ==> Coupled(r, i);
        assert i > 0 ==> Coupled(r, i - 1);
        assert i == 0 && k < |r| - 1 ==> Coupled(r, |r| - 1);
      } else {
        assert s[i] == r[i + 1] && Coupled(r, i + 1);
        assert i > k ==> Coupled(r, i);
      }
    }
  }

  /** `ngx_queue_split`: everything from `q` on moves to the new sentinel `n`. */
  method Split(h: Node, q: Node, n: Node, ghost r: seq<Node>, ghost k: nat)
    requires Ring(r) && r[0] == h && 0 < k < |r| && r[k] == q && n !in r
    modifies r, n
    ensures Ring(r[..k]) && Ring([n] + r[k..])
  {
    ghost var m := |r|;
    assert Linked(r, 0) && Linked(r, m - 1) && Linked(r, k) && Linked(r, k - 1);
    n.prev := h.prev;
    n.prev.next := n;
    n.next := q;
    h.prev := q.prev;
    h.prev.next := h;
    q.prev := n;
    assert forall i | 0 <= i < m - 1 && i != k - 1 :: Joined(r, i) by {
      forall i | 0 <= i < m - 1 && i != k - 1 ensures Joined(r, i) {
        assert old(Linked(r, i) && Linked(r, i + 1));
      }
    }
    FrontRing(r, k);
    BackRing(r, k, n);
  }

  /** Nodes `i` and `i + 1` point to each other. */
  ghost predicate Joined(r: seq<Node>, i: nat)
    requires i + 1 < |r|
    reads r
  {
    r[i].next == r[i + 1] && r[i + 1].prev == r[i]
  }

  lemma FrontRing(r: seq<Node>, k: nat)
    requires Distinct(r) && 0 < k < |r| && r[0].prev == r[k - 1] && r[k - 1].next == r[0]
    requires forall i | 0 <= i < |r| - 1 && i != k - 1 :: Joined(r, i)
    ensures Ring(r[..k])
  {
    forall i | 0 <= i < k ensures Linked(r[..k], i) {
      assert i > 0 ==> Joined(r, i - 1);
      assert i < k - 1 ==> Joined(r, i);
    }
  }

  lemma BackRing(r: seq<Node>, k: nat, n: Node)
    requires Distinct(r) && 0 < k < |r| && n !in r
    requires n.next == r[k] && r[k].prev == n && n.prev == r[|r| - 1] && r[|r| - 1].next == n
    requires forall i | 0 <= i < |r| - 1 && i != k - 1 :: Joined(r, i)
    ensures Ring([n] + r[k..])
  {
    var b := [n] + r[k..];
    assert forall i | 1 <= i < |b| :: b[i] == r[k + i - 1];
    forall i | 0 <= i < |b| ensures Linked(b, i) {
      assert i > 1 ==> Joined(r, k + i - 2);
      assert 0 < i < |b| - 1 ==> Joined(r, k + i - 1);
    }
  }

  /** `ngx_queue_add`: the elements of the queue at `n` are appended to the queue at `h`. */
  method Add(h: Node, n: Node, ghost a: seq<Node>, ghost b: seq<Node>)
    requires Ring(a) && Ring(b) && a[0] == h && b[0] == n && forall i, j | 0 <= i < |a| && 0 <= j < |b| :: a[i] != b[j]
    modifies a, b
    ensures Ring(a + b[1..])
  {
    ghost var s, m := a + b[1..], |a|;
    assert Linked(a, 0) && Linked(a, m - 1) && Linked(b, 0) && Linked(b, |b| - 1) && Linked(b, After(0, |b|));
    h.prev.next := n.next;
    n.next.prev := h.prev;
    h.prev := n.prev;
    h.prev.next := h;
    assert forall i | 0 <= i < m :: s[i] == a[i];
    assert forall i | m <= i < |s| :: s[i] == b[i - m + 1];
    forall i | 0 <= i < |s| ensures Linked(s, i) {
      if i < m { assert old(Linked(a, i)); } else { assert old(Linked(b, i - m + 1)); }
    }
  }

  /** Splitting a queue and adding the second part back gives the queue one started from. */
  method SplitThenAdd(h: Node, q: Node, n: Node, ghost r: seq<Node>, ghost k: nat)
    requires Ring(r) && r[0] == h && 0 < k < |r| && r[k] == q && n !in r
    modifies r, n
    ensures Ring(r)
  {
    Split(h, q, n, r, k);
    Add(h, n, r[..k], [n] + r[k..]);
    assert r[..k] + ([n] + r[k..])[1..] == r;
  }

  /** `ngx_queue_middle`: the middle element, or the first of the second half. */
  method Middle(queue: Node, ghost r: seq<Node>) returns (middle: Node)
    requires Ring(r) && r[0] == queue
    ensures |r| > 1 ==> middle == r[1 + (|r| - 1) / 2]
    ensures |r| == 1 ==> middle == queue
  {
    ghost var n := |r|;
    assert Linked(r, 0);
    middle := queue.next;
    if middle == queue.prev { return; }
    var next := queue.next;
    ghost var i := 0;
    while true
      invariant 0 <= i && 2 * i + 1 < n - 1
      invariant middle == r[1 + i] && next == r[1 + 2 * i]
      decreases n - i
    {
      assert Linked(r, 1 + i) && Linked(r, 1 + 2 * i);
      middle := middle.next;
      next := next.next;
      if next == queue.prev { return; }
      assert Linked(r, 2 + 2 * i);
      next := next.next;
      i := i + 1;
      if next == queue.prev { return; }
    }
  }

  // ----- the stable insertion sort -----

  /** The queue while its first `i` elements are sorted. */
  ghost function Partly(cmp: (Node, Node) -> int, r: seq<Node>, i: nat): seq<Node>
    requires i < |r|
  {
    [r[0]] + Sorted(cmp, r[1..i + 1]) + r[i + 1..]
  }

  lemma PartlyMembers(cmp: (Node, Node) -> int, r: seq<Node>, i: nat)
    requires i < |r|
    ensures |Partly(cmp, r, i)| == |r|
    ensures forall k | 0 <= k < |r| :: Partly(cmp, r, i)[k] in r
  {
    SortPermutes(cmp, r[1..i + 1]);
    forall x | x in Sorted(cmp, r[1..i + 1]) ensures x in r {
      assert x in multiset(Sorted(cmp, r[1..i + 1])) && x in r[1..i + 1];
    }
  }

  /** `ngx_queue_sort`: the ring becomes the sentinel followed by the sorted elements. */
  method Sort(queue: Node, cmp: (Node, Node) -> int, ghost r: seq<Node>)
    requires Ring(r) && r[0] == queue
    modifies r
    ensures Ring([queue] + Sorted(cmp, r[1..]))
  {
    ghost var n := |r|;
    assert Linked(r, 0);
    var q := queue.next;
    if q == queue.prev {
      SortShort(cmp, r[1..]);
      assert [queue] + r[1..] == r;
      return;
    }
    assert Linked(r, 1);
    q := q.next;
    ghost var i := 1;
    SortShort(cmp, r[1..2]);
    assert Partly(cmp, r, 1) == r;
    while q != queue
      invariant 1 <= i < n && Ring(Partly(cmp, r, i))
      invariant q == Partly(cmp, r, i)[After(i, n)]
      decreases n - i
    {
      q := SortStep(queue, q, cmp, r, i);
      i := i + 1;
    }
    SortEnds(cmp, r, i);
  }

  /** Back at the sentinel, everything is sorted. */
  lemma SortEnds(cmp: (Node, Node) -> int, r: seq<Node>, i: nat)
    requires i < |r| && Distinct(Partly(cmp, r, i)) && Partly(cmp, r, i)[After(i, |r|)] == r[0]
    ensures Partly(cmp, r, i) == [r[0]] + Sorted(cmp, r[1..])
  {
    var cur := Partly(cmp, r, i);
    assert cur[0] == r[0];
    assert i == |r| - 1;
    assert r[1..i + 1] == r[1..] && r[i + 1..] == [];
  }

  lemma SortShort(cmp: (Node, Node) -> int, xs: seq<Node>)
    requires |xs| <= 1
    ensures Sorted(cmp, xs) == xs
  {
    if |xs| == 1 { assert xs[..0] == [] && xs == [xs[0]]; }
  }

  /** The inner loop: walk back over the sorted elements to the one `q` goes behind. */
  method FindPlace(queue: Node, start: Node, q: Node, cmp: (Node, Node) -> int, ghost ring: seq<Node>, ghost i: nat)
    returns (prev: Node, ghost j: nat)
    requires Ring(ring) && ring[0] == queue && 1 <= i < |ring| && start == ring[i]
    ensures 0 <= j <= i && prev == ring[j]
    ensures Insert(cmp, ring[1..i + 1], q) == ring[1..j + 1] + [q] + ring[j + 1..i + 1]
  {
    prev, j := WalkBack(queue, start, q, cmp, ring, i, Insert(cmp, ring[1..i + 1], q));
  }

  method WalkBack(queue: Node, start: Node, q: Node, cmp: (Node, Node) -> int, ghost ring: seq<Node>, ghost i: nat,
                  ghost whole: seq<Node>)
    returns (prev: Node, ghost j: nat)
    requires Ring(ring) && ring[0] == queue && 1 <= i < |ring| && start == ring[i]
    requires whole == Insert(cmp, ring[1..i + 1], q)
    ensures 0 <= j <= i && prev == ring[j] && whole == ring[1..j + 1] + [q] + ring[j + 1..i + 1]
  {
    ghost var front, back := ring[1..i + 1], ring[i + 1..i + 1];
    prev, j := start, i;
    assert whole == whole + back;
    while true
      invariant 0 < j <= i && prev == ring[j] && front == ring[1..j + 1] && back == ring[j + 1..i + 1]
      invariant whole == Insert(cmp, front, q) + back
      decreases j
    {
      StepBack(ring, i, j);
      if cmp(prev, q) <= 0 {
        PlaceFound(cmp, front, q, back, whole);
        return;
      }
      InsertWalk(cmp, front[..j - 1], prev, back, q, whole);
      front, back := front[..j - 1], [prev] + back;
      assert Linked(ring, j);
      prev := prev.prev;
      j := j - 1;
      if prev == queue {
        assert Distinct(ring) && j == 0;
        PlaceFound(cmp, front, q, back, whole);
        return;
      }
    }
  }

  lemma StepBack(ring: seq<Node>, i: nat, j: nat)
    requires 0 < j <= i < |ring|
    ensures var front, back := ring[1..j + 1], ring[j + 1..i + 1];
            && front == front[..j - 1] + [ring[j]] && front[..j - 1] == ring[1..j] && [ring[j]] + back == ring[j..i + 1]
  {
  }

  lemma PlaceFound(cmp: (Node, Node) -> int, front: seq<Node>, q: Node, back: seq<Node>, whole: seq<Node>)
    requires front == [] || cmp(front[|front| - 1], q) <= 0
    requires whole == Insert(cmp, front, q) + back
    ensures whole == front + [q] + back
  {
    InsertHere(cmp, front, q);
  }

  lemma InsertHere(cmp: (Node, Node) -> int, front: seq<Node>, q: Node)
    requires front == [] || cmp(front[|front| - 1], q) <= 0
    ensures Insert(cmp, front, q) == front + [q]
  {
  }

  /** One round of the outer loop: `q` leaves the ring and comes back at its place among the sorted
      elements in front of it. */
  method Move(queue: Node, q: Node, cmp: (Node, Node) -> int, ghost r: seq<Node>, ghost i: nat)
    returns (next: Node, ghost j: nat)
    requires Ring(r) && r[0] == queue && 1 <= i && i + 1 < |r| && q == r[i + 1]
    modifies r
    ensures next == r[After(i + 1, |r|)] && j <= i
    ensures Ring(Moved(r, i, j))
    ensures Insert(cmp, r[1..i + 1], q) == r[1..j + 1] + [q] + r[j + 1..i + 1]
  {
    assert Linked(r, i + 1);
    var start := q.prev;
    next := q.next;
    ghost var without := r[..i + 1] + r[i + 2..];
    Remove(q, r, i + 1);
    var prev: Node;
    prev, j := FindPlace(queue, start, q, cmp, without, i);
    WithoutParts(r, i, j);
    InsertAfter(prev, q, without, j);
  }

  lemma WithoutParts(r: seq<Node>, i: nat, j: nat)
    requires Distinct(r) && j <= i && i + 1 < |r|
    ensures var without := r[..i + 1] + r[i + 2..];
            && without[1..i + 1] == r[1..i + 1] && without[1..j + 1] == r[1..j + 1]
            && without[j + 1..i + 1] == r[j + 1..i + 1] && r[i + 1] !in without
  {
  }

  method SortStep(queue: Node, q: Node, cmp: (Node, Node) -> int, ghost r: seq<Node>, ghost i: nat) returns (next: Node)
    requires 1 <= i && i + 1 < |r| && Ring(Partly(cmp, r, i)) && r[0] == queue && q == Partly(cmp, r, i)[i + 1]
    modifies r
    ensures Ring(Partly(cmp, r, i + 1)) && next == Partly(cmp, r, i + 1)[After(i + 1, |r|)]
  {
    ghost var cur := Partly(cmp, r, i);
    PartlyMembers(cmp, r, i);
    ghost var j: nat;
    next, j := Move(queue, q, cmp, cur, i);
    PartlyStep(cmp, r, i, j);
  }

  ghost function Moved(r: seq<Node>, i: nat, j: nat): seq<Node>
    requires j <= i && i + 1 < |r|
  {
    var without := r[..i + 1] + r[i + 2..];
    without[..j + 1] + [r[i + 1]] + without[j + 1..]
  }

  lemma PartlyStep(cmp: (Node, Node) -> int, r: seq<Node>, i: nat, j: nat)
    requires 1 <= i && i + 1 < |r| && j <= i
    requires var cur := Partly(cmp, r, i);
             |cur| == |r| && Insert(cmp, cur[1..i + 1], cur[i + 1]) == cur[1..j + 1] + [cur[i + 1]] + cur[j + 1..i + 1]
    ensures var cur := Partly(cmp, r, i);
            && Moved(cur, i, j) == Partly(cmp, r, i + 1)
            && cur[After(i + 1, |r|)] == Partly(cmp, r, i + 1)[After(i + 1, |r|)]
  {
    var cur := Partly(cmp, r, i);
    var q, sorted := cur[i + 1], Sorted(cmp, r[1..i + 1]);
    assert cur[1..i + 1] == sorted && q == r[i + 1] && cur[i + 2..] == r[i + 2..];
    SortedExtend(cmp, r, i);
    MovedParts(cur, i, j);
  }

  lemma SortedExtend(cmp: (Node, Node) -> int, r: seq<Node>, i: nat)
    requires i + 1 < |r|
    ensures Sorted(cmp, r[1..i + 2]) == Insert(cmp, Sorted(cmp, r[1..i + 1]), r[i + 1])
  {
    assert r[1..i + 2][..i] == r[1..i + 1] && r[1..i + 2][i] == r[i + 1];
  }

  lemma MovedParts(r: seq<Node>, i: nat, j: nat)
    requires j <= i && i + 1 < |r|
    ensures Moved(r, i, j) == [r[0]] + (r[1..j + 1] + [r[i + 1]] + r[j + 1..i + 1]) + r[i + 2..]
  {
    var without := r[..i + 1] + r[i + 2..];
    assert without[..j + 1] == [r[0]] + r[1..j + 1];
    assert without[j + 1..] == r[j + 1..i + 1] + r[i + 2..];
  }

  /** The sort keeps the nodes of the queue, orders them and keeps equal ones in their order, for
      every comparator that is a total preorder on them. */
  method SortCorrect(queue: Node, cmp: (Node, Node) -> int, ghost r: seq<Node>) returns (ghost sorted: seq<Node>)
    requires Ring(r) && r[0] == queue && TotalPreorder(cmp, set x | x in r[1..])
    modifies r
    ensures Ring([queue] + sorted) && multiset(sorted) == multiset(r[1..]) && InOrder(cmp, sorted)
    ensures forall y | y in r[1..] :: Class(cmp, sorted, y) == Class(cmp, r[1..], y)
  {
    Sort(queue, cmp, r);
    sorted := Sorted(cmp, r[1..]);
    SortPermutes(cmp, r[1..]);
    ghost var all := set x | x in r[1..];
    SortOrders(cmp, all, r[1..]);
    forall y | y in r[1..] ensures Class(cmp, sorted, y) == Class(cmp, r[1..], y) {
      SortIsStable(cmp, all, r[1..], y);
    }
  }
}
