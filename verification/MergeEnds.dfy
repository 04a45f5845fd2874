/** Which tables can be cloned, and with which status merging fails. */
module MergeEnds {
  import opened Wire
  import opened FieldTable
  import opened M = Merge

  /** Only an unknown kind cannot be cloned by itself; arrays and tables can if all their values can and, in
      tables, no key is empty. */
  lemma CloneableKinds(v: Value)
    ensures v.Foreign? ==> !Cloneable(v)
    ensures v.Array? ==> (Cloneable(v) <==> forall i | 0 <= i < |v.items| :: Cloneable(v.items[i]))
    ensures v.Nested? ==>
              (Cloneable(v) <==> forall i | 0 <= i < |v.table| :: v.table[i].key != [] && Cloneable(v.table[i].value))
    ensures !v.Foreign? && !v.Array? && !v.Nested? ==> Cloneable(v)
  {
    if v.Array? { ItemsCloneableAll(v.items); }
    if v.Nested? { TableCloneableAll(v.table); }
  }

  lemma {:induction false} ItemsCloneableAll(items: seq<Value>)
    ensures ItemsCloneable(items) <==> forall i | 0 <= i < |items| :: Cloneable(items[i])
    decreases |items|
  {
    if items != [] {
      ItemsCloneableAll(items[1..]);
      assert forall i | 1 <= i < |items| :: items[i] == items[1..][i - 1];
      if ItemsCloneable(items) {
        forall i | 0 <= i < |items| ensures Cloneable(items[i]) {
          if i > 0 { assert items[1..][i - 1] == items[i]; }
        }
      }
    }
  }

  /** There is no entry to merge; or, before anything else fails, two tables meet for which that is so. */
  predicate Starved(base: Table, add: Table)
    decreases add, 1
  {
    |base| + |add| == 0 || exists j :: 0 <= j < |add| && StarvedAt(base, add, j)
  }

  predicate StarvedAt(base: Table, add: Table, j: nat)
    requires j < |add|
    decreases add, 0
  {
    && Meets(base, add, j)
    && (forall i | 0 <= i < j && Meets(base, add, i) :: Fine(base, add, i))
    && match BaseTable(base, add[j].key)
       case None => false
       case Some(b) => Starved(b, add[j].value.table)
  }

  /** For all tables: merging runs out of memory exactly when the tables are starved, and refuses a parameter
      exactly when it neither succeeds nor runs out of memory nor reads an entry that does not exist. */
  lemma {:induction false} FailsWith(base: Table, add: Table)
    ensures M.Merge(base, add) == NoMemory <==> Starved(base, add)
    ensures M.Merge(base, add) == InvalidParameter
       <==> !Mergeable(base, add) && !Starved(base, add) && !Unreadable(base, add)
    decreases add
  {
    MergeSucceeds(base, add);
    if |base| + |add| > 0 {
      forall j | 0 <= j < |add| && Meets(base, add, j) ensures TurnStarved(base, add, j) {
        if BaseTable(base, add[j].key).Some? {
          FailsWith(BaseTable(base, add[j].key).value, add[j].value.table);
          MergeSucceeds(BaseTable(base, add[j].key).value, add[j].value.table);
        }
      }
      StarvedTurns(base, add);
    }
  }

  /** What is known about two tables that meet. */
  ghost predicate TurnStarved(base: Table, add: Table, j: nat)
    requires j < |add| && Meets(base, add, j)
  {
    && (TurnOk(base, add, j) <==> Fine(base, add, j))
    && (Combined(base, add, j) == NoMemory <==>
          BaseTable(base, add[j].key).Some? && Starved(BaseTable(base, add[j].key).value, add[j].value.table))
  }

  lemma StarvedTurns(base: Table, add: Table)
    requires |base| + |add| > 0 && forall j | 0 <= j < |add| && Meets(base, add, j) :: TurnStarved(base, add, j)
    ensures M.Merge(base, add) == NoMemory <==> Starved(base, add)
  {
    var last := MergeAll(base, add);
    match FirstBad(base, add, 0)
    case Some(j) =>
      FirstBadStarved(base, add, j);
      forall k | 0 <= k < |add| && StarvedAt(base, add, k) ensures k == j {
        StarvedFails(base, add, k);
        SameTurn(base, add, j, k);
      }
      StarvedOnly(base, add, j);
    case None =>
      forall k | 0 <= k < |add| ensures !StarvedAt(base, add, k) {
        if StarvedAt(base, add, k) { StarvedFails(base, add, k); }
      }
  }

  lemma StarvedFails(base: Table, add: Table, k: nat)
    requires k < |add| && StarvedAt(base, add, k)
    requires forall i | 0 <= i < |add| && Meets(base, add, i) :: TurnStarved(base, add, i)
    ensures !TurnOk(base, add, k)
  {
    assert TurnStarved(base, add, k);
  }

  lemma StarvedOnly(base: Table, add: Table, j: nat)
    requires |base| + |add| > 0 && j < |add| && forall k | 0 <= k < |add| && StarvedAt(base, add, k) :: k == j
    ensures Starved(base, add) <==> StarvedAt(base, add, j)
  {
  }

  lemma FirstBadStarved(base: Table, add: Table, j: nat)
    requires j < |add| && !TurnOk(base, add, j) && AllOk(base, add, j)
    requires forall i | 0 <= i < |add| && Meets(base, add, i) :: TurnStarved(base, add, i)
    ensures StarvedAt(base, add, j) <==> Combined(base, add, j) == NoMemory
  {
    assert TurnStarved(base, add, j);
    forall i | 0 <= i < j && Meets(base, add, i) ensures Fine(base, add, i) {
      assert TurnOk(base, add, i) && TurnStarved(base, add, i);
    }
  }

  lemma SameTurn(base: Table, add: Table, j: nat, k: nat)
    requires j < |add| && k < |add| && !TurnOk(base, add, j) && AllOk(base, add, j) && !TurnOk(base, add, k)
    requires StarvedAt(base, add, k)
    requires forall i | 0 <= i < |add| && Meets(base, add, i) :: TurnStarved(base, add, i)
    ensures k == j
  {
  }
}
