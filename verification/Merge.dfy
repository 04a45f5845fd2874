/** Cloning and merging tables: how the client's capabilities are laid over the defaults. */
module Merge {
  import opened Wire
  import opened FieldTable

  /** `Undefined` stands for inputs on which the C code reads a union or a pointer it never set. */
  datatype Outcome = Merged(table: Table) | NoMemory | InvalidParameter | Undefined

  // ----- cloning -----

  /** Known kinds only and no empty key, at any depth. */
  predicate Cloneable(v: Value)
    decreases v, 0
  {
    match v
    case Array(items) => ItemsCloneable(items)
    case Nested(table) => TableCloneable(table)
    case Foreign(_) => false
    case _ => true
  }

  predicate ItemsCloneable(items: seq<Value>)
    decreases items, 0
  {
    items == [] || (Cloneable(items[0]) && ItemsCloneable(items[1..]))
  }

  predicate TableCloneable(es: Table)
    decreases es, 0
  {
    es == [] || (es[0].key != [] && Cloneable(es[0].value) && TableCloneable(es[1..]))
  }

  /** `amqp_field_value_clone`. */
  method CloneValue(v: Value) returns (r: Option<Value>)
    ensures r == if Cloneable(v) then Some(v) else None
    decreases v, 0
  {
    if v.Foreign? { return None; }
    if v.Nested? {
      var t := CloneTable(v.table);
      return if t.Some? then Some(Nested(t.value)) else None;
    }
    if v.Array? {
      var items: seq<Value> := [];
      var i := 0;
      assert v.items[0..] == v.items;
      while i < |v.items|
        invariant i <= |v.items| && items == v.items[..i]
        invariant ItemsCloneable(v.items) == ItemsCloneable(v.items[i..])
      {
        assert v.items[i..][0] == v.items[i] && v.items[i..][1..] == v.items[i + 1..];
        var item := CloneValue(v.items[i]);
        if item.None? { return None; }
        items := items + [item.value];
        i := i + 1;
      }
      assert items == v.items;
      return Some(Array(items));
    }
    r := Some(v);
  }

  /** `amqp_table_clone`: a copy, or a refusal; never anything else. */
  method CloneTable(t: Table) returns (r: Option<Table>)
    ensures r == if TableCloneable(t) then Some(t) else None
    decreases t, 1
  {
    var es: Table := [];
    var i := 0;
    assert t[0..] == t;
    while i < |t|
      invariant i <= |t| && es == t[..i]
      invariant TableCloneable(t) == TableCloneable(t[i..])
    {
      assert t[i..][0] == t[i] && t[i..][1..] == t[i + 1..];
      if t[i].key == [] { return None; }
      var v := CloneValue(t[i].value);
      if v.None? { return None; }
      es := es + [Entry(t[i].key, v.value)];
      i := i + 1;
    }
    assert t[..i] == t;
    r := Some(es);
  }

  // ----- merging, as it is done -----

  /** The first entry with the key, from `i` on. */
  function IndexOf(es: Table, key: seq<byte>, i: nat): (r: Option<nat>)
    requires i <= |es|
    ensures r.Some? ==> i <= r.value < |es| && es[r.value].key == key
    ensures forall k | i <= k < |es| && (r.Some? ==> k < r.value) :: es[k].key != key
    decreases |es| - i
  {
    if i == |es| then None else if es[i].key == key then Some(i) else IndexOf(es, key, i + 1)
  }

  function Cloned(t: Table): Outcome { if TableCloneable(t) then Merged(t) else InvalidParameter }

  /** The entries collected so far, and the entries of `add` from `i` on still to come. */
  function MergeFrom(base: Table, entries: Table, add: Table, i: nat): Outcome
    requires i <= |add|
    decreases add, 0, |add| - i
  {
    if i == |add| then Cloned(entries)
    else
      var e := add[i];
      match IndexOf(entries, e.key, 0)
      case None => MergeFrom(base, entries + [e], add, i + 1)
      case Some(k) =>
        if e.value.Nested? && entries[k].value.Nested? then
          match BaseTable(base, e.key)
          case None => Undefined
          case Some(b) =>
            (match Merge(b, e.value.table)
             case Merged(t) => MergeFrom(base, entries[k := Entry(entries[k].key, Nested(t))], add, i + 1)
             case error => error)
        else MergeFrom(base, entries[k := Entry(entries[k].key, e.value)], add, i + 1)
  }

  /** The table `base` has under the key. */
  function BaseTable(base: Table, key: seq<byte>): Option<Table> {
    match IndexOf(base, key, 0)
    case None => None
    case Some(k) => if base[k].value.Nested? then Some(base[k].value.table) else None
  }

  /** `amqp_merge_capabilities`: with no entry at all, the zero-sized allocation reads as a failure. */
  function Merge(base: Table, add: Table): Outcome
    decreases add, 1
  {
    if |base| + |add| == 0 then NoMemory else MergeFrom(base, base, add, 0)
  }

  method FindEntry(entries: array<Entry>, n: nat, key: seq<byte>) returns (r: Option<nat>)
    requires n <= entries.Length
    ensures r == IndexOf(entries[..n], key, 0)
  {
    var i := 0;
    while i < n
      invariant i <= n && IndexOf(entries[..n], key, 0) == IndexOf(entries[..n], key, i)
    {
      if entries[i].key == key { return Some(i); }
      i := i + 1;
    }
    r := None;
  }

  /** `amqp_merge_capabilities`: without a table to add, the base is cloned; otherwise temporary entries are
      filled in place. */
  method MergeCapabilities(base: Table, add: Option<Table>) returns (r: Outcome)
    ensures r == if add.None? then Cloned(base) else Merge(base, add.value)
    decreases if add.None? then [] else add.value, 1
  {
    if add.None? {
      var clone := CloneTable(base);
      return if clone.Some? then Merged(clone.value) else InvalidParameter;
    }
    var added := add.value;
    if |base| + |added| == 0 { return NoMemory; }
    var entries := new Entry[|base| + |added|](_ => Entry([], Void));
    var n: nat := 0;
    while n < |base|
      invariant n <= |base| && entries[..n] == base[..n]
    {
      entries[n] := base[n];
      n := n + 1;
    }
    var i := 0;
    assert entries[..n] == base;
    while i < |added|
      invariant i <= |added| && n <= |base| + i
      invariant MergeFrom(base, entries[..n], added, i) == Merge(base, added)
    {
      var error: Option<Outcome>;
      error, n := MergeEntry(base, entries, n, added, i);
      if error.Some? { return error.value; }
      i := i + 1;
    }
    var clone := CloneTable(entries[..n]);
    r := if clone.Some? then Merged(clone.value) else InvalidParameter;
  }

  /** One entry of the added table. */
  method MergeEntry(base: Table, entries: array<Entry>, n: nat, add: Table, i: nat)
    returns (error: Option<Outcome>, next: nat)
    requires i < |add| && n <= |base| + i && entries.Length == |base| + |add|
    modifies entries
    ensures next <= |base| + i + 1
    ensures match error
            case Some(o) => !o.Merged? && o == MergeFrom(base, old(entries[..n]), add, i)
            case None => MergeFrom(base, entries[..next], add, i + 1) == MergeFrom(base, old(entries[..n]), add, i)
    decreases add, 0
  {
    ghost var before := entries[..n];
    var e := add[i];
    var k := FindEntry(entries, n, e.key);
    error, next := None, n;
    if k.None? {
      entries[n] := e;
      next := n + 1;
      assert entries[..next] == before + [e];
      return;
    }
    var value := e.value;
    if e.value.Nested? && entries[k.value].value.Nested? {
      var b := TableUnder(base, e.key);
      if b.None? { return Some(Undefined), n; }
      var t := MergeCapabilities(b.value, Some(e.value.table));
      if !t.Merged? { return Some(t), n; }
      value := Nested(t.table);
    }
    entries[k.value] := Entry(entries[k.value].key, value);
    assert entries[..n] == before[k.value := Entry(before[k.value].key, value)];
  }

  method TableUnder(base: Table, key: seq<byte>) returns (r: Option<Table>)
    ensures r == BaseTable(base, key)
  {
    var i := 0;
    while i < |base|
      invariant i <= |base| && IndexOf(base, key, 0) == IndexOf(base, key, i)
    {
      if base[i].key == key {
        return if base[i].value.Nested? then Some(base[i].value.table) else None;
      }
      i := i + 1;
    }
    r := None;
  }

  // ----- merging, as a map -----

  function Keys(es: Table): (r: seq<seq<byte>>)
    ensures |r| == |es|
  {
    if es == [] then [] else [es[0].key] + Keys(es[1..])
  }

  function Lookup(es: Table, key: seq<byte>): Option<Value> {
    match IndexOf(es, key, 0)
    case None => None
    case Some(k) => Some(es[k].value)
  }

  /** The last of the first `i` entries with the key. */
  function LastWith(add: Table, i: nat, key: seq<byte>): (r: Option<nat>)
    requires i <= |add|
    ensures r.Some? ==> r.value < i && add[r.value].key == key
    ensures forall k | 0 <= k < i && (r.Some? ==> r.value < k) :: add[k].key != key
  {
    if i == 0 then None else if add[i - 1].key == key then Some(i - 1) else LastWith(add, i - 1, key)
  }

  /** The keys that only the added table has, in the order in which it first gives them. */
  function NewKeys(base: Table, add: Table, i: nat): seq<seq<byte>>
    requires i <= |add|
  {
    if i == 0 then []
    else
      var key := add[i - 1].key;
      NewKeys(base, add, i - 1) + if Lookup(base, key).None? && LastWith(add, i - 1, key).None? then [key] else []
  }

  /** After the first `i` added entries, the key stands for a table. */
  predicate HasTable(base: Table, add: Table, i: nat, key: seq<byte>)
    requires i <= |add|
  {
    match LastWith(add, i, key)
    case Some(j) => add[j].value.Nested?
    case None => BaseTable(base, key).Some?
  }

  /** An added table whose key stands for a table already. */
  predicate Meets(base: Table, add: Table, j: nat)
    requires j < |add|
  {
    add[j].value.Nested? && HasTable(base, add, j, add[j].key)
  }

  /** Two tables that meet are merged: always the base's with the added one. */
  function Combined(base: Table, add: Table, j: nat): Outcome
    requires j < |add| && Meets(base, add, j)
  {
    match BaseTable(base, add[j].key)
    case None => Undefined
    case Some(b) => Merge(b, add[j].value.table)
  }

  /** What a key should map to after the first `i` added entries: the last value given for it, by
      `add` or else by `base`, but tables that meet are merged. */
  function ValueOf(base: Table, add: Table, i: nat, key: seq<byte>): Option<Value>
    requires i <= |add|
  {
    match LastWith(add, i, key)
    case None => Lookup(base, key)
    case Some(j) =>
      if !Meets(base, add, j) then Some(add[j].value)
      else if Combined(base, add, j).Merged? then Some(Nested(Combined(base, add, j).table))
      else None
  }

  ghost predicate TurnOk(base: Table, add: Table, j: nat)
    requires j < |add|
  {
    Meets(base, add, j) ==> Combined(base, add, j).Merged?
  }

  ghost predicate AllOk(base: Table, add: Table, i: nat)
    requires i <= |add|
  {
    forall j | 0 <= j < i :: TurnOk(base, add, j)
  }

  /** The keys of `base` come first, in its order. */
  ghost predicate Continues(entries: Table, base: Table) {
    |base| <= |entries| && forall m | 0 <= m < |base| :: entries[m].key == base[m].key
  }

  /** Only `base` gives a key twice, and then only the first entry of the key is ever changed. */
  ghost predicate OthersKept(entries: Table, base: Table) {
    forall m | 0 <= m < |entries| ::
      IndexOf(entries, entries[m].key, 0) == Some(m) || (m < |base| && entries[m] == base[m])
  }

  /** After the first `i` entries of `add`, `entries` is the map it should be. */
  ghost predicate Represents(entries: Table, base: Table, add: Table, i: nat)
    requires i <= |add|
  {
    && Continues(entries, base) && OthersKept(entries, base)
    && Keys(entries) == Keys(base) + NewKeys(base, add, i)
    && forall key :: Lookup(entries, key) == ValueOf(base, add, i, key)
  }

  lemma {:induction false} KeysAt(es: Table, i: nat)
    requires i < |es|
    ensures Keys(es)[i] == es[i].key
    decreases i
  {
    if i > 0 { KeysAt(es[1..], i - 1); }
  }

  lemma KeysSame(es: Table, fs: Table)
    requires |es| == |fs| && forall i | 0 <= i < |es| :: es[i].key == fs[i].key
    ensures Keys(es) == Keys(fs)
  {
    forall i | 0 <= i < |es| ensures Keys(es)[i] == Keys(fs)[i] {
      KeysAt(es, i);
      KeysAt(fs, i);
    }
  }

  lemma {:induction false} KeysAppend(es: Table, e: Entry)
    ensures Keys(es + [e]) == Keys(es) + [e.key]
  {
    if es != [] {
      assert (es + [e])[1..] == es[1..] + [e];
      KeysAppend(es[1..], e);
    } else {
      assert ([e])[1..] == [] && es + [e] == [e];
    }
  }

  /** Where the first entry with a key is, if it is anywhere. */
  lemma IndexIs(es: Table, key: seq<byte>, k: nat)
    requires k < |es| && es[k].key == key && forall i | 0 <= i < k :: es[i].key != key
    ensures IndexOf(es, key, 0) == Some(k)
  {
  }

  lemma LookupAppend(es: Table, e: Entry, key: seq<byte>)
    ensures IndexOf(es + [e], key, 0)
         == if IndexOf(es, key, 0).Some? then IndexOf(es, key, 0) else if key == e.key then Some(|es|) else None
    ensures Lookup(es + [e], key)
         == if Lookup(es, key).Some? then Lookup(es, key) else if key == e.key then Some(e.value) else None
  {
    var fs := es + [e];
    var r := IndexOf(es, key, 0);
    if r.Some? {
      IndexIs(fs, key, r.value);
    } else if key == e.key {
      IndexIs(fs, key, |es|);
    }
  }

  lemma LookupUpdate(es: Table, k: nat, v: Value, key: seq<byte>)
    requires k < |es| && IndexOf(es, es[k].key, 0) == Some(k)
    ensures IndexOf(es[k := Entry(es[k].key, v)], key, 0) == IndexOf(es, key, 0)
    ensures Lookup(es[k := Entry(es[k].key, v)], key) == if key == es[k].key then Some(v) else Lookup(es, key)
  {
    var fs := es[k := Entry(es[k].key, v)];
    var r := IndexOf(es, key, 0);
    if r.Some? {
      IndexIs(fs, key, r.value);
    }
  }

  /** A key of `base` is where it was. */
  lemma SamePlace(entries: Table, base: Table, key: seq<byte>)
    requires Continues(entries, base)
    ensures IndexOf(base, key, 0).Some? ==> IndexOf(entries, key, 0) == IndexOf(base, key, 0)
    ensures IndexOf(entries, key, 0).Some? && IndexOf(entries, key, 0).value < |base| ==>
              IndexOf(base, key, 0) == IndexOf(entries, key, 0)
  {
    var r, q := IndexOf(base, key, 0), IndexOf(entries, key, 0);
    if r.Some? { IndexIs(entries, key, r.value); }
    if q.Some? && q.value < |base| { IndexIs(base, key, q.value); }
  }

  // ----- one turn -----

  /** Before entry `i` is merged, its key has a value exactly if it should, and a table exactly if it
      should. */
  lemma KindsAgree(base: Table, entries: Table, add: Table, i: nat, key: seq<byte>)
    requires i <= |add| && AllOk(base, add, i) && Represents(entries, base, add, i)
    ensures Lookup(entries, key).Some? && Lookup(entries, key).value.Nested? <==> HasTable(base, add, i, key)
    ensures Lookup(entries, key).None? <==> Lookup(base, key).None? && LastWith(add, i, key).None?
  {
    assert Lookup(entries, key) == ValueOf(base, add, i, key);
    var j := LastWith(add, i, key);
    if j.Some? { assert TurnOk(base, add, j.value); }
  }

  /** What the key of entry `i` maps to once it is merged; other keys keep their values. */
  lemma ValueAfter(base: Table, add: Table, i: nat, key: seq<byte>)
    requires i < |add|
    ensures key != add[i].key ==> ValueOf(base, add, i + 1, key) == ValueOf(base, add, i, key)
    ensures key == add[i].key ==> LastWith(add, i + 1, key) == Some(i)
  {
  }

  lemma AppendOthers(entries: Table, base: Table, e: Entry)
    requires OthersKept(entries, base) && IndexOf(entries, e.key, 0).None?
    ensures OthersKept(entries + [e], base)
  {
    var entries' := entries + [e];
    forall m | 0 <= m < |entries'|
      ensures IndexOf(entries', entries'[m].key, 0) == Some(m) || (m < |base| && entries'[m] == base[m])
    {
      LookupAppend(entries, e, entries'[m].key);
      if m < |entries| { assert entries'[m] == entries[m]; }
    }
  }

  lemma AppendLookup(base: Table, entries: Table, add: Table, i: nat, key: seq<byte>)
    requires i < |add| && Lookup(entries, key) == ValueOf(base, add, i, key)
    requires IndexOf(entries, add[i].key, 0).None? && !HasTable(base, add, i, add[i].key)
    ensures Lookup(entries + [add[i]], key) == ValueOf(base, add, i + 1, key)
  {
    LookupAppend(entries, add[i], key);
    ValueAfter(base, add, i, key);
  }

  lemma AppendTurn(base: Table, entries: Table, add: Table, i: nat)
    requires i < |add| && AllOk(base, add, i) && Represents(entries, base, add, i)
    requires IndexOf(entries, add[i].key, 0).None?
    ensures Represents(entries + [add[i]], base, add, i + 1)
  {
    var e := add[i];
    KindsAgree(base, entries, add, i, e.key);
    KeysAppend(entries, e);
    assert Keys(base) + NewKeys(base, add, i) + [e.key] == Keys(base) + (NewKeys(base, add, i) + [e.key]);
    forall key ensures Lookup(entries + [e], key) == ValueOf(base, add, i + 1, key) {
      AppendLookup(base, entries, add, i, key);
    }
    AppendOthers(entries, base, e);
  }

  lemma ReplaceOthers(entries: Table, base: Table, k: nat, v: Value)
    requires OthersKept(entries, base) && k < |entries| && IndexOf(entries, entries[k].key, 0) == Some(k)
    ensures OthersKept(entries[k := Entry(entries[k].key, v)], base)
  {
    var entries' := entries[k := Entry(entries[k].key, v)];
    forall m | 0 <= m < |entries'|
      ensures IndexOf(entries', entries'[m].key, 0) == Some(m) || (m < |base| && entries'[m] == base[m])
    {
      LookupUpdate(entries, k, v, entries'[m].key);
    }
  }

  /** Entry `i` replaces the value of its key by `v`. */
  lemma ReplaceTurn(base: Table, entries: Table, add: Table, i: nat, k: nat, v: Value)
    requires i < |add| && AllOk(base, add, i) && Represents(entries, base, add, i)
    requires IndexOf(entries, add[i].key, 0) == Some(k) && ValueOf(base, add, i + 1, add[i].key) == Some(v)
    ensures Represents(entries[k := Entry(entries[k].key, v)], base, add, i + 1)
  {
    var entries' := entries[k := Entry(entries[k].key, v)];
    ReplaceKeys(base, entries, add, i, k, v);
    forall key ensures Lookup(entries', key) == ValueOf(base, add, i + 1, key) {
      LookupUpdate(entries, k, v, key);
      ValueAfter(base, add, i, key);
    }
    ReplaceOthers(entries, base, k, v);
  }

  lemma ReplaceKeys(base: Table, entries: Table, add: Table, i: nat, k: nat, v: Value)
    requires i < |add| && AllOk(base, add, i) && Represents(entries, base, add, i)
    requires IndexOf(entries, add[i].key, 0) == Some(k)
    ensures var entries' := entries[k := Entry(entries[k].key, v)];
            Keys(entries') == Keys(base) + NewKeys(base, add, i + 1) && Continues(entries', base)
  {
    var entries' := entries[k := Entry(entries[k].key, v)];
    KindsAgree(base, entries, add, i, add[i].key);
    KeysSame(entries, entries');
    assert NewKeys(base, add, i) + [] == NewKeys(base, add, i);
  }

  /** The entries after one turn of the merging loop. */
  function AfterTurn(base: Table, entries: Table, add: Table, i: nat): Table
    requires i < |add| && (Meets(base, add, i) ==> Combined(base, add, i).Merged?)
  {
    match IndexOf(entries, add[i].key, 0)
    case None => entries + [add[i]]
    case Some(k) =>
      var v := if Meets(base, add, i) then Nested(Combined(base, add, i).table) else add[i].value;
      entries[k := Entry(entries[k].key, v)]
  }

  lemma TurnComputes(base: Table, entries: Table, add: Table, i: nat)
    requires i < |add| && TurnOk(base, add, i)
    requires Lookup(entries, add[i].key).Some? && Lookup(entries, add[i].key).value.Nested?
        <==> HasTable(base, add, i, add[i].key)
    ensures MergeFrom(base, entries, add, i) == MergeFrom(base, AfterTurn(base, entries, add, i), add, i + 1)
  {
  }

  /** What one turn of the merging loop does. */
  lemma MergeTurn(base: Table, entries: Table, add: Table, i: nat)
    requires i < |add| && AllOk(base, add, i) && TurnOk(base, add, i) && Represents(entries, base, add, i)
    ensures Represents(AfterTurn(base, entries, add, i), base, add, i + 1)
    ensures MergeFrom(base, entries, add, i) == MergeFrom(base, AfterTurn(base, entries, add, i), add, i + 1)
  {
    var e := add[i];
    KindsAgree(base, entries, add, i, e.key);
    TurnComputes(base, entries, add, i);
    match IndexOf(entries, e.key, 0) {
      case None => AppendTurn(base, entries, add, i);
      case Some(k) =>
        var v := if Meets(base, add, i) then Nested(Combined(base, add, i).table) else e.value;
        ValueAfter(base, add, i, e.key);
        ReplaceTurn(base, entries, add, i, k, v);
    }
  }

  /** A turn on which merging two tables fails ends the merge with that failure. */
  lemma MergeTurnFails(base: Table, entries: Table, add: Table, i: nat)
    requires i < |add| && AllOk(base, add, i) && !TurnOk(base, add, i) && Represents(entries, base, add, i)
    ensures MergeFrom(base, entries, add, i) == Combined(base, add, i)
  {
    KindsAgree(base, entries, add, i, add[i].key);
  }

  /** The first entry from `i` on whose turn fails. */
  ghost function FirstBad(base: Table, add: Table, i: nat): (r: Option<nat>)
    requires i <= |add|
    ensures r.Some? ==> i <= r.value < |add| && !TurnOk(base, add, r.value)
    ensures forall j | i <= j < |add| && (r.Some? ==> j < r.value) :: TurnOk(base, add, j)
    decreases |add| - i
  {
    if i == |add| then None else if !TurnOk(base, add, i) then Some(i) else FirstBad(base, add, i + 1)
  }

  lemma {:induction false} MergeLoop(base: Table, entries: Table, add: Table, i: nat) returns (last: Table)
    requires i <= |add| && AllOk(base, add, i) && Represents(entries, base, add, i)
    ensures match FirstBad(base, add, i)
            case Some(j) => MergeFrom(base, entries, add, i) == Combined(base, add, j)
            case None => Represents(last, base, add, |add|) && MergeFrom(base, entries, add, i) == Cloned(last)
    decreases |add| - i
  {
    if i == |add| {
      last := entries;
    } else if !TurnOk(base, add, i) {
      MergeTurnFails(base, entries, add, i);
      last := entries;
    } else {
      MergeTurn(base, entries, add, i);
      last := MergeLoop(base, AfterTurn(base, entries, add, i), add, i + 1);
    }
  }

  lemma NothingDone(base: Table, add: Table)
    ensures Represents(base, base, add, 0)
  {
    assert Keys(base) + [] == Keys(base);
  }

  /** Merging, seen as a whole: nothing to merge, a first turn that fails, or the map of all turns. */
  lemma MergeAll(base: Table, add: Table) returns (last: Table)
    requires |base| + |add| > 0
    ensures match FirstBad(base, add, 0)
            case Some(j) => Merge(base, add) == Combined(base, add, j)
            case None => Represents(last, base, add, |add|) && Merge(base, add) == Cloned(last)
  {
    NothingDone(base, add);
    last := MergeLoop(base, base, add, 0);
  }

  /** Merging refines merging maps, for all tables: a merged table has the keys of `base` in their
      order, then the new keys of `add` in theirs; every key maps to the last value given for it, and
      to the merge of the base's table with that value if both are tables. */
  lemma MergeIsMapMerge(base: Table, add: Table)
    requires Merge(base, add).Merged?
    ensures var r := Merge(base, add).table;
            && Keys(r) == Keys(base) + NewKeys(base, add, |add|)
            && forall key :: Lookup(r, key) == ValueOf(base, add, |add|, key)
  {
    var last := MergeAll(base, add);
  }

  ghost predicate DistinctKeys(es: Table) { forall i, j | 0 <= i < j < |es| :: es[i].key != es[j].key }

  lemma OnlyEntry(add: Table, i: nat, j: nat)
    requires DistinctKeys(add) && j < |add| && i <= |add|
    ensures LastWith(add, i, add[j].key) == if j < i then Some(j) else None
  {
  }

  /** Without repeated keys: the added value if there is one, the base value if there is none, the merge
      of both if both are tables. */
  lemma DistinctMapMerge(base: Table, add: Table, key: seq<byte>)
    requires DistinctKeys(add) && Merge(base, add).Merged?
    ensures var b, a, r := Lookup(base, key), Lookup(add, key), Lookup(Merge(base, add).table, key);
            if a.None? then r == b
            else if b.Some? && b.value.Nested? && a.value.Nested? then
              var m := Merge(b.value.table, a.value.table); m.Merged? && r == Some(Nested(m.table))
            else r == a
  {
    var last := MergeAll(base, add);
    MergeIsMapMerge(base, add);
    var k := IndexOf(add, key, 0);
    if k.Some? {
      OnlyEntry(add, |add|, k.value);
      OnlyEntry(add, k.value, k.value);
      assert TurnOk(base, add, k.value);
    } else {
      assert LastWith(add, |add|, key).None?;
    }
  }

  // ----- when it succeeds, and when it is defined -----

  /** The entry of `base` gives way to one of `add`. */
  predicate Replaced(base: Table, add: Table, m: nat)
    requires m < |base|
  {
    IndexOf(base, base[m].key, 0) == Some(m) && LastWith(add, |add|, base[m].key).Some?
  }

  /** No key is empty, and every value that is kept can be cloned, tables that meet being left to the
      recursion. */
  predicate KeptCloneable(base: Table, add: Table) {
    && (forall m | 0 <= m < |base| ::
          base[m].key != [] && (Replaced(base, add, m) || Cloneable(base[m].value)))
    && (forall j | 0 <= j < |add| ::
          add[j].key != [] &&
          (Meets(base, add, j) || LastWith(add, |add|, add[j].key) != Some(j) || Cloneable(add[j].value)))
  }

  /** At this level and wherever two tables meet: there is an entry, the base has a table to merge
      with, no key is empty and every value that is kept can be cloned. */
  predicate Mergeable(base: Table, add: Table)
    decreases add, 1
  {
    && |base| + |add| > 0 && KeptCloneable(base, add)
    && forall j | 0 <= j < |add| && Meets(base, add, j) :: Fine(base, add, j)
  }

  /** Two tables that meet can be merged. */
  predicate Fine(base: Table, add: Table, j: nat)
    requires j < |add| && Meets(base, add, j)
    decreases add, 0
  {
    match BaseTable(base, add[j].key)
    case None => false
    case Some(b) => Mergeable(b, add[j].value.table)
  }

  /** Before anything else fails, an added table meets one that `base` does not have: a key has been
      given a table by `add` alone and is given another one; or that happens inside tables that meet. */
  predicate Unreadable(base: Table, add: Table)
    decreases add, 1
  {
    exists j :: 0 <= j < |add| && UnreadableAt(base, add, j)
  }

  predicate UnreadableAt(base: Table, add: Table, j: nat)
    requires j < |add|
    decreases add, 0
  {
    && Meets(base, add, j)
    && (forall i | 0 <= i < j && Meets(base, add, i) :: Fine(base, add, i))
    && match BaseTable(base, add[j].key)
       case None => true
       case Some(b) => Unreadable(b, add[j].value.table)
  }

  lemma {:induction false} TableCloneableAll(es: Table)
    ensures TableCloneable(es) <==> forall i | 0 <= i < |es| :: es[i].key != [] && Cloneable(es[i].value)
    decreases |es|
  {
    if es != [] {
      TableCloneableAll(es[1..]);
      assert forall i | 1 <= i < |es| :: es[i] == es[1..][i - 1];
      if TableCloneable(es) {
        forall i | 0 <= i < |es| ensures es[i].key != [] && Cloneable(es[i].value) {
          if i > 0 { assert es[1..][i - 1] == es[i]; }
        }
      }
    }
  }

  lemma {:induction false} MergedCloneable(base: Table, entries: Table, add: Table, i: nat)
    requires i <= |add| && MergeFrom(base, entries, add, i).Merged?
    ensures TableCloneable(MergeFrom(base, entries, add, i).table)
    decreases |add| - i
  {
    if i < |add| {
      var e := add[i];
      match IndexOf(entries, e.key, 0)
      case None => MergedCloneable(base, entries + [e], add, i + 1);
      case Some(k) =>
        if e.value.Nested? && entries[k].value.Nested? {
          var t := Merge(BaseTable(base, e.key).value, e.value.table);
          MergedCloneable(base, entries[k := Entry(entries[k].key, Nested(t.table))], add, i + 1);
        } else {
          MergedCloneable(base, entries[k := Entry(entries[k].key, e.value)], add, i + 1);
        }
    }
  }

  lemma CombinedCloneable(base: Table, add: Table, j: nat)
    requires j < |add| && Meets(base, add, j) && Combined(base, add, j).Merged?
    ensures TableCloneable(Combined(base, add, j).table)
  {
    var b := BaseTable(base, add[j].key).value;
    MergedCloneable(b, b, add[j].value.table, 0);
  }

  /** The entry for a key that `add` gives last. */
  lemma AddedEntry(base: Table, add: Table, last: Table, j: nat) returns (k: nat)
    requires AllOk(base, add, |add|) && Represents(last, base, add, |add|) && j < |add|
    ensures k < |last| && last[k].key == add[j].key && Lookup(last, add[j].key) == Some(last[k].value)
  {
    KindsAgree(base, last, add, |add|, add[j].key);
    k := IndexOf(last, add[j].key, 0).value;
  }

  lemma CloneableKept(base: Table, add: Table, last: Table)
    requires AllOk(base, add, |add|) && Represents(last, base, add, |add|) && TableCloneable(last)
    ensures KeptCloneable(base, add)
  {
    TableCloneableAll(last);
    forall m | 0 <= m < |base|
      ensures base[m].key != [] && (Replaced(base, add, m) || Cloneable(base[m].value))
    {
      BaseEntryKept(base, add, last, m);
      assert last[m].key == base[m].key;
    }
    forall j | 0 <= j < |add|
      ensures add[j].key != []
      ensures Meets(base, add, j) || LastWith(add, |add|, add[j].key) != Some(j) || Cloneable(add[j].value)
    {
      var k := AddedEntry(base, add, last, j);
      assert Lookup(last, add[j].key) == ValueOf(base, add, |add|, add[j].key);
    }
  }

  /** An entry of `base` that does not give way is still there. */
  lemma BaseEntryKept(base: Table, add: Table, last: Table, m: nat)
    requires Represents(last, base, add, |add|) && m < |base|
    ensures Replaced(base, add, m) || last[m] == base[m]
  {
    var key := base[m].key;
    assert last[m].key == key;
    SamePlace(last, base, key);
    assert Lookup(last, key) == ValueOf(base, add, |add|, key);
  }

  lemma KeptIsCloneable(base: Table, add: Table, last: Table)
    requires AllOk(base, add, |add|) && Represents(last, base, add, |add|) && KeptCloneable(base, add)
    ensures TableCloneable(last)
  {
    forall m | 0 <= m < |last| ensures last[m].key != [] && Cloneable(last[m].value) {
      if m < |base| && last[m] == base[m] && !Replaced(base, add, m) {
        assert base[m].key != [];
      } else {
        EntryCloneable(base, add, last, m);
      }
    }
    TableCloneableAll(last);
  }

  lemma EntryCloneable(base: Table, add: Table, last: Table, m: nat)
    requires AllOk(base, add, |add|) && Represents(last, base, add, |add|) && KeptCloneable(base, add) && m < |last|
    requires !(m < |base| && last[m] == base[m] && !Replaced(base, add, m))
    ensures last[m].key != [] && Cloneable(last[m].value)
  {
    var key := last[m].key;
    SamePlace(last, base, key);
    assert IndexOf(last, key, 0) == Some(m);
    assert Lookup(last, key) == ValueOf(base, add, |add|, key);
    if m < |base| { BaseEntryKept(base, add, last, m); }
    var j := LastWith(add, |add|, key).value;
    assert TurnOk(base, add, j);
    if Meets(base, add, j) { CombinedCloneable(base, add, j); }
  }

  /** For all tables: merging succeeds exactly when the tables are mergeable, and reads an entry that
      does not exist exactly when they are unreadable. */
  lemma {:induction false} MergeSucceeds(base: Table, add: Table)
    ensures Merge(base, add).Merged? <==> Mergeable(base, add)
    ensures Merge(base, add) == Undefined <==> Unreadable(base, add)
    decreases add
  {
    if |base| + |add| > 0 {
      forall j | 0 <= j < |add| && Meets(base, add, j) && BaseTable(base, add[j].key).Some?
        ensures var b, a := BaseTable(base, add[j].key).value, add[j].value.table;
                && (Merge(b, a).Merged? <==> Mergeable(b, a)) && (Merge(b, a) == Undefined <==> Unreadable(b, a))
      {
        MergeSucceeds(BaseTable(base, add[j].key).value, add[j].value.table);
      }
      OutcomeOfTurns(base, add);
    }
  }

  /** Tables that meet behave as they should. */
  ghost predicate PartsExact(base: Table, add: Table) {
    forall j | 0 <= j < |add| && Meets(base, add, j) && BaseTable(base, add[j].key).Some? ::
      var b, a := BaseTable(base, add[j].key).value, add[j].value.table;
      (Merge(b, a).Merged? <==> Mergeable(b, a)) && (Merge(b, a) == Undefined <==> Unreadable(b, a))
  }

  lemma TurnExact(base: Table, add: Table, j: nat)
    requires PartsExact(base, add) && j < |add| && Meets(base, add, j)
    ensures var b := BaseTable(base, add[j].key);
            && (TurnOk(base, add, j) <==> Fine(base, add, j))
            && (Combined(base, add, j) == Undefined <==> b.None? || Unreadable(b.value, add[j].value.table))
  {
  }

  /** What the turns say about tables that meet is what their conditions say. */
  ghost predicate TurnsExact(base: Table, add: Table) {
    forall j | 0 <= j < |add| && Meets(base, add, j) ::
      var b := BaseTable(base, add[j].key);
      && (TurnOk(base, add, j) <==> Fine(base, add, j))
      && (Combined(base, add, j) == Undefined <==> b.None? || Unreadable(b.value, add[j].value.table))
  }

  lemma OutcomeOfTurns(base: Table, add: Table)
    requires |base| + |add| > 0 && PartsExact(base, add)
    ensures Merge(base, add).Merged? <==> Mergeable(base, add)
    ensures Merge(base, add) == Undefined <==> Unreadable(base, add)
  {
    forall j | 0 <= j < |add| && Meets(base, add, j) { TurnExact(base, add, j); }
    assert TurnsExact(base, add);
    var last := MergeAll(base, add);
    match FirstBad(base, add, 0)
    case Some(j) => TurnFailed(base, add, j);
    case None => AllTurnsOk(base, add, last);
  }

  lemma TurnFailed(base: Table, add: Table, j: nat)
    requires TurnsExact(base, add) && |base| + |add| > 0 && j < |add| && !TurnOk(base, add, j) && AllOk(base, add, j)
    ensures !Mergeable(base, add) && (Combined(base, add, j) == Undefined <==> Unreadable(base, add))
  {
    FailsFirst(base, add, j);
    NotFine(base, add, j);
    forall k | 0 <= k < |add| && UnreadableAt(base, add, k) ensures k == j { FailsOnce(base, add, j, k); }
    UnreadableOnly(base, add, j);
  }

  lemma NotFine(base: Table, add: Table, j: nat)
    requires j < |add| && Meets(base, add, j) && !Fine(base, add, j)
    ensures !Mergeable(base, add)
  {
  }

  lemma UnreadableOnly(base: Table, add: Table, j: nat)
    requires j < |add| && forall k | 0 <= k < |add| && UnreadableAt(base, add, k) :: k == j
    ensures Unreadable(base, add) <==> UnreadableAt(base, add, j)
  {
  }

  /** The first turn that fails is undefined exactly if it meets a table that cannot be read. */
  lemma FailsFirst(base: Table, add: Table, j: nat)
    requires TurnsExact(base, add) && j < |add| && Meets(base, add, j) && AllOk(base, add, j)
    ensures Combined(base, add, j) == Undefined <==> UnreadableAt(base, add, j)
  {
    forall i | 0 <= i < j && Meets(base, add, i) ensures Fine(base, add, i) { assert TurnOk(base, add, i); }
  }

  lemma FailsOnce(base: Table, add: Table, j: nat, k: nat)
    requires TurnsExact(base, add) && j < |add| && !TurnOk(base, add, j) && AllOk(base, add, j)
    requires k < |add| && UnreadableAt(base, add, k)
    ensures k == j
  {
    assert Meets(base, add, j) && !Fine(base, add, j);
    assert Combined(base, add, k) == Undefined;
    assert !TurnOk(base, add, k);
  }

  lemma AllTurnsOk(base: Table, add: Table, last: Table)
    requires TurnsExact(base, add) && |base| + |add| > 0 && AllOk(base, add, |add|) && Represents(last, base, add, |add|)
    ensures TableCloneable(last) <==> Mergeable(base, add)
    ensures !Unreadable(base, add)
  {
    assert forall j | 0 <= j < |add| :: TurnOk(base, add, j);
    if TableCloneable(last) { CloneableKept(base, add, last); }
    if KeptCloneable(base, add) { KeptIsCloneable(base, add, last); }
  }

  /** No table on the way down has a key twice. */
  ghost predicate CleanTable(es: Table) {
    DistinctKeys(es) && forall i | 0 <= i < |es| && es[i].value.Nested? :: CleanTable(es[i].value.table)
  }

  /** If `add` repeats no key, at any depth, merging is defined whatever `base` is. */
  lemma {:induction false} CleanIsDefined(base: Table, add: Table)
    requires CleanTable(add)
    ensures !Unreadable(base, add) && Merge(base, add) != Undefined
    decreases add
  {
    forall j | 0 <= j < |add| && Meets(base, add, j)
      ensures var b := BaseTable(base, add[j].key); b.Some? && !Unreadable(b.value, add[j].value.table)
    {
      OnlyEntry(add, j, j);
      CleanIsDefined(BaseTable(base, add[j].key).value, add[j].value.table);
    }
    MergeSucceeds(base, add);
  }

  /** A key given twice by `add`, with tables, is merged with a base entry that does not exist. */
  lemma RepeatedKey(base: Table, key: seq<byte>, t: Table, u: Table)
    requires Lookup(base, key).None?
    ensures Merge(base, [Entry(key, Nested(t)), Entry(key, Nested(u))]) == Undefined
  {
    var add := [Entry(key, Nested(t)), Entry(key, Nested(u))];
    assert LastWith(add, 1, key) == Some(0) && LastWith(add, 0, key).None?;
    assert Meets(base, add, 1) && !Meets(base, add, 0);
    assert UnreadableAt(base, add, 1);
    MergeSucceeds(base, add);
  }

  /** Two tables without entries cannot be merged, and neither can an entry without a key. */
  lemma NothingToMerge(v: Value)
    ensures Merge([], []) == NoMemory && Merge([], [Entry([], v)]) == InvalidParameter
  {
    var add := [Entry([], v)];
    assert [] + [add[0]] == add;
    assert MergeFrom([], [], add, 0) == MergeFrom([], add, add, 1);
  }
}
