/** The table encoder and decoder as they run: a cursor moving over a buffer, sizes left blank and
    patched once the contents are written, entry arrays that grow. */
module TableCodec {
  import opened Wire
  import opened FieldTable

  datatype Status = Ok | BadAmqpData | TableTooBig | InvalidParameter

  // ----- encoding -----

  /** The contract of every encoder: `Ok` exactly when the kinds are known and the octets fit, the
      octets are then in place and nothing else changed; in every case nothing before the start
      offset changed.  Each failure says what was wrong. */
  ghost predicate Encoded(before: seq<byte>, after: seq<byte>, off: nat, known: bool, s: seq<byte>,
                          st: Status, next: nat)
  {
    && |after| == |before|
    && (st.Ok? <==> known && off + |s| <= |before|)
    && (st.Ok? ==> next == off + |s| && Stored(before, after, off, s))
    && (st.InvalidParameter? ==> !known)
    && (st.BadAmqpData? || st.TableTooBig? ==> off + |s| > |before|)
    && (forall i | 0 <= i < off && i < |before| :: after[i] == before[i])
  }

  /** Kinds without parts: `FIELD_ENCODER` and its neighbours. */
  method EncodeLeaf(buf: array<byte>, v: Value, off: nat) returns (st: Status, next: nat)
    requires !v.Array? && !v.Nested? && !v.Foreign? && off <= buf.Length
    modifies buf
    ensures Encoded(old(buf[..]), buf[..], off, true, LeafBytes(v), st, next)
    ensures !st.BadAmqpData?
  {
    var ok: bool;
    if v.Decimal? {
      ok, next := EncodePair(buf, off, [v.decimals], BigEndian(4, v.units));
    } else if v.Text? {
      ok, next := EncodePair(buf, off, BigEndian(4, |v.text| % U32), v.text);
    } else {
      ok, next := Encode(buf, off, LeafBytes(v));
    }
    st := if ok then Ok else TableTooBig;
  }

  /** Two parts, one behind the other. */
  method EncodePair(buf: array<byte>, off: nat, a: seq<byte>, b: seq<byte>) returns (ok: bool, next: nat)
    requires off <= buf.Length
    modifies buf
    ensures ok <==> off + |a + b| <= buf.Length
    ensures ok ==> next == off + |a + b| && Stored(old(buf[..]), buf[..], off, a + b)
    ensures forall i | 0 <= i < off :: buf[i] == old(buf[i])
  {
    ok, next := Encode(buf, off, a);
    if ok {
      ghost var mid := buf[..];
      ok, next := EncodeBytes(buf, next, b);
      if ok { StoredAdjacent(old(buf[..]), mid, buf[..], off, a, b); }
    }
  }

  method EncodeValue(buf: array<byte>, v: Value, off: nat) returns (st: Status, next: nat)
    modifies buf
    ensures Encoded(old(buf[..]), buf[..], off, Encodable(v), ValueBytes(v), st, next)
    decreases v, 1
  {
    ghost var before := buf[..];
    var ok: bool;
    ok, next := Encode(buf, off, [Tag(v)]);
    if !ok { return BadAmqpData, next; }
    ghost var tagged := buf[..];
    if v.Array? {
      st, next := EncodeArray(buf, v.items, next);
    } else if v.Nested? {
      st, next := EncodeTable(buf, v.table, next);
    } else if v.Foreign? {
      st := InvalidParameter;
    } else {
      st, next := EncodeLeaf(buf, v, next);
    }
    Prepended(before, tagged, buf[..], off, [Tag(v)], Encodable(v), Payload(v), st, next);
  }

  lemma Prepended(before: seq<byte>, mid: seq<byte>, after: seq<byte>, off: nat, head: seq<byte>,
                  known: bool, s: seq<byte>, st: Status, next: nat)
    requires Stored(before, mid, off, head)
    requires Encoded(mid, after, off + |head|, known, s, st, next)
    ensures Encoded(before, after, off, known, head + s, st, next)
  {
    if st.Ok? { StoredAdjacent(before, mid, after, off, head, s); }
  }

  /** What a loop has written so far: the octets `done` from `off` on, if there are any. */
  ghost predicate Progress(before: seq<byte>, after: seq<byte>, off: nat, done: seq<byte>) {
    if off + |done| <= |before| then Stored(before, after, off, done)
    else done == [] && after == before
  }

  lemma Extended(a: seq<byte>, b: seq<byte>, c: seq<byte>, off: nat, done: seq<byte>, s: seq<byte>)
    requires Progress(a, b, off, done) && Stored(b, c, off + |done|, s)
    ensures Progress(a, c, off, done + s)
  {
    StoredAdjacent(a, b, c, off, done, s);
  }

  method EncodeArray(buf: array<byte>, items: seq<Value>, off: nat) returns (st: Status, next: nat)
    modifies buf
    ensures Encoded(old(buf[..]), buf[..], off, ItemsEncodable(items), Prefixed(ItemsBytes(items)), st, next)
    decreases items, 0
  {
    ghost var before := buf[..];
    ghost var done: seq<byte> := [];
    next := off + 4;
    var i := 0;
    assert items[0..] == items;
    while i < |items|
      invariant ItemsDone(before, buf[..], items, i, off, next, done)
    {
      st, next, done := EncodeItem(buf, items, i, off, next, before, done);
      if !st.Ok? { return; }
      i := i + 1;
    }
    assert ItemsBytes(items) == done;
    st := PatchSize(buf, off, next, before, done);
  }

  /** What the array encoder has done before item `i`. */
  ghost predicate ItemsDone(before: seq<byte>, after: seq<byte>, items: seq<Value>, i: nat, off: nat, next: nat,
                            done: seq<byte>)
  {
    && i <= |items| && next == off + 4 + |done| && Progress(before, after, off + 4, done)
    && ItemsBytes(items) == done + ItemsBytes(items[i..]) && ItemsEncodable(items) == ItemsEncodable(items[i..])
  }

  method EncodeItem(buf: array<byte>, items: seq<Value>, i: nat, ghost off: nat, at: nat, ghost before: seq<byte>,
                    ghost done: seq<byte>)
    returns (st: Status, next: nat, ghost done': seq<byte>)
    requires i < |items| && ItemsDone(before, buf[..], items, i, off, at, done)
    modifies buf
    ensures if st.Ok? then ItemsDone(before, buf[..], items, i + 1, off, next, done')
            else Encoded(before, buf[..], off, ItemsEncodable(items), Prefixed(ItemsBytes(items)), st, next)
    decreases items, 0, 0
  {
    ghost var mid := buf[..];
    st, next := EncodeValue(buf, items[i], at);
    done' := done + ValueBytes(items[i]);
    if st.Ok? {
      ItemDone(before, mid, buf[..], items, i, off, at, done);
    } else {
      ItemFailed(before, mid, buf[..], items, i, off, at, done, st, next);
    }
  }

  lemma ItemDone(before: seq<byte>, mid: seq<byte>, after: seq<byte>, items: seq<Value>, i: nat, off: nat, at: nat,
                 done: seq<byte>)
    requires i < |items| && ItemsDone(before, mid, items, i, off, at, done) && Encodable(items[i])
    requires Stored(mid, after, at, ValueBytes(items[i]))
    ensures ItemsDone(before, after, items, i + 1, off, at + |ValueBytes(items[i])|, done + ValueBytes(items[i]))
  {
    var v := ValueBytes(items[i]);
    ItemsFrom(items, i);
    Extended(before, mid, after, off + 4, done, v);
    assert done + (v + ItemsBytes(items[i + 1..])) == done + v + ItemsBytes(items[i + 1..]);
  }

  lemma ItemFailed(before: seq<byte>, mid: seq<byte>, after: seq<byte>, items: seq<Value>, i: nat, off: nat, at: nat,
                   done: seq<byte>, st: Status, next: nat)
    requires i < |items| && ItemsDone(before, mid, items, i, off, at, done) && !st.Ok?
    requires Encoded(mid, after, at, Encodable(items[i]), ValueBytes(items[i]), st, next)
    ensures Encoded(before, after, off, ItemsEncodable(items), Prefixed(ItemsBytes(items)), st, next)
  {
    ItemsFrom(items, i);
  }

  lemma ItemsFrom(items: seq<Value>, i: nat)
    requires i < |items|
    ensures ItemsBytes(items[i..]) == ValueBytes(items[i]) + ItemsBytes(items[i + 1..])
    ensures ItemsEncodable(items[i..]) == (Encodable(items[i]) && ItemsEncodable(items[i + 1..]))
  {
    assert items[i..][0] == items[i] && items[i..][1..] == items[i + 1..];
  }

  /** The size is written last, into the four octets left free in front of the contents. */
  method PatchSize(buf: array<byte>, start: nat, next: nat, ghost before: seq<byte>, ghost done: seq<byte>)
    returns (st: Status)
    requires next == start + 4 + |done| && |before| == buf.Length
    requires Progress(before, buf[..], start + 4, done)
    modifies buf
    ensures Encoded(before, buf[..], start, true, Prefixed(done), st, next)
  {
    ghost var mid := buf[..];
    var size := BigEndian(4, (next - start - 4) % U32);
    var ok, _ := Encode(buf, start, size);
    if ok { StoredAdjacent(before, mid, buf[..], start, size, done); }
    st := if ok then Ok else TableTooBig;
  }

  method EncodeKey(buf: array<byte>, key: seq<byte>, off: nat) returns (ok: bool, next: nat)
    modifies buf
    ensures ok ==> next == off + 1 + |key|
    ensures ok <==> off + 1 + |key| <= buf.Length
    ensures ok ==> Stored(old(buf[..]), buf[..], off, KeyBytes(key))
    ensures forall i | 0 <= i < off && i < buf.Length :: buf[i] == old(buf[i])
  {
    ok, next := Encode(buf, off, [|key| % 256]);
    if ok {
      ghost var mid := buf[..];
      ok, next := EncodeBytes(buf, next, key);
      if ok { StoredAdjacent(old(buf[..]), mid, buf[..], off, [|key| % 256], key); }
    }
  }

  method EncodeEntry(buf: array<byte>, e: Entry, off: nat) returns (st: Status, next: nat)
    modifies buf
    ensures Encoded(old(buf[..]), buf[..], off, Encodable(e.value), EntryBytes(e), st, next)
    decreases e, 1
  {
    ghost var before := buf[..];
    var ok: bool;
    ok, next := EncodeKey(buf, e.key, off);
    if !ok { return TableTooBig, next; }
    ghost var keyed := buf[..];
    st, next := EncodeValue(buf, e.value, next);
    Prepended(before, keyed, buf[..], off, KeyBytes(e.key), Encodable(e.value), ValueBytes(e.value), st, next);
  }

  lemma EntriesFrom(es: Table, i: nat)
    requires i < |es|
    ensures EntriesBytes(es[i..]) == EntryBytes(es[i]) + EntriesBytes(es[i + 1..])
    ensures TableEncodable(es[i..]) == (Encodable(es[i].value) && TableEncodable(es[i + 1..]))
  {
    assert es[i..][0] == es[i] && es[i..][1..] == es[i + 1..];
  }

  /** What the table encoder has done before entry `i`. */
  ghost predicate EntriesDone(before: seq<byte>, after: seq<byte>, es: Table, i: nat, off: nat, next: nat, done: seq<byte>) {
    && i <= |es| && next == off + 4 + |done| && Progress(before, after, off + 4, done)
    && EntriesBytes(es) == done + EntriesBytes(es[i..]) && TableEncodable(es) == TableEncodable(es[i..])
  }

  method EncodeNext(buf: array<byte>, es: Table, i: nat, ghost off: nat, at: nat, ghost before: seq<byte>, ghost done: seq<byte>)
    returns (st: Status, next: nat, ghost done': seq<byte>)
    requires i < |es| && EntriesDone(before, buf[..], es, i, off, at, done)
    modifies buf
    ensures if st.Ok? then EntriesDone(before, buf[..], es, i + 1, off, next, done')
            else Encoded(before, buf[..], off, TableEncodable(es), TableBytes(es), st, next)
    decreases es, 0, 0
  {
    ghost var mid := buf[..];
    st, next := EncodeEntry(buf, es[i], at);
    done' := done + EntryBytes(es[i]);
    if st.Ok? {
      EntryDone(before, mid, buf[..], es, i, off, at, done);
    } else {
      EntryFailed(before, mid, buf[..], es, i, off, at, done, st, next);
    }
  }

  lemma EntryDone(before: seq<byte>, mid: seq<byte>, after: seq<byte>, es: Table, i: nat, off: nat, at: nat, done: seq<byte>)
    requires i < |es| && EntriesDone(before, mid, es, i, off, at, done) && Encodable(es[i].value)
    requires Stored(mid, after, at, EntryBytes(es[i]))
    ensures EntriesDone(before, after, es, i + 1, off, at + |EntryBytes(es[i])|, done + EntryBytes(es[i]))
  {
    EntriesFrom(es, i);
    Extended(before, mid, after, off + 4, done, EntryBytes(es[i]));
    assert done + (EntryBytes(es[i]) + EntriesBytes(es[i + 1..])) == done + EntryBytes(es[i]) + EntriesBytes(es[i + 1..]);
  }

  lemma EntryFailed(before: seq<byte>, mid: seq<byte>, after: seq<byte>, es: Table, i: nat, off: nat, at: nat,
                    done: seq<byte>, st: Status, next: nat)
    requires i < |es| && EntriesDone(before, mid, es, i, off, at, done) && !st.Ok?
    requires Encoded(mid, after, at, Encodable(es[i].value), EntryBytes(es[i]), st, next)
    ensures Encoded(before, after, off, TableEncodable(es), TableBytes(es), st, next)
  {
    EntriesFrom(es, i);
  }

  method EncodeTable(buf: array<byte>, es: Table, off: nat) returns (st: Status, next: nat)
    modifies buf
    ensures Encoded(old(buf[..]), buf[..], off, TableEncodable(es), TableBytes(es), st, next)
    decreases es, 0
  {
    ghost var before := buf[..];
    ghost var done: seq<byte> := [];
    next := off + 4;
    var i := 0;
    assert es[0..] == es;
    while i < |es|
      invariant EntriesDone(before, buf[..], es, i, off, next, done)
    {
      st, next, done := EncodeNext(buf, es, i, off, next, before, done);
      if !st.Ok? { return; }
      i := i + 1;
    }
    assert EntriesBytes(es) == done;
    st := PatchSize(buf, off, next, before, done);
  }

  // ----- decoding -----

  /** What a decoding loop has in hand, in front of what the rest of the buffer gives. */
  ghost function Joined<T>(done: seq<T>, rest: Read<seq<T>>): Read<seq<T>> {
    if rest.Bad? then Bad else Got(done + rest.value, rest.next)
  }

  lemma JoinedNothing<T>(r: Read<seq<T>>)
    ensures Joined([], r) == r
  {
    if r.Got? { assert [] + r.value == r.value; }
  }

  lemma JoinedOne<T>(done: seq<T>, x: T, rest: Read<seq<T>>)
    ensures Joined(done, Joined([x], rest)) == Joined(done + [x], rest)
  {
    if rest.Got? { assert done + ([x] + rest.value) == done + [x] + rest.value; }
  }

  method DecodeValue(buf: seq<byte>, off: nat) returns (r: Read<Value>)
    ensures r == ValueAt(buf, off)
    decreases |buf| - off, 0
  {
    if off >= |buf| { return Bad; }
    if buf[off] == 0x41 {
      var items := DecodeArray(buf, off + 1);
      r := if items.Got? then Got(Array(items.value), items.next) else Bad;
    } else if buf[off] == 0x46 {
      var table := DecodeTable(buf, off + 1);
      r := if table.Got? then Got(Nested(table.value), table.next) else Bad;
    } else {
      r := LeafAt(buf, off + 1, buf[off]);
    }
  }

  method DecodeArray(buf: seq<byte>, off: nat) returns (r: Read<seq<Value>>)
    ensures r == match NumberAt(buf, off, 4) case Bad => Bad case Got(n, o) => ItemsAt(buf, o, o + n)
    decreases |buf| - off, 1
  {
    var size := NumberAt(buf, off, 4);
    if size.Bad? { return Bad; }
    var limit := size.next + size.value;
    var items: seq<Value> := [];
    var o := size.next;
    JoinedNothing(ItemsAt(buf, o, limit));
    while o < limit
      invariant size.next <= o <= |buf|
      invariant ItemsAt(buf, size.next, limit)
             == Joined(items, ItemsAt(buf, o, limit))
      decreases |buf| - o
    {
      var v := DecodeValue(buf, o);
      if v.Bad? { return Bad; }
      assert ItemsAt(buf, o, limit) == Joined([v.value], ItemsAt(buf, v.next, limit));
      JoinedOne(items, v.value, ItemsAt(buf, v.next, limit));
      items, o := items + [v.value], v.next;
    }
    assert items + [] == items;
    r := Got(items, o);
  }

  method DecodeTable(buf: seq<byte>, off: nat) returns (r: Read<Table>)
    ensures r == TableAt(buf, off)
    decreases |buf| - off, 1
  {
    var size := NumberAt(buf, off, 4);
    if size.Bad? { return Bad; }
    var limit := size.next + size.value;
    var es: Table := [];
    var o := size.next;
    JoinedNothing(EntriesAt(buf, o, limit));
    while o < limit
      invariant size.next <= o <= |buf|
      invariant EntriesAt(buf, size.next, limit)
             == Joined(es, EntriesAt(buf, o, limit))
      decreases |buf| - o
    {
      var key := KeyAt(buf, o);
      if key.Bad? { return Bad; }
      var v := DecodeValue(buf, key.next);
      if v.Bad? { return Bad; }
      var e := Entry(key.value, v.value);
      assert EntriesAt(buf, o, limit) == Joined([e], EntriesAt(buf, v.next, limit));
      JoinedOne(es, e, EntriesAt(buf, v.next, limit));
      es, o := es + [e], v.next;
    }
    assert es + [] == es;
    r := Got(es, o);
  }
}
