/** The format of table values as numbers (section 4.2.5.5 of AMQP 0-9-1): the kind octet and the
    octets of every value, what every kind octet is taken for, and how far the size-driven loops
    read. */
module ValueLayout {
  import opened Wire
  import opened FieldTable

  // ----- the octets of a value -----

  lemma Modulus(x: int, m: int)
    requires -m <= x < m && m > 0
    ensures x % m == if x < 0 then x + m else x
  {
    if x < 0 { assert (x + m) % m == x % m; }
  }

  lemma WrittenNumber(n: Number)
    ensures Unsigned(n) == n.value % Pow256(Width(n.kind))
  {
    Modulus(n.value, Pow256(Width(n.kind)));
  }

  /** The range of every number kind. */
  lemma NumberRanges(n: Number)
    ensures match n.kind
            case I8 => -0x80 <= n.value < 0x80
            case U8 => 0 <= n.value < 0x100
            case I16 => -0x8000 <= n.value < 0x8000
            case U16' => 0 <= n.value < 0x10000
            case I32 => -0x80000000 <= n.value < 0x80000000
            case U32' | F32 => 0 <= n.value < 0x100000000
            case I64 => -0x8000000000000000 <= n.value < 0x8000000000000000
            case U64' | F64 | Timestamp => 0 <= n.value < 0x10000000000000000
  {
    Pow256Values();
  }

  /** The octets of every number: its kind, then the value modulo the size of its type. */
  lemma NumberOctets(k: NumberKind, x: int)
    requires FieldTable.Representable(RawNumber.Number(k, x))
    ensures ValueBytes(Num(RawNumber.Number(k, x))) ==
            match k
            case I8 => [0x62] + BigEndian(1, x % 0x100)
            case U8 => [0x42] + BigEndian(1, x)
            case I16 => [0x73] + BigEndian(2, x % 0x10000)
            case U16' => [0x75] + BigEndian(2, x)
            case I32 => [0x49] + BigEndian(4, x % 0x100000000)
            case U32' => [0x69] + BigEndian(4, x)
            case I64 => [0x6C] + BigEndian(8, x % 0x10000000000000000)
            case U64' => [0x4C] + BigEndian(8, x)
            case F32 => [0x66] + BigEndian(4, x)
            case F64 => [0x64] + BigEndian(8, x)
            case Timestamp => [0x54] + BigEndian(8, x)
  {
    WrittenNumber(RawNumber.Number(k, x));
    Pow256Values();
  }

  /** The octets of every other value without parts. */
  lemma LeafOctets(v: Value)
    requires v.Text? ==> |v.text| < U32
    ensures v.Boolean? ==> ValueBytes(v) == [0x74, if v.flag != 0 then 1 else 0]
    ensures v.Decimal? ==> ValueBytes(v) == [0x44, v.decimals] + BigEndian(4, v.units)
    ensures v.Text? ==> ValueBytes(v) == [if v.utf8 then 0x53 else 0x78] + BigEndian(4, |v.text|) + v.text
    ensures v.Void? ==> ValueBytes(v) == [0x56]
    ensures v.Foreign? ==> ValueBytes(v) == [v.tag]
  {
    assert Payload(v) == LeafBytes(v) || v.Array? || v.Nested?;
    if v.Text? { assert |v.text| % U32 == |v.text|; }
  }

  /** The octets of an array: the kind, the size of the values in four octets, the values. */
  lemma ArrayOctets(v: Value)
    requires v.Array? && |ItemsBytes(v.items)| < U32
    ensures ValueBytes(v) == [0x41] + (BigEndian(4, |ItemsBytes(v.items)|) + ItemsBytes(v.items))
  {
    PrefixedOctets(ItemsBytes(v.items));
  }

  /** The octets of a nested table: the kind, the size of the entries in four octets, the entries. */
  lemma NestedOctets(v: Value)
    requires v.Nested? && |EntriesBytes(v.table)| < U32
    ensures ValueBytes(v) == [0x46] + (BigEndian(4, |EntriesBytes(v.table)|) + EntriesBytes(v.table))
  {
    PrefixedOctets(EntriesBytes(v.table));
  }

  lemma PrefixedOctets(body: seq<byte>)
    requires |body| < U32
    ensures Prefixed(body) == BigEndian(4, |body|) + body
  {
    var n := |body|;
    SmallLength(n);
    PrefixedWith(body, n % U32, n);
  }

  lemma PrefixedWith(body: seq<byte>, a: nat, b: nat)
    requires a == b && a == |body| % U32
    ensures Prefixed(body) == BigEndian(4, b) + body
  {
  }

  lemma SmallLength(n: nat)
    requires n < U32
    ensures n % U32 == n
  {
  }

  /** Values lie one behind the other. */
  lemma {:induction false} ItemsJoin(a: seq<Value>, b: seq<Value>)
    ensures ItemsBytes(a + b) == ItemsBytes(a) + ItemsBytes(b)
  {
    if a == [] {
      assert a + b == b;
    } else {
      assert (a + b)[0] == a[0] && (a + b)[1..] == a[1..] + b;
      ItemsJoin(a[1..], b);
    }
  }

  /** Entries lie one behind the other, each with its key's length in one octet, the key, and the
      value. */
  lemma {:induction false} EntriesJoin(a: Table, b: Table)
    ensures EntriesBytes(a + b) == EntriesBytes(a) + EntriesBytes(b)
    ensures forall e: Entry :: EntriesBytes([e]) == [|e.key| % 256] + e.key + ValueBytes(e.value)
  {
    if a == [] {
      assert a + b == b;
    } else {
      assert (a + b)[0] == a[0] && (a + b)[1..] == a[1..] + b;
      EntriesJoin(a[1..], b);
    }
  }

  // ----- what a kind octet is taken for -----

  /** The kind octet of every number and the octets behind it. */
  predicate NumberOctet(t: byte, k: NumberKind, width: nat) {
    match k
    case I8 => t == 0x62 && width == 1
    case U8 => t == 0x42 && width == 1
    case I16 => t == 0x73 && width == 2
    case U16' => t == 0x75 && width == 2
    case I32 => t == 0x49 && width == 4
    case U32' => t == 0x69 && width == 4
    case I64 => t == 0x6C && width == 8
    case U64' => t == 0x4C && width == 8
    case F32 => t == 0x66 && width == 4
    case F64 => t == 0x64 && width == 8
    case Timestamp => t == 0x54 && width == 8
  }

  lemma NumberOctetIsTag(t: byte, k: NumberKind, width: nat)
    requires NumberOctet(t, k, width)
    ensures KindOfTag(t) == Some(k) && Width(k) == width && !PartTag(t) && t != 0x41 && t != 0x46
  {
  }

  /** A number kind: the next octets, as many as the type is wide, and the one value of the type
      that they stand for. */
  lemma NumberTaken(buf: seq<byte>, off: nat, k: NumberKind, width: nat)
    requires off < |buf| && NumberOctet(buf[off], k, width)
    ensures ValueAt(buf, off).Got? <==> off + 1 + width <= |buf|
    ensures ValueAt(buf, off).Got? ==>
              var r := ValueAt(buf, off);
              && r.next == off + 1 + width && r.value.Num? && r.value.number.kind == k
              && r.value.number.value % Pow256(width) == FromBigEndian(buf[off + 1..off + 1 + width])
  {
    NumberOctetIsTag(buf[off], k, width);
    assert ValueAt(buf, off) == PlainNumberAt(buf, off + 1, k);
    if off + 1 + width <= |buf| {
      var u := FromBigEndian(buf[off + 1..off + 1 + width]);
      TakenNumber(k, u);
    }
  }

  lemma TakenNumber(k: NumberKind, u: nat)
    requires u < Pow256(Width(k))
    ensures FromUnsigned(k, u).value % Pow256(Width(k)) == u
  {
    Modulus(FromUnsigned(k, u).value, Pow256(Width(k)));
  }

  /** t, b, B, s, u, I, i, l, L, f, d, D, S, A, T, F, V and x. */
  const KINDS: set<int> := {0x74, 0x62, 0x42, 0x73, 0x75, 0x49, 0x69, 0x6C, 0x4C, 0x66, 0x64, 0x44, 0x53, 0x41, 0x54,
                            0x46, 0x56, 0x78}

  /** Every other kind but arrays and tables. */
  lemma LeafTaken(buf: seq<byte>, off: nat)
    requires off < |buf|
    ensures buf[off] == 0x74 ==>
              ValueAt(buf, off) == if off + 2 <= |buf|
                                   then Got(Boolean(if buf[off + 1] != 0 then 1 else 0), off + 2) else Bad
    ensures buf[off] == 0x44 ==>
              ValueAt(buf, off) == if off + 6 <= |buf|
                                   then Got(Decimal(buf[off + 1], LongIn(buf, off + 2)), off + 6) else Bad
    ensures buf[off] in {0x53, 0x78} ==>
              ValueAt(buf, off) == if off + 5 <= |buf| && off + 5 + LongIn(buf, off + 1) <= |buf|
                                   then Got(Text(buf[off] == 0x53, buf[off + 5..off + 5 + LongIn(buf, off + 1)]),
                                            off + 5 + LongIn(buf, off + 1))
                                   else Bad
    ensures buf[off] == 0x56 ==> ValueAt(buf, off) == Got(Void, off + 1)
    ensures buf[off] !in KINDS ==> ValueAt(buf, off) == Bad
  {
    if off + 2 <= |buf| { assert buf[off + 1..off + 2] == [buf[off + 1]]; assert [buf[off + 1]][..0] == []; }
  }

  /** Four octets of the buffer as a number. */
  function LongIn(buf: seq<byte>, off: nat): (v: FieldTable.Long)
    requires off + 4 <= |buf|
  {
    Pow256Values();
    FromBigEndian(buf[off..off + 4])
  }

  /** Parts read one behind the other, each starting below the limit, the last ending at or beyond it: `os`
      are the places where they start and where the last one ends. */
  ghost predicate Steps<T(!new)>(step: (nat, T, nat) -> bool, os: seq<nat>, xs: seq<T>, limit: nat) {
    && |os| == |xs| + 1 && os[|xs|] >= limit
    && forall i | 0 <= i < |xs| :: os[i] < limit && step(os[i], xs[i], os[i + 1])
  }

  lemma StepsJoin<T(!new)>(step: (nat, T, nat) -> bool, off: nat, x: T, os: seq<nat>, xs: seq<T>, limit: nat)
    requires off < limit && Steps(step, os, xs, limit) && step(off, x, os[0])
    ensures Steps(step, [off] + os, [x] + xs, limit)
  {
    var os', xs' := [off] + os, [x] + xs;
    forall i | 0 <= i < |xs'| ensures os'[i] < limit && step(os'[i], xs'[i], os'[i + 1]) {
      if i > 0 { assert os'[i] == os[i - 1] && os'[i + 1] == os[i] && xs'[i] == xs[i - 1]; }
    }
  }

  lemma StepsTail<T(!new)>(step: (nat, T, nat) -> bool, os: seq<nat>, xs: seq<T>, limit: nat)
    requires Steps(step, os, xs, limit) && xs != []
    ensures os[0] < limit && step(os[0], xs[0], os[1]) && Steps(step, os[1..], xs[1..], limit)
  {
    forall i | 0 <= i < |xs[1..]| ensures os[1..][i] < limit && step(os[1..][i], xs[1..][i], os[1..][i + 1]) {
      assert step(os[i + 1], xs[i + 1], os[i + 2]);
    }
  }

  /** One value. */
  predicate ItemStep(buf: seq<byte>, o: nat, v: Value, o': nat) {
    match ValueAt(buf, o)
    case Bad => false
    case Got(w, next) => w == v && next == o'
  }

  function ItemsOf(buf: seq<byte>): (nat, Value, nat) -> bool { (o: nat, v: Value, o': nat) => ItemStep(buf, o, v, o') }

  lemma FirstItemTaken(buf: seq<byte>, off: nat, limit: nat) returns (v: Value, o: nat)
    requires off < limit && off <= |buf| && ItemsAt(buf, off, limit).Got?
    ensures ItemStep(buf, off, v, o) && off < o <= |buf| && ItemsAt(buf, o, limit).Got?
    ensures ItemsAt(buf, off, limit).value == [v] + ItemsAt(buf, o, limit).value
    ensures ItemsAt(buf, off, limit).next == ItemsAt(buf, o, limit).next
  {
    var r := ValueAt(buf, off);
    v, o := r.value, r.next;
  }

  lemma FirstItemFound(buf: seq<byte>, off: nat, limit: nat, v: Value, o: nat, rest: seq<Value>, next: nat)
    requires off < limit && off <= |buf| && ItemStep(buf, off, v, o) && o <= |buf|
    requires ItemsAt(buf, o, limit) == Got(rest, next)
    ensures ItemsAt(buf, off, limit) == Got([v] + rest, next)
  {
  }

  lemma ItemsBegin(buf: seq<byte>, off: nat, limit: nat, items: seq<Value>, o: nat, next: nat)
    requires off < limit && off <= |buf| && items != [] && ItemStep(buf, off, items[0], o) && o <= |buf|
    requires ItemsAt(buf, o, limit) == Got(items[1..], next)
    ensures ItemsAt(buf, off, limit) == Got(items, next)
  {
    FirstItemFound(buf, off, limit, items[0], o, items[1..], next);
    HeadTail(items);
  }

  lemma FirstItemStep(buf: seq<byte>, limit: nat, os: seq<nat>, items: seq<Value>)
    requires Steps(ItemsOf(buf), os, items, limit) && items != []
    ensures os[0] < limit && ItemStep(buf, os[0], items[0], os[1]) && os[1] <= |buf|
    ensures Steps(ItemsOf(buf), os[1..], items[1..], limit)
  {
    StepsTail(ItemsOf(buf), os, items, limit);
    assert ItemStep(buf, os[0], items[0], os[1]);
  }

  /** The array loop reads exactly such values. */
  lemma {:induction false} ItemsTaken(buf: seq<byte>, off: nat, limit: nat) returns (os: seq<nat>)
    requires off <= |buf| && ItemsAt(buf, off, limit).Got?
    ensures var r := ItemsAt(buf, off, limit);
            Steps(ItemsOf(buf), os, r.value, limit) && os[0] == off && os[|r.value|] == r.next
    decreases |buf| - off
  {
    if off >= limit {
      os := [off];
    } else {
      var v, o := FirstItemTaken(buf, off, limit);
      var rest := ItemsTaken(buf, o, limit);
      StepsJoin(ItemsOf(buf), off, v, rest, ItemsAt(buf, o, limit).value, limit);
      os := [off] + rest;
    }
  }

  /** Whenever there are such values, it reads them. */
  lemma {:induction false} ItemsFound(buf: seq<byte>, limit: nat, os: seq<nat>, items: seq<Value>)
    requires Steps(ItemsOf(buf), os, items, limit) && os[0] <= |buf|
    ensures ItemsAt(buf, os[0], limit) == Got(items, os[|items|])
    decreases |items|
  {
    if items != [] {
      FirstItemStep(buf, limit, os, items);
      ItemsFound(buf, limit, os[1..], items[1..]);
      ItemsBegin(buf, os[0], limit, items, os[1], os[|items|]);
    }
  }

  /** One entry: the key's length, the key, the value. */
  predicate EntryStep(buf: seq<byte>, o: nat, e: Entry, o': nat) {
    match ValueAt(buf, o + 1 + |e.key|)
    case Bad => false
    case Got(w, next) =>
      && w == e.value && next == o' && o + 1 + |e.key| <= |buf|
      && buf[o] == |e.key| && buf[o + 1..o + 1 + |e.key|] == e.key
  }

  function EntriesOf(buf: seq<byte>): (nat, Entry, nat) -> bool { (o: nat, e: Entry, o': nat) => EntryStep(buf, o, e, o') }

  lemma FirstEntryTaken(buf: seq<byte>, off: nat, limit: nat) returns (e: Entry, o: nat)
    requires off < limit && off <= |buf| && EntriesAt(buf, off, limit).Got?
    ensures EntryStep(buf, off, e, o) && off < o <= |buf| && EntriesAt(buf, o, limit).Got?
    ensures EntriesAt(buf, off, limit).value == [e] + EntriesAt(buf, o, limit).value
    ensures EntriesAt(buf, off, limit).next == EntriesAt(buf, o, limit).next
  {
    var k := KeyAt(buf, off);
    var v := ValueAt(buf, k.next);
    e, o := Entry(k.value, v.value), v.next;
  }

  lemma FirstEntryFound(buf: seq<byte>, off: nat, limit: nat, e: Entry, o: nat, rest: Table, next: nat)
    requires off < limit && EntryStep(buf, off, e, o) && o <= |buf| && EntriesAt(buf, o, limit) == Got(rest, next)
    ensures EntriesAt(buf, off, limit) == Got([e] + rest, next)
  {
    KeyFound(buf, off, e, o);
    EntriesFirst(buf, off, limit, e, off + 1 + |e.key|, o, rest, next);
  }

  lemma EntriesBegin(buf: seq<byte>, off: nat, limit: nat, es: Table, o: nat, next: nat)
    requires off < limit && es != [] && EntryStep(buf, off, es[0], o) && o <= |buf|
    requires EntriesAt(buf, o, limit) == Got(es[1..], next)
    ensures EntriesAt(buf, off, limit) == Got(es, next)
  {
    FirstEntryFound(buf, off, limit, es[0], o, es[1..], next);
    HeadTail(es);
  }

  lemma HeadTail<T>(xs: seq<T>)
    requires xs != []
    ensures [xs[0]] + xs[1..] == xs
  {
  }

  lemma EntriesFirst(buf: seq<byte>, off: nat, limit: nat, e: Entry, m: nat, o: nat, rest: Table, next: nat)
    requires off < limit && off < m < o <= |buf| && KeyAt(buf, off) == Got(e.key, m) && ValueAt(buf, m) == Got(e.value, o)
    requires EntriesAt(buf, o, limit) == Got(rest, next)
    ensures EntriesAt(buf, off, limit) == Got([e] + rest, next)
  {
  }

  lemma KeyFound(buf: seq<byte>, off: nat, e: Entry, o: nat)
    requires EntryStep(buf, off, e, o)
    ensures KeyAt(buf, off) == Got(e.key, off + 1 + |e.key|) && off + 1 + |e.key| < o
    ensures ValueAt(buf, off + 1 + |e.key|) == Got(e.value, o)
  {
  }

  /** The table loop reads exactly such entries. */
  lemma {:induction false} EntriesTaken(buf: seq<byte>, off: nat, limit: nat) returns (os: seq<nat>)
    requires off <= |buf| && EntriesAt(buf, off, limit).Got?
    ensures var r := EntriesAt(buf, off, limit);
            Steps(EntriesOf(buf), os, r.value, limit) && os[0] == off && os[|r.value|] == r.next
    decreases |buf| - off
  {
    if off >= limit {
      os := [off];
    } else {
      var e, o := FirstEntryTaken(buf, off, limit);
      var rest := EntriesTaken(buf, o, limit);
      StepsJoin(EntriesOf(buf), off, e, rest, EntriesAt(buf, o, limit).value, limit);
      os := [off] + rest;
    }
  }

  lemma FirstEntryStep(buf: seq<byte>, limit: nat, os: seq<nat>, es: Table)
    requires Steps(EntriesOf(buf), os, es, limit) && es != []
    ensures os[0] < limit && EntryStep(buf, os[0], es[0], os[1]) && os[1] <= |buf|
    ensures Steps(EntriesOf(buf), os[1..], es[1..], limit)
  {
    StepsTail(EntriesOf(buf), os, es, limit);
    assert EntryStep(buf, os[0], es[0], os[1]);
  }

  /** Whenever there are such entries, it reads them. */
  lemma {:induction false} EntriesFound(buf: seq<byte>, limit: nat, os: seq<nat>, es: Table)
    requires Steps(EntriesOf(buf), os, es, limit) && os[0] <= |buf|
    ensures EntriesAt(buf, os[0], limit) == Got(es, os[|es|])
    decreases |es|
  {
    if es != [] {
      FirstEntryStep(buf, limit, os, es);
      EntriesFound(buf, limit, os[1..], es[1..]);
      EntriesBegin(buf, os[0], limit, es, os[1], os[|es|]);
    }
  }

  /** Arrays and tables: the size in four octets, then the loop up to where that size ends. */
  lemma PartsTaken(buf: seq<byte>, off: nat)
    requires off < |buf| && buf[off] in {0x41, 0x46}
    ensures off + 5 > |buf| ==> ValueAt(buf, off) == Bad
    ensures off + 5 <= |buf| && buf[off] == 0x41 ==>
              match ItemsAt(buf, off + 5, off + 5 + LongIn(buf, off + 1))
              case Bad => ValueAt(buf, off) == Bad
              case Got(items, next) => ValueAt(buf, off) == Got(Array(items), next)
    ensures off + 5 <= |buf| && buf[off] == 0x46 ==>
              match EntriesAt(buf, off + 5, off + 5 + LongIn(buf, off + 1))
              case Bad => ValueAt(buf, off) == Bad
              case Got(table, next) => ValueAt(buf, off) == Got(Nested(table), next)
  {
  }
}
