/** AMQP field tables (section 4.2.5.5 of AMQP 0-9-1): the mutually recursive encoder with its
    back-patched sizes, the mutually recursive decoder, and what each guarantees about the other. */
module FieldTable {
  import opened Wire

  // ----- values -----

  datatype NumberKind = I8 | U8 | I16 | U16' | I32 | U32' | I64 | U64' | F32 | F64 | Timestamp

  function Width(k: NumberKind): nat {
    match k
    case I8 | U8 => 1
    case I16 | U16' => 2
    case I32 | U32' | F32 => 4
    case I64 | U64' | F64 | Timestamp => 8
  }

  predicate Signed(k: NumberKind) { k.I8? || k.I16? || k.I32? || k.I64? }

  /** A number of one of the C types; floating-point values are carried as their bits. */
  datatype RawNumber = Number(kind: NumberKind, value: int)

  predicate Representable(n: RawNumber) {
    var m: int := Pow256(Width(n.kind));
    if Signed(n.kind) then -m <= 2 * n.value < m else 0 <= n.value < m
  }

  type Number = n: RawNumber | Representable(n) witness Number(U8, 0)

  /** The kind octet of a value, as in `amqp_field_value_kind_t`. */
  function NumberTag(k: NumberKind): (t: byte)
    ensures KindOfTag(t) == Some(k) && !PartTag(t)
  {
    match k
    case I8 => 0x62      case U8 => 0x42
    case I16 => 0x73     case U16' => 0x75
    case I32 => 0x49     case U32' => 0x69
    case I64 => 0x6C     case U64' => 0x4C
    case F32 => 0x66     case F64 => 0x64
    case Timestamp => 0x54
  }

  /** The kinds that are not plain numbers: t, D, S, x, A, F and V. */
  predicate PartTag(t: byte) {
    t == 0x74 || t == 0x44 || t == 0x53 || t == 0x78 || t == 0x41 || t == 0x46 || t == 0x56
  }

  function KindOfTag(t: byte): Option<NumberKind> {
    if t == 0x62 then Some(I8) else if t == 0x42 then Some(U8)
    else if t == 0x73 then Some(I16) else if t == 0x75 then Some(U16')
    else if t == 0x49 then Some(I32) else if t == 0x69 then Some(U32')
    else if t == 0x6C then Some(I64) else if t == 0x4C then Some(U64')
    else if t == 0x66 then Some(F32) else if t == 0x64 then Some(F64)
    else if t == 0x54 then Some(Timestamp)
    else None
  }

  predicate KnownTag(t: byte) { KindOfTag(t).Some? || PartTag(t) }

  type UnknownTag = t: byte | !KnownTag(t) witness 0
  type Long = v: int | 0 <= v < U32 witness 0

  datatype Value =
    | Boolean(flag: int)                        // amqp_boolean_t: any C int
    | Num(number: Number)
    | Decimal(decimals: byte, units: Long)
    | Text(utf8: bool, text: seq<byte>)         // UTF8 or BYTES
    | Array(items: seq<Value>)
    | Nested(table: seq<Entry>)
    | Void
    | Foreign(tag: UnknownTag)                  // a kind octet the library does not know

  datatype Entry = Entry(key: seq<byte>, value: Value)

  type Table = seq<Entry>

  // ----- the wire format -----

  /** The C cast of a number to the unsigned type of its width. */
  function Unsigned(n: Number): (u: nat)
    ensures u < Pow256(Width(n.kind))
  {
    if n.value < 0 then n.value + Pow256(Width(n.kind)) else n.value
  }

  /** The C cast from the unsigned wire number to the value's own type. */
  function FromUnsigned(k: NumberKind, u: nat): (n: Number)
    requires u < Pow256(Width(k))
  {
    var m := Pow256(Width(k));
    if Signed(k) && 2 * u >= m then Pow256Even(Width(k)); Number(k, u - m) else Number(k, u)
  }

  lemma Pow256Even(n: nat)
    requires n > 0
    ensures Pow256(n) % 2 == 0
  {
    assert Pow256(n) == 2 * (128 * Pow256(n - 1));
  }

  function Tag(v: Value): byte {
    match v
    case Boolean(_) => 0x74
    case Num(n) => NumberTag(n.kind)
    case Decimal(_, _) => 0x44
    case Text(utf8, _) => if utf8 then 0x53 else 0x78
    case Array(_) => 0x41
    case Nested(_) => 0x46
    case Void => 0x56
    case Foreign(t) => t
  }

  function Truth(flag: int): byte { if flag != 0 then 1 else 0 }

  function Prefixed(body: seq<byte>): (r: seq<byte>)
    ensures |r| == 4 + |body|
  {
    BigEndian(4, |body| % U32) + body
  }

  /** The payload of a value without parts. */
  function LeafBytes(v: Value): seq<byte> {
    match v
    case Boolean(b) => [Truth(b)]
    case Num(n) => BigEndian(Width(n.kind), Unsigned(n))
    case Decimal(d, u) => [d] + BigEndian(4, u)
    case Text(_, s) => Prefixed(s)
    case _ => []
  }

  function Payload(v: Value): seq<byte>
    decreases v, 0
  {
    match v
    case Array(items) => Prefixed(ItemsBytes(items))
    case Nested(table) => Prefixed(EntriesBytes(table))
    case _ => LeafBytes(v)
  }

  function ValueBytes(v: Value): seq<byte>
    decreases v, 1
  {
    [Tag(v)] + Payload(v)
  }

  function ItemsBytes(items: seq<Value>): seq<byte>
    decreases items, 0
  {
    if items == [] then [] else ValueBytes(items[0]) + ItemsBytes(items[1..])
  }

  /** The key length is cast to one octet, whatever the key's real length. */
  function KeyBytes(key: seq<byte>): (r: seq<byte>)
    ensures |r| == 1 + |key|
  {
    [|key| % 256] + key
  }

  function EntriesBytes(es: Table): seq<byte>
    decreases es, 0
  {
    if es == [] then []
    else
      EntryBytes(es[0]) + EntriesBytes(es[1..])
  }

  function EntryBytes(e: Entry): (r: seq<byte>)
    ensures |r| == 1 + |e.key| + |ValueBytes(e.value)|
    decreases e, 2
  {
    KeyBytes(e.key) + ValueBytes(e.value)
  }

  function TableBytes(t: Table): (r: seq<byte>) { Prefixed(EntriesBytes(t)) }

  // ----- the decoder -----

  /** What follows the kind octet, for every kind without parts. */
  function LeafAt(buf: seq<byte>, off: nat, tag: byte): (r: Read<Value>)
    ensures r.Got? ==> off <= r.next && (off <= |buf| ==> r.next <= |buf|)
  {
    if !PartTag(tag) then
      match KindOfTag(tag)
      case Some(k) => PlainNumberAt(buf, off, k)
      case None => Bad
    else if tag == 0x74 then
      match NumberAt(buf, off, 1)
      case Bad => Bad
      case Got(u, next) => Got(Boolean(Truth(u)), next)
    else if tag == 0x44 then DecimalAt(buf, off)
    else if tag == 0x53 || tag == 0x78 then TextAt(buf, off, tag == 0x53)
    else if tag == 0x56 then Got(Void, off)
    else Bad
  }

  function PlainNumberAt(buf: seq<byte>, off: nat, k: NumberKind): (r: Read<Value>)
    ensures r.Got? ==> r.value.Num? && off <= r.next <= |buf|
  {
    match NumberAt(buf, off, Width(k))
    case Bad => Bad
    case Got(u, next) => Got(Num(FromUnsigned(k, u)), next)
  }

  function DecimalAt(buf: seq<byte>, off: nat): (r: Read<Value>)
    ensures r.Got? ==> r.value.Decimal? && off <= r.next <= |buf|
  {
    if off + 5 > |buf| then Bad
    else
      Pow256Values();
      Got(Decimal(buf[off], NumberAt(buf, off + 1, 4).value), off + 5)
  }

  function TextAt(buf: seq<byte>, off: nat, utf8: bool): (r: Read<Value>)
    ensures r.Got? ==> r.value.Text? && off + |r.value.text| <= r.next <= |buf|
    ensures r.Got? ==> At(buf, off + 4, r.value.text) && r.next == off + 4 + |r.value.text|
  {
    match NumberAt(buf, off, 4)
    case Bad => Bad
    case Got(n, o) =>
      match SliceAt(buf, o, n)
      case Bad => Bad
      case Got(s, next) => Got(Text(utf8, s), next)
  }

  function ValueAt(buf: seq<byte>, off: nat): (r: Read<Value>)
    ensures r.Got? ==> off < r.next <= |buf|
    decreases |buf| - off, 0
  {
    if off >= |buf| then Bad
    else if buf[off] == 0x41 then
      match NumberAt(buf, off + 1, 4)
      case Bad => Bad
      case Got(n, o) =>
        (match ItemsAt(buf, o, o + n)
         case Bad => Bad
         case Got(items, next) => Got(Array(items), next))
    else if buf[off] == 0x46 then
      match NumberAt(buf, off + 1, 4)
      case Bad => Bad
      case Got(n, o) =>
        (match EntriesAt(buf, o, o + n)
         case Bad => Bad
         case Got(table, next) => Got(Nested(table), next))
    else LeafAt(buf, off + 1, buf[off])
  }

  /** Decoding is driven by the declared size: values are read while the offset is below the
      limit, so the last one may end beyond it. */
  function ItemsAt(buf: seq<byte>, off: nat, limit: nat): (r: Read<seq<Value>>)
    requires off <= |buf|
    ensures r.Got? ==> off <= r.next <= |buf| && limit <= r.next
    decreases |buf| - off, 1
  {
    if off >= limit then Got([], off)
    else
      match ValueAt(buf, off)
      case Bad => Bad
      case Got(v, o) =>
        match ItemsAt(buf, o, limit)
        case Bad => Bad
        case Got(rest, next) => Got([v] + rest, next)
  }

  function KeyAt(buf: seq<byte>, off: nat): (r: Read<seq<byte>>)
    ensures r.Got? ==> off < r.next <= |buf| && r.next == off + 1 + |r.value| && |r.value| < 256
    ensures r.Got? ==> At(buf, off + 1, r.value)
  {
    if off >= |buf| then Bad else SliceAt(buf, off + 1, buf[off])
  }

  function EntriesAt(buf: seq<byte>, off: nat, limit: nat): (r: Read<Table>)
    requires off <= |buf|
    ensures r.Got? ==> off <= r.next <= |buf| && limit <= r.next
    decreases |buf| - off, 1
  {
    if off >= limit then Got([], off)
    else
      match KeyAt(buf, off)
      case Bad => Bad
      case Got(key, o) =>
        match ValueAt(buf, o)
        case Bad => Bad
        case Got(v, o') =>
          match EntriesAt(buf, o', limit)
          case Bad => Bad
          case Got(rest, next) => Got([Entry(key, v)] + rest, next)
  }

  function TableAt(buf: seq<byte>, off: nat): (r: Read<Table>)
    ensures r.Got? ==> off + 4 <= |buf| && off + 4 + NumberAt(buf, off, 4).value <= r.next <= |buf|
  {
    match NumberAt(buf, off, 4)
    case Bad => Bad
    case Got(n, o) => EntriesAt(buf, o, o + n)
  }

  // ----- predicates on values -----

  /** No kind octet the encoder refuses, at any depth. */
  predicate Encodable(v: Value)
    decreases v, 0
  {
    match v
    case Array(items) => ItemsEncodable(items)
    case Nested(table) => TableEncodable(table)
    case Foreign(_) => false
    case _ => true
  }

  predicate ItemsEncodable(items: seq<Value>)
    decreases items, 0
  {
    items == [] || (Encodable(items[0]) && ItemsEncodable(items[1..]))
  }

  predicate TableEncodable(es: Table)
    decreases es, 0
  {
    es == [] || (Encodable(es[0].value) && TableEncodable(es[1..]))
  }

  /** Encodable, and every key, at any depth, has a length that fits its length octet. */
  predicate Portable(v: Value)
    decreases v, 0
  {
    match v
    case Array(items) => ItemsPortable(items)
    case Nested(table) => TablePortable(table)
    case Foreign(_) => false
    case _ => true
  }

  predicate ItemsPortable(items: seq<Value>)
    decreases items, 0
  {
    items == [] || (Portable(items[0]) && ItemsPortable(items[1..]))
  }

  predicate TablePortable(es: Table)
    decreases es, 0
  {
    es == [] || (|es[0].key| < 256 && Portable(es[0].value) && TablePortable(es[1..]))
  }

  /** Booleans become 0 or 1; everything else is kept. */
  function Normal(v: Value): Value
    decreases v, 0
  {
    match v
    case Boolean(b) => Boolean(Truth(b))
    case Array(items) => Array(NormalItems(items))
    case Nested(table) => Nested(NormalTable(table))
    case _ => v
  }

  function NormalItems(items: seq<Value>): seq<Value>
    decreases items, 0
  {
    if items == [] then [] else [Normal(items[0])] + NormalItems(items[1..])
  }

  function NormalTable(es: Table): Table
    decreases es, 0
  {
    if es == [] then [] else [Entry(es[0].key, Normal(es[0].value))] + NormalTable(es[1..])
  }

  /** How many tables and arrays are nested inside each other. */
  function Depth(v: Value): nat
    decreases v, 0
  {
    match v
    case Array(items) => 1 + ItemsDepth(items)
    case Nested(table) => 1 + TableDepth(table)
    case _ => 0
  }

  function ItemsDepth(items: seq<Value>): nat
    decreases items, 0
  {
    if items == [] then 0 else Max(Depth(items[0]), ItemsDepth(items[1..]))
  }

  function TableDepth(es: Table): nat
    decreases es, 0
  {
    if es == [] then 0 else Max(Depth(es[0].value), TableDepth(es[1..]))
  }

  function Max(a: nat, b: nat): nat { if a < b then b else a }

  /** `s` is a slice of `buf[lo..hi]`. */
  ghost predicate Inside(s: seq<byte>, buf: seq<byte>, lo: nat, hi: nat) {
    exists o: nat :: lo <= o && o + |s| <= hi && At(buf, o, s)
  }

  /** Every key and byte string of `v`, at any depth, is a slice of `buf[lo..hi]`. */
  ghost predicate SlicesInside(v: Value, buf: seq<byte>, lo: nat, hi: nat)
    decreases v, 0
  {
    match v
    case Text(_, s) => Inside(s, buf, lo, hi)
    case Array(items) => ItemsInside(items, buf, lo, hi)
    case Nested(table) => TableInside(table, buf, lo, hi)
    case _ => true
  }

  ghost predicate ItemsInside(items: seq<Value>, buf: seq<byte>, lo: nat, hi: nat)
    decreases items, 0
  {
    items == [] || (SlicesInside(items[0], buf, lo, hi) && ItemsInside(items[1..], buf, lo, hi))
  }

  ghost predicate TableInside(es: Table, buf: seq<byte>, lo: nat, hi: nat)
    decreases es, 0
  {
    es == [] ||
    (&& Inside(es[0].key, buf, lo, hi)
     && SlicesInside(es[0].value, buf, lo, hi)
     && TableInside(es[1..], buf, lo, hi))
  }

  // ----- decoding what was encoded -----

  lemma PrefixedRoundTrip(buf: seq<byte>, off: nat, body: seq<byte>)
    requires |body| < U32 && At(buf, off, Prefixed(body))
    ensures NumberAt(buf, off, 4) == Got(|body|, off + 4) && At(buf, off + 4, body)
  {
    Pow256Values();
    AtSplit(buf, off, BigEndian(4, |body| % U32), body);
    NumberAtRoundTrip(buf, off, 4, |body|);
  }

  lemma PlainNumberRoundTrip(buf: seq<byte>, off: nat, n: Number)
    requires At(buf, off, BigEndian(Width(n.kind), Unsigned(n)))
    ensures PlainNumberAt(buf, off, n.kind) == Got(Num(n), off + Width(n.kind))
  {
    NumberAtRoundTrip(buf, off, Width(n.kind), Unsigned(n));
  }

  lemma DecimalRoundTrip(buf: seq<byte>, off: nat, d: byte, u: Long)
    requires At(buf, off, [d] + BigEndian(4, u))
    ensures DecimalAt(buf, off) == Got(Decimal(d, u), off + 5)
  {
    Pow256Values();
    AtSplit(buf, off, [d], BigEndian(4, u));
    assert [d][0] == d;
    NumberAtRoundTrip(buf, off + 1, 4, u);
  }

  lemma TextRoundTrip(buf: seq<byte>, off: nat, utf8: bool, s: seq<byte>)
    requires |s| < U32 && At(buf, off, Prefixed(s))
    ensures TextAt(buf, off, utf8) == Got(Text(utf8, s), off + 4 + |s|)
  {
    PrefixedRoundTrip(buf, off, s);
    assert buf[off + 4..off + 4 + |s|] == s;
  }

  lemma LeafRoundTrip(buf: seq<byte>, off: nat, v: Value)
    requires !v.Array? && !v.Nested? && !v.Foreign?
    requires |LeafBytes(v)| < U32 && At(buf, off, LeafBytes(v))
    ensures LeafAt(buf, off, Tag(v)) == Got(Normal(v), off + |LeafBytes(v)|)
  {
    match v {
      case Num(n) => PlainNumberRoundTrip(buf, off, n);
      case Decimal(d, u) => DecimalRoundTrip(buf, off, d, u);
      case Text(utf8, s) => TextRoundTrip(buf, off, utf8, s);
      case Boolean(b) => OctetRoundTrip(buf, off, Truth(b));
      case Void =>
    }
  }

  lemma OctetRoundTrip(buf: seq<byte>, off: nat, b: byte)
    requires At(buf, off, [b])
    ensures NumberAt(buf, off, 1) == Got(b, off + 1)
  {
    var w := buf[off..off + 1];
    assert [b][0] == b;
    assert FromBigEndian(w) == 256 * FromBigEndian(w[..0]) + w[0];
  }

  /** A table or an array inside a value: its kind octet, its size, its contents. */
  lemma PartsAt(buf: seq<byte>, off: nat, tag: byte, body: seq<byte>)
    requires |body| < U32 && At(buf, off, [tag] + Prefixed(body))
    ensures off < |buf| && buf[off] == tag
    ensures NumberAt(buf, off + 1, 4) == Got(|body|, off + 5) && At(buf, off + 5, body)
  {
    AtSplit(buf, off, [tag], Prefixed(body));
    assert [tag][0] == tag;
    PrefixedRoundTrip(buf, off + 1, body);
  }

  lemma LeafValueRoundTrip(buf: seq<byte>, off: nat, v: Value, end: nat)
    requires !v.Array? && !v.Nested? && !v.Foreign?
    requires |ValueBytes(v)| < U32 && At(buf, off, ValueBytes(v)) && end == off + |ValueBytes(v)|
    ensures ValueAt(buf, off) == Got(Normal(v), end)
  {
    AtSplit(buf, off, [Tag(v)], LeafBytes(v));
    assert [Tag(v)][0] == Tag(v);
    LeafRoundTrip(buf, off + 1, v);
  }

  lemma {:induction false} ValueRoundTrip(buf: seq<byte>, off: nat, v: Value, end: nat)
    requires Portable(v)
    requires |ValueBytes(v)| < U32 && At(buf, off, ValueBytes(v)) && end == off + |ValueBytes(v)|
    ensures ValueAt(buf, off) == Got(Normal(v), end)
    decreases v, 1
  {
    match v {
      case Array(items) =>
        PartsAt(buf, off, Tag(v), ItemsBytes(items));
        ItemsRoundTrip(buf, off + 5, items, end);
      case Nested(table) =>
        PartsAt(buf, off, Tag(v), EntriesBytes(table));
        EntriesRoundTrip(buf, off + 5, table, end);
      case _ =>
        LeafValueRoundTrip(buf, off, v, end);
    }
  }

  lemma {:induction false} ItemsRoundTrip(buf: seq<byte>, off: nat, items: seq<Value>, end: nat)
    requires ItemsPortable(items)
    requires |ItemsBytes(items)| < U32 && At(buf, off, ItemsBytes(items)) && end == off + |ItemsBytes(items)|
    ensures ItemsAt(buf, off, end) == Got(NormalItems(items), end)
    decreases items, 0
  {
    if items != [] {
      var o := off + |ValueBytes(items[0])|;
      AtSplit(buf, off, ValueBytes(items[0]), ItemsBytes(items[1..]));
      ValueRoundTrip(buf, off, items[0], o);
      ItemsRoundTrip(buf, o, items[1..], end);
    }
  }

  lemma KeyRoundTrip(buf: seq<byte>, off: nat, key: seq<byte>)
    requires |key| < 256 && At(buf, off, KeyBytes(key))
    ensures KeyAt(buf, off) == Got(key, off + 1 + |key|)
  {
    AtSplit(buf, off, [|key| % 256], key);
    assert [|key| % 256][0] == |key|;
    assert buf[off + 1..off + 1 + |key|] == key;
  }

  lemma FirstEntryAt(buf: seq<byte>, off: nat, es: Table)
    requires es != [] && |es[0].key| < 256 && At(buf, off, EntriesBytes(es))
    ensures KeyAt(buf, off) == Got(es[0].key, off + 1 + |es[0].key|)
    ensures At(buf, off + 1 + |es[0].key|, ValueBytes(es[0].value))
    ensures At(buf, off + 1 + |es[0].key| + |ValueBytes(es[0].value)|, EntriesBytes(es[1..]))
    ensures |EntriesBytes(es)| == 1 + |es[0].key| + |ValueBytes(es[0].value)| + |EntriesBytes(es[1..])|
  {
    var k, v := KeyBytes(es[0].key), ValueBytes(es[0].value);
    AtSplit(buf, off, EntryBytes(es[0]), EntriesBytes(es[1..]));
    AtSplit(buf, off, k, v);
    KeyRoundTrip(buf, off, es[0].key);
  }

  lemma EntriesStep(buf: seq<byte>, off: nat, limit: nat, e: Entry, o: nat, o': nat, rest: Table)
    requires off < limit && off < o < o' <= |buf|
    requires KeyAt(buf, off) == Got(e.key, o) && ValueAt(buf, o) == Got(e.value, o')
    requires EntriesAt(buf, o', limit) == Got(rest, limit)
    ensures EntriesAt(buf, off, limit) == Got([e] + rest, limit)
  {
  }

  lemma {:induction false} EntriesRoundTrip(buf: seq<byte>, off: nat, es: Table, end: nat)
    requires TablePortable(es)
    requires |EntriesBytes(es)| < U32 && At(buf, off, EntriesBytes(es)) && end == off + |EntriesBytes(es)|
    ensures EntriesAt(buf, off, end) == Got(NormalTable(es), end)
    decreases es, 0
  {
    if es != [] {
      var o := off + 1 + |es[0].key|;
      var o' := o + |ValueBytes(es[0].value)|;
      FirstEntryAt(buf, off, es);
      ValueRoundTrip(buf, o, es[0].value, o');
      EntriesRoundTrip(buf, o', es[1..], end);
      EntriesStep(buf, off, end, Entry(es[0].key, Normal(es[0].value)), o, o', NormalTable(es[1..]));
    }
  }

  // ----- what every decoded value satisfies -----

  /** A decoded value is portable and normal; its nesting is paid for by five
      octets a level; all its byte strings are slices of the part of the buffer that was read. */
  ghost predicate Sound(v: Value, buf: seq<byte>, lo: nat, hi: nat) {
    && Portable(v) && Normal(v) == v
    && 5 * Depth(v) <= hi - lo
    && SlicesInside(v, buf, lo, hi)
  }

  ghost predicate ItemsSound(items: seq<Value>, buf: seq<byte>, lo: nat, hi: nat) {
    && ItemsPortable(items) && NormalItems(items) == items
    && 5 * ItemsDepth(items) <= hi - lo
    && ItemsInside(items, buf, lo, hi)
  }

  ghost predicate TableSound(es: Table, buf: seq<byte>, lo: nat, hi: nat) {
    && TablePortable(es) && NormalTable(es) == es
    && 5 * TableDepth(es) <= hi - lo
    && TableInside(es, buf, lo, hi)
  }

  lemma {:induction false} InsideWidens(v: Value, buf: seq<byte>, lo: nat, hi: nat, lo': nat, hi': nat)
    requires SlicesInside(v, buf, lo, hi) && lo' <= lo && hi <= hi'
    ensures SlicesInside(v, buf, lo', hi')
    decreases v, 0
  {
    if v.Array? { ItemsInsideWidens(v.items, buf, lo, hi, lo', hi'); }
    if v.Nested? { TableInsideWidens(v.table, buf, lo, hi, lo', hi'); }
  }

  lemma {:induction false} ItemsInsideWidens(items: seq<Value>, buf: seq<byte>, lo: nat, hi: nat, lo': nat, hi': nat)
    requires ItemsInside(items, buf, lo, hi) && lo' <= lo && hi <= hi'
    ensures ItemsInside(items, buf, lo', hi')
    decreases items, 0
  {
    if items != [] {
      InsideWidens(items[0], buf, lo, hi, lo', hi');
      ItemsInsideWidens(items[1..], buf, lo, hi, lo', hi');
    }
  }

  lemma {:induction false} TableInsideWidens(es: Table, buf: seq<byte>, lo: nat, hi: nat, lo': nat, hi': nat)
    requires TableInside(es, buf, lo, hi) && lo' <= lo && hi <= hi'
    ensures TableInside(es, buf, lo', hi')
    decreases es, 0
  {
    if es != [] {
      InsideWidens(es[0].value, buf, lo, hi, lo', hi');
      TableInsideWidens(es[1..], buf, lo, hi, lo', hi');
    }
  }

  lemma LeafSound(buf: seq<byte>, off: nat, tag: byte, lo: nat)
    requires LeafAt(buf, off, tag).Got? && lo <= off
    ensures Sound(LeafAt(buf, off, tag).value, buf, lo, LeafAt(buf, off, tag).next)
  {
    var r := LeafAt(buf, off, tag);
    if r.value.Text? {
      assert At(buf, off + 4, r.value.text);
    }
  }

  lemma ArraySound(items: seq<Value>, buf: seq<byte>, lo: nat, hi: nat)
    requires ItemsSound(items, buf, lo + 5, hi)
    ensures Sound(Array(items), buf, lo, hi)
  {
    ItemsInsideWidens(items, buf, lo + 5, hi, lo, hi);
  }

  lemma NestedSound(es: Table, buf: seq<byte>, lo: nat, hi: nat)
    requires TableSound(es, buf, lo + 5, hi)
    ensures Sound(Nested(es), buf, lo, hi)
  {
    TableInsideWidens(es, buf, lo + 5, hi, lo, hi);
  }

  lemma {:induction false} DecodedValue(buf: seq<byte>, off: nat)
    requires ValueAt(buf, off).Got?
    ensures Sound(ValueAt(buf, off).value, buf, off, ValueAt(buf, off).next)
    decreases |buf| - off, 0
  {
    if buf[off] == 0x41 {
      var limit := ArrayParts(buf, off);
      DecodedItems(buf, off + 5, limit);
      ArraySound(ItemsAt(buf, off + 5, limit).value, buf, off, ItemsAt(buf, off + 5, limit).next);
    } else if buf[off] == 0x46 {
      var limit := NestedParts(buf, off);
      DecodedEntries(buf, off + 5, limit);
      NestedSound(EntriesAt(buf, off + 5, limit).value, buf, off, EntriesAt(buf, off + 5, limit).next);
    } else {
      LeafSound(buf, off + 1, buf[off], off);
    }
  }

  lemma ArrayParts(buf: seq<byte>, off: nat) returns (limit: nat)
    requires ValueAt(buf, off).Got? && buf[off] == 0x41
    ensures var r := ItemsAt(buf, off + 5, limit); r.Got? && ValueAt(buf, off) == Got(Array(r.value), r.next)
  {
    limit := off + 5 + NumberAt(buf, off + 1, 4).value;
  }

  lemma NestedParts(buf: seq<byte>, off: nat) returns (limit: nat)
    requires ValueAt(buf, off).Got? && buf[off] == 0x46
    ensures var r := EntriesAt(buf, off + 5, limit); r.Got? && ValueAt(buf, off) == Got(Nested(r.value), r.next)
  {
    limit := off + 5 + NumberAt(buf, off + 1, 4).value;
  }

  lemma {:induction false} DecodedItems(buf: seq<byte>, off: nat, limit: nat)
    requires off <= |buf| && ItemsAt(buf, off, limit).Got?
    ensures ItemsSound(ItemsAt(buf, off, limit).value, buf, off, ItemsAt(buf, off, limit).next)
    decreases |buf| - off, 1
  {
    if off < limit {
      var r := ItemsAt(buf, off, limit);
      var v := ValueAt(buf, off);
      var rest := ItemsAt(buf, v.next, limit);
      assert r.value == [v.value] + rest.value && r.value[1..] == rest.value;
      DecodedValue(buf, off);
      DecodedItems(buf, v.next, limit);
      InsideWidens(v.value, buf, off, v.next, off, r.next);
      ItemsInsideWidens(rest.value, buf, v.next, r.next, off, r.next);
    }
  }

  lemma {:induction false} DecodedEntries(buf: seq<byte>, off: nat, limit: nat)
    requires off <= |buf| && EntriesAt(buf, off, limit).Got?
    ensures TableSound(EntriesAt(buf, off, limit).value, buf, off, EntriesAt(buf, off, limit).next)
    decreases |buf| - off, 1
  {
    if off < limit {
      var r := EntriesAt(buf, off, limit);
      var k := KeyAt(buf, off);
      var v := ValueAt(buf, k.next);
      var rest := EntriesAt(buf, v.next, limit);
      assert r.value == [Entry(k.value, v.value)] + rest.value && r.value[1..] == rest.value;
      DecodedValue(buf, k.next);
      DecodedEntries(buf, v.next, limit);
      assert Inside(k.value, buf, off, r.next);
      InsideWidens(v.value, buf, k.next, v.next, off, r.next);
      TableInsideWidens(rest.value, buf, v.next, r.next, off, r.next);
    }
  }

  /** Totality of the decoder's result: whatever the buffer holds, a decoded table is portable and
      normal, nests at most one level per five octets, and lies inside the octets that were read. */
  lemma DecodedTable(buf: seq<byte>, off: nat)
    requires TableAt(buf, off).Got?
    ensures TableSound(TableAt(buf, off).value, buf, off + 4, TableAt(buf, off).next)
  {
    DecodedEntries(buf, off + 4, off + 4 + NumberAt(buf, off, 4).value);
  }

  // ----- the round trip, and exactly when it holds -----

  lemma {:induction false} NormalPortable(v: Value)
    ensures Portable(Normal(v)) == Portable(v)
    decreases v, 1
  {
    if v.Array? { NormalItemsPortable(v.items); }
    if v.Nested? { NormalTablePortable(v.table); }
  }

  lemma {:induction false} NormalItemsPortable(items: seq<Value>)
    ensures ItemsPortable(NormalItems(items)) == ItemsPortable(items)
    decreases items, 0
  {
    if items != [] {
      NormalPortable(items[0]);
      NormalItemsPortable(items[1..]);
      assert NormalItems(items)[1..] == NormalItems(items[1..]);
    }
  }

  lemma {:induction false} NormalTablePortable(es: Table)
    ensures TablePortable(NormalTable(es)) == TablePortable(es)
    decreases es, 0
  {
    if es != [] {
      NormalPortable(es[0].value);
      NormalTablePortable(es[1..]);
      assert NormalTable(es)[1..] == NormalTable(es[1..]);
    }
  }

  /** Decoding the octets of a table gives the table back, booleans normalised, and stops where the
      encoder stopped, if and only if every kind is known and every key fits its length octet. */
  lemma TableRoundTrip(buf: seq<byte>, off: nat, t: Table, end: nat)
    requires |TableBytes(t)| < U32 && At(buf, off, TableBytes(t)) && end == off + |TableBytes(t)|
    ensures TableAt(buf, off) == Got(NormalTable(t), end) <==> TablePortable(t)
  {
    if TablePortable(t) {
      PrefixedRoundTrip(buf, off, EntriesBytes(t));
      EntriesRoundTrip(buf, off + 4, t, end);
    }
    if TableAt(buf, off) == Got(NormalTable(t), end) {
      DecodedTable(buf, off);
      NormalTablePortable(t);
    }
  }

  /** A 256-octet key is stored with length octet 0, and the table cannot be read back. */
  lemma LongKeyIsLost(buf: seq<byte>, key: seq<byte>)
    requires |key| == 256 && buf == TableBytes([Entry(key, Void)])
    ensures TableAt(buf, 0) != Got([Entry(key, Void)], |buf|)
  {
    var t := [Entry(key, Void)];
    if TableAt(buf, 0) == Got(t, |buf|) {
      DecodedTable(buf, 0);
    }
  }

  /** Portable tables with the same octets are the same table up to normalisation. */
  lemma TableBytesInjective(t: Table, u: Table)
    requires TablePortable(t) && TablePortable(u)
    requires TableBytes(t) == TableBytes(u) && |TableBytes(t)| < U32
    ensures NormalTable(t) == NormalTable(u)
  {
    var buf := TableBytes(t);
    TableRoundTrip(buf, 0, t, |buf|);
    TableRoundTrip(buf, 0, u, |buf|);
  }
}
