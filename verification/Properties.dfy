/** Content-header properties: the numbering of the property flags, the flag words with their
    continuation bit, and the fields the flags announce (section 4.2.6.1 of AMQP 0-9-1). */
module Properties {
  import opened Wire
  import opened FieldTable
  import opened Generator
  import opened Arguments

  // ----- flag numbering -----

  /** The bit of property `i`: fifteen to a word, from bit 15 down; bit 0 of every word is left
      for the continuation flag. */
  function FlagBit(i: nat): nat { 16 * (i / 15) + 15 - i % 15 }

  /** The numbering loop of the header generator. */
  method NumberFlags(n: nat) returns (bits: seq<nat>)
    ensures |bits| == n && forall i | 0 <= i < n :: bits[i] == FlagBit(i)
  {
    bits := [];
    var index := 0;
    ghost var word, pos := 0, 0;
    for i := 0 to n
      invariant |bits| == i && forall k | 0 <= k < i :: bits[k] == FlagBit(k)
      invariant i == 15 * word + pos && index == 16 * word + pos && 0 <= pos <= 15
    {
      FlagPlace(word, pos, index);
      if index % 16 == 15 {
        index := index + 1;
        word, pos := word + 1, 0;
        FlagPlace(word, pos, index);
      }
      FlagIndex(word, pos, i);
      var shortnum := index / 16;
      var partialindex := 15 - index % 16;
      bits := bits + [shortnum * 16 + partialindex];
      index := index + 1;
      pos := pos + 1;
    }
  }

  lemma FlagPlace(word: nat, pos: nat, index: nat)
    requires index == 16 * word + pos && pos <= 15
    ensures index / 16 == word && index % 16 == pos
  {
  }

  lemma FlagIndex(word: nat, pos: nat, i: nat)
    requires i == 15 * word + pos && pos < 15
    ensures FlagBit(i) == 16 * word + 15 - pos
  {
    assert i / 15 == word && i % 15 == pos;
  }

  /** Distinct properties have distinct flags, none of them the continuation bit of a word, and the
      first thirty fit the 32-bit flag set. */
  lemma FlagBitsDistinct(i: nat, j: nat)
    requires i != j
    ensures FlagBit(i) != FlagBit(j)
    ensures FlagBit(i) % 16 != 0
    ensures FlagBit(i) < 32 <==> i < 30
  {
    assert FlagBit(i) / 16 == i / 15 && FlagBit(i) % 16 == 15 - i % 15;
    assert FlagBit(j) / 16 == j / 15 && FlagBit(j) % 16 == 15 - j % 15;
  }

  // ----- flag words -----

  /** A word with its bit 0 replaced by the continuation flag. */
  function Continued(word: nat, more: bool): (r: nat)
    ensures word < U16 ==> r < U16
    ensures r / 2 == word / 2 && r % 2 == if more then 1 else 0
  {
    word - word % 2 + if more then 1 else 0
  }

  function FlagBytes(flags: nat): seq<byte> {
    if flags < U16 then BigEndian(2, Continued(flags, false))
    else BigEndian(2, Continued(flags % U16, true)) + FlagBytes(flags / U16)
  }

  datatype FlagRead = BadFlags | UndefinedFlags | Flags(flags: nat, next: nat)

  /** `flags |= partial << (16 * index)`.  A third word would be shifted by the whole width of the
      flag set, which C leaves undefined. */
  function FlagsAt(buf: seq<byte>, off: nat, index: nat): (r: FlagRead)
    requires index <= 2
    ensures r.Flags? ==> off < r.next <= |buf|
    decreases 2 - index
  {
    match NumberAt(buf, off, 2)
    case Bad => BadFlags
    case Got(w, o) =>
      if index == 2 then UndefinedFlags
      else
        var here := if index == 0 then w else w * U16;
        if w % 2 == 0 then Flags(here, o)
        else
          match FlagsAt(buf, o, index + 1)
          case BadFlags => BadFlags
          case UndefinedFlags => UndefinedFlags
          case Flags(rest, next) => Flags(here + rest, next)
  }

  method EncodeFlags(buf: array<byte>, flags: nat) returns (ok: bool, next: nat)
    modifies buf
    ensures ok <==> |FlagBytes(flags)| <= buf.Length
    ensures ok ==> next == |FlagBytes(flags)| && Stored(old(buf[..]), buf[..], 0, FlagBytes(flags))
  {
    ghost var before := buf[..];
    ghost var done: seq<byte> := [];
    var remaining: nat := flags;
    next := 0;
    while remaining >= U16
      invariant done + FlagBytes(remaining) == FlagBytes(flags) && next == |done|
      invariant Stored(before, buf[..], 0, done)
    {
      ghost var word := BigEndian(2, Continued(remaining % U16, true));
      ok, next := EncodeWord(buf, next, Continued(remaining % U16, true), before, done);
      Associative(done, word, FlagBytes(remaining / U16));
      if !ok { return; }
      done := done + word;
      remaining := remaining / U16;
    }
    ok, next := EncodeWord(buf, next, Continued(remaining, false), before, done);
  }

  /** One more flag word. */
  method EncodeWord(buf: array<byte>, off: nat, word: nat, ghost before: seq<byte>, ghost done: seq<byte>)
    returns (ok: bool, next: nat)
    requires off == |done| && Stored(before, buf[..], 0, done)
    modifies buf
    ensures ok <==> |done| + 2 <= buf.Length
    ensures ok ==> next == |done| + 2 && Stored(before, buf[..], 0, done + BigEndian(2, word))
  {
    ghost var mid := buf[..];
    ok, next := Encode(buf, off, BigEndian(2, word));
    if ok { StoredAdjacent(before, mid, buf[..], 0, done, BigEndian(2, word)); }
  }

  method DecodeFlags(buf: seq<byte>) returns (r: FlagRead)
    ensures r == FlagsAt(buf, 0, 0)
  {
    var flags: nat, off: nat, index: nat := 0, 0, 0;
    while true
      invariant index <= 2
      invariant FlagsAt(buf, 0, 0)
             == match FlagsAt(buf, off, index)
                case Flags(rest, next) => Flags(flags + rest, next)
                case bad => bad
      decreases 2 - index
    {
      var w := NumberAt(buf, off, 2);
      if w.Bad? { return BadFlags; }
      if index == 2 { return UndefinedFlags; }
      flags := flags + (if index == 0 then w.value else w.value * U16);
      off := w.next;
      if w.value % 2 == 0 { return Flags(flags, off); }
      index := index + 1;
    }
  }

  /** What the reader gets for a flag set: the same set, but for the continuation bits. */
  function ReadBack(flags: nat): nat {
    if flags < U16 then Continued(flags, false)
    else Continued(flags % U16, true) + U16 * Continued(flags / U16, false)
  }

  lemma FlagsRoundTrip(buf: seq<byte>, off: nat, flags: nat)
    requires flags < U32 && At(buf, off, FlagBytes(flags))
    ensures FlagsAt(buf, off, 0) == Flags(ReadBack(flags), off + |FlagBytes(flags)|)
  {
    Pow256Values();
    if flags < U16 {
      NumberAtRoundTrip(buf, off, 2, Continued(flags, false));
    } else {
      var w0, w1 := Continued(flags % U16, true), Continued(flags / U16, false);
      assert FlagBytes(flags / U16) == BigEndian(2, w1);
      AtSplit(buf, off, BigEndian(2, w0), BigEndian(2, w1));
      NumberAtRoundTrip(buf, off, 2, w0);
      NumberAtRoundTrip(buf, off + 2, 2, w1);
      assert FlagsAt(buf, off + 2, 1) == Flags(w1 * U16, off + 4);
    }
  }

  /** The flag set itself comes back exactly when its continuation bits already say how many words
      it needs. */
  lemma ReadBackExact(flags: nat)
    requires flags < U32
    ensures ReadBack(flags) == flags <==>
            (flags % 2 == if flags < U16 then 0 else 1) && (flags / U16) % 2 == 0
  {
    assert flags == flags % U16 + U16 * (flags / U16);
    assert (flags % U16) % 2 == flags % 2;
  }

  lemma DoubleProduct(n: nat, b: nat)
    requires n > 0
    ensures Pow2(n) * b == 2 * (Pow2(n - 1) * b)
  {
    assert Pow2(n) == 2 * Pow2(n - 1);
  }

  lemma Halved(a: nat, c: nat)
    ensures (a + 2 * c) % 2 == a % 2 && (a + 2 * c) / 2 == a / 2 + c
  {
  }

  lemma {:induction false} LowBits(a: nat, b: nat, n: nat, k: nat)
    requires k < n
    ensures HasBit(a + Pow2(n) * b, k) == HasBit(a, k)
  {
    DoubleProduct(n, b);
    Halved(a, Pow2(n - 1) * b);
    if k > 0 { LowBits(a / 2, b, n - 1, k - 1); }
  }

  /** `x >> n`. */
  function Shifted(x: nat, n: nat): nat { if n == 0 then x else Shifted(x / 2, n - 1) }

  lemma {:induction false} HighBits(x: nat, n: nat, k: nat)
    ensures HasBit(x, n + k) == HasBit(Shifted(x, n), k)
    decreases n
  {
    if n > 0 { HighBits(x / 2, n - 1, k); }
  }

  lemma {:induction false} ShiftedSum(a: nat, b: nat, n: nat)
    requires a < Pow2(n)
    ensures Shifted(a + Pow2(n) * b, n) == b
  {
    if n > 0 {
      DoubleProduct(n, b);
      Halved(a, Pow2(n - 1) * b);
      ShiftedSum(a / 2, b, n - 1);
    }
  }

  /** Whatever the continuation bits do, every property is announced to the reader exactly when the
      writer set its flag. */
  lemma ReadBackKeepsFlags(flags: nat, i: nat)
    requires flags < U32 && i < 30
    ensures HasBit(ReadBack(flags), FlagBit(i)) == HasBit(flags, FlagBit(i))
  {
    var k := FlagBit(i);
    FlagBitsDistinct(i, i + 1);
    WordsOf(flags);
    var lo, hi := flags % U16, flags / U16;
    var lo', hi' := Continued(lo, flags >= U16), if flags < U16 then 0 else Continued(hi, false);
    WordBits(flags, lo, hi, k);
    WordBits(ReadBack(flags), lo', hi', k);
    if k < 16 {
      ContinuedBits(lo, flags >= U16, k);
    } else if flags >= U16 {
      ContinuedBits(hi, false, k - 16);
    }
  }

  /** The continuation bit is the lowest one. */
  lemma ContinuedBits(word: nat, more: bool, k: nat)
    requires k > 0
    ensures HasBit(Continued(word, more), k) == HasBit(word, k)
  {
    assert Continued(word, more) / 2 == word / 2;
  }

  lemma WordBits(x: nat, lo: nat, hi: nat, k: nat)
    requires lo < U16 && x == lo + U16 * hi
    ensures HasBit(x, k) == if k < 16 then HasBit(lo, k) else HasBit(hi, k - 16)
  {
    Pow2Is16();
    if k < 16 {
      LowBits(lo, hi, 16, k);
    } else {
      HighBits(x, 16, k - 16);
      ShiftedSum(lo, hi, 16);
    }
  }

  lemma WordsOf(flags: nat)
    requires flags < U32
    ensures flags == flags % U16 + U16 * (flags / U16) && flags / U16 < U16
    ensures ReadBack(flags) == Continued(flags % U16, flags >= U16)
                               + U16 * if flags < U16 then 0 else Continued(flags / U16, false)
  {
  }


  lemma Pow2Is16()
    ensures Pow2(16) == U16
  {
    assert Pow2(4) == 4 * Pow2(2) == 16;
    assert Pow2(8) == 4 * Pow2(6) == 16 * Pow2(4);
    assert Pow2(12) == 4 * Pow2(10) == 16 * Pow2(8);
    assert Pow2(16) == 4 * Pow2(14) == 16 * Pow2(12);
  }

  // ----- the properties themselves -----

  /** A property struct: the flag set and the members; only the flagged ones mean anything. */
  datatype Props = Props(flags: nat, fields: map<nat, Field>)

  predicate Flagged(flags: nat, i: nat) { HasBit(flags, FlagBit(i)) }

  predicate TypedProps(ts: seq<FieldType>, p: Props) {
    && p.flags < U32 && |ts| <= 30
    && (forall i | 0 <= i < |ts| :: !ts[i].Bit?)
    && (forall i | 0 <= i < |ts| && Flagged(p.flags, i) :: i in p.fields && HasType(p.fields[i], ts[i]))
  }

  function FieldsBytes(ts: seq<FieldType>, p: Props, i: nat): seq<byte>
    requires TypedProps(ts, p) && i <= |ts|
    decreases |ts| - i
  {
    if i == |ts| then []
    else if Flagged(p.flags, i) then FieldBytes(p.fields[i], ts[i]) + FieldsBytes(ts, p, i + 1)
    else FieldsBytes(ts, p, i + 1)
  }

  predicate AcceptedFrom(ts: seq<FieldType>, p: Props, i: nat)
    requires TypedProps(ts, p) && i <= |ts|
  {
    forall k | i <= k < |ts| && Flagged(p.flags, k) :: Accepted(p.fields[k], ts[k])
  }

  /** The generated statements: one guarded field after another. */
  function EncodeFields(ts: seq<FieldType>, p: Props, i: nat, out: seq<byte>, cap: nat): Option<seq<byte>>
    requires TypedProps(ts, p) && i <= |ts|
    decreases |ts| - i
  {
    if i == |ts| then Some(out)
    else if !Flagged(p.flags, i) then EncodeFields(ts, p, i + 1, out, cap)
    else if Accepted(p.fields[i], ts[i]) && |out| + |FieldBytes(p.fields[i], ts[i])| <= cap
    then EncodeFields(ts, p, i + 1, out + FieldBytes(p.fields[i], ts[i]), cap)
    else None
  }

  /** `amqp_encode_properties`. */
  function EncodeProps(ts: seq<FieldType>, p: Props, cap: nat): Option<seq<byte>>
    requires TypedProps(ts, p)
  {
    var words := FlagBytes(p.flags);
    if |words| <= cap then EncodeFields(ts, p, 0, words, cap) else None
  }

  datatype PropsRead = BadProps | UndefinedProps | Decoded(props: Props)

  function DecodeFields(ts: seq<FieldType>, buf: seq<byte>, flags: nat, off: nat, i: nat, fields: map<nat, Field>): PropsRead
    requires i <= |ts| && forall i | 0 <= i < |ts| :: !ts[i].Bit?
    decreases |ts| - i
  {
    if i == |ts| then Decoded(Props(flags, fields))
    else if !Flagged(flags, i) then DecodeFields(ts, buf, flags, off, i + 1, fields)
    else
      match FieldAt(buf, off, ts[i])
      case Bad => BadProps
      case Got(v, next) => DecodeFields(ts, buf, flags, next, i + 1, fields[i := v])
  }

  /** `amqp_decode_properties`. */
  function DecodeProps(ts: seq<FieldType>, buf: seq<byte>): PropsRead
    requires forall i | 0 <= i < |ts| :: !ts[i].Bit?
  {
    match FlagsAt(buf, 0, 0)
    case BadFlags => BadProps
    case UndefinedFlags => UndefinedProps
    case Flags(flags, off) => DecodeFields(ts, buf, flags, off, 0, map[])
  }

  /** What the reader should see: the flagged members, normalised. */
  function NormalProps(ts: seq<FieldType>, p: Props): Props
    requires TypedProps(ts, p)
  {
    Props(ReadBack(p.flags), map i: nat | i < |ts| && Flagged(p.flags, i) :: NormalField(p.fields[i]))
  }

  predicate PortableProps(ts: seq<FieldType>, p: Props)
    requires TypedProps(ts, p)
  {
    forall i | 0 <= i < |ts| && Flagged(p.flags, i) :: PortableField(p.fields[i])
  }

  lemma {:induction false} EncodeFieldsCorrect(ts: seq<FieldType>, p: Props, i: nat, out: seq<byte>, cap: nat)
    requires TypedProps(ts, p) && i <= |ts| && |out| <= cap
    ensures EncodeFields(ts, p, i, out, cap)
         == if AcceptedFrom(ts, p, i) && |out| + |FieldsBytes(ts, p, i)| <= cap
            then Some(out + FieldsBytes(ts, p, i)) else None
    decreases |ts| - i
  {
    if i == |ts| {
      assert out + [] == out;
    } else if !Flagged(p.flags, i) {
      EncodeFieldsCorrect(ts, p, i + 1, out, cap);
      assert AcceptedFrom(ts, p, i) == AcceptedFrom(ts, p, i + 1);
    } else {
      var b := FieldBytes(p.fields[i], ts[i]);
      if Accepted(p.fields[i], ts[i]) && |out| + |b| <= cap {
        EncodeFieldsCorrect(ts, p, i + 1, out + b, cap);
        assert AcceptedFrom(ts, p, i) == AcceptedFrom(ts, p, i + 1);
        Associative(out, b, FieldsBytes(ts, p, i + 1));
      }
    }
  }

  /** The member map from `i` on. */
  ghost function FieldsFrom(ts: seq<FieldType>, p: Props, i: nat): map<nat, Field>
    requires TypedProps(ts, p)
  {
    map k: nat | i <= k < |ts| && Flagged(p.flags, k) :: NormalField(p.fields[k])
  }

  lemma {:induction false} DecodeFieldsRoundTrip(ts: seq<FieldType>, p: Props, buf: seq<byte>, flags: nat, off: nat,
                                                 i: nat, fields: map<nat, Field>)
    requires TypedProps(ts, p) && i <= |ts| && AcceptedFrom(ts, p, i) && PortableProps(ts, p) && |buf| < U32
    requires forall k: nat | k < |ts| :: Flagged(flags, k) == Flagged(p.flags, k)
    requires At(buf, off, FieldsBytes(ts, p, i))
    ensures DecodeFields(ts, buf, flags, off, i, fields) == Decoded(Props(flags, fields + FieldsFrom(ts, p, i)))
    decreases |ts| - i
  {
    if i == |ts| {
      assert FieldsFrom(ts, p, i) == map[] && fields + map[] == fields;
    } else if !Flagged(p.flags, i) {
      DecodeFieldsRoundTrip(ts, p, buf, flags, off, i + 1, fields);
      FieldsFromUnflagged(ts, p, i);
    } else {
      var f := p.fields[i];
      var next := off + |FieldBytes(f, ts[i])|;
      AtSplit(buf, off, FieldBytes(f, ts[i]), FieldsBytes(ts, p, i + 1));
      FieldRoundTrip(buf, off, f, ts[i], next);
      DecodeFieldsRoundTrip(ts, p, buf, flags, next, i + 1, fields[i := NormalField(f)]);
      FieldsFromFlagged(ts, p, i, fields);
    }
  }

  lemma FieldsFromFlagged(ts: seq<FieldType>, p: Props, i: nat, fields: map<nat, Field>)
    requires TypedProps(ts, p) && i < |ts| && Flagged(p.flags, i)
    ensures fields[i := NormalField(p.fields[i])] + FieldsFrom(ts, p, i + 1) == fields + FieldsFrom(ts, p, i)
  {
  }

  lemma FieldsFromUnflagged(ts: seq<FieldType>, p: Props, i: nat)
    requires TypedProps(ts, p) && i < |ts| && !Flagged(p.flags, i)
    ensures FieldsFrom(ts, p, i + 1) == FieldsFrom(ts, p, i)
  {
  }

  ghost predicate PortableMap(fields: map<nat, Field>) { forall k | k in fields :: PortableField(fields[k]) }

  lemma DecodedPropsPortable(ts: seq<FieldType>, buf: seq<byte>)
    requires forall i | 0 <= i < |ts| :: !ts[i].Bit?
    requires DecodeProps(ts, buf).Decoded?
    ensures PortableMap(DecodeProps(ts, buf).props.fields)
  {
    var f := FlagsAt(buf, 0, 0);
    DecodedFieldsPortable(ts, buf, f.flags, f.next, 0, map[]);
  }

  lemma {:induction false} DecodedFieldsPortable(ts: seq<FieldType>, buf: seq<byte>, flags: nat, off: nat, i: nat,
                                                 fields: map<nat, Field>)
    requires i <= |ts| && forall i | 0 <= i < |ts| :: !ts[i].Bit?
    requires PortableMap(fields)
    ensures var r := DecodeFields(ts, buf, flags, off, i, fields); r.Decoded? ==> PortableMap(r.props.fields)
    decreases |ts| - i
  {
    if i < |ts| {
      if !Flagged(flags, i) {
        DecodedFieldsPortable(ts, buf, flags, off, i + 1, fields);
      } else if FieldAt(buf, off, ts[i]).Got? {
        DecodedFieldPortable(buf, off, ts[i]);
        var Got(v, next) := FieldAt(buf, off, ts[i]);
        DecodedFieldsPortable(ts, buf, flags, next, i + 1, fields[i := v]);
        assert DecodeFields(ts, buf, flags, off, i, fields) == DecodeFields(ts, buf, flags, next, i + 1, fields[i := v]);
      }
    }
  }

  lemma NormalPropsPortable(ts: seq<FieldType>, p: Props)
    requires TypedProps(ts, p)
    requires PortableMap(NormalProps(ts, p).fields)
    ensures PortableProps(ts, p)
  {
    var fs := NormalProps(ts, p).fields;
    forall i | 0 <= i < |ts| && Flagged(p.flags, i) ensures PortableField(p.fields[i]) {
      assert i in fs && fs[i] == NormalField(p.fields[i]);
      if p.fields[i].Tab? { NormalTablePortable(p.fields[i].t); }
    }
  }

  lemma EncodePropsParts(ts: seq<FieldType>, p: Props, cap: nat)
    requires TypedProps(ts, p) && EncodeProps(ts, p, cap).Some?
    ensures AcceptedFrom(ts, p, 0) && |EncodeProps(ts, p, cap).value| <= cap
    ensures EncodeProps(ts, p, cap).value == FlagBytes(p.flags) + FieldsBytes(ts, p, 0)
  {
    EncodeFieldsCorrect(ts, p, 0, FlagBytes(p.flags), cap);
  }

  lemma DecodePropsRoundTrip(ts: seq<FieldType>, p: Props, out: seq<byte>)
    requires TypedProps(ts, p) && AcceptedFrom(ts, p, 0) && PortableProps(ts, p) && |out| < U32
    requires out == FlagBytes(p.flags) + FieldsBytes(ts, p, 0)
    ensures DecodeProps(ts, out) == Decoded(NormalProps(ts, p))
  {
    var words := FlagBytes(p.flags);
    AtSplit(out, 0, words, FieldsBytes(ts, p, 0));
    FlagsRoundTrip(out, 0, p.flags);
    forall k: nat | k < |ts| ensures Flagged(ReadBack(p.flags), k) == Flagged(p.flags, k) {
      ReadBackKeepsFlags(p.flags, k);
    }
    DecodeFieldsRoundTrip(ts, p, out, ReadBack(p.flags), |words|, 0, map[]);
    assert map[] + FieldsFrom(ts, p, 0) == NormalProps(ts, p).fields;
  }

  /** Properties that were encoded are decoded with every flagged member back, normalised, exactly
      when their tables are portable. */
  lemma PropsRoundTrip(ts: seq<FieldType>, p: Props, cap: nat)
    requires TypedProps(ts, p) && EncodeProps(ts, p, cap).Some? && cap < U32
    ensures var out := EncodeProps(ts, p, cap).value;
            |out| <= cap && (DecodeProps(ts, out) == Decoded(NormalProps(ts, p)) <==> PortableProps(ts, p))
  {
    var out := EncodeProps(ts, p, cap).value;
    EncodePropsParts(ts, p, cap);
    if PortableProps(ts, p) { DecodePropsRoundTrip(ts, p, out); }
    if DecodeProps(ts, out) == Decoded(NormalProps(ts, p)) {
      DecodedPropsPortable(ts, out);
      NormalPropsPortable(ts, p);
    }
  }
}
