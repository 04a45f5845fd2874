/** Method arguments: the field types of the generator given their C types, encoders and decoders,
    and the round trip of a whole argument list through the emitted programs. */
module Arguments {
  import opened Wire
  import opened FieldTable
  import opened Generator

  datatype Field =
    | Int(n: nat)
    | Str(s: seq<byte>)
    | BitValue(b: int)
    | Tab(t: Table)

  /** The octets of a number, or of a string's length. */
  function Octets(ft: FieldType): nat {
    match ft
    case Octet | ShortStr => 1
    case Short => 2
    case Long | LongStr => 4
    case LongLong => 8
    case _ => 0
  }

  predicate IsNumber(ft: FieldType) { ft.Octet? || ft.Short? || ft.Long? || ft.LongLong? }
  predicate IsString(ft: FieldType) { ft.ShortStr? || ft.LongStr? }

  /** The C type of the struct member. */
  predicate HasType(f: Field, ft: FieldType) {
    if IsNumber(ft) then f.Int? && f.n < Pow256(Octets(ft))
    else if IsString(ft) then f.Str?
    else if ft.Bit? then f.BitValue?
    else f.Tab?
  }

  /** What the generated encoder accepts. */
  predicate Accepted(f: Field, ft: FieldType)
    requires HasType(f, ft)
  {
    (IsString(ft) ==> |f.s| < Pow256(Octets(ft))) && (ft.TableField? ==> TableEncodable(f.t))
  }

  function NormalField(f: Field): Field {
    match f
    case BitValue(b) => BitValue(if b != 0 then 1 else 0)
    case Tab(t) => Tab(NormalTable(t))
    case _ => f
  }

  function FieldBytes(f: Field, ft: FieldType): seq<byte>
    requires HasType(f, ft) && !ft.Bit?
  {
    if IsNumber(ft) then BigEndian(Octets(ft), f.n)
    else if IsString(ft) then BigEndian(Octets(ft), |f.s|) + f.s
    else TableBytes(f.t)
  }

  function FieldAt(buf: seq<byte>, off: nat, ft: FieldType): (r: Read<Field>)
    requires !ft.Bit?
    ensures r.Got? ==> off < r.next <= |buf| && HasType(r.value, ft)
  {
    if IsNumber(ft) then
      match NumberAt(buf, off, Octets(ft))
      case Bad => Bad
      case Got(n, next) => Got(Int(n), next)
    else if IsString(ft) then
      match NumberAt(buf, off, Octets(ft))
      case Bad => Bad
      case Got(n, o) =>
        (match SliceAt(buf, o, n)
         case Bad => Bad
         case Got(s, next) => Got(Str(s), next))
    else
      match TableAt(buf, off)
      case Bad => Bad
      case Got(t, next) => Got(Tab(t), next)
  }

  /** Tables that survive their own round trip. */
  predicate PortableField(f: Field) { f.Tab? ==> TablePortable(f.t) }

  lemma FieldRoundTrip(buf: seq<byte>, off: nat, f: Field, ft: FieldType, end: nat)
    requires HasType(f, ft) && !ft.Bit? && Accepted(f, ft) && PortableField(f)
    requires |FieldBytes(f, ft)| < U32
    requires At(buf, off, FieldBytes(f, ft)) && end == off + |FieldBytes(f, ft)|
    ensures FieldAt(buf, off, ft) == Got(NormalField(f), end)
  {
    if IsNumber(ft) {
      NumberAtRoundTrip(buf, off, Octets(ft), f.n);
    } else if IsString(ft) {
      AtSplit(buf, off, BigEndian(Octets(ft), |f.s|), f.s);
      NumberAtRoundTrip(buf, off, Octets(ft), |f.s|);
      assert buf[off + Octets(ft)..end] == f.s;
    } else {
      TableRoundTrip(buf, off, f.t, end);
    }
  }

  lemma DecodedFieldPortable(buf: seq<byte>, off: nat, ft: FieldType)
    requires !ft.Bit? && FieldAt(buf, off, ft).Got?
    ensures PortableField(FieldAt(buf, off, ft).value)
  {
    if !IsNumber(ft) && !IsString(ft) { DecodedTable(buf, off); }
  }

  // ----- whole argument lists -----

  predicate Typed(ts: seq<FieldType>, vs: seq<Field>) {
    |ts| == |vs| && forall i | 0 <= i < |ts| :: HasType(vs[i], ts[i])
  }

  function ChunkOf(f: Field, ft: FieldType): Chunk
    requires HasType(f, ft)
  {
    if ft.Bit? then Flag(f.b) else Whole(Accepted(f, ft), FieldBytes(f, ft))
  }

  function Chunks(ts: seq<FieldType>, vs: seq<Field>): (cs: seq<Chunk>)
    requires Typed(ts, vs)
    ensures Shaped(ts, cs) && forall i | 0 <= i < |cs| :: cs[i] == ChunkOf(vs[i], ts[i])
  {
    seq(|ts|, i requires 0 <= i < |ts| => ChunkOf(vs[i], ts[i]))
  }

  /** `amqp_encode_method`: the emitted encoder of the method, on a buffer of `cap` octets. */
  function EncodeArgs(ts: seq<FieldType>, vs: seq<Field>, cap: nat): Option<seq<byte>>
    requires Typed(ts, vs)
  {
    match RunEncoder(EncCode(ts, 0, 0), Chunks(ts, vs), cap, Writing(0, []))
    case Aborted => None
    case Writing(_, out) => Some(out)
  }

  function Reader(ts: seq<FieldType>, buf: seq<byte>): (nat, nat) -> Read<Field> {
    (i: nat, off: nat) => if i < |ts| && !ts[i].Bit? then FieldAt(buf, off, ts[i]) else Bad
  }

  function MemberField(m: Member<Field>): Field {
    match m
    case IsFlag(b) => BitValue(if b then 1 else 0)
    case IsField(v) => v
  }

  /** `amqp_decode_method`: the emitted decoder of the method.  What follows the last field is not
      looked at. */
  function DecodeArgs(ts: seq<FieldType>, buf: seq<byte>): Option<seq<Field>> {
    match RunDecoder(DecCode(ts, 0, 0), buf, Reader(ts, buf), Reading(0, 0, map[]))
    case Broken => None
    case Reading(_, _, members) =>
      if forall i: nat | i < |ts| :: i in members then
        Some(seq(|ts|, i requires 0 <= i < |ts| && i in members => MemberField(members[i])))
      else None
  }

  predicate AllAcceptedFields(ts: seq<FieldType>, vs: seq<Field>)
    requires Typed(ts, vs)
  {
    forall i | 0 <= i < |ts| :: Accepted(vs[i], ts[i])
  }

  predicate PortableFields(vs: seq<Field>) { forall i | 0 <= i < |vs| :: PortableField(vs[i]) }

  function NormalFields(vs: seq<Field>): (r: seq<Field>)
    ensures |r| == |vs|
  {
    seq(|vs|, i requires 0 <= i < |vs| => NormalField(vs[i]))
  }

  /** The encoder succeeds exactly when every string and table is accepted and the octets fit; it
      then gives the packed wire format. */
  lemma EncodeArgsCorrect(ts: seq<FieldType>, vs: seq<Field>, cap: nat)
    requires Typed(ts, vs)
    ensures var bytes := ArgsBytes(ts, Chunks(ts, vs), 0);
            EncodeArgs(ts, vs, cap)
            == if AllAcceptedFields(ts, vs) && |bytes| <= cap then Some(bytes) else None
  {
    var cs := Chunks(ts, vs);
    var m := Writing(0, []);
    EncoderCorrect(ts, cs, 0, 0, cap, m);
    assert m.out + ArgsBytes(ts, cs, 0) == ArgsBytes(ts, cs, 0);
    assert AllAccepted(ts, cs, 0) == AllAcceptedFields(ts, vs) by {
      forall i | 0 <= i < |ts| ensures cs[i].Whole? ==> cs[i].accepted == Accepted(vs[i], ts[i]) {
        assert cs[i] == ChunkOf(vs[i], ts[i]);
      }
      forall i | 0 <= i < |ts| && cs[i].Flag? ensures Accepted(vs[i], ts[i]) {
        assert cs[i] == ChunkOf(vs[i], ts[i]);
      }
    }
  }

  lemma EncodeArgsFits(ts: seq<FieldType>, vs: seq<Field>, cap: nat, s: seq<byte>)
    requires Typed(ts, vs) && EncodeArgs(ts, vs, cap) == Some(s)
    ensures |s| <= cap
  {
    EncodeArgsCorrect(ts, vs, cap);
  }

  lemma ReaderReads(ts: seq<FieldType>, vs: seq<Field>, buf: seq<byte>)
    requires Typed(ts, vs) && AllAcceptedFields(ts, vs) && PortableFields(vs) && |buf| < U32
    ensures Reads(Reader(ts, buf), buf, Chunks(ts, vs), NormalFields(vs))
  {
    var cs := Chunks(ts, vs);
    forall i, off: nat | 0 <= i < |cs| && cs[i].Whole? && At(buf, off, cs[i].bytes)
      ensures Reader(ts, buf)(i, off) == Got(NormalFields(vs)[i], off + |cs[i].bytes|)
    {
      assert cs[i] == ChunkOf(vs[i], ts[i]);
      FieldRoundTrip(buf, off, vs[i], ts[i], off + |cs[i].bytes|);
    }
  }

  /** The emitted decoder gives back what the emitted encoder wrote. */
  lemma DecodeArgsRoundTrip(ts: seq<FieldType>, vs: seq<Field>, buf: seq<byte>)
    requires Typed(ts, vs) && AllAcceptedFields(ts, vs) && PortableFields(vs) && |buf| < U32
    requires buf == ArgsBytes(ts, Chunks(ts, vs), 0)
    ensures DecodeArgs(ts, buf) == Some(NormalFields(vs))
  {
    var cs, ns, m := Chunks(ts, vs), NormalFields(vs), Reading(0, 0, map[]);
    ReaderReads(ts, vs, buf);
    DecoderCorrect(ts, cs, ns, 0, 0, buf, Reader(ts, buf), m, |buf|);
    var members := RunDecoder(DecCode(ts, 0, 0), buf, Reader(ts, buf), m).members;
    assert members == Members(cs, ns, 0);
    forall i | 0 <= i < |ts| ensures MemberField(members[i]) == ns[i] {
      assert cs[i] == ChunkOf(vs[i], ts[i]);
    }
    assert DecodeArgs(ts, buf).value == ns;
  }

  // ----- what the decoder can ever give -----

  ghost predicate PortableMembers(m: Decoder<Field>) {
    m.Reading? ==> forall i | i in m.members && m.members[i].IsField? :: PortableField(m.members[i].value)
  }

  lemma {:induction false} RunKeepsPortable(ts: seq<FieldType>, buf: seq<byte>, code: seq<DecOp>, m: Decoder<Field>)
    requires PortableMembers(m)
    ensures PortableMembers(RunDecoder(code, buf, Reader(ts, buf), m))
    decreases |code|
  {
    if code != [] {
      if m.Reading? && code[0].GetField? {
        var i := code[0].field;
        if i < |ts| && !ts[i].Bit? && FieldAt(buf, m.off, ts[i]).Got? { DecodedFieldPortable(buf, m.off, ts[i]); }
      }
      RunKeepsPortable(ts, buf, code[1..], ExecDec(code[0], buf, Reader(ts, buf), m));
    }
  }

  lemma DecodedArgsPortable(ts: seq<FieldType>, buf: seq<byte>)
    requires DecodeArgs(ts, buf).Some?
    ensures PortableFields(DecodeArgs(ts, buf).value)
  {
    RunKeepsPortable(ts, buf, DecCode(ts, 0, 0), Reading(0, 0, map[]));
  }

  lemma NormalFieldsPortable(vs: seq<Field>)
    ensures PortableFields(NormalFields(vs)) == PortableFields(vs)
  {
    forall i | 0 <= i < |vs| ensures PortableField(NormalFields(vs)[i]) == PortableField(vs[i]) {
      if vs[i].Tab? { NormalTablePortable(vs[i].t); }
    }
    if PortableFields(NormalFields(vs)) {
      forall i | 0 <= i < |vs| ensures PortableField(vs[i]) {
        assert PortableField(NormalFields(vs)[i]);
      }
    }
  }

  /** For every field list and every struct: what the emitted encoder wrote within its buffer, the
      emitted decoder reads back, flags and booleans normalised, exactly when all tables are
      portable. */
  lemma ArgsRoundTrip(ts: seq<FieldType>, vs: seq<Field>, cap: nat)
    requires Typed(ts, vs) && EncodeArgs(ts, vs, cap).Some? && cap < U32
    ensures var out := EncodeArgs(ts, vs, cap).value;
            |out| <= cap && (DecodeArgs(ts, out) == Some(NormalFields(vs)) <==> PortableFields(vs))
  {
    EncodeArgsCorrect(ts, vs, cap);
    var out := EncodeArgs(ts, vs, cap).value;
    if PortableFields(vs) { DecodeArgsRoundTrip(ts, vs, out); }
    if DecodeArgs(ts, out) == Some(NormalFields(vs)) {
      DecodedArgsPortable(ts, out);
      NormalFieldsPortable(vs);
    }
  }
}
