/** Frames on the wire (sections 4.2.3 to 4.2.7 of AMQP 0-9-1): the frame writer, the decoder of a
    complete frame, and the round trip through the incremental parser. */
module Frames {
  import opened Wire
  import opened Generator
  import opened Arguments
  import opened Properties
  import opened FrameParser

  datatype Frame =
    | Method(channel: nat, id: nat, args: seq<Field>)
    | Header(channel: nat, classId: nat, bodySize: nat, props: Props)
    | Body(channel: nat, fragment: seq<byte>)
    | Heartbeat(channel: nat)
    | ProtocolHeader(octets: seq<byte>)

  /** The generated tables: the argument types of every method and the property types of every
      class. */
  datatype RawCatalogue = Catalogue(methods: map<nat, seq<FieldType>>, classes: map<nat, seq<FieldType>>)

  predicate PropertyTypes(ts: seq<FieldType>) { |ts| <= 30 && forall i | 0 <= i < |ts| :: !ts[i].Bit? }

  type Catalogue = c: RawCatalogue | forall id | id in c.classes :: PropertyTypes(c.classes[id])
    witness Catalogue(map[], map[])

  /** The values the C structs can hold. */
  predicate Representable(cat: Catalogue, f: Frame) {
    match f
    case Method(ch, id, args) => ch < U16 && id < U32 && (id in cat.methods ==> Typed(cat.methods[id], args))
    case Header(ch, id, size, props) =>
      ch < U16 && id < U16 && size < U64 && (id in cat.classes ==> TypedProps(cat.classes[id], props))
    case Body(ch, _) => ch < U16
    case Heartbeat(ch) => ch < U16
    case ProtocolHeader(_) => true
  }

  function TypeOctet(f: Frame): byte {
    match f
    case Method(_, _, _) => 1
    case Header(_, _, _, _) => 2
    case Body(_, _) => 3
    case Heartbeat(_) => 8
    case ProtocolHeader(_) => 65
  }

  /** The frame around a payload; the length is written after the payload, cast to 32 bits. */
  function Framed(t: byte, channel: nat, payload: seq<byte>): (r: seq<byte>)
    ensures |r| == |payload| + 8
  {
    [t] + BigEndian(2, channel) + BigEndian(4, |payload| % U32) + payload + [FRAME_END]
  }

  /** The payload `amqp_frame_to_bytes` puts into a buffer of `cap` octets.  Body fragments are
      copied without looking at the buffer's size. */
  function Payload(cat: Catalogue, f: Frame, cap: nat): Option<seq<byte>>
    requires Representable(cat, f) && cap >= 20
  {
    match f
    case Method(_, id, args) =>
      if id !in cat.methods then None
      else
        (match EncodeArgs(cat.methods[id], args, cap - 12)
         case None => None
         case Some(s) => Some(BigEndian(4, id) + s))
    case Header(_, id, size, props) =>
      if id !in cat.classes then None
      else
        (match EncodeProps(cat.classes[id], props, cap - 20)
         case None => None
         case Some(s) => Some(BigEndian(2, id) + BigEndian(2, 0) + BigEndian(8, size) + s))
    case Body(_, s) => Some(s)
    case Heartbeat(_) => Some([])
    case ProtocolHeader(_) => None
  }

  function FrameBytes(cat: Catalogue, f: Frame, cap: nat): Option<seq<byte>>
    requires Representable(cat, f) && cap >= 20
  {
    match Payload(cat, f, cap)
    case None => None
    case Some(p) => if f.ProtocolHeader? then None else Some(Framed(TypeOctet(f), f.channel, p))
  }

  // ----- decoding a complete frame -----

  function DecodeMethod(cat: Catalogue, channel: nat, payload: seq<byte>): Outcome<Frame> {
    if |payload| < 4 then Failed(Undefined)
    else
      var id := FromBigEndian(payload[..4]);
      if id !in cat.methods then Failed(UnknownMethod)
      else
        match DecodeArgs(cat.methods[id], payload[4..])
        case None => Failed(BadAmqpData)
        case Some(args) => Delivered(Method(channel, id, args))
  }

  function DecodeHeader(cat: Catalogue, channel: nat, payload: seq<byte>): Outcome<Frame> {
    if |payload| < 12 then Failed(Undefined)
    else
      var id, size, rest := FromBigEndian(payload[..2]), FromBigEndian(payload[4..12]), payload[12..];
      if id !in cat.classes then
        match FlagsAt(rest, 0, 0)
        case BadFlags => Failed(BadAmqpData)
        case UndefinedFlags => Failed(Undefined)
        case Flags(_, _) => Failed(UnknownClass)
      else
        match DecodeProps(cat.classes[id], rest)
        case BadProps => Failed(BadAmqpData)
        case UndefinedProps => Failed(Undefined)
        case Decoded(props) => Delivered(Header(channel, id, size, props))
  }

  /** The switch on the frame type; frames of an unknown type are skipped. */
  function DecodePayload(cat: Catalogue, t: byte, channel: nat, payload: seq<byte>): Outcome<Frame> {
    if t == 1 then DecodeMethod(cat, channel, payload)
    else if t == 2 then DecodeHeader(cat, channel, payload)
    else if t == 3 then Delivered(Body(channel, payload))
    else if t == 8 then Delivered(Heartbeat(channel))
    else NoFrame
  }

  function DecodeFrame(cat: Catalogue, raw: seq<byte>): Outcome<Frame> {
    if |raw| < 8 then Failed(Undefined)
    else DecodePayload(cat, raw[0], FromBigEndian(raw[1..3]), raw[7..|raw| - 1])
  }

  function AmqpCodec(cat: Catalogue): Codec<Frame> {
    Codec(raw => DecodeFrame(cat, raw), raw => ProtocolHeader(if |raw| == 8 then raw[4..] else []))
  }

  // ----- the round trip -----

  function NormalFrame(cat: Catalogue, f: Frame): Frame
    requires Representable(cat, f)
  {
    match f
    case Method(ch, id, args) => Method(ch, id, NormalFields(args))
    case Header(ch, id, size, props) =>
      if id in cat.classes then Header(ch, id, size, NormalProps(cat.classes[id], props)) else f
    case _ => f
  }

  predicate PortableFrame(cat: Catalogue, f: Frame)
    requires Representable(cat, f)
  {
    match f
    case Method(_, _, args) => PortableFields(args)
    case Header(_, id, _, props) => id in cat.classes ==> PortableProps(cat.classes[id], props)
    case _ => true
  }

  lemma FramedSlices(t: byte, channel: nat, payload: seq<byte>)
    ensures var raw := Framed(t, channel, payload);
            && raw[0] == t && raw[1..3] == BigEndian(2, channel) && raw[3..7] == BigEndian(4, |payload| % U32)
            && raw[7..|raw| - 1] == payload && raw[|raw| - 1] == FRAME_END
  {
  }

  /** The parts of a framed payload, where the decoder looks for them. */
  lemma FramedParts(t: byte, channel: nat, payload: seq<byte>)
    requires channel < U16 && |payload| + 8 < U32
    ensures var raw := Framed(t, channel, payload);
            && raw[0] == t && FromBigEndian(raw[1..3]) == channel && raw[7..|raw| - 1] == payload
            && DeclaredSize(raw) == |raw| && raw[|raw| - 1] == FRAME_END
  {
    FramedSlices(t, channel, payload);
    FramedChannel(t, channel, payload);
    FramedLength(t, channel, payload);
  }

  lemma FramedChannel(t: byte, channel: nat, payload: seq<byte>)
    requires channel < U16
    ensures FromBigEndian(Framed(t, channel, payload)[1..3]) == channel
  {
    FramedSlices(t, channel, payload);
    ShortRoundTrip(channel);
  }

  lemma FramedLength(t: byte, channel: nat, payload: seq<byte>)
    requires |payload| + 8 < U32
    ensures DeclaredSize(Framed(t, channel, payload)) == |payload| + 8
  {
    var raw, size := Framed(t, channel, payload), |payload|;
    assert raw[3..7] == BigEndian(4, size) by {
      FramedSlices(t, channel, payload);
      assert size % U32 == size;
    }
    NumberIn(raw[3..7], size);
  }

  lemma NumberIn(s: seq<byte>, v: nat)
    requires v < U32 && s == BigEndian(4, v)
    ensures FromBigEndian(s) == v
  {
    LongRoundTrip(v);
  }

  lemma MethodRoundTrip(cat: Catalogue, f: Frame, cap: nat, payload: seq<byte>)
    requires Representable(cat, f) && f.Method? && 20 <= cap < U32 && Payload(cat, f, cap) == Some(payload)
    ensures |payload| + 8 <= cap
    ensures DecodeMethod(cat, f.channel, payload) == Delivered(NormalFrame(cat, f)) <==> PortableFrame(cat, f)
  {
    var ts := cat.methods[f.id];
    var s := EncodeArgs(ts, f.args, cap - 12).value;
    ArgsRoundTrip(ts, f.args, cap - 12);
    Pow256Values();
    BigEndianRoundTrip(4, f.id);
    assert payload[..4] == BigEndian(4, f.id) && payload[4..] == s;
  }

  lemma HeaderRoundTrip(cat: Catalogue, f: Frame, cap: nat, payload: seq<byte>)
    requires Representable(cat, f) && f.Header? && 20 <= cap < U32 && Payload(cat, f, cap) == Some(payload)
    ensures |payload| + 8 <= cap
    ensures DecodeHeader(cat, f.channel, payload) == Delivered(NormalFrame(cat, f)) <==> PortableFrame(cat, f)
  {
    var ts := cat.classes[f.classId];
    var s := EncodeProps(ts, f.props, cap - 20).value;
    PropsRoundTrip(ts, f.props, cap - 20);
    Pow256Values();
    BigEndianRoundTrip(2, f.classId);
    BigEndianRoundTrip(8, f.bodySize);
    assert payload[..2] == BigEndian(2, f.classId);
    assert payload[4..12] == BigEndian(8, f.bodySize);
    assert payload[12..] == s;
  }

  lemma DecodeFramed(cat: Catalogue, t: byte, channel: nat, payload: seq<byte>)
    requires channel < U16 && |payload| + 8 < U32
    ensures DecodeFrame(cat, Framed(t, channel, payload)) == DecodePayload(cat, t, channel, payload)
  {
    FramedParts(t, channel, payload);
  }

  /** A frame that was written fits the buffer, and decoding its octets gives the frame back,
      booleans normalised, exactly when its tables are portable. */
  lemma FrameRoundTrip(cat: Catalogue, f: Frame, cap: nat)
    requires Representable(cat, f) && 20 <= cap < U32 && FrameBytes(cat, f, cap).Some?
    requires f.Body? ==> |f.fragment| + 8 <= cap
    ensures var w := FrameBytes(cat, f, cap).value;
            && 8 <= |w| == DeclaredSize(w) <= cap && w[|w| - 1] == FRAME_END
            && (DecodeFrame(cat, w) == Delivered(NormalFrame(cat, f)) <==> PortableFrame(cat, f))
  {
    var p := Payload(cat, f, cap).value;
    if f.Method? { MethodRoundTrip(cat, f, cap, p); }
    if f.Header? { HeaderRoundTrip(cat, f, cap, p); }
    FramedParts(TypeOctet(f), f.channel, p);
    DecodeFramed(cat, TypeOctet(f), f.channel, p);
  }

  /** A frame the writer accepts and the reader can give back. */
  predicate Sendable(cat: Catalogue, f: Frame, cap: nat)
    requires 20 <= cap < U32
  {
    && Representable(cat, f) && FrameBytes(cat, f, cap).Some? && PortableFrame(cat, f)
    && (f.Body? ==> |f.fragment| + 8 <= cap)
  }

  /** The idle parser, given a written frame, uses exactly its octets, delivers that frame and is
      idle again. */
  lemma ParserRoundTrip(cat: Catalogue, f: Frame, cap: nat, rest: seq<byte>)
    requires 20 <= cap < U32 && Sendable(cat, f, cap)
    ensures var w := FrameBytes(cat, f, cap).value;
            && |w| <= cap
            && Feed(AmqpCodec(cat), cap, IDLE, w + rest) == Fed(IDLE, |w|, Delivered(NormalFrame(cat, f)))
  {
    FrameRoundTrip(cat, f, cap);
    FeedWholeFrame(AmqpCodec(cat), cap, FrameBytes(cat, f, cap).value, rest);
  }

  predicate AllSendable(cat: Catalogue, fs: seq<Frame>, cap: nat)
    requires 20 <= cap < U32
  {
    forall i | 0 <= i < |fs| :: Sendable(cat, fs[i], cap)
  }

  function Stream(cat: Catalogue, fs: seq<Frame>, cap: nat): seq<byte>
    requires 20 <= cap < U32 && AllSendable(cat, fs, cap)
  {
    if fs == [] then [] else FrameBytes(cat, fs[0], cap).value + Stream(cat, fs[1..], cap)
  }

  function NormalFrames(cat: Catalogue, fs: seq<Frame>, cap: nat): (r: seq<Frame>)
    requires 20 <= cap < U32 && AllSendable(cat, fs, cap)
    ensures |r| == |fs| && forall i | 0 <= i < |fs| :: r[i] == NormalFrame(cat, fs[i])
  {
    if fs == [] then [] else [NormalFrame(cat, fs[0])] + NormalFrames(cat, fs[1..], cap)
  }

  lemma {:induction false} StreamConsumed(cat: Catalogue, fs: seq<Frame>, cap: nat)
    requires 20 <= cap < U32 && AllSendable(cat, fs, cap)
    ensures Consume(AmqpCodec(cat), cap, IDLE, Stream(cat, fs, cap)) == Running(IDLE, NormalFrames(cat, fs, cap))
  {
    if fs != [] {
      StreamConsumed(cat, fs[1..], cap);
      FrameRoundTrip(cat, fs[0], cap);
      WholeFrame(AmqpCodec(cat), cap, FrameBytes(cat, fs[0], cap).value, Stream(cat, fs[1..], cap));
    }
  }

  /** Writer, network and reader together: however the octets of a sequence of frames are cut into
      reads, the parser delivers those frames, in order, nothing else, and ends idle. */
  lemma StreamTransparency(cat: Catalogue, fs: seq<Frame>, cap: nat, chunks: seq<seq<byte>>)
    requires 20 <= cap < U32 && AllSendable(cat, fs, cap)
    requires Concat(chunks) == Stream(cat, fs, cap)
    ensures DrainAll(AmqpCodec(cat), cap, IDLE, chunks) == Running(IDLE, NormalFrames(cat, fs, cap))
  {
    StreamConsumed(cat, fs, cap);
    ChunkingIndependence(AmqpCodec(cat), cap, IDLE, chunks);
    DrainIsConsume(AmqpCodec(cat), cap, IDLE, Concat(chunks));
  }

  // ----- the first frame -----

  /** A leading octet changes the number. */
  lemma LeadingOctet(s: seq<byte>, t: seq<byte>)
    requires |s| == |t| > 0 && s[0] != t[0]
    ensures FromBigEndian(s) != FromBigEndian(t)
  {
    FromBigEndianRoundTrip(s);
    FromBigEndianRoundTrip(t);
  }

  /** With another first octet, a payload never decodes to the same frame. */
  lemma FirstPayloadOctet(cat: Catalogue, t: byte, channel: nat, p: seq<byte>, q: seq<byte>)
    requires 1 <= t <= 3 && |p| == |q| > 0 && p[0] != q[0] && DecodePayload(cat, t, channel, p).Delivered?
    ensures DecodePayload(cat, t, channel, q) != DecodePayload(cat, t, channel, p)
  {
    if t == 1 { LeadingOctet(p[..4], q[..4]); }
    if t == 2 { LeadingOctet(p[..2], q[..2]); }
  }

  /** What becomes of a complete frame when its eighth octet is read as zero. */
  lemma ZeroedOctet(cat: Catalogue, raw: seq<byte>)
    requires |raw| >= 8 && raw[|raw| - 1] == FRAME_END && !DecodeFrame(cat, raw).Failed?
    ensures Complete(AmqpCodec(cat), raw[7 := 0]).outcome == DecodeFrame(cat, raw)
       <==> raw[7] == 0 || (|raw| > 8 && raw[0] !in {1, 2, 3})
  {
    var z := raw[7 := 0];
    if raw[7] == 0 {
      assert z == raw;
    } else if |raw| > 8 {
      var p, q := raw[7..|raw| - 1], z[7..|raw| - 1];
      assert z[1..3] == raw[1..3] && p[0] == raw[7] && q[0] == 0;
      if raw[0] in {1, 2, 3} { FirstPayloadOctet(cat, raw[0], FromBigEndian(raw[1..3]), p, q); }
    }
  }

  /** The very first frame, if it is one that the idle parser delivers or skips, is taken for what it
      is exactly when its eighth octet is zero or lies in a payload that nobody looks at. */
  lemma FirstFrameExact(cat: Catalogue, frameMax: nat, raw: seq<byte>)
    requires 8 <= |raw| == DeclaredSize(raw) <= frameMax && |raw| < U32 && !IsProtocolHeader(raw[..8])
    requires raw[|raw| - 1] == FRAME_END && !DecodeFrame(cat, raw).Failed?
    ensures Consume(AmqpCodec(cat), frameMax, START, raw) == Consume(AmqpCodec(cat), frameMax, IDLE, raw)
       <==> raw[7] == 0 || (|raw| > 8 && raw[0] !in {1, 2, 3})
  {
    var c := AmqpCodec(cat);
    FirstFrame(c, frameMax, raw);
    ZeroedOctet(cat, raw);
    OutcomesDiffer(Complete(c, raw[7 := 0]).outcome, DecodeFrame(cat, raw), IDLE);
  }

  /** The first octet of a frame's payload. */
  predicate StartsWithZero(f: Frame) {
    match f
    case Method(_, id, _) => id < 0x1000000
    case Header(_, id, _, _) => id < 0x100
    case Body(_, s) => s != [] && s[0] == 0
    case _ => false
  }

  lemma {:induction false} LeadingZero(n: nat, v: nat)
    requires n > 0 && v < Pow256(n)
    ensures BigEndian(n, v)[0] == 0 <==> v < Pow256(n - 1)
  {
    if n > 1 { LeadingZero(n - 1, v / 256); }
  }

  /** The eighth octet is the first of the payload, or the end marker. */
  lemma FramedEighth(t: byte, channel: nat, p: seq<byte>)
    ensures var w := Framed(t, channel, p);
            w[0] == t && w[|w| - 1] == FRAME_END && w[7] == if p == [] then FRAME_END else p[0]
  {
    FramedSlices(t, channel, p);
  }

  lemma PayloadStart(cat: Catalogue, f: Frame, cap: nat)
    requires Representable(cat, f) && cap >= 20 && Payload(cat, f, cap).Some?
    ensures var p := Payload(cat, f, cap).value;
            && (p == [] ==> f.Body? || f.Heartbeat?)
            && (p != [] && p[0] == 0 <==> StartsWithZero(f))
  {
    Pow256Values();
    if f.Method? { LeadingZero(4, f.id); }
    if f.Header? { LeadingZero(2, f.classId); }
  }

  lemma EighthOctet(cat: Catalogue, f: Frame, cap: nat)
    requires 20 <= cap < U32 && Sendable(cat, f, cap)
    ensures var w := FrameBytes(cat, f, cap).value;
            && w[0] == TypeOctet(f) && (|w| == 8 || w[0] in {1, 2, 3}) && w[|w| - 1] == FRAME_END
            && (|w| >= 8 && w[7] == 0 <==> StartsWithZero(f))
  {
    FramedEighth(TypeOctet(f), f.channel, Payload(cat, f, cap).value);
    PayloadStart(cat, f, cap);
  }

  /** A frame written by the library survives as the very first one exactly when its payload starts
      with a zero octet: every method of the protocol does, a heartbeat does not. */
  lemma FirstWrittenFrame(cat: Catalogue, f: Frame, cap: nat)
    requires 20 <= cap < U32 && Sendable(cat, f, cap)
    ensures Consume(AmqpCodec(cat), cap, START, FrameBytes(cat, f, cap).value) == Running(IDLE, [NormalFrame(cat, f)])
       <==> StartsWithZero(f)
  {
    FrameRoundTrip(cat, f, cap);
    EighthOctet(cat, f, cap);
    FirstDelivered(cat, cap, FrameBytes(cat, f, cap).value, NormalFrame(cat, f));
  }

  lemma FirstDelivered(cat: Catalogue, frameMax: nat, raw: seq<byte>, g: Frame)
    requires 8 <= |raw| == DeclaredSize(raw) <= frameMax && |raw| < U32
    requires raw[|raw| - 1] == FRAME_END && DecodeFrame(cat, raw) == Delivered(g)
    requires (|raw| == 8 || raw[0] in {1, 2, 3}) && raw[0] != 65
    ensures Consume(AmqpCodec(cat), frameMax, START, raw) == Running(IDLE, [g]) <==> raw[7] == 0
  {
    assert raw[..8][..4][0] == raw[0];
    FirstFrameExact(cat, frameMax, raw);
    FirstFrame(AmqpCodec(cat), frameMax, raw);
    assert Before(Delivered(g), Running(IDLE, [])) == Running(IDLE, [g]) by { assert [g] + [] == [g]; }
  }

  // ----- the writer -----

  /** `amqp_frame_to_bytes`: type and channel, then the payload, then the length in front of it and
      the end marker behind it. */
  method WriteFrame(cat: Catalogue, f: Frame, buf: array<byte>) returns (encoded: Option<nat>)
    requires Representable(cat, f) && buf.Length >= 20
    requires f.Body? ==> |f.fragment| + 8 <= buf.Length
    modifies buf
    ensures match FrameBytes(cat, f, buf.Length)
            case None => encoded == None
            case Some(w) => encoded == Some(|w|) && |w| <= buf.Length && buf[..|w|] == w
  {
    if f.ProtocolHeader? { return None; }
    Store(buf, 0, [TypeOctet(f)]);
    Store(buf, 1, BigEndian(2, f.channel));
    var p := Payload(cat, f, buf.Length);
    if p.None? { return None; }
    PayloadFits(cat, f, buf.Length);
    assert buf[..3] == [TypeOctet(f)] + BigEndian(2, f.channel);
    Enclose(buf, TypeOctet(f), f.channel, p.value);
    encoded := Some(|p.value| + 8);
  }

  method Enclose(buf: array<byte>, t: byte, channel: nat, p: seq<byte>)
    requires |p| + 8 <= buf.Length && buf[..3] == [t] + BigEndian(2, channel)
    modifies buf
    ensures buf[..|p| + 8] == Framed(t, channel, p)
  {
    ghost var b1 := buf[..];
    assert b1[..3] == buf[..3];
    var size := BigEndian(4, |p| % U32);
    Store(buf, HEADER_SIZE, p);
    ghost var b2 := buf[..];
    Store(buf, 3, size);
    ghost var b3 := buf[..];
    StoredAdjacent(b1, b2, b3, 3, size, p);
    Store(buf, HEADER_SIZE + |p|, [FRAME_END]);
    StoredAdjacent(b1, b3, buf[..], 3, size + p, [FRAME_END]);
    StoredPrefix(b1, buf[..], 3, size + p + [FRAME_END]);
    FramedJoin(t, channel, p);
    assert buf[..][..|p| + 8] == buf[..|p| + 8];
  }

  lemma FramedJoin(t: byte, channel: nat, p: seq<byte>)
    ensures [t] + BigEndian(2, channel) + (BigEndian(4, |p| % U32) + p + [FRAME_END]) == Framed(t, channel, p)
  {
  }

  lemma PayloadFits(cat: Catalogue, f: Frame, cap: nat)
    requires Representable(cat, f) && cap >= 20 && Payload(cat, f, cap).Some?
    requires f.Body? ==> |f.fragment| + 8 <= cap
    ensures |Payload(cat, f, cap).value| + 8 <= cap
  {
    if f.Method? {
      MethodFits(cat, f, cap);
    } else if f.Header? {
      HeaderFits(cat, f, cap);
    }
  }

  lemma MethodFits(cat: Catalogue, f: Frame, cap: nat)
    requires Representable(cat, f) && cap >= 20 && f.Method? && Payload(cat, f, cap).Some?
    ensures |Payload(cat, f, cap).value| + 8 <= cap
  {
    var s := EncodeArgs(cat.methods[f.id], f.args, cap - 12).value;
    EncodeArgsFits(cat.methods[f.id], f.args, cap - 12, s);
    assert Payload(cat, f, cap).value == BigEndian(4, f.id) + s;
  }

  lemma HeaderFits(cat: Catalogue, f: Frame, cap: nat)
    requires Representable(cat, f) && cap >= 20 && f.Header? && Payload(cat, f, cap).Some?
    ensures |Payload(cat, f, cap).value| + 8 <= cap
  {
    EncodePropsParts(cat.classes[f.classId], f.props, cap - 20);
  }
}
