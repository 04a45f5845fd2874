/** The frame format octet by octet (section 2.3.5 of AMQP 0-9-1): what every written frame looks
    like and what every complete frame is taken for, with all positions and values as numbers. */
module FrameLayout {
  import opened Wire
  import opened Division
  import opened FrameParser
  import opened Frames
  import opened Arguments
  import opened Properties

  /** Two octets as a number, the more significant one first. */
  function Short(a: int, b: int): int { 256 * a + b }

  /** Four octets as a number, the most significant one first. */
  function Long(a: int, b: int, c: int, d: int): int { 0x1000000 * a + 0x10000 * b + 0x100 * c + d }

  /** The most significant octet comes first. */
  lemma {:induction false} OctetOf(n: nat, v: nat, i: nat)
    requires i < n
    ensures BigEndian(n, v)[i] == (v / Pow256(n - 1 - i)) % 256
  {
    if i < n - 1 {
      OctetOf(n - 1, v / 256, i);
      DivideTwice(v, 256, Pow256(n - 2 - i));
    }
  }

  lemma ShortOctets(v: nat)
    requires v < U16
    ensures BigEndian(2, v) == [v / 256, v % 256]
  {
    assert BigEndian(1, v / 256) == BigEndian(0, v / 256 / 256) + [v / 256 % 256];
  }

  lemma LongOctets(v: nat)
    requires v < U32
    ensures BigEndian(4, v) == [v / 0x1000000, v / 0x10000 % 256, v / 0x100 % 256, v % 256]
  {
    DivideTwice(v, 256, 256);
    DivideTwice(v, 256, 65536);
    var s := BigEndian(4, v);
    assert BigEndian(3, v / 256) == BigEndian(2, v / 256 / 256) + [v / 256 % 256];
    ShortOctets(v / 256 / 256);
  }

  lemma ShortValue(a: byte, b: byte)
    ensures FromBigEndian([a, b]) == Short(a, b)
  {
    assert [a, b][..1] == [a];
    assert [a][..0] == [];
  }

  lemma LongValue(a: byte, b: byte, c: byte, d: byte)
    ensures FromBigEndian([a, b, c, d]) == Long(a, b, c, d)
  {
    assert [a, b, c, d][..3] == [a, b, c];
    assert [a, b, c][..2] == [a, b];
    ShortValue(a, b);
  }

  /** Every frame the writer accepts: the type octet, the channel, the length of what lies between
      length and end marker, and the end marker. */
  lemma WrittenFrame(cat: Catalogue, f: Frame, cap: nat, w: seq<byte>)
    requires Frames.Representable(cat, f) && cap >= 20 && FrameBytes(cat, f, cap) == Some(w) && |w| - 8 < U32
    ensures !f.ProtocolHeader? && |w| >= 8
    ensures f.Method? ==> w[0] == 1
    ensures f.Header? ==> w[0] == 2
    ensures f.Body? ==> w[0] == 3
    ensures f.Heartbeat? ==> w[0] == 8
    ensures w[1] == f.channel / 256 && w[2] == f.channel % 256
    ensures var n := |w| - 8;
            w[3] == n / 0x1000000 && w[4] == n / 0x10000 % 256 && w[5] == n / 0x100 % 256 && w[6] == n % 256
    ensures w[|w| - 1] == 206
  {
    FramedOctets(TypeOctet(f), f.channel, Payload(cat, f, cap).value, w);
  }

  lemma FramedOctets(t: byte, channel: nat, p: seq<byte>, w: seq<byte>)
    requires channel < U16 && |p| < U32 && w == Framed(t, channel, p)
    ensures var n := |p|;
            && |w| == n + 8 && w[0] == t && w[1] == channel / 256 && w[2] == channel % 256
            && w[3] == n / 0x1000000 && w[4] == n / 0x10000 % 256 && w[5] == n / 0x100 % 256 && w[6] == n % 256
            && w[|w| - 1] == 206
  {
    FramedSlices(t, channel, p);
    assert |p| % U32 == |p|;
    PrefixOctets(w, channel, |p|);
  }

  lemma PrefixOctets(w: seq<byte>, channel: nat, n: nat)
    requires channel < U16 && n < U32 && |w| >= 8
    requires w[1..3] == BigEndian(2, channel) && w[3..7] == BigEndian(4, n)
    ensures w[1] == channel / 256 && w[2] == channel % 256
    ensures w[3] == n / 0x1000000 && w[4] == n / 0x10000 % 256 && w[5] == n / 0x100 % 256 && w[6] == n % 256
  {
    ShortOctets(channel);
    LongOctets(n);
    assert w[1..3] == [w[1], w[2]];
    assert w[3..7] == [w[3], w[4], w[5], w[6]];
  }

  /** What lies between length and end marker: a method's number and arguments; a header's class, a
      zero weight, the body's size and the properties; a fragment; nothing. */
  lemma WrittenPayload(cat: Catalogue, f: Frame, cap: nat, w: seq<byte>)
    requires Frames.Representable(cat, f) && cap >= 20 && FrameBytes(cat, f, cap) == Some(w)
    ensures f.Method? ==>
              && f.id in cat.methods && |w| >= 12
              && w[7..11] == [f.id / 0x1000000, f.id / 0x10000 % 256, f.id / 0x100 % 256, f.id % 256]
              && EncodeArgs(cat.methods[f.id], f.args, cap - 12) == Some(w[11..|w| - 1])
    ensures f.Header? ==>
              && f.classId in cat.classes && |w| >= 20
              && w[7..11] == [f.classId / 256, f.classId % 256, 0, 0]
              && (forall i | 0 <= i < 8 :: w[11..19][i] == (f.bodySize / Pow256(7 - i)) % 256)
              && EncodeProps(cat.classes[f.classId], f.props, cap - 20) == Some(w[19..|w| - 1])
    ensures f.Body? ==> |w| >= 8 && w[7..|w| - 1] == f.fragment
    ensures f.Heartbeat? ==> |w| == 8
  {
    var p := Payload(cat, f, cap).value;
    FramedSlices(TypeOctet(f), f.channel, p);
    if f.Method? { MethodOctets(f.id, EncodeArgs(cat.methods[f.id], f.args, cap - 12).value, p, w); }
    if f.Header? {
      HeaderOctets(f.classId, f.bodySize, EncodeProps(cat.classes[f.classId], f.props, cap - 20).value, p, w);
    }
  }

  lemma MethodOctets(id: nat, args: seq<byte>, p: seq<byte>, w: seq<byte>)
    requires id < U32 && p == BigEndian(4, id) + args && |w| == |p| + 8 && w[7..|w| - 1] == p
    ensures w[7..11] == [id / 0x1000000, id / 0x10000 % 256, id / 0x100 % 256, id % 256]
    ensures w[11..|w| - 1] == args
  {
    LongOctets(id);
    assert w[7..11] == p[..4] && w[11..|w| - 1] == p[4..];
  }

  lemma HeaderOctets(id: nat, size: nat, props: seq<byte>, p: seq<byte>, w: seq<byte>)
    requires id < U16 && p == BigEndian(2, id) + BigEndian(2, 0) + BigEndian(8, size) + props
    requires |w| == |p| + 8 && w[7..|w| - 1] == p
    ensures w[7..11] == [id / 256, id % 256, 0, 0]
    ensures forall i | 0 <= i < 8 :: w[11..19][i] == (size / Pow256(7 - i)) % 256
    ensures w[19..|w| - 1] == props
  {
    ShortOctets(id);
    ShortOctets(0);
    SliceOfSlice(w, 7, |w| - 1, 0, 4);
    SliceOfSlice(w, 7, |w| - 1, 4, 12);
    SliceOfSlice(w, 7, |w| - 1, 12, |p|);
    HeaderParts(BigEndian(2, id), BigEndian(2, 0), BigEndian(8, size), props, p);
    SizeOctets(w, size);
  }

  lemma SliceOfSlice(s: seq<byte>, a: nat, b: nat, c: nat, d: nat)
    requires a <= b <= |s| && c <= d <= b - a
    ensures s[a..b][c..d] == s[a + c..a + d]
  {
    var l, r := s[a..b][c..d], s[a + c..a + d];
    assert |l| == |r| && forall i | 0 <= i < |l| :: l[i] == r[i];
  }

  lemma HeaderParts(a: seq<byte>, b: seq<byte>, c: seq<byte>, d: seq<byte>, p: seq<byte>)
    requires |a| == |b| == 2 && |c| == 8 && p == a + b + c + d
    ensures p[0..4] == a + b && p[4..12] == c && p[12..|p|] == d
  {
  }

  lemma SizeOctets(w: seq<byte>, size: nat)
    requires |w| >= 19 && w[11..19] == BigEndian(8, size)
    ensures forall i | 0 <= i < 8 :: w[11..19][i] == (size / Pow256(7 - i)) % 256
  {
    forall i | 0 <= i < 8 ensures w[11..19][i] == (size / Pow256(7 - i)) % 256 {
      OctetOf(8, size, i);
    }
  }

  /** Every complete frame, by its first octet: 1 can only become a method, 2 a header; 3 always
      becomes a body fragment and 8 a heartbeat; any other is skipped. */
  lemma TakenFor(cat: Catalogue, raw: seq<byte>)
    requires |raw| >= 8
    ensures var o, channel := DecodeFrame(cat, raw), Short(raw[1], raw[2]);
            && (raw[0] == 1 ==> o.Failed? || (o.Delivered? && o.frame.Method? && o.frame.channel == channel))
            && (raw[0] == 2 ==> o.Failed? || (o.Delivered? && o.frame.Header? && o.frame.channel == channel))
            && (raw[0] == 3 ==> o == Delivered(Body(channel, raw[7..|raw| - 1])))
            && (raw[0] == 8 ==> o == Delivered(Heartbeat(channel)))
            && (raw[0] !in {1, 2, 3, 8} <==> o == NoFrame)
  {
    assert raw[1..3] == [raw[1], raw[2]];
    ShortValue(raw[1], raw[2]);
  }

  /** The number of a decoded method lies in the octets 7 to 10; an unknown one is refused. */
  lemma TakenMethod(cat: Catalogue, raw: seq<byte>)
    requires |raw| >= 12 && raw[0] == 1
    ensures var o, id := DecodeFrame(cat, raw), Long(raw[7], raw[8], raw[9], raw[10]);
            if id !in cat.methods then o == Failed(UnknownMethod)
            else
              match DecodeArgs(cat.methods[id], raw[11..|raw| - 1])
              case None => o == Failed(BadAmqpData)
              case Some(args) => o == Delivered(Method(Short(raw[1], raw[2]), id, args))
  {
    var p := raw[7..|raw| - 1];
    assert raw[1..3] == [raw[1], raw[2]];
    ShortValue(raw[1], raw[2]);
    assert p[..4] == [raw[7], raw[8], raw[9], raw[10]] && p[4..] == raw[11..|raw| - 1];
    LongValue(raw[7], raw[8], raw[9], raw[10]);
  }

  /** The class of a decoded header lies in the octets 7 and 8 and the body's size in 11 to 18; the
      weight between them is not looked at. */
  lemma TakenHeader(cat: Catalogue, raw: seq<byte>)
    requires |raw| >= 20 && raw[0] == 2
    ensures var o, id := DecodeFrame(cat, raw), Short(raw[7], raw[8]);
            if id !in cat.classes then o.Failed?
            else
              match DecodeProps(cat.classes[id], raw[19..|raw| - 1])
              case BadProps => o == Failed(BadAmqpData)
              case UndefinedProps => o == Failed(Undefined)
              case Decoded(props) => o == Delivered(Header(Short(raw[1], raw[2]), id, FromBigEndian(raw[11..19]), props))
  {
    var p := raw[7..|raw| - 1];
    assert raw[1..3] == [raw[1], raw[2]];
    ShortValue(raw[1], raw[2]);
    assert p[..2] == [raw[7], raw[8]];
    SliceOfSlice(raw, 7, |raw| - 1, 4, 12);
    SliceOfSlice(raw, 7, |raw| - 1, 12, |p|);
    ShortValue(raw[7], raw[8]);
  }

  /** The flags of the first fifteen properties are bits 15 to 1 of the first word, those of the next
      fifteen bits 15 to 1 of the second: bits 31 to 17 of the flag set. */
  lemma FlagNumbers(i: nat)
    ensures i < 15 ==> FlagBit(i) == 15 - i
    ensures 15 <= i < 30 ==> FlagBit(i) == 31 - (i - 15)
  {
  }

  /** The flag words on the wire: one or two, bit 0 of the first saying whether there is a second. */
  lemma FlagOctets(flags: nat)
    requires flags < U32
    ensures flags < 0x10000 ==> FlagBytes(flags) == BigEndian(2, flags - flags % 2)
    ensures flags >= 0x10000 ==>
              var lo, hi := flags % 0x10000, flags / 0x10000;
              FlagBytes(flags) == BigEndian(2, lo - lo % 2 + 1) + BigEndian(2, hi - hi % 2)
  {
    if flags >= 0x10000 {
      assert FlagBytes(flags / U16) == BigEndian(2, Continued(flags / U16, false));
    }
  }

  // ----- the bounds of a frame -----

  /** The size a header declares: the number in the octets 3 to 6, and eight more for header and end. */
  lemma SizeDeclared(header: seq<byte>)
    requires |header| >= 7
    ensures DeclaredSize(header) == Long(header[3], header[4], header[5], header[6]) + 8
  {
    assert header[3..7] == [header[3], header[4], header[5], header[6]];
    LongValue(header[3], header[4], header[5], header[6]);
  }

  /** A header that declares a frame larger than the limit is refused at once. */
  lemma TooLarge(cat: Catalogue, frameMax: nat, header: seq<byte>, rest: seq<byte>)
    requires |header| == 7 && frameMax < Long(header[3], header[4], header[5], header[6]) + 8 < U32
    ensures Consume(AmqpCodec(cat), frameMax, IDLE, header + rest) == Stopped(BadAmqpData, [])
  {
    SizeDeclared(header);
    assert IDLE.buf + header == header;
    ConsumeFilled(AmqpCodec(cat), frameMax, IDLE, header, rest);
  }

  /** A frame within the limit is taken off the stream whole: with another last octet than 206 it is refused,
      and else it is what decoding says. */
  lemma WholeFrameTaken(cat: Catalogue, frameMax: nat, raw: seq<byte>, rest: seq<byte>)
    requires |raw| >= 8 && |raw| == Long(raw[3], raw[4], raw[5], raw[6]) + 8 <= frameMax && |raw| < U32
    ensures Consume(AmqpCodec(cat), frameMax, IDLE, raw + rest)
         == if raw[|raw| - 1] != 206 then Stopped(BadAmqpData, [])
            else Before(DecodeFrame(cat, raw), Consume(AmqpCodec(cat), frameMax, IDLE, rest))
  {
    SizeDeclared(raw);
    WholeFrame(AmqpCodec(cat), frameMax, raw, rest);
  }

  /** Only as the very first thing, the letters AMQP and four more octets are a protocol header. */
  lemma GreetingTaken(cat: Catalogue, frameMax: nat, version: seq<byte>, rest: seq<byte>)
    requires |version| == 4
    ensures Consume(AmqpCodec(cat), frameMax, START, [65, 77, 81, 80] + version + rest)
         == Before(Delivered(ProtocolHeader(version)), Consume(AmqpCodec(cat), frameMax, IDLE, rest))
  {
    var raw := [65, 77, 81, 80] + version;
    assert START.buf + raw == raw && raw[..4] == [65, 77, 81, 80] && raw[4..] == version;
    ConsumeFilled(AmqpCodec(cat), frameMax, START, raw, rest);
  }
}
