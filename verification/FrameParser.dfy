/** The incremental frame parser.  The reference is an automaton that takes one octet at a time;
    the library's resumable parser takes whatever the socket delivered and is proved to be that
    automaton, so that how a stream is cut into reads can never be seen.  What a complete frame
    means is a parameter. */
module FrameParser {
  import opened Wire

  const HEADER_SIZE: nat := 7
  const FRAME_END: byte := 206

  /** `Undefined` stands for inputs on which the C code computes with wrapped lengths. */
  datatype Status = BadAmqpData | UnknownMethod | UnknownClass | Undefined

  datatype Outcome<+F> = NoFrame | Delivered(frame: F) | Failed(status: Status)

  /** The meaning of a complete frame, its end marker checked, and of a protocol header. */
  datatype Codec<F> = Codec(decode: seq<byte> -> Outcome<F>, hello: seq<byte> -> F)

  datatype Mode = Initial | Idle | InHeader | InBody

  /** `buf` is the filled part of the inbound buffer, `target` the size it is being filled to. */
  datatype Parser = Parser(mode: Mode, buf: seq<byte>, target: nat)

  const START := Parser(Initial, [], 8)
  const IDLE := Parser(Idle, [], HEADER_SIZE)

  ghost predicate Valid(p: Parser, frameMax: nat) {
    match p.mode
    case Initial => |p.buf| < 8 == p.target
    case Idle => p == IDLE
    case InHeader => 0 < |p.buf| < HEADER_SIZE == p.target
    case InBody => HEADER_SIZE <= |p.buf| < p.target <= frameMax
  }

  // ----- the reference: one octet at a time -----

  datatype Step<+F> = Step(state: Parser, outcome: Outcome<F>)

  /** The frame length is three octets in. */
  function DeclaredSize(header: seq<byte>): nat
    requires |header| >= HEADER_SIZE
  {
    FromBigEndian(header[3..7]) + 8
  }

  function Complete<F>(c: Codec<F>, raw: seq<byte>): (s: Step<F>)
    requires raw != []
    ensures s.state == IDLE
  {
    if raw[|raw| - 1] != FRAME_END then Step(IDLE, Failed(BadAmqpData))
    else Step(IDLE, c.decode(raw))
  }

  /** What is wrong with the size a header declares. */
  function SizeError(frameMax: nat, header: seq<byte>): Option<Status>
    requires |header| >= HEADER_SIZE
  {
    if DeclaredSize(header) >= U32 then Some(Undefined)
    else if frameMax < DeclaredSize(header) then Some(BadAmqpData)
    else None
  }

  /** Only the first seven octets of a header are kept: in the initial state an eighth one had been
      buffered, and its place is taken by a zero of the new buffer. */
  function Kept(header: seq<byte>): (r: seq<byte>)
    requires 7 <= |header| <= 8
    ensures |r| == |header|
  {
    header[..7] + (if |header| == 8 then [0] else [])
  }

  function AfterHeader<F>(c: Codec<F>, frameMax: nat, header: seq<byte>): (s: Step<F>)
    requires 7 <= |header| <= 8
    ensures Valid(s.state, frameMax)
  {
    match SizeError(frameMax, header)
    case Some(e) => Step(IDLE, Failed(e))
    case None =>
      if |header| < DeclaredSize(header) then Step(Parser(InBody, Kept(header), DeclaredSize(header)), NoFrame)
      else Complete(c, Kept(header))
  }

  predicate IsProtocolHeader(raw: seq<byte>) { |raw| == 8 && raw[..4] == [65, 77, 81, 80] }

  function Filled<F>(c: Codec<F>, frameMax: nat, mode: Mode, buf: seq<byte>): (s: Step<F>)
    requires mode.Initial? ==> |buf| == 8
    requires mode.Idle? || mode.InHeader? ==> |buf| == 7
    requires mode.InBody? ==> buf != []
    ensures Valid(s.state, frameMax)
  {
    if mode.InBody? then Complete(c, buf)
    else if mode.Initial? && IsProtocolHeader(buf) then Step(IDLE, Delivered(c.hello(buf)))
    else AfterHeader(c, frameMax, buf)
  }

  function Started(mode: Mode): Mode { if mode.Idle? then InHeader else mode }

  function TakeOctet<F>(c: Codec<F>, frameMax: nat, p: Parser, b: byte): (s: Step<F>)
    requires Valid(p, frameMax)
    ensures Valid(s.state, frameMax)
  {
    var buf := p.buf + [b];
    if |buf| < p.target then Step(Parser(Started(p.mode), buf, p.target), NoFrame)
    else Filled(c, frameMax, p.mode, buf)
  }

  /** A run: the frames seen so far and where the parser stands, or why it stopped. */
  datatype Run<+F> = Running(state: Parser, frames: seq<F>) | Stopped(status: Status, frames: seq<F>)

  function Before<F>(o: Outcome<F>, r: Run<F>): Run<F> {
    match o
    case NoFrame => r
    case Delivered(f) => if r.Running? then Running(r.state, [f] + r.frames) else Stopped(r.status, [f] + r.frames)
    case Failed(s) => Stopped(s, [])
  }

  function Consume<F>(c: Codec<F>, frameMax: nat, p: Parser, data: seq<byte>): (r: Run<F>)
    requires Valid(p, frameMax)
    ensures r.Running? ==> Valid(r.state, frameMax)
    decreases |data|
  {
    if data == [] then Running(p, [])
    else
      var s := TakeOctet(c, frameMax, p, data[0]);
      Before(s.outcome, Consume(c, frameMax, s.state, data[1..]))
  }

  // ----- the library's parser: one chunk at a time -----

  datatype Fed<+F> = Fed(state: Parser, consumed: nat, outcome: Outcome<F>)

  function Min(a: nat, b: nat): nat { if a < b then a else b }

  /** Filling the frame's own buffer. */
  function FeedBody<F>(c: Codec<F>, p: Parser, data: seq<byte>): (r: Fed<F>)
    requires p.mode.InBody? && 7 <= |p.buf| <= p.target
    ensures r.consumed <= |data| && (data != [] && |p.buf| < p.target ==> r.consumed > 0)
  {
    var k := Min(p.target - |p.buf|, |data|);
    var body := p.buf + data[..k];
    if |body| < p.target then Fed(p.(buf := body), k, NoFrame)
    else Fed(IDLE, k, Complete(c, body).outcome)
  }

  /** One `amqp_handle_input` call. */
  function Feed<F>(c: Codec<F>, frameMax: nat, p: Parser, data: seq<byte>): (r: Fed<F>)
    requires Valid(p, frameMax)
    ensures Valid(r.state, frameMax)
    ensures r.consumed <= |data| && (data != [] ==> r.consumed > 0)
  {
    if data == [] then Fed(p, 0, NoFrame)
    else if p.mode.InBody? then FeedBody(c, p, data)
    else
      var n := Min(p.target - |p.buf|, |data|);
      var buf := p.buf + data[..n];
      if |buf| < p.target then Fed(Parser(Started(p.mode), buf, p.target), n, NoFrame)
      else if p.mode.Initial? && IsProtocolHeader(buf) then Fed(IDLE, n, Delivered(c.hello(buf)))
      else
        match SizeError(frameMax, buf)
        case Some(e) => Fed(IDLE, n, Failed(e))
        case None =>
          var r := FeedBody(c, Parser(InBody, Kept(buf), DeclaredSize(buf)), data[n..]);
          Fed(r.state, n + r.consumed, r.outcome)
  }

  /** Feeding a chunk until it is used up: the loop around `consume_one_frame`. */
  function Drain<F>(c: Codec<F>, frameMax: nat, p: Parser, data: seq<byte>): Run<F>
    requires Valid(p, frameMax)
    decreases |data|
  {
    if data == [] then Running(p, [])
    else
      var r := Feed(c, frameMax, p, data);
      Before(r.outcome, Drain(c, frameMax, r.state, data[r.consumed..]))
  }

  // ----- the chunked parser is the octet automaton -----

  /** Octets that do not fill the buffer are only stored. */
  lemma {:induction false} ConsumeFill<F>(c: Codec<F>, frameMax: nat, p: Parser, d: seq<byte>, rest: seq<byte>)
    requires Valid(p, frameMax) && d != [] && |p.buf| + |d| < p.target
    ensures var p' := Parser(Started(p.mode), p.buf + d, p.target);
            Valid(p', frameMax) && Consume(c, frameMax, p, d + rest) == Consume(c, frameMax, p', rest)
    decreases |d|
  {
    var p1 := Parser(Started(p.mode), p.buf + [d[0]], p.target);
    assert (d + rest)[0] == d[0] && (d + rest)[1..] == d[1..] + rest;
    assert TakeOctet(c, frameMax, p, d[0]) == Step(p1, NoFrame);
    if |d| == 1 {
      assert d == [d[0]] && d[1..] + rest == rest;
    } else {
      ConsumeFill(c, frameMax, p1, d[1..], rest);
      assert p1.buf + d[1..] == p.buf + d;
    }
  }

  /** Octets that fill the buffer exactly: all but the last are stored, the last one completes it. */
  lemma ConsumeFilled<F>(c: Codec<F>, frameMax: nat, p: Parser, d: seq<byte>, rest: seq<byte>)
    requires Valid(p, frameMax) && d != [] && |p.buf| + |d| == p.target
    ensures var s := Filled(c, frameMax, p.mode, p.buf + d);
            Consume(c, frameMax, p, d + rest) == Before(s.outcome, Consume(c, frameMax, s.state, rest))
  {
    var k := |d| - 1;
    var last := [d[k]];
    if k == 0 {
      assert d == last;
      ConsumeOne(c, frameMax, p, d[0], rest);
    } else {
      var p1 := Parser(Started(p.mode), p.buf + d[..k], p.target);
      assert d + rest == d[..k] + (last + rest);
      ConsumeFill(c, frameMax, p, d[..k], last + rest);
      ConsumeOne(c, frameMax, p1, d[k], rest);
      assert p1.buf + last == p.buf + d by { assert d == d[..k] + last; }
      assert Filled(c, frameMax, p1.mode, p.buf + d) == Filled(c, frameMax, p.mode, p.buf + d);
    }
  }

  lemma ConsumeOne<F>(c: Codec<F>, frameMax: nat, p: Parser, b: byte, rest: seq<byte>)
    requires Valid(p, frameMax)
    ensures var s := TakeOctet(c, frameMax, p, b);
            Consume(c, frameMax, p, [b] + rest) == Before(s.outcome, Consume(c, frameMax, s.state, rest))
  {
    assert ([b] + rest)[1..] == rest;
  }

  lemma FeedBodyIsConsume<F>(c: Codec<F>, frameMax: nat, p: Parser, data: seq<byte>)
    requires Valid(p, frameMax) && p.mode.InBody?
    ensures var r := FeedBody(c, p, data);
            && Valid(r.state, frameMax)
            && Consume(c, frameMax, p, data) == Before(r.outcome, Consume(c, frameMax, r.state, data[r.consumed..]))
  {
    var k := Min(p.target - |p.buf|, |data|);
    assert data == data[..k] + data[k..];
    if |p.buf| + k == p.target {
      ConsumeFilled(c, frameMax, p, data[..k], data[k..]);
    } else if k > 0 {
      ConsumeFill(c, frameMax, p, data[..k], data[k..]);
    } else {
      assert p.buf + data[..0] == p.buf && data[0..] == data;
    }
  }

  lemma FeedHeaderIsConsume<F>(c: Codec<F>, frameMax: nat, p: Parser, data: seq<byte>, n: nat)
    requires Valid(p, frameMax) && data != [] && !p.mode.InBody? && n == p.target - |p.buf| <= |data|
    ensures var r := Feed(c, frameMax, p, data);
            Consume(c, frameMax, p, data) == Before(r.outcome, Consume(c, frameMax, r.state, data[r.consumed..]))
  {
    assert data == data[..n] + data[n..];
    ConsumeFilled(c, frameMax, p, data[..n], data[n..]);
    FilledIsFeed(c, frameMax, p, data, n);
  }

  /** A call that does not fill the header buffer. */
  lemma FeedShort<F>(c: Codec<F>, frameMax: nat, p: Parser, data: seq<byte>)
    requires Valid(p, frameMax) && data != [] && !p.mode.InBody? && |p.buf| + |data| < p.target
    ensures Feed(c, frameMax, p, data) == Fed(Parser(Started(p.mode), p.buf + data, p.target), |data|, NoFrame)
  {
    assert data[..|data|] == data;
  }

  /** What a call does that fills the header buffer, in the terms of the automaton. */
  lemma FeedFilled<F>(c: Codec<F>, frameMax: nat, p: Parser, data: seq<byte>, n: nat)
    requires Valid(p, frameMax) && data != [] && !p.mode.InBody? && n == p.target - |p.buf| <= |data|
    ensures var buf := p.buf + data[..n];
            var s, r := Filled(c, frameMax, p.mode, buf), Feed(c, frameMax, p, data);
            if (p.mode.Initial? && IsProtocolHeader(buf)) || SizeError(frameMax, buf).Some? then
              r == Fed(s.state, n, s.outcome)
            else
              var b := FeedBody(c, Parser(InBody, Kept(buf), DeclaredSize(buf)), data[n..]);
              s == AfterHeader(c, frameMax, buf) && r == Fed(b.state, n + b.consumed, b.outcome)
  {
  }

  lemma FilledIsFeed<F>(c: Codec<F>, frameMax: nat, p: Parser, data: seq<byte>, n: nat)
    requires Valid(p, frameMax) && data != [] && !p.mode.InBody? && n == p.target - |p.buf| <= |data|
    ensures var s := Filled(c, frameMax, p.mode, p.buf + data[..n]);
            var r := Feed(c, frameMax, p, data);
            Before(s.outcome, Consume(c, frameMax, s.state, data[n..]))
            == Before(r.outcome, Consume(c, frameMax, r.state, data[r.consumed..]))
  {
    FeedFilled(c, frameMax, p, data, n);
    AfterHeaderIsConsume(c, frameMax, p.buf + data[..n], data, n);
  }

  /** One call of the library's parser is a stretch of the automaton's run. */
  lemma FeedIsConsume<F>(c: Codec<F>, frameMax: nat, p: Parser, data: seq<byte>)
    requires Valid(p, frameMax) && data != []
    ensures var r := Feed(c, frameMax, p, data);
            Consume(c, frameMax, p, data) == Before(r.outcome, Consume(c, frameMax, r.state, data[r.consumed..]))
  {
    var n := Min(p.target - |p.buf|, |data|);
    if p.mode.InBody? {
      FeedBodyIsConsume(c, frameMax, p, data);
    } else if |p.buf| + n < p.target {
      assert data == data[..n] + data[n..];
      ConsumeFill(c, frameMax, p, data[..n], data[n..]);
    } else {
      FeedHeaderIsConsume(c, frameMax, p, data, n);
    }
  }

  lemma AfterHeaderIsConsume<F>(c: Codec<F>, frameMax: nat, header: seq<byte>, data: seq<byte>, n: nat)
    requires 7 <= |header| <= 8 && n <= |data|
    ensures var s := AfterHeader(c, frameMax, header);
            SizeError(frameMax, header).None? ==>
              var r := FeedBody(c, Parser(InBody, Kept(header), DeclaredSize(header)), data[n..]);
              && Valid(r.state, frameMax)
              && Before(s.outcome, Consume(c, frameMax, s.state, data[n..]))
                 == Before(r.outcome, Consume(c, frameMax, r.state, data[n + r.consumed..]))
  {
    if SizeError(frameMax, header).None? {
      var p := Parser(InBody, Kept(header), DeclaredSize(header));
      var r := FeedBody(c, p, data[n..]);
      assert data[n..][r.consumed..] == data[n + r.consumed..];
      if |header| < p.target {
        FeedBodyIsConsume(c, frameMax, p, data[n..]);
      } else {
        assert p.buf + data[n..][..0] == p.buf;
      }
    }
  }

  lemma {:induction false} DrainIsConsume<F>(c: Codec<F>, frameMax: nat, p: Parser, data: seq<byte>)
    requires Valid(p, frameMax)
    ensures Drain(c, frameMax, p, data) == Consume(c, frameMax, p, data)
    decreases |data|
  {
    if data != [] {
      var r := Feed(c, frameMax, p, data);
      FeedIsConsume(c, frameMax, p, data);
      DrainIsConsume(c, frameMax, r.state, data[r.consumed..]);
    }
  }

  // ----- how the stream is cut does not matter -----

  function Prefixed<F>(frames: seq<F>, r: Run<F>): Run<F> { r.(frames := frames + r.frames) }

  /** Chunk after chunk, as the socket delivers them, until one of them stops the parser. */
  function DrainAll<F>(c: Codec<F>, frameMax: nat, p: Parser, chunks: seq<seq<byte>>): Run<F>
    requires Valid(p, frameMax)
    decreases |chunks|
  {
    if chunks == [] then Running(p, [])
    else
      DrainIsConsume(c, frameMax, p, chunks[0]);
      match Drain(c, frameMax, p, chunks[0])
      case Stopped(s, fs) => Stopped(s, fs)
      case Running(p', fs) => Prefixed(fs, DrainAll(c, frameMax, p', chunks[1..]))
  }

  function Concat(chunks: seq<seq<byte>>): seq<byte> {
    if chunks == [] then [] else chunks[0] + Concat(chunks[1..])
  }

  /** A run goes on with more octets, unless it has stopped. */
  function Onward<F>(c: Codec<F>, frameMax: nat, r: Run<F>, data: seq<byte>): Run<F>
    requires r.Running? ==> Valid(r.state, frameMax)
  {
    if r.Stopped? then r else Prefixed(r.frames, Consume(c, frameMax, r.state, data))
  }

  lemma {:induction false} ConsumeAppend<F>(c: Codec<F>, frameMax: nat, p: Parser, a: seq<byte>, b: seq<byte>)
    requires Valid(p, frameMax)
    ensures Consume(c, frameMax, p, a + b) == Onward(c, frameMax, Consume(c, frameMax, p, a), b)
    decreases |a|
  {
    if a == [] {
      assert a + b == b;
      var r := Consume(c, frameMax, p, b);
      assert [] + r.frames == r.frames;
    } else {
      var s := TakeOctet(c, frameMax, p, a[0]);
      assert (a + b)[0] == a[0] && (a + b)[1..] == a[1..] + b;
      ConsumeAppend(c, frameMax, s.state, a[1..], b);
      BeforePrefixed(s.outcome, Consume(c, frameMax, s.state, a[1..]), c, frameMax, b);
    }
  }

  lemma BeforePrefixed<F>(o: Outcome<F>, r: Run<F>, c: Codec<F>, frameMax: nat, b: seq<byte>)
    requires r.Running? ==> Valid(r.state, frameMax)
    ensures Before(o, Onward(c, frameMax, r, b)) == Onward(c, frameMax, Before(o, r), b)
  {
    if o.Delivered? && r.Running? {
      var rest := Consume(c, frameMax, r.state, b);
      assert [o.frame] + (r.frames + rest.frames) == [o.frame] + r.frames + rest.frames;
    }
  }

  /** Chunking independence, for every octet stream, every cut of it and every starting state:
      the frames, their order, the error if there is one and the final state are those of the
      uncut stream. */
  lemma {:induction false} ChunkingIndependence<F>(c: Codec<F>, frameMax: nat, p: Parser, chunks: seq<seq<byte>>)
    requires Valid(p, frameMax)
    ensures DrainAll(c, frameMax, p, chunks) == Drain(c, frameMax, p, Concat(chunks))
    decreases |chunks|
  {
    DrainIsConsume(c, frameMax, p, Concat(chunks));
    if chunks != [] {
      var a, b := chunks[0], Concat(chunks[1..]);
      DrainIsConsume(c, frameMax, p, a);
      ConsumeAppend(c, frameMax, p, a, b);
      var r := Consume(c, frameMax, p, a);
      if r.Running? {
        ChunkingIndependence(c, frameMax, r.state, chunks[1..]);
        DrainIsConsume(c, frameMax, r.state, b);
      }
    }
  }

  // ----- the initial state -----

  /** In the initial state the eighth octet of the first frame is dropped: the stream is parsed as
      if that octet were zero. */
  lemma InitialIsIdleWithZero<F>(c: Codec<F>, frameMax: nat, w: seq<byte>)
    requires |w| >= 8 && !IsProtocolHeader(w[..8])
    ensures Consume(c, frameMax, START, w) == Consume(c, frameMax, IDLE, w[7 := 0])
  {
    var h, rest := w[..8], w[8..];
    var z := w[7 := 0];
    var s := AfterHeader(c, frameMax, h);
    assert w == h + rest && START.buf + h == h;
    ConsumeFilled(c, frameMax, START, h, rest);
    assert z == w[..7] + ([0] + rest) && IDLE.buf + w[..7] == w[..7];
    ConsumeFilled(c, frameMax, IDLE, w[..7], [0] + rest);
    var t := AfterHeader(c, frameMax, w[..7]);
    assert DeclaredSize(h) == DeclaredSize(w[..7]) by { assert h[3..7] == w[..7][3..7]; }
    assert h[..7] + [0] == w[..7] + [0] && w[..7][..7] + [] == w[..7];
    if t.outcome.NoFrame? {
      ConsumeOne(c, frameMax, t.state, 0, rest);
    }
  }

  /** A whole frame fed to the idle parser. */
  lemma WholeFrame<F>(c: Codec<F>, frameMax: nat, raw: seq<byte>, rest: seq<byte>)
    requires 8 <= |raw| == DeclaredSize(raw) <= frameMax && |raw| < U32
    ensures Consume(c, frameMax, IDLE, raw + rest)
         == Before(Complete(c, raw).outcome, Consume(c, frameMax, IDLE, rest))
  {
    var h, d := raw[..7], raw[7..];
    assert raw + rest == h + (d + rest) && IDLE.buf + h == h;
    ConsumeFilled(c, frameMax, IDLE, h, d + rest);
    assert DeclaredSize(h) == DeclaredSize(raw) by { assert h[3..7] == raw[3..7]; }
    var p := Parser(InBody, h, |raw|);
    assert h[..7] + [] == h;
    assert AfterHeader(c, frameMax, h) == Step(p, NoFrame);
    ConsumeFilled(c, frameMax, p, d, rest);
    assert h + d == raw;
  }

  /** With a whole frame in its buffer, one call of the library's parser uses exactly that frame and
      returns to idle. */
  lemma FeedWholeFrame<F>(c: Codec<F>, frameMax: nat, raw: seq<byte>, rest: seq<byte>)
    requires 8 <= |raw| == DeclaredSize(raw) <= frameMax && |raw| < U32
    ensures Feed(c, frameMax, IDLE, raw + rest) == Fed(IDLE, |raw|, Complete(c, raw).outcome)
  {
    var data, h := raw + rest, raw[..7];
    assert IDLE.buf + data[..7] == h;
    assert DeclaredSize(h) == DeclaredSize(raw) by { assert h[3..7] == raw[3..7]; }
    assert Kept(h) == h;
    var k := |raw| - 7;
    assert h + data[7..][..k] == raw;
  }

  /** A whole first frame is parsed as the idle parser would parse it with a zero as eighth octet. */
  lemma FirstFrame<F>(c: Codec<F>, frameMax: nat, raw: seq<byte>)
    requires 8 <= |raw| == DeclaredSize(raw) <= frameMax && |raw| < U32 && !IsProtocolHeader(raw[..8])
    ensures Consume(c, frameMax, START, raw) == Before(Complete(c, raw[7 := 0]).outcome, Running(IDLE, []))
    ensures Consume(c, frameMax, IDLE, raw) == Before(Complete(c, raw).outcome, Running(IDLE, []))
  {
    var z := raw[7 := 0];
    InitialIsIdleWithZero(c, frameMax, raw);
    assert raw + [] == raw && z + [] == z;
    WholeFrame(c, frameMax, raw, []);
    assert DeclaredSize(z) == DeclaredSize(raw) by { assert z[3..7] == raw[3..7]; }
    WholeFrame(c, frameMax, z, []);
  }

  /** What a frame amounts to can be told from the run it ends. */
  lemma OutcomesDiffer<F>(o: Outcome<F>, o': Outcome<F>, p: Parser)
    ensures Before(o, Running(p, [])) == Before(o', Running(p, [])) <==> o == o'
  {
    if o.Delivered? && o'.Delivered? {
      assert ([o.frame] + [])[0] == o.frame && ([o'.frame] + [])[0] == o'.frame;
    }
  }

  lemma {:induction false} ZeroOctets(s: seq<byte>)
    requires forall i | 0 <= i < |s| :: s[i] == 0
    ensures FromBigEndian(s) == 0
  {
    if s != [] { ZeroOctets(s[..|s| - 1]); }
  }

  /** A heartbeat as the very first frame is refused, although the idle parser accepts it. */
  lemma FirstHeartbeatRefused<F>(c: Codec<F>, w: seq<byte>)
    requires w == [8, 0, 0, 0, 0, 0, 0, FRAME_END]
    ensures Consume(c, 4096, START, w) == Stopped(BadAmqpData, [])
    ensures Consume(c, 4096, IDLE, w) == Before(c.decode(w), Running(IDLE, []))
  {
    var z := w[7 := 0];
    assert w[..8][..4][0] == 8;
    ZeroOctets(w[3..7]);
    ZeroOctets(z[3..7]);
    InitialIsIdleWithZero(c, 4096, w);
    WholeFrame(c, 4096, w, []);
    WholeFrame(c, 4096, z, []);
    assert w + [] == w && z + [] == z;
  }

  // ----- the connection object -----

  /** The parser's fields of the connection state.  `inbound` is the header buffer until a header
      is complete and a buffer of the frame's own size from then on; `offset` octets of it are
      filled. */
  class Connection<F> {
    const frameMax: nat
    const codec: Codec<F>
    const header: array<byte>
    var state: Mode
    var inbound: array<byte>
    var offset: nat
    var target: nat

    ghost predicate Valid'()
      reads this, inbound
    {
      && header.Length == 8
      && (inbound == header <==> !state.InBody?)
      && offset <= target <= inbound.Length
      && (state.InBody? ==> target == inbound.Length)
      && Valid(View(), frameMax)
    }

    /** The abstract parser state. */
    ghost function View(): Parser
      requires offset <= inbound.Length
      reads this, inbound
    {
      Parser(state, inbound[..offset], target)
    }

    /** The part of `amqp_new_connection` that sets up the parser. */
    constructor (frameMax: nat, codec: Codec<F>)
      ensures Valid'() && View() == START && fresh(inbound)
      ensures this.frameMax == frameMax && this.codec == codec
    {
      this.frameMax, this.codec := frameMax, codec;
      var h := new byte[8];
      header, inbound := h, h;
      state, offset, target := Initial, 0, 8;
      new;
      assert inbound[..0] == [];
    }

    method ReturnToIdle()
      requires header.Length == 8
      modifies this
      ensures inbound == header && Valid'() && View() == IDLE
    {
      inbound := header;
      offset := 0;
      target := HEADER_SIZE;
      state := Idle;
      assert inbound[..0] == [];
    }

    /** `consume_data`: copy what is available and fits. */
    method ConsumeData(data: seq<byte>) returns (n: nat)
      requires offset <= target <= inbound.Length
      modifies this`offset, inbound
      ensures n == Min(target - old(offset), |data|) && offset == old(offset) + n
      ensures inbound[..offset] == old(inbound[..offset]) + data[..n]
    {
      n := if |data| < target - offset then |data| else target - offset;
      forall i | 0 <= i < n { inbound[offset + i] := data[i]; }
      offset := offset + n;
      assert inbound[..offset] == old(inbound[..offset]) + data[..n];
    }

    /** `amqp_handle_input`: the number of octets used, and the frame if one was completed.  After
        a failure the connection cannot be used any more. */
    method HandleInput(data: seq<byte>) returns (consumed: nat, outcome: Outcome<F>)
      requires Valid'()
      modifies this, inbound
      ensures var r := Feed(codec, frameMax, old(View()), data);
              outcome == r.outcome && (!outcome.Failed? ==> consumed == r.consumed && Valid'() && View() == r.state)
    {
      if data == [] { return 0, NoFrame; }
      if state.InBody? {
        consumed, outcome := FillBody(data);
      } else {
        consumed, outcome := FillHeader(data);
      }
    }

    /** The header buffer is filled; once it is full the header is looked at. */
    method FillHeader(data: seq<byte>) returns (consumed: nat, outcome: Outcome<F>)
      requires Valid'() && data != [] && !state.InBody?
      modifies this, inbound
      ensures var r := Feed(codec, frameMax, old(View()), data);
              outcome == r.outcome && (!outcome.Failed? ==> consumed == r.consumed && Valid'() && View() == r.state)
    {
      ghost var view := View();
      if state.Idle? { state := InHeader; }
      consumed := ConsumeData(data);
      if offset < target {
        FeedShort(codec, frameMax, view, data);
        return consumed, NoFrame;
      }
      FeedFilled(codec, frameMax, view, data, consumed);
      consumed, outcome := HeaderFilled(data, consumed);
    }

    /** A whole header, or a protocol header, has been gathered from the first `n` octets. */
    method HeaderFilled(data: seq<byte>, n: nat) returns (consumed: nat, outcome: Outcome<F>)
      requires header.Length == 8 && inbound == header && !state.InBody? && n <= |data|
      requires offset == target && 7 <= offset <= 8 && (state.Initial? ==> offset == 8)
      modifies this, inbound
      ensures var buf := old(inbound[..offset]);
              if old(state.Initial?) && IsProtocolHeader(buf) then
                outcome == Delivered(codec.hello(buf)) && consumed == n && Valid'() && View() == IDLE
              else match SizeError(frameMax, buf)
                case Some(e) => outcome == Failed(e)
                case None =>
                  var r := FeedBody(codec, Parser(InBody, Kept(buf), DeclaredSize(buf)), data[n..]);
                  outcome == r.outcome
                  && (!outcome.Failed? ==> consumed == n + r.consumed && Valid'() && View() == r.state)
    {
      consumed := n;
      if state.Initial? && IsProtocolHeader(inbound[..offset]) {
        outcome := Delivered(codec.hello(inbound[..offset]));
        ReturnToIdle();
        return;
      }
      var error := StartBody();
      if error.Some? { return consumed, Failed(error.value); }
      var more: nat;
      more, outcome := FillBody(data[consumed..]);
      consumed := consumed + more;
    }

    /** The frame's own buffer is filled; once it is full the frame is decoded. */
    method FillBody(data: seq<byte>) returns (n: nat, outcome: Outcome<F>)
      requires header.Length == 8 && inbound != header && state.InBody?
      requires 7 <= offset <= target == inbound.Length && 8 <= target <= frameMax
      modifies this, inbound
      ensures var r := FeedBody(codec, old(View()), data);
              outcome == r.outcome && (!outcome.Failed? ==> n == r.consumed && Valid'() && View() == r.state)
    {
      n := ConsumeData(data);
      if offset < target { return n, NoFrame; }
      assert inbound[..] == inbound[..offset];
      outcome := Finish();
    }

    /** The header is complete: check the size and move to a buffer of the frame's own. */
    method StartBody() returns (error: Option<Status>)
      requires header.Length == 8 && inbound == header && offset == target && 7 <= offset <= 8
      modifies this
      ensures error == SizeError(frameMax, old(inbound[..offset]))
      ensures error.None? ==>
                && state == InBody && offset == old(offset) <= target == inbound.Length <= frameMax
                && View() == Parser(InBody, Kept(old(inbound[..offset])), DeclaredSize(old(inbound[..offset])))
                && fresh(inbound)
    {
      var h := inbound[..offset];
      var size := DeclaredSize(h);
      error := SizeError(frameMax, h);
      if error.Some? { return; }
      target := size;
      inbound := new byte[size](i => 0);
      forall i | 0 <= i < HEADER_SIZE { inbound[i] := h[i]; }
      state := InBody;
      assert inbound[..offset] == Kept(h);
    }

    /** The frame is complete: check its end marker, decode it and return to idle. */
    method Finish() returns (outcome: Outcome<F>)
      requires header.Length == 8 && 8 <= offset == target == inbound.Length
      modifies this
      ensures outcome == Complete(codec, old(inbound[..])).outcome
      ensures !outcome.Failed? ==> Valid'() && View() == IDLE && inbound == header
    {
      if inbound[target - 1] != FRAME_END { return Failed(BadAmqpData); }
      outcome := codec.decode(inbound[..]);
      if !outcome.Failed? { ReturnToIdle(); }
    }
  }
}
