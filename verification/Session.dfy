/** Receiving on a connection: the socket delivers octets in any pieces, the parser makes frames of
    them, and frames that are not the awaited one are queued.  What the network and the clock will do
    is a script; what waiting makes of it is a function of the queue and the script, and the methods
    are proved to compute it. */
module Session {
  import opened Wire
  import opened FrameParser
  import opened Frames
  import opened FrameQueue

  /** One turn of waiting: octets arrive; or a heartbeat is due and is sent, during which octets may be
      received whenever the socket does not take all of it at once; or there is a reason to stop. */
  datatype Turn = Arrived(data: seq<byte>) | HeartbeatDue(during: seq<seq<byte>>) | Ends(code: nat)

  /** Everything the socket delivers. */
  function Coming(turns: seq<Turn>): seq<byte> {
    if turns == [] then []
    else
      (match turns[0]
       case Arrived(data) => data
       case HeartbeatDue(during) => Concat(during)
       case Ends(_) => [])
      + Coming(turns[1..])
  }

  const SCRIPT_OVER: nat := 0
  const TIMED_OUT: nat := 1

  // ----- what becomes of the octets -----

  /** Octets that are parsed, by the waiting loop or aside while a heartbeat is being sent; and the
      points at which waiting breaks off. */
  datatype Piece = Octets(data: seq<byte>, aside: bool) | Break(code: nat)

  /** From the moment a receive is due, with `left` still in the buffer: a receive that succeeds
      overwrites it. */
  function FromReceive(left: seq<byte>, turns: seq<Turn>): seq<Piece>
    decreases |turns|, 0
  {
    if turns == [] then if left == [] then [] else [Break(SCRIPT_OVER), Octets(left, false)]
    else
      match turns[0]
      case Arrived(data) => [Octets(data, false)] + FromReceive([], turns[1..])
      case Ends(code) => [Break(code), Octets(left, false)] + FromReceive([], turns[1..])
      case HeartbeatDue(during) => DuringHeartbeat(left, during, turns[1..])
  }

  /** While a heartbeat is being sent: before each receive the buffer is used up. */
  function DuringHeartbeat(left: seq<byte>, during: seq<seq<byte>>, turns: seq<Turn>): seq<Piece>
    decreases |turns|, 1 + |during|
  {
    if during == [] then FromReceive(left, turns)
    else [Octets(left, true)] + DuringHeartbeat(during[0], during[1..], turns)
  }

  /** What waiting hears of: a frame that came to the waiting loop, a frame that was parsed aside, the
      end of the waiting. */
  datatype News = Came(frame: Frame) | Aside(frame: Frame) | Broke(code: nat)

  function Told(f: Frame, aside: bool): News { if aside then Aside(f) else Came(f) }

  function Tag(fs: seq<Frame>, aside: bool): (r: seq<News>)
    ensures |r| == |fs| && forall i | 0 <= i < |fs| :: r[i] == Told(fs[i], aside)
  {
    if fs == [] then [] else [Told(fs[0], aside)] + Tag(fs[1..], aside)
  }

  function TagRun(r: Run<Frame>, aside: bool): Run<News> {
    match r
    case Running(p, fs) => Running(p, Tag(fs, aside))
    case Stopped(s, fs) => Stopped(s, Tag(fs, aside))
  }

  function TagOutcome(o: Outcome<Frame>, aside: bool): Outcome<News> {
    match o
    case NoFrame => NoFrame
    case Delivered(f) => Delivered(Told(f, aside))
    case Failed(s) => Failed(s)
  }

  /** The news of a sequence of pieces. */
  function Parsed(c: Codec<Frame>, frameMax: nat, p: Parser, pieces: seq<Piece>): (r: Run<News>)
    requires FrameParser.Valid(p, frameMax)
    decreases |pieces|
  {
    if pieces == [] then Running(p, [])
    else
      match pieces[0]
      case Break(code) => Prefixed([Broke(code)], Parsed(c, frameMax, p, pieces[1..]))
      case Octets(data, aside) =>
        match Consume(c, frameMax, p, data)
        case Stopped(s, fs) => Stopped(s, Tag(fs, aside))
        case Running(p', fs) => Prefixed(Tag(fs, aside), Parsed(c, frameMax, p', pieces[1..]))
  }

  lemma PrefixedNothing<F>(r: Run<F>)
    ensures Prefixed([], r) == r
  {
    assert [] + r.frames == r.frames;
  }

  lemma PrefixedJoin<F>(a: seq<F>, b: seq<F>, r: Run<F>)
    ensures Prefixed(a, Prefixed(b, r)) == Prefixed(a + b, r)
  {
    assert a + (b + r.frames) == a + b + r.frames;
  }

  lemma PrefixedMore<F>(taken: seq<F>, o: Outcome<F>, r: Run<F>)
    requires !o.Failed?
    ensures Prefixed(taken, Before(o, r)) == if o.Delivered? then Prefixed(taken + [o.frame], r) else Prefixed(taken, r)
  {
    if o.Delivered? { assert taken + ([o.frame] + r.frames) == taken + [o.frame] + r.frames; }
  }

  lemma {:induction false} TagJoin(a: seq<Frame>, b: seq<Frame>, aside: bool)
    ensures Tag(a + b, aside) == Tag(a, aside) + Tag(b, aside)
  {
    if a == [] {
      assert a + b == b;
    } else {
      assert (a + b)[1..] == a[1..] + b;
      TagJoin(a[1..], b, aside);
    }
  }

  /** The news of a run, followed by those of more pieces unless it has stopped. */
  function NewsOnward(c: Codec<Frame>, frameMax: nat, r: Run<Frame>, aside: bool, pieces: seq<Piece>): Run<News>
    requires r.Running? ==> FrameParser.Valid(r.state, frameMax)
  {
    if r.Stopped? then TagRun(r, aside) else Prefixed(Tag(r.frames, aside), Parsed(c, frameMax, r.state, pieces))
  }

  lemma {:induction false} ParsedFirst(c: Codec<Frame>, frameMax: nat, p: Parser, data: seq<byte>, aside: bool,
                                       pieces: seq<Piece>)
    requires FrameParser.Valid(p, frameMax)
    ensures Parsed(c, frameMax, p, [Octets(data, aside)] + pieces)
         == NewsOnward(c, frameMax, Consume(c, frameMax, p, data), aside, pieces)
  {
    assert ([Octets(data, aside)] + pieces)[1..] == pieces;
  }

  lemma ParsedBreak(c: Codec<Frame>, frameMax: nat, p: Parser, code: nat, pieces: seq<Piece>)
    requires FrameParser.Valid(p, frameMax)
    ensures Parsed(c, frameMax, p, [Break(code)] + pieces) == Prefixed([Broke(code)], Parsed(c, frameMax, p, pieces))
  {
    assert ([Break(code)] + pieces)[1..] == pieces;
  }

  lemma ParsedEmpty(c: Codec<Frame>, frameMax: nat, p: Parser, aside: bool, pieces: seq<Piece>)
    requires FrameParser.Valid(p, frameMax)
    ensures Parsed(c, frameMax, p, [Octets([], aside)] + pieces) == Parsed(c, frameMax, p, pieces)
  {
    ParsedFirst(c, frameMax, p, [], aside, pieces);
    PrefixedNothing(Parsed(c, frameMax, p, pieces));
  }

  lemma {:induction false} BeforeTagged(o: Outcome<Frame>, r: Run<Frame>, aside: bool, c: Codec<Frame>, frameMax: nat,
                                        pieces: seq<Piece>)
    requires r.Running? ==> FrameParser.Valid(r.state, frameMax)
    ensures Before(TagOutcome(o, aside), NewsOnward(c, frameMax, r, aside, pieces))
         == NewsOnward(c, frameMax, Before(o, r), aside, pieces)
  {
    if o.Delivered? {
      assert Tag([o.frame] + r.frames, aside) == [Told(o.frame, aside)] + Tag(r.frames, aside);
      if r.Running? {
        PrefixedJoin([Told(o.frame, aside)], Tag(r.frames, aside), Parsed(c, frameMax, r.state, pieces));
      }
    }
  }

  /** One call of the parser on what is buffered, seen against everything that is still to come. */
  lemma FeedTold(c: Codec<Frame>, frameMax: nat, p: Parser, data: seq<byte>, aside: bool, pieces: seq<Piece>)
    requires FrameParser.Valid(p, frameMax) && data != []
    ensures var r := Feed(c, frameMax, p, data);
            Parsed(c, frameMax, p, [Octets(data, aside)] + pieces)
            == Before(TagOutcome(r.outcome, aside),
                      Parsed(c, frameMax, r.state, [Octets(data[r.consumed..], aside)] + pieces))
  {
    var r := Feed(c, frameMax, p, data);
    FeedIsConsume(c, frameMax, p, data);
    ParsedFirst(c, frameMax, p, data, aside, pieces);
    ParsedFirst(c, frameMax, r.state, data[r.consumed..], aside, pieces);
    BeforeTagged(r.outcome, Consume(c, frameMax, r.state, data[r.consumed..]), aside, c, frameMax, pieces);
  }

  // ----- nothing is lost, exactly when nothing is overwritten -----

  function DataOf(pieces: seq<Piece>): seq<byte> {
    if pieces == [] then [] else (if pieces[0].Octets? then pieces[0].data else []) + DataOf(pieces[1..])
  }

  lemma DataFirst(piece: Piece, pieces: seq<Piece>)
    ensures DataOf([piece] + pieces) == (if piece.Octets? then piece.data else []) + DataOf(pieces)
  {
    assert ([piece] + pieces)[1..] == pieces;
  }

  /** Some receive finds octets in the buffer that were received while a heartbeat was being sent. */
  predicate Overwrites(left: seq<byte>, turns: seq<Turn>)
    decreases |turns|
  {
    turns != [] &&
    match turns[0]
    case Arrived(_) => left != [] || Overwrites([], turns[1..])
    case Ends(_) => Overwrites([], turns[1..])
    case HeartbeatDue(during) => Overwrites(LastReceived(left, during), turns[1..])
  }

  /** What a heartbeat leaves in the buffer. */
  function LastReceived(left: seq<byte>, during: seq<seq<byte>>): seq<byte> {
    if during == [] then left else during[|during| - 1]
  }

  /** What is parsed of the octets of a heartbeat: all but the last receive, which stays in the buffer. */
  lemma {:induction false} DuringLength(left: seq<byte>, during: seq<seq<byte>>, turns: seq<Turn>)
    ensures var last := LastReceived(left, during);
            |DataOf(DuringHeartbeat(left, during, turns))| - |left| - |Concat(during)|
            == |DataOf(FromReceive(last, turns))| - |last|
    decreases |during|
  {
    if during != [] {
      DuringLength(during[0], during[1..], turns);
      DataFirst(Octets(left, true), DuringHeartbeat(during[0], during[1..], turns));
    }
  }

  lemma {:induction false} DuringData(left: seq<byte>, during: seq<seq<byte>>, turns: seq<Turn>)
    requires var last := LastReceived(left, during); DataOf(FromReceive(last, turns)) == last + Coming(turns)
    ensures DataOf(DuringHeartbeat(left, during, turns)) == left + (Concat(during) + Coming(turns))
    decreases |during|
  {
    if during == [] {
      assert [] + Coming(turns) == Coming(turns);
    } else {
      DuringData(during[0], during[1..], turns);
      DataFirst(Octets(left, true), DuringHeartbeat(during[0], during[1..], turns));
      JoinOctets(during[0], Concat(during[1..]), Coming(turns));
    }
  }

  lemma JoinOctets(a: seq<byte>, b: seq<byte>, c: seq<byte>)
    ensures a + (b + c) == a + b + c
  {
  }

  /** No octet is parsed that did not arrive, and every one that arrived is parsed, in order, exactly
      when no receive overwrites what a heartbeat left in the buffer. */
  lemma {:induction false} ConservationExact(left: seq<byte>, turns: seq<Turn>)
    ensures |DataOf(FromReceive(left, turns))| <= |left| + |Coming(turns)|
    ensures DataOf(FromReceive(left, turns)) == left + Coming(turns) <==> !Overwrites(left, turns)
    ensures |DataOf(FromReceive(left, turns))| == |left| + |Coming(turns)| ==> !Overwrites(left, turns)
    decreases |turns|
  {
    if turns == [] {
      if left != [] {
        DataFirst(Break(SCRIPT_OVER), [Octets(left, false)]);
        assert [Break(SCRIPT_OVER)] + [Octets(left, false)] == FromReceive(left, turns);
        DataFirst(Octets(left, false), []);
        assert [Octets(left, false)] + [] == [Octets(left, false)];
      }
    } else {
      var rest := turns[1..];
      match turns[0]
      case Arrived(data) =>
        ConservationExact([], rest);
        DataFirst(Octets(data, false), FromReceive([], rest));
        assert [] + Coming(rest) == Coming(rest);
        if left == [] { assert left + Coming(turns) == Coming(turns); }
      case Ends(code) =>
        ConservationExact([], rest);
        var pieces := [Octets(left, false)] + FromReceive([], rest);
        assert FromReceive(left, turns) == [Break(code)] + pieces;
        DataFirst(Break(code), pieces);
        DataFirst(Octets(left, false), FromReceive([], rest));
        assert [] + Coming(rest) == Coming(rest);
      case HeartbeatDue(during) =>
        var last := LastReceived(left, during);
        ConservationExact(last, rest);
        DuringLength(left, during, rest);
        if !Overwrites(last, rest) { DuringData(left, during, rest); }
    }
  }

  /** The frames of the news, whoever parsed them. */
  function FramesOfNews(news: seq<News>): seq<Frame> {
    if news == [] then []
    else (if news[0].Broke? then [] else [news[0].frame]) + FramesOfNews(news[1..])
  }

  function Untagged(r: Run<News>): Run<Frame> {
    match r
    case Running(p, news) => Running(p, FramesOfNews(news))
    case Stopped(s, news) => Stopped(s, FramesOfNews(news))
  }

  lemma {:induction false} FramesOfTagged(fs: seq<Frame>, aside: bool, news: seq<News>)
    ensures FramesOfNews(Tag(fs, aside) + news) == fs + FramesOfNews(news)
    decreases |fs|
  {
    if fs == [] {
      assert Tag(fs, aside) + news == news;
    } else {
      assert (Tag(fs, aside) + news)[1..] == Tag(fs[1..], aside) + news;
      FramesOfTagged(fs[1..], aside, news);
    }
  }

  lemma FramesOfAll(fs: seq<Frame>, aside: bool)
    ensures FramesOfNews(Tag(fs, aside)) == fs
  {
    FramesOfTagged(fs, aside, []);
    assert Tag(fs, aside) + [] == Tag(fs, aside);
  }

  /** The frames of the news are those of the octets that are parsed. */
  lemma {:induction false} NewsOfOctets(c: Codec<Frame>, frameMax: nat, p: Parser, pieces: seq<Piece>)
    requires FrameParser.Valid(p, frameMax)
    ensures Untagged(Parsed(c, frameMax, p, pieces)) == Consume(c, frameMax, p, DataOf(pieces))
    decreases |pieces|
  {
    if pieces != [] {
      var rest := pieces[1..];
      match pieces[0]
      case Break(code) =>
        NewsOfOctets(c, frameMax, p, rest);
        var news := Parsed(c, frameMax, p, rest).frames;
        assert ([Broke(code)] + news)[1..] == news && [] + FramesOfNews(news) == FramesOfNews(news);
        assert [] + DataOf(rest) == DataOf(rest);
      case Octets(data, aside) =>
        ConsumeAppend(c, frameMax, p, data, DataOf(rest));
        match Consume(c, frameMax, p, data)
        case Stopped(_, fs) => FramesOfAll(fs, aside);
        case Running(p', fs) =>
          NewsOfOctets(c, frameMax, p', rest);
          FramesOfTagged(fs, aside, Parsed(c, frameMax, p', rest).frames);
    }
  }

  /** A script on which a frame is lost: it is received while a heartbeat is being sent, and the next
      receive overwrites it. */
  lemma OverwrittenFrame(cat: Catalogue, f: Frame, g: Frame, cap: nat)
    requires 20 <= cap < U32 && Sendable(cat, f, cap) && Sendable(cat, g, cap)
    ensures var x, y := FrameBytes(cat, f, cap).value, FrameBytes(cat, g, cap).value;
            && Coming([HeartbeatDue([x]), Arrived(y)]) == x + y
            && Parsed(AmqpCodec(cat), cap, IDLE, FromReceive([], [HeartbeatDue([x]), Arrived(y)]))
               == Running(IDLE, [Came(NormalFrame(cat, g))])
  {
    var x, y := FrameBytes(cat, f, cap).value, FrameBytes(cat, g, cap).value;
    OverwrittenOctets(x, y);
    FrameRoundTrip(cat, g, cap);
    WholeFrame(AmqpCodec(cat), cap, y, []);
    OneFrame(AmqpCodec(cat), cap, y, NormalFrame(cat, g));
  }

  lemma OverwrittenOctets(x: seq<byte>, y: seq<byte>)
    ensures var turns := [HeartbeatDue([x]), Arrived(y)];
            Coming(turns) == x + y && FromReceive([], turns) == [Octets([], true), Octets(y, false)]
  {
    var turns, one: seq<seq<byte>> := [HeartbeatDue([x]), Arrived(y)], [x];
    assert turns[1..] == [Arrived(y)] && [Arrived(y)][1..] == [] && one[1..] == [];
    assert Concat(one) == x + Concat([]) == x;
    assert Coming([Arrived(y)]) == y + Coming([]) == y;
    assert DuringHeartbeat(x, [], [Arrived(y)]) == FromReceive(x, [Arrived(y)]) == [Octets(y, false)];
  }

  lemma OneFrame(c: Codec<Frame>, frameMax: nat, y: seq<byte>, g: Frame)
    requires Consume(c, frameMax, IDLE, y + []) == Before(Delivered(g), Consume(c, frameMax, IDLE, []))
    ensures Parsed(c, frameMax, IDLE, [Octets([], true), Octets(y, false)]) == Running(IDLE, [Came(g)])
  {
    assert [Octets([], true), Octets(y, false)] == [Octets([], true)] + ([Octets(y, false)] + []);
    ParsedEmpty(c, frameMax, IDLE, true, [Octets(y, false)] + []);
    assert y + [] == y && [g] + [] == [g];
    ParsedFirst(c, frameMax, IDLE, y, false, []);
    assert Tag([g], false) == [Came(g)] && [Came(g)] + [] == [Came(g)];
  }

  // ----- waiting, as a function -----

  datatype Waited = Frame(frame: Frame) | SocketFailed(code: nat) | BadInput(status: Status)

  const CONNECTION_CLOSE: nat := 0x000A0032
  const CHANNEL_CLOSE: nat := 0x00140028

  /** A reply, or a close that concerns the caller. */
  predicate Acceptable(f: Frame, channel: nat, replies: seq<nat>) {
    f.Method? && ((f.channel == channel && (f.id in replies || f.id == CHANNEL_CLOSE))
                  || (f.channel == 0 && f.id == CONNECTION_CLOSE))
  }

  datatype Wanted = AnyFrame | FrameOn(channel: nat) | ReplyTo(channel: nat, replies: seq<nat>)

  predicate Wants(want: Wanted, f: Frame) {
    match want
    case AnyFrame => true
    case FrameOn(channel) => ChannelOf(f) == channel
    case ReplyTo(channel, replies) => Acceptable(f, channel, replies)
  }

  /** The queued frames and the news still to be heard. */
  datatype Line = Line(queue: seq<Frame>, news: Run<News>)

  datatype Awaited = Awaited(w: Waited, line: Line)

  function Tail<F>(r: Run<F>, k: nat): Run<F>
    requires k <= |r.frames|
  {
    r.(frames := r.frames[k..])
  }

  /** Waiting for a wanted frame: heartbeats are dropped, all other frames are queued, and so is, without
      a look at it, what was parsed aside. */
  function Await(l: Line, want: Wanted): (a: Awaited)
    ensures a.w.Frame? ==> |a.line.news.frames| < |l.news.frames| && Wants(want, a.w.frame)
    decreases |l.news.frames|
  {
    if l.news.frames == [] then
      Awaited(if l.news.Running? then SocketFailed(SCRIPT_OVER) else BadInput(l.news.status), l)
    else
      match l.news.frames[0]
      case Broke(code) => Awaited(SocketFailed(code), Line(l.queue, Tail(l.news, 1)))
      case Aside(f) => Await(Line(l.queue + [f], Tail(l.news, 1)), want)
      case Came(f) =>
        if f.Heartbeat? then Await(Line(l.queue, Tail(l.news, 1)), want)
        else if Wants(want, f) then Awaited(Frame(f), Line(l.queue, Tail(l.news, 1)))
        else Await(Line(l.queue + [f], Tail(l.news, 1)), want)
  }

  lemma TailPrefixed<F>(f: F, r: Run<F>)
    ensures Tail(Prefixed([f], r), 1) == r
  {
    assert ([f] + r.frames)[1..] == r.frames;
  }

  /** What the first piece of news does. */
  lemma {:induction false} AwaitFirst(queue: seq<Frame>, n: News, r: Run<News>, want: Wanted)
    ensures Await(Line(queue, Prefixed([n], r)), want)
         == if n.Broke? then Awaited(SocketFailed(n.code), Line(queue, r))
            else if n.Aside? then Await(Line(queue + [n.frame], r), want)
            else if n.frame.Heartbeat? then Await(Line(queue, r), want)
            else if Wants(want, n.frame) then Awaited(Frame(n.frame), Line(queue, r))
            else Await(Line(queue + [n.frame], r), want)
  {
    TailPrefixed(n, r);
  }

  /** Waiting for a wanted frame is waiting for any frame, and going on if it is not wanted. */
  lemma {:induction false} AwaitVia(l: Line, want: Wanted)
    ensures var a := Await(l, AnyFrame);
            Await(l, want)
            == if a.w.Frame? && !Wants(want, a.w.frame) then Await(Line(a.line.queue + [a.w.frame], a.line.news), want)
               else a
    decreases |l.news.frames|
  {
    if l.news.frames != [] {
      match l.news.frames[0]
      case Broke(_) =>
      case Aside(f) => AwaitVia(Line(l.queue + [f], Tail(l.news, 1)), want);
      case Came(f) => if f.Heartbeat? { AwaitVia(Line(l.queue, Tail(l.news, 1)), want); }
    }
  }

  /** Frames parsed aside are queued and nothing else happens. */
  lemma {:induction false} AwaitAsides(queue: seq<Frame>, fs: seq<Frame>, r: Run<News>, want: Wanted)
    ensures Await(Line(queue, Prefixed(Tag(fs, true), r)), want) == Await(Line(queue + fs, r), want)
    decreases |fs|
  {
    if fs == [] {
      PrefixedNothing(r);
      assert queue + fs == queue;
    } else {
      PrefixedJoin([Aside(fs[0])], Tag(fs[1..], true), r);
      AwaitFirst(queue, Aside(fs[0]), Prefixed(Tag(fs[1..], true), r), want);
      AwaitAsides(queue + [fs[0]], fs[1..], r, want);
      assert queue + [fs[0]] + fs[1..] == queue + fs;
    }
  }

  /** What one call of the parser does to the waiting. */
  lemma {:induction false} AwaitOutcome(queue: seq<Frame>, o: Outcome<Frame>, r: Run<News>)
    ensures Await(Line(queue, Before(TagOutcome(o, false), r)), AnyFrame)
         == if o.Failed? then Awaited(BadInput(o.status), Line(queue, Stopped(o.status, [])))
            else if o.Delivered? && !o.frame.Heartbeat? then Awaited(Frame(o.frame), Line(queue, r))
            else Await(Line(queue, r), AnyFrame)
  {
    if o.Delivered? {
      assert Before(TagOutcome(o, false), r) == Prefixed([Came(o.frame)], r);
      AwaitFirst(queue, Came(o.frame), r, AnyFrame);
    }
  }

  /** What queueing everything buffered does to the waiting. */
  lemma {:induction false} AwaitBuffered(c: Codec<Frame>, frameMax: nat, p: Parser, data: seq<byte>, pieces: seq<Piece>,
                                         queue: seq<Frame>)
    requires FrameParser.Valid(p, frameMax)
    ensures var r := Consume(c, frameMax, p, data);
            Await(Line(queue, Parsed(c, frameMax, p, [Octets(data, true)] + pieces)), AnyFrame)
            == if r.Stopped? then Awaited(BadInput(r.status), Line(queue + r.frames, Stopped(r.status, [])))
               else Await(Line(queue + r.frames, Parsed(c, frameMax, r.state, pieces)), AnyFrame)
  {
    ParsedFirst(c, frameMax, p, data, true, pieces);
    var r := Consume(c, frameMax, p, data);
    if r.Stopped? {
      var news := Tag(r.frames, true);
      assert Prefixed(news, Stopped(r.status, [])) == Stopped(r.status, news) by { assert news + [] == news; }
      AwaitAsides(queue, r.frames, Stopped(r.status, []), AnyFrame);
    } else {
      AwaitAsides(queue, r.frames, Parsed(c, frameMax, r.state, pieces), AnyFrame);
    }
  }

  // ----- what waiting keeps -----

  predicate Stops(n: News, want: Wanted) { n.Broke? || (n.Came? && !n.frame.Heartbeat? && Wants(want, n.frame)) }

  /** The first piece of news that ends the waiting. */
  function FirstStop(news: seq<News>, want: Wanted): (r: Option<nat>)
    ensures r.Some? ==> r.value < |news| && Stops(news[r.value], want)
    ensures forall i | 0 <= i < |news| && (r.Some? ==> i < r.value) :: !Stops(news[i], want)
  {
    if news == [] then None
    else if Stops(news[0], want) then Some(0)
    else
      match FirstStop(news[1..], want)
      case None => None
      case Some(k) => Some(k + 1)
  }

  /** The frames that waiting queues: all but the heartbeats that came to the loop. */
  function KeptOne(n: News): seq<Frame> {
    if n.Broke? || (n.Came? && n.frame.Heartbeat?) then [] else [n.frame]
  }

  function Kept(news: seq<News>): seq<Frame> {
    if news == [] then [] else KeptOne(news[0]) + Kept(news[1..])
  }

  function Result(n: News): Waited { if n.Broke? then SocketFailed(n.code) else Frame(n.frame) }

  /** The wanted frame that comes to the loop first, unless waiting breaks off before; the queue followed
      by everything heard until then, in order, heartbeats aside; and the rest still to come. */
  function Foreseen(l: Line, want: Wanted): Awaited {
    var news := l.news.frames;
    match FirstStop(news, want)
    case Some(k) => Awaited(Result(news[k]), Line(l.queue + Kept(news[..k]), Tail(l.news, k + 1)))
    case None => Awaited(if l.news.Running? then SocketFailed(SCRIPT_OVER) else BadInput(l.news.status),
                         Line(l.queue + Kept(news), Tail(l.news, |news|)))
  }

  /** For every queue and whatever is to come, waiting ends as foreseen. */
  lemma {:induction false} AwaitExact(l: Line, want: Wanted)
    ensures Await(l, want) == Foreseen(l, want)
    decreases |l.news.frames|
  {
    var news := l.news.frames;
    if news == [] || Stops(news[0], want) {
      assert l.queue + [] == l.queue && l.news == Tail(l.news, 0);
    } else {
      var n := news[0];
      var next := Line(l.queue + KeptOne(n), Tail(l.news, 1));
      assert l.queue + [] == l.queue;
      AwaitExact(next, want);
      ForeseenNext(l, want);
    }
  }

  lemma AwaitStops(l: Line, want: Wanted, k: nat)
    requires FirstStop(l.news.frames, want) == Some(k)
    ensures var news := l.news.frames;
            Await(l, want) == Awaited(Result(news[k]), Line(l.queue + Kept(news[..k]), Tail(l.news, k + 1)))
  {
    AwaitExact(l, want);
  }

  /** News that do not end the waiting. */
  lemma ForeseenNext(l: Line, want: Wanted)
    requires l.news.frames != [] && !Stops(l.news.frames[0], want)
    ensures Foreseen(l, want) == Foreseen(Line(l.queue + KeptOne(l.news.frames[0]), Tail(l.news, 1)), want)
  {
    match FirstStop(l.news.frames[1..], want)
    case Some(k) => ForeseenLater(l, want, k);
    case None => ForeseenNever(l, want);
  }

  lemma ForeseenLater(l: Line, want: Wanted, k: nat)
    requires l.news.frames != [] && !Stops(l.news.frames[0], want) && FirstStop(l.news.frames[1..], want) == Some(k)
    ensures Foreseen(l, want) == Foreseen(Line(l.queue + KeptOne(l.news.frames[0]), Tail(l.news, 1)), want)
  {
    KeptUpTo(l.queue, l.news.frames, k);
  }

  lemma ForeseenNever(l: Line, want: Wanted)
    requires l.news.frames != [] && !Stops(l.news.frames[0], want) && FirstStop(l.news.frames[1..], want).None?
    ensures Foreseen(l, want) == Foreseen(Line(l.queue + KeptOne(l.news.frames[0]), Tail(l.news, 1)), want)
  {
    KeptUpTo(l.queue, l.news.frames, |l.news.frames| - 1);
  }

  lemma KeptUpTo(queue: seq<Frame>, news: seq<News>, k: nat)
    requires k < |news|
    ensures queue + KeptOne(news[0]) + Kept(news[1..][..k]) == queue + Kept(news[..k + 1])
    ensures k == |news| - 1 ==> news[1..][..k] == news[1..] && news[..k + 1] == news && news[1..][k..] == news[k + 1..]
    ensures k + 1 < |news| ==> news[1..][k + 1..] == news[k + 2..]
  {
    KeptFirst(queue, news[0], news[1..][..k]);
    assert [news[0]] + news[1..][..k] == news[..k + 1];
  }

  lemma KeptFirst(queue: seq<Frame>, n: News, news: seq<News>)
    ensures queue + KeptOne(n) + Kept(news) == queue + Kept([n] + news)
  {
    assert ([n] + news)[1..] == news;
    assert queue + KeptOne(n) + Kept(news) == queue + (KeptOne(n) + Kept(news));
  }

  /** Of everything heard, by the loop or aside, let `k` be the first wanted frame: it is returned, with all
      earlier frames queued, exactly when it came to the loop and nothing broke off before it. */
  lemma FirstHeardReturned(l: Line, want: Wanted, k: nat)
    requires k < |l.news.frames| && IsWanted(l.news.frames[k], want)
    requires forall i | 0 <= i < k :: !IsWanted(l.news.frames[i], want)
    ensures var news := l.news.frames;
            Await(l, want) == Awaited(Frame(news[k].frame), Line(l.queue + Kept(news[..k]), Tail(l.news, k + 1)))
            <==> news[k].Came? && Unbroken(news[..k])
  {
    var stop := FirstStop(l.news.frames, want);
    AwaitExact(l, want);
    StopsFirst(l.news.frames, want, k);
    if stop.Some? && stop != Some(k) { TailsDiffer(l.news, stop.value + 1, k + 1); }
  }

  lemma StopsFirst(news: seq<News>, want: Wanted, k: nat)
    requires k < |news| && IsWanted(news[k], want) && forall i | 0 <= i < k :: !IsWanted(news[i], want)
    ensures FirstStop(news, want) == Some(k) <==> news[k].Came? && Unbroken(news[..k])
  {
    if news[k].Came? && Unbroken(news[..k]) {
      assert forall i | 0 <= i < k :: news[..k][i] == news[i];
      FirstStopIs(news, want, k);
    }
  }

  lemma TailsDiffer<F>(r: Run<F>, i: nat, j: nat)
    requires i <= |r.frames| && j <= |r.frames| && i != j
    ensures Tail(r, i) != Tail(r, j)
  {
    assert |Tail(r, i).frames| == |r.frames| - i && |Tail(r, j).frames| == |r.frames| - j;
  }

  predicate IsWanted(n: News, want: Wanted) { !n.Broke? && !n.frame.Heartbeat? && Wants(want, n.frame) }

  /** A frame that is parsed aside is queued but never noticed, whoever waits for it. */
  lemma AsideIsMissed(queue: seq<Frame>, f: Frame, p: Parser, want: Wanted)
    ensures Await(Line(queue, Running(p, [Aside(f)])), want)
         == Awaited(SocketFailed(SCRIPT_OVER), Line(queue + [f], Running(p, [])))
  {
    AwaitFirst(queue, Aside(f), Running(p, []), want);
    assert [Aside(f)] + [] == [Aside(f)];
  }

  // ----- scripts without surprises -----

  /** Nothing fails, and the socket takes every heartbeat at once. */
  predicate Calm(turns: seq<Turn>) {
    forall i | 0 <= i < |turns| :: turns[i].Arrived? || turns[i] == HeartbeatDue([])
  }

  /** Only octets, all of them parsed by the waiting loop. */
  ghost predicate Plain(pieces: seq<Piece>) {
    forall i | 0 <= i < |pieces| :: pieces[i].Octets? && !pieces[i].aside
  }

  lemma {:induction false} CalmPieces(turns: seq<Turn>)
    requires Calm(turns)
    ensures Plain(FromReceive([], turns)) && !Overwrites([], turns)
    decreases |turns|
  {
    if turns != [] {
      CalmPieces(turns[1..]);
      assert turns[0].Arrived? || turns[0] == HeartbeatDue([]);
    }
  }

  lemma {:induction false} AllCame(c: Codec<Frame>, frameMax: nat, p: Parser, pieces: seq<Piece>)
    requires FrameParser.Valid(p, frameMax) && Plain(pieces)
    ensures Parsed(c, frameMax, p, pieces) == TagRun(Consume(c, frameMax, p, DataOf(pieces)), false)
    decreases |pieces|
  {
    if pieces != [] {
      var data, rest := pieces[0].data, pieces[1..];
      ConsumeAppend(c, frameMax, p, data, DataOf(rest));
      var r := Consume(c, frameMax, p, data);
      if r.Running? {
        AllCame(c, frameMax, r.state, rest);
        TagJoin(r.frames, Consume(c, frameMax, r.state, DataOf(rest)).frames, false);
      }
    }
  }

  /** With a calm script, the news are the frames of all octets that arrive. */
  lemma {:induction false} CalmNews(c: Codec<Frame>, frameMax: nat, p: Parser, left: seq<byte>, turns: seq<Turn>)
    requires FrameParser.Valid(p, frameMax) && Calm(turns)
    ensures Parsed(c, frameMax, p, [Octets(left, false)] + FromReceive([], turns))
         == TagRun(Consume(c, frameMax, p, left + Coming(turns)), false)
  {
    var pieces := [Octets(left, false)] + FromReceive([], turns);
    CalmPieces(turns);
    ConservationExact([], turns);
    assert [] + Coming(turns) == Coming(turns);
    DataFirst(Octets(left, false), FromReceive([], turns));
    AllCame(c, frameMax, p, pieces);
  }

  ghost predicate AllOctets(pieces: seq<Piece>) { forall i | 0 <= i < |pieces| :: pieces[i].Octets? }

  /** A script with no failure, which does not stop right after a heartbeat, breaks off nowhere. */
  lemma {:induction false} NoBreaks(left: seq<byte>, turns: seq<Turn>)
    requires forall i | 0 <= i < |turns| :: !turns[i].Ends?
    requires if turns == [] then left == [] else turns[|turns| - 1].Arrived?
    ensures AllOctets(FromReceive(left, turns))
    decreases |turns|, 0
  {
    if turns != [] {
      if turns[0].Arrived? { NoBreaks([], turns[1..]); } else { NoBreaksDuring(left, turns[0].during, turns[1..]); }
    }
  }

  lemma {:induction false} NoBreaksDuring(left: seq<byte>, during: seq<seq<byte>>, turns: seq<Turn>)
    requires turns != [] && turns[|turns| - 1].Arrived? && forall i | 0 <= i < |turns| :: !turns[i].Ends?
    ensures AllOctets(DuringHeartbeat(left, during, turns))
    decreases |turns|, 1 + |during|
  {
    if during == [] { NoBreaks(left, turns); } else { NoBreaksDuring(during[0], during[1..], turns); }
  }

  ghost predicate Unbroken(news: seq<News>) { forall i | 0 <= i < |news| :: !news[i].Broke? }

  lemma UnbrokenTagged(fs: seq<Frame>, aside: bool, news: seq<News>)
    requires Unbroken(news)
    ensures Unbroken(Tag(fs, aside)) && Unbroken(Tag(fs, aside) + news)
  {
  }

  lemma {:induction false} OctetsNeverBreak(c: Codec<Frame>, frameMax: nat, p: Parser, pieces: seq<Piece>)
    requires FrameParser.Valid(p, frameMax) && AllOctets(pieces)
    ensures Unbroken(Parsed(c, frameMax, p, pieces).frames)
    decreases |pieces|
  {
    if pieces != [] {
      var r := Consume(c, frameMax, p, pieces[0].data);
      UnbrokenTagged(r.frames, pieces[0].aside, []);
      if r.Running? {
        OctetsNeverBreak(c, frameMax, r.state, pieces[1..]);
        UnbrokenTagged(r.frames, pieces[0].aside, Parsed(c, frameMax, r.state, pieces[1..]).frames);
      }
    }
  }

  // ----- the connection's receiving side -----

  class Receiver {
    const codec: Codec<Frame>
    const frameMax: nat
    var parser: Parser
    var inbound: seq<byte>
    var offset: nat
    var turns: seq<Turn>

    ghost predicate Ready()
      reads this
    {
      FrameParser.Valid(parser, frameMax) && offset <= |inbound|
    }

    /** What is buffered and not yet parsed. */
    ghost function Left(): seq<byte>
      requires offset <= |inbound|
      reads this
    {
      inbound[offset..]
    }

    /** The news for whoever starts waiting now. */
    ghost function Arrivals(): Run<News>
      requires Ready()
      reads this
    {
      Parsed(codec, frameMax, parser, [Octets(Left(), false)] + FromReceive([], turns))
    }

    constructor (codec: Codec<Frame>, frameMax: nat, turns: seq<Turn>)
      ensures Ready() && Arrivals() == Parsed(codec, frameMax, START, FromReceive([], turns))
      ensures this.codec == codec && this.frameMax == frameMax && this.turns == turns
    {
      this.codec, this.frameMax, this.turns := codec, frameMax, turns;
      parser, inbound, offset := START, [], 0;
      new;
      ParsedEmpty(codec, frameMax, START, false, FromReceive([], turns));
    }

    /** `consume_one_frame`: one call of the parser takes at most one frame off the front of everything
        still to come. */
    method ConsumeOne() returns (o: Outcome<Frame>)
      requires Ready() && offset < |inbound|
      modifies `parser, `offset
      ensures var r := Feed(codec, frameMax, old(parser), old(Left()));
              o == r.outcome && parser == r.state && offset <= |inbound| && Left() == old(Left())[r.consumed..]
      ensures Ready() && offset > old(offset) && old(Arrivals()) == Before(TagOutcome(o, false), Arrivals())
    {
      var r := Feed(codec, frameMax, parser, inbound[offset..]);
      FeedTold(codec, frameMax, parser, inbound[offset..], false, FromReceive([], turns));
      assert inbound[offset..][r.consumed..] == inbound[offset + r.consumed..];
      parser, offset, o := r.state, offset + r.consumed, r.outcome;
    }

    /** The frames that what is buffered amounts to. */
    ghost function Buffered(): Run<Frame>
      requires Ready()
      reads this
    {
      Consume(codec, frameMax, parser, Left())
    }

    /** The same call, seen against what is buffered; `taken` is what was taken of `goal` before. */
    method ConsumeBuffered(ghost goal: Run<Frame>, ghost taken: seq<Frame>) returns (o: Outcome<Frame>)
      requires Ready() && offset < |inbound| && goal == Prefixed(taken, Buffered())
      modifies `parser, `offset
      ensures Ready() && offset > old(offset)
      ensures if o.Failed? then goal == Stopped(o.status, taken)
              else goal == Prefixed(if o.Delivered? then taken + [o.frame] else taken, Buffered())
    {
      FeedPrefixed(codec, frameMax, parser, Left(), taken);
      o := ConsumeOne();
    }

    /** The socket is asked once, without waiting. */
    method Ask() returns (r: Option<Waited>)
      requires Ready() && Left() == []
      modifies `turns, `inbound, `offset
      ensures Ready() && parser == old(parser)
      ensures if old(turns) == [] || old(turns)[0].HeartbeatDue? then
                r == Some(SocketFailed(TIMED_OUT)) && turns == old(turns) && Left() == []
              else
                && turns == old(turns)[1..]
                && if old(turns)[0].Ends? then r == Some(SocketFailed(old(turns)[0].code)) && Left() == []
                   else r == None && Left() == old(turns)[0].data
    {
      if turns == [] || turns[0].HeartbeatDue? { return Some(SocketFailed(TIMED_OUT)); }
      var t := turns[0];
      turns := turns[1..];
      if t.Ends? { return Some(SocketFailed(t.code)); }
      inbound, offset := t.data, 0;
      assert Left() == t.data;
      r := None;
    }

    /** Something was received or parsed since then. */
    ghost predicate Progress(turns: nat, left: int)
      reads this
    {
      |this.turns| < turns || (|this.turns| == turns && |inbound| - offset < left)
    }
  }

  datatype Reply = Normal(reply: Frame) | ServerException(reply: Frame) | LibraryException(why: Waited)

  /** A frame that ends the wait for a reply: on the channel, an expected method or channel.close; on
      channel zero, connection.close. */
  predicate Answers(f: Frame, channel: nat, replies: seq<nat>) {
    && f.Method?
    && (|| (f.channel == channel && f.id in replies)
        || (f.channel == channel && f.id == 0x00140028)
        || (f.channel == 0 && f.id == 0x000A0032))
  }

  /** The kind of the reply, by how the wait ended. */
  predicate Classified(w: Waited, channel: nat, replies: seq<nat>, r: Reply) {
    if w.Frame? then
      && Answers(w.frame, channel, replies)
      && (r == Normal(w.frame) <==> w.frame.id in replies)
      && (r == ServerException(w.frame) <==> w.frame.id !in replies)
    else r == LibraryException(w)
  }

  function ReplyFor(w: Waited, replies: seq<nat>): Reply {
    if w.Frame? && w.frame.Method? then
      if w.frame.id in replies then Normal(w.frame) else ServerException(w.frame)
    else LibraryException(w)
  }

  lemma Appended(a: seq<Frame>, b: seq<Frame>, c: seq<Frame>)
    ensures a + b + c == a + (b + c) && a + [] == a && b + [] == b
  {
  }

  /** One call of the parser takes at most one frame off what the buffer holds. */
  lemma FeedPrefixed(c: Codec<Frame>, frameMax: nat, p: Parser, data: seq<byte>, taken: seq<Frame>)
    requires FrameParser.Valid(p, frameMax) && data != []
    ensures var r := Feed(c, frameMax, p, data);
            var after := Consume(c, frameMax, r.state, data[r.consumed..]);
            Prefixed(taken, Consume(c, frameMax, p, data))
            == if r.outcome.Failed? then Stopped(r.outcome.status, taken)
               else Prefixed(if r.outcome.Delivered? then taken + [r.outcome.frame] else taken, after)
  {
    var r := Feed(c, frameMax, p, data);
    FeedIsConsume(c, frameMax, p, data);
    if r.outcome.Failed? {
      assert taken + [] == taken;
    } else {
      PrefixedMore(taken, r.outcome, Consume(c, frameMax, r.state, data[r.consumed..]));
    }
  }

  class Client {
    const receiver: Receiver
    const queue: Queue

    ghost predicate Valid()
      reads this, receiver, queue, queue.Repr
    {
      receiver.Ready() && queue.Valid() && receiver !in queue.Repr
    }

    ghost function Here(): Line
      requires receiver.Ready()
      reads this, receiver, queue
    {
      Line(queue.Contents(), receiver.Arrivals())
    }

    constructor (codec: Codec<Frame>, frameMax: nat, turns: seq<Turn>)
      ensures Valid() && fresh(receiver) && fresh(queue.Repr)
      ensures Here() == Line([], Parsed(codec, frameMax, START, FromReceive([], turns)))
    {
      receiver := new Receiver(codec, frameMax, turns);
      queue := new Queue();
    }

    /** Waiting has ended as foreseen.  After bad input the connection cannot be used any more. */
    ghost predicate Ended(goal: Awaited, w: Waited)
      reads this, receiver, queue, queue.Repr
    {
      match w
      case BadInput(_) =>
        queue.Valid() && receiver !in queue.Repr && goal.w == w && goal.line.queue == queue.Contents()
      case _ => Valid() && goal == Awaited(w, Here())
    }

    /** Of the frames `goal`, those of `taken` have been queued behind `fs`. */
    ghost predicate Draining(goal: Run<Frame>, fs: seq<Frame>, taken: seq<Frame>)
      reads this, receiver, queue, queue.Repr
    {
      Valid() && queue.Contents() == fs + taken && goal == Prefixed(taken, receiver.Buffered())
    }

    /** One call of the parser, its frame queued. */
    method QueueOne(ghost goal: Run<Frame>, ghost fs: seq<Frame>, ghost taken: seq<Frame>)
      returns (error: Option<Status>, ghost taken': seq<Frame>)
      requires Draining(goal, fs, taken) && receiver.offset < |receiver.inbound|
      modifies receiver`parser, receiver`offset, queue.Repr
      ensures queue.Valid() && fresh(queue.Repr - old(queue.Repr)) && receiver !in queue.Repr
      ensures error.None? ==> Draining(goal, fs, taken') && receiver.offset > old(receiver.offset)
      ensures error.Some? ==> goal == Stopped(error.value, taken) && queue.Contents() == fs + taken
    {
      taken' := taken;
      var o := receiver.ConsumeBuffered(goal, taken);
      if o.Failed? { return Some(o.status), taken; }
      if o.Delivered? {
        queue.Enqueue(o.frame);
        Appended(fs, taken, [o.frame]);
        taken' := taken + [o.frame];
      }
      error := None;
    }

    /** Parse and queue everything that is buffered, heartbeats included. */
    method QueueBuffered() returns (error: Option<Status>)
      requires Valid()
      modifies receiver`parser, receiver`offset, queue.Repr
      ensures queue.Valid() && fresh(queue.Repr - old(queue.Repr)) && receiver !in queue.Repr
      ensures queue.Contents() == old(queue.Contents() + receiver.Buffered().frames)
      ensures error == old(if receiver.Buffered().Stopped? then Some(receiver.Buffered().status) else None)
      ensures error.None? ==>
                Valid() && receiver.parser == old(receiver.Buffered()).state && receiver.offset == |receiver.inbound|
    {
      ghost var goal, fs := receiver.Buffered(), queue.Contents();
      ghost var taken: seq<Frame> := [];
      PrefixedNothing(goal);
      Appended(fs, [], []);
      while receiver.offset < |receiver.inbound|
        invariant Draining(goal, fs, taken) && fresh(queue.Repr - old(queue.Repr))
        decreases |receiver.inbound| - receiver.offset
      {
        error, taken := QueueOne(goal, fs, taken);
        if error.Some? { return; }
      }
      assert taken + [] == taken;
      error := None;
    }

    /** `amqp_try_recv`: everything buffered is queued, then the socket is asked once.  If all goes well,
        what is still to come is what was, but for the frames that are queued now. */
    method TryRecv() returns (r: Option<Waited>)
      requires Valid()
      modifies receiver, queue.Repr
      ensures queue.Valid() && fresh(queue.Repr - old(queue.Repr))
      ensures queue.Contents() == old(queue.Contents() + receiver.Buffered().frames)
      ensures match old(receiver.Buffered())
              case Stopped(s, _) => r == Some(BadInput(s))
              case Running(p, fs) =>
                && Valid() && receiver.parser == p
                && (var turns := old(receiver.turns);
                    if turns == [] || turns[0].HeartbeatDue? then
                      r == Some(SocketFailed(TIMED_OUT)) && receiver.turns == turns && receiver.Left() == []
                    else
                      && receiver.turns == turns[1..]
                      && if turns[0].Ends? then r == Some(SocketFailed(turns[0].code)) && receiver.Left() == []
                         else r == None && receiver.Left() == turns[0].data)
                && (r.None? ==> old(receiver.Arrivals()) == Prefixed(Tag(fs, false), receiver.Arrivals()))
    {
      ParsedFirst(receiver.codec, receiver.frameMax, receiver.parser, receiver.Left(), false, FromReceive([], receiver.turns));
      var error := QueueBuffered();
      if error.Some? { return Some(BadInput(error.value)); }
      r := receiver.Ask();
    }

    // ----- the waiting loop -----

    /** How waiting for any frame would end, with these pieces still to come. */
    ghost function With(pieces: seq<Piece>): Awaited
      requires receiver.Ready()
      reads this, receiver, queue
    {
      Await(Line(queue.Contents(), Parsed(receiver.codec, receiver.frameMax, receiver.parser, pieces)), AnyFrame)
    }

    /** `amqp_try_recv` while a heartbeat is being sent: what was buffered is queued, `data` is received. */
    method ReceiveAside(data: seq<byte>, ghost rest: seq<Piece>, ghost goal: Awaited) returns (error: Option<Status>)
      requires Valid() && goal == With([Octets(receiver.Left(), true)] + rest)
      modifies receiver`parser, receiver`inbound, receiver`offset, queue.Repr
      ensures queue.Valid() && fresh(queue.Repr - old(queue.Repr)) && receiver !in queue.Repr
      ensures error.None? ==> Valid() && receiver.Left() == data && goal == With(rest)
      ensures error.Some? ==> goal.w == BadInput(error.value) && goal.line.queue == queue.Contents()
    {
      AwaitBuffered(receiver.codec, receiver.frameMax, receiver.parser, receiver.Left(), rest, queue.Contents());
      error := QueueBuffered();
      if error.Some? { return; }
      receiver.inbound, receiver.offset := data, 0;
      assert receiver.Left() == data;
    }

    /** A heartbeat is sent: each time the socket takes only a part of it, everything buffered is queued
        and the socket is asked for more. */
    method SendHeartbeat(during: seq<seq<byte>>, ghost goal: Awaited) returns (error: Option<Status>)
      requires Valid() && goal == With(DuringHeartbeat(receiver.Left(), during, receiver.turns))
      modifies receiver`parser, receiver`inbound, receiver`offset, queue.Repr
      ensures queue.Valid() && fresh(queue.Repr - old(queue.Repr)) && receiver !in queue.Repr
      ensures error.None? ==> Valid() && goal == With(FromReceive(receiver.Left(), receiver.turns))
      ensures error.Some? ==> goal.w == BadInput(error.value) && goal.line.queue == queue.Contents()
    {
      var i := 0;
      assert during[0..] == during;
      while i < |during|
        invariant i <= |during| && Valid() && fresh(queue.Repr - old(queue.Repr))
        invariant goal == With(DuringHeartbeat(receiver.Left(), during[i..], receiver.turns))
      {
        assert during[i..][0] == during[i] && during[i..][1..] == during[i + 1..];
        ghost var rest := DuringHeartbeat(during[i], during[i + 1..], receiver.turns);
        error := ReceiveAside(during[i], rest, goal);
        if error.Some? { return; }
        i := i + 1;
      }
      assert during[i..] == [];
      error := None;
    }

    /** From the check of the heartbeat on: heartbeats that are due are sent, until octets arrive or waiting
        breaks off. */
    method ReceiveMore(ghost goal: Awaited) returns (w: Option<Waited>)
      requires Valid() && goal == With(FromReceive(receiver.Left(), receiver.turns))
      modifies receiver, queue.Repr
      ensures queue.Valid() && fresh(queue.Repr - old(queue.Repr)) && receiver !in queue.Repr
      ensures w.None? ==> Valid() && goal == Await(Here(), AnyFrame) && |receiver.turns| < |old(receiver.turns)|
      ensures w.Some? ==> !w.value.Frame? && Ended(goal, w.value)
    {
      while receiver.turns != []
        invariant Valid() && fresh(queue.Repr - old(queue.Repr)) && |receiver.turns| <= |old(receiver.turns)|
        invariant goal == With(FromReceive(receiver.Left(), receiver.turns))
        decreases |receiver.turns|
      {
        var over: bool;
        over, w := ReceiveTurn(goal);
        if over { return; }
      }
      w := Some(SocketFailed(SCRIPT_OVER));
      ScriptOver();
    }

    /** One turn of that. */
    method ReceiveTurn(ghost goal: Awaited) returns (over: bool, w: Option<Waited>)
      requires Valid() && receiver.turns != [] && goal == With(FromReceive(receiver.Left(), receiver.turns))
      modifies receiver, queue.Repr
      ensures queue.Valid() && fresh(queue.Repr - old(queue.Repr)) && receiver !in queue.Repr
      ensures |receiver.turns| < |old(receiver.turns)|
      ensures !over ==> Valid() && goal == With(FromReceive(receiver.Left(), receiver.turns))
      ensures over && w.None? ==> Valid() && goal == Await(Here(), AnyFrame)
      ensures over && w.Some? ==> !w.value.Frame? && Ended(goal, w.value)
    {
      var t := receiver.turns[0];
      receiver.turns := receiver.turns[1..];
      if t.Arrived? {
        receiver.inbound, receiver.offset := t.data, 0;
        assert receiver.Left() == t.data;
        return true, None;
      }
      if t.Ends? {
        BrokenOff(t.code);
        return true, Some(SocketFailed(t.code));
      }
      var error := SendHeartbeat(t.during, goal);
      return error.Some?, if error.Some? then Some(BadInput(error.value)) else None;
    }

    lemma BrokenOff(code: nat)
      requires Valid()
      ensures With([Break(code), Octets(receiver.Left(), false)] + FromReceive([], receiver.turns))
           == Awaited(SocketFailed(code), Here())
    {
      var pieces := [Octets(receiver.Left(), false)] + FromReceive([], receiver.turns);
      assert [Break(code), Octets(receiver.Left(), false)] + FromReceive([], receiver.turns) == [Break(code)] + pieces;
      ParsedBreak(receiver.codec, receiver.frameMax, receiver.parser, code, pieces);
      AwaitFirst(queue.Contents(), Broke(code), receiver.Arrivals(), AnyFrame);
    }

    lemma ScriptOver()
      requires Valid() && receiver.turns == []
      ensures With(FromReceive(receiver.Left(), [])) == Awaited(SocketFailed(SCRIPT_OVER), Here())
    {
      if receiver.Left() == [] {
        ParsedEmpty(receiver.codec, receiver.frameMax, receiver.parser, false, []);
        assert [Octets(receiver.Left(), false)] + FromReceive([], []) == [Octets([], false)] + [];
      } else {
        BrokenOff(SCRIPT_OVER);
        assert [Break(SCRIPT_OVER), Octets(receiver.Left(), false)] + FromReceive([], []) == FromReceive(receiver.Left(), []);
      }
    }

    /** `wait_frame_inner`. */
    method WaitFrame() returns (r: Waited)
      requires Valid()
      modifies receiver, queue.Repr
      ensures fresh(queue.Repr - old(queue.Repr)) && Ended(old(Await(Here(), AnyFrame)), r)
      ensures r.Frame? ==> receiver.Progress(old(|receiver.turns|), old(|receiver.inbound| - receiver.offset))
    {
      ghost var goal := Await(Here(), AnyFrame);
      ghost var turns, left := |receiver.turns|, |receiver.inbound| - receiver.offset;
      while true
        invariant Valid() && fresh(queue.Repr - old(queue.Repr)) && goal == Await(Here(), AnyFrame)
        invariant receiver.Progress(turns, left) || receiver.Progress(turns, left + 1)
        decreases |receiver.turns|, |receiver.inbound| - receiver.offset
      {
        var w: Option<Waited>;
        if receiver.offset < |receiver.inbound| {
          w := ParseMore(goal);
        } else {
          ParsedEmpty(receiver.codec, receiver.frameMax, receiver.parser, false, FromReceive([], receiver.turns));
          w := ReceiveMore(goal);
        }
        if w.Some? { return w.value; }
      }
    }

    /** One call of the parser: a frame ends the waiting, a heartbeat does not. */
    method ParseMore(ghost goal: Awaited) returns (w: Option<Waited>)
      requires Valid() && receiver.offset < |receiver.inbound| && goal == Await(Here(), AnyFrame)
      modifies receiver`parser, receiver`offset
      ensures w.None? ==> Valid() && goal == Await(Here(), AnyFrame)
      ensures w.Some? ==> Ended(goal, w.value)
      ensures receiver.offset > old(receiver.offset)
    {
      var o := receiver.ConsumeOne();
      AwaitOutcome(queue.Contents(), o, receiver.Arrivals());
      if o.Failed? { return Some(BadInput(o.status)); }
      w := if o.Delivered? && !o.frame.Heartbeat? then Some(Frame(o.frame)) else None;
    }

    /** `amqp_simple_wait_frame_noblock`. */
    method WaitAny() returns (r: Waited)
      requires Valid()
      modifies receiver, queue.Repr
      ensures fresh(queue.Repr - old(queue.Repr))
      ensures if old(queue.Contents()) != [] then
                && Valid() && r == Frame(old(queue.Contents())[0])
                && Here() == old(Line(queue.Contents()[1..], receiver.Arrivals()))
              else Ended(old(Await(Here(), AnyFrame)), r)
    {
      if queue.first != null {
        var f := queue.TakeFirst();
        assert ([f] + queue.Contents())[1..] == queue.Contents();
        return Frame(f);
      }
      r := WaitFrame();
    }

    /** The waiting loops of `simple_rpc_inner` and `amqp_simple_wait_frame_on_channel`: frames that are not
        wanted are queued. */
    method AwaitFrame(want: Wanted) returns (r: Waited)
      requires Valid()
      modifies receiver, queue.Repr
      ensures fresh(queue.Repr - old(queue.Repr)) && Ended(old(Await(Here(), want)), r)
      ensures r.Frame? ==> receiver.Progress(old(|receiver.turns|), old(|receiver.inbound| - receiver.offset))
    {
      ghost var goal := Await(Here(), want);
      ghost var turns, left := |receiver.turns|, |receiver.inbound| - receiver.offset;
      while true
        invariant Valid() && fresh(queue.Repr - old(queue.Repr)) && goal == Await(Here(), want)
        invariant receiver.Progress(turns, left) || receiver.Progress(turns, left + 1)
        decreases |receiver.turns|, |receiver.inbound| - receiver.offset
      {
        var w := AwaitTurn(want, goal);
        if w.Some? { return w.value; }
      }
    }

    /** One turn of them. */
    method AwaitTurn(want: Wanted, ghost goal: Awaited) returns (w: Option<Waited>)
      requires Valid() && goal == Await(Here(), want)
      modifies receiver, queue.Repr
      ensures fresh(queue.Repr - old(queue.Repr))
      ensures w.Some? ==> Ended(goal, w.value)
      ensures w.None? ==> Valid() && goal == Await(Here(), want)
      ensures w.None? || w.value.Frame? ==>
                receiver.Progress(old(|receiver.turns|), old(|receiver.inbound| - receiver.offset))
    {
      AwaitVia(Here(), want);
      var r := WaitFrame();
      if !r.Frame? || Wants(want, r.frame) { return Some(r); }
      queue.Enqueue(r.frame);
      w := None;
    }

    /** The second half of `simple_rpc_inner`: a frame that answers is a normal reply if its method is
        expected and an exception of the server if it is a close that is not; a failed wait is an
        exception of the library. */
    method AwaitReply(channel: nat, replies: seq<nat>) returns (r: Reply)
      requires Valid()
      modifies receiver, queue.Repr
      ensures fresh(queue.Repr - old(queue.Repr))
      ensures var goal := old(Await(Here(), ReplyTo(channel, replies)));
              Ended(goal, goal.w) && Classified(goal.w, channel, replies, r)
      ensures r.Normal? ==> r.reply.Method? && r.reply.id in replies && r.reply.channel in {channel, 0}
      ensures r.ServerException? ==>
                && r.reply.Method? && r.reply.id !in replies
                && (|| (r.reply.channel == channel && r.reply.id == 0x00140028)
                    || (r.reply.channel == 0 && r.reply.id == 0x000A0032))
    {
      var w := AwaitFrame(ReplyTo(channel, replies));
      r := ReplyFor(w, replies);
    }
  }

  // ----- the RPC, for a network that behaves -----

  function NonHeartbeats(fs: seq<Frame>): seq<Frame> {
    if fs == [] then [] else (if fs[0].Heartbeat? then [] else [fs[0]]) + NonHeartbeats(fs[1..])
  }

  lemma {:induction false} KeptOfFrames(fs: seq<Frame>)
    ensures Kept(Tag(fs, false)) == NonHeartbeats(fs)
  {
    if fs != [] { KeptOfFrames(fs[1..]); }
  }

  /** With a calm script: the first frame that answers, among all frames of the octets that arrive, is
      returned, as a normal reply exactly when it is expected and else as the server's exception; the
      queue is the old one followed by all frames before it, in order, heartbeats aside; and the frames
      behind it are still to come. */
  lemma FirstReplyReturned(conn: Client, channel: nat, replies: seq<nat>, fs: seq<Frame>, k: nat)
    requires conn.Valid() && Calm(conn.receiver.turns)
    requires var r := conn.receiver;
             fs == Consume(r.codec, r.frameMax, r.parser, r.Left() + Coming(r.turns)).frames
    requires k < |fs| && Answers(fs[k], channel, replies)
    requires forall i | 0 <= i < k :: !Answers(fs[i], channel, replies)
    ensures var a := Await(conn.Here(), ReplyTo(channel, replies));
            && a.w == Frame(fs[k])
            && (ReplyFor(a.w, replies) == Normal(fs[k]) <==> fs[k].id in replies)
            && (ReplyFor(a.w, replies) == ServerException(fs[k]) <==> fs[k].id !in replies)
            && a.line.queue == conn.queue.Contents() + NonHeartbeats(fs[..k])
            && a.line.news.frames == Tag(fs[k + 1..], false)
  {
    var r := conn.receiver;
    CalmNews(r.codec, r.frameMax, r.parser, r.Left(), r.turns);
    FirstOfFrames(conn.Here(), fs, ReplyTo(channel, replies), k);
  }

  lemma FirstOfFrames(l: Line, fs: seq<Frame>, want: Wanted, k: nat)
    requires l.news.frames == Tag(fs, false) && k < |fs| && Wants(want, fs[k]) && !fs[k].Heartbeat?
    requires forall i | 0 <= i < k :: !Wants(want, fs[i])
    ensures Await(l, want) == Awaited(Frame(fs[k]), Line(l.queue + NonHeartbeats(fs[..k]), Tail(l.news, k + 1)))
    ensures Tail(l.news, k + 1).frames == Tag(fs[k + 1..], false)
  {
    FirstOfTagged(fs, want, k);
    AwaitStops(l, want, k);
    AroundFrame(fs, k);
  }

  lemma FirstOfTagged(fs: seq<Frame>, want: Wanted, k: nat)
    requires k < |fs| && Wants(want, fs[k]) && !fs[k].Heartbeat? && forall i | 0 <= i < k :: !Wants(want, fs[i])
    ensures FirstStop(Tag(fs, false), want) == Some(k)
  {
    FirstStopIs(Tag(fs, false), want, k);
  }

  lemma AroundFrame(fs: seq<Frame>, k: nat)
    requires k < |fs|
    ensures Kept(Tag(fs, false)[..k]) == NonHeartbeats(fs[..k]) && Tag(fs, false)[k + 1..] == Tag(fs[k + 1..], false)
  {
    KeptOfFrames(fs[..k]);
    TagTake(fs, k);
    TagDrop(fs, k + 1);
  }

  lemma FirstStopIs(news: seq<News>, want: Wanted, k: nat)
    requires k < |news| && Stops(news[k], want) && forall i | 0 <= i < k :: !Stops(news[i], want)
    ensures FirstStop(news, want) == Some(k)
  {
  }

  lemma {:induction false} TagTake(fs: seq<Frame>, k: nat)
    requires k <= |fs|
    ensures Tag(fs, false)[..k] == Tag(fs[..k], false)
  {
    TagJoin(fs[..k], fs[k..], false);
    assert fs[..k] + fs[k..] == fs;
  }

  lemma {:induction false} TagDrop(fs: seq<Frame>, k: nat)
    requires k <= |fs|
    ensures Tag(fs, false)[k..] == Tag(fs[k..], false)
  {
    TagJoin(fs[..k], fs[k..], false);
    assert fs[..k] + fs[k..] == fs;
  }

  /** If no turn of the script fails and it does not stop right after a heartbeat, then the first wanted
      frame that comes to the loop is returned. */
  lemma WantedReturned(conn: Client, want: Wanted, k: nat)
    requires conn.Valid() && conn.receiver.turns != [] && conn.receiver.turns[|conn.receiver.turns| - 1].Arrived?
    requires forall i | 0 <= i < |conn.receiver.turns| :: !conn.receiver.turns[i].Ends?
    requires var news := conn.Here().news.frames;
             && k < |news| && news[k].Came? && Stops(news[k], want)
             && forall i | 0 <= i < k :: !news[i].Came? || !Stops(news[i], want)
    ensures var l := conn.Here();
            Await(l, want) == Awaited(Frame(l.news.frames[k].frame),
                                      Line(l.queue + Kept(l.news.frames[..k]), Tail(l.news, k + 1)))
  {
    var r := conn.receiver;
    var pieces := [Octets(r.Left(), false)] + FromReceive([], r.turns);
    NoBreaks([], r.turns);
    OctetsNeverBreak(r.codec, r.frameMax, r.parser, pieces);
    var news := conn.Here().news.frames;
    assert Unbroken(news);
    FirstStopIs(news, want, k);
    AwaitStops(conn.Here(), want, k);
  }

  /** If nothing is overwritten, then the frames that are heard, by the waiting loop or aside, are those of
      everything that is buffered and that arrives, in order. */
  lemma AllIsHeard(r: Receiver)
    requires r.Ready() && !Overwrites([], r.turns)
    ensures Untagged(r.Arrivals()) == Consume(r.codec, r.frameMax, r.parser, r.Left() + Coming(r.turns))
  {
    ConservationExact([], r.turns);
    assert [] + Coming(r.turns) == Coming(r.turns);
    DataFirst(Octets(r.Left(), false), FromReceive([], r.turns));
    NewsOfOctets(r.codec, r.frameMax, r.parser, [Octets(r.Left(), false)] + FromReceive([], r.turns));
  }
}
