/** Reading a message: waiting for the frames of one channel while the others are queued, and
    putting header and body fragments together again. */
module Messages {
  import opened Wire
  import opened FrameParser
  import opened Frames
  import opened FrameQueue
  import opened Session
  import Merge
  import Sending

  // ----- waiting for a frame of one channel -----

  /** The first queued frame of the channel, losing what was queued before it; or else the next one that
      arrives. */
  function WaitOn(l: Line, channel: nat): (a: Awaited)
    ensures a.w.Frame? ==>
              || |a.line.news.frames| < |l.news.frames|
              || (a.line.news == l.news && |a.line.queue| < |l.queue|)
  {
    match FirstOn(l.queue, channel, 0)
    case Some(k) => Awaited(Session.Frame(l.queue[k]), Line(l.queue[k + 1..], l.news))
    case None => Await(l, FrameOn(channel))
  }

  /** Something was received or parsed since then, or else a frame was taken from the queue. */
  ghost predicate Advanced(conn: Client, turns: nat, left: int, queued: nat)
    reads conn, conn.receiver, conn.queue
  {
    || conn.receiver.Progress(turns, left)
    || (conn.receiver.Progress(turns, left + 1) && |conn.queue.links| < queued)
  }

  /** `amqp_simple_wait_frame_on_channel`. */
  method WaitOnChannel(conn: Client, channel: nat) returns (r: Waited)
    requires conn.Valid()
    modifies conn.receiver, conn.queue.Repr
    ensures fresh(conn.queue.Repr - old(conn.queue.Repr)) && conn.Ended(old(WaitOn(conn.Here(), channel)), r)
    ensures r.Frame? ==> Advanced(conn, old(|conn.receiver.turns|), old(|conn.receiver.inbound| - conn.receiver.offset),
                                  old(|conn.queue.links|))
  {
    var f := conn.queue.TakeOnChannel(channel);
    if f.Some? { return Session.Frame(f.value); }
    r := conn.AwaitFrame(FrameOn(channel));
  }

  // ----- putting a message together -----

  datatype Result =
    | Message(header: Frame, body: seq<byte>)
    | Closed(frame: Frame)
    | Unexpected(frame: Frame)        // no header: the frame is put back
    | BadProperties
    | BadData
    | Interrupted(why: Waited)

  /** How far a message has come along. */
  datatype Assembly = Waiting | Filling(header: Frame, got: seq<byte>) | Done(result: Result)

  predicate IsClose(f: Frame) { f.Method? && (f.id == CHANNEL_CLOSE || f.id == CONNECTION_CLOSE) }

  /** The tables among the properties can be cloned. */
  predicate PropertiesClone(f: Frame)
    requires f.Header?
  {
    forall i | i in f.props.fields && f.props.fields[i].Tab? :: Merge.TableCloneable(f.props.fields[i].t)
  }

  /** One more frame of the channel. */
  function Assemble(a: Assembly, f: Frame): (r: Assembly)
    ensures r.Done? && !a.Done? ==> !r.result.Interrupted? && (r.result.Unexpected? ==> a.Waiting?)
  {
    match a
    case Waiting =>
      if f.Header? then
        if !PropertiesClone(f) then Done(BadProperties)
        else if f.bodySize == 0 then Done(Message(f, []))
        else Filling(f, [])
      else if IsClose(f) then Done(Closed(f))
      else Done(Unexpected(f))
    case Filling(h, got) =>
      if f.Body? then
        if !h.Header? || |got| + |f.fragment| > h.bodySize then Done(BadData)
        else if |got| + |f.fragment| == h.bodySize then Done(Message(h, got + f.fragment))
        else Filling(h, got + f.fragment)
      else if IsClose(f) then Done(Closed(f))
      else Done(BadData)
    case Done(_) => a
  }

  datatype ReadOut = ReadOut(result: Result, line: Line)

  /** Frame after frame of the channel, until the message is over. */
  function Read(l: Line, channel: nat, a: Assembly): ReadOut
    requires !a.Done?
    decreases |l.news.frames|, |l.queue|
  {
    var w := WaitOn(l, channel);
    if !w.w.Frame? then ReadOut(Interrupted(w.w), w.line)
    else
      var next := Assemble(a, w.w.frame);
      if !next.Done? then Read(w.line, channel, next)
      else ReadOut(next.result, if next.result.Unexpected? then Line([w.w.frame] + w.line.queue, w.line.news) else w.line)
  }

  // ----- reading a message -----

  /** Reading has ended as foreseen.  After bad input the connection cannot be used any more. */
  ghost predicate HasRead(conn: Client, goal: ReadOut, r: Result)
    reads conn, conn.receiver, conn.queue, conn.queue.Repr
  {
    match r
    case Interrupted(BadInput(_)) =>
      goal.result == r && conn.queue.Valid() && goal.line.queue == conn.queue.Contents()
    case _ => conn.Valid() && goal == ReadOut(r, conn.Here())
  }

  /** One turn of the body loop: a fragment is copied behind the others, or the message is over. */
  method TakeFragment(body: array<byte>, read: nat, f: Frame, header: Frame) returns (r: Option<Result>, next: nat)
    requires header.Header? && body.Length == header.bodySize && read < body.Length
    modifies body
    ensures match Assemble(Filling(header, old(body[..read])), f)
            case Done(result) => r == Some(result)
            case Filling(h, got) => r == None && h == header && next < body.Length && got == body[..next]
            case Waiting => false
  {
    next := read;
    if !f.Body? { return Some(if IsClose(f) then Closed(f) else BadData), next; }
    if read + |f.fragment| > body.Length { return Some(BadData), next; }
    CopyFragment(body, read, f.fragment);
    next := read + |f.fragment|;
    if next < body.Length { return None, next; }
    assert body[..] == body[..next];
    r := Some(Message(header, body[..]));
  }

  method CopyFragment(body: array<byte>, read: nat, fragment: seq<byte>)
    requires read + |fragment| <= body.Length
    modifies body
    ensures body[..read + |fragment|] == old(body[..read]) + fragment
  {
    Store(body, read, fragment);
  }

  /** Wait for a frame of the channel and take it. */
  method ReadTurn(conn: Client, channel: nat, body: array<byte>, read: nat, header: Frame, ghost goal: ReadOut)
    returns (r: Option<Result>, next: nat)
    requires conn.Valid() && body !in conn.queue.Repr
    requires header.Header? && body.Length == header.bodySize && read < body.Length
    requires goal == Read(conn.Here(), channel, Filling(header, body[..read]))
    modifies conn.receiver, conn.queue.Repr, body
    ensures fresh(conn.queue.Repr - old(conn.queue.Repr)) && body !in conn.queue.Repr
    ensures r.Some? ==> HasRead(conn, goal, r.value)
    ensures r.None? ==> conn.Valid() && next < body.Length && goal == Read(conn.Here(), channel, Filling(header, body[..next]))
    ensures r.None? ==> Advanced(conn, old(|conn.receiver.turns|), old(|conn.receiver.inbound| - conn.receiver.offset),
                                 old(|conn.queue.links|))
  {
    ghost var got := body[..read];
    var w := WaitOnChannel(conn, channel);
    if !w.Frame? { return Some(Interrupted(w)), read; }
    assert body[..read] == got;
    r, next := TakeFragment(body, read, w.frame, header);
  }

  /** The body loop of `amqp_read_message`: fragments are taken until the announced size is reached. */
  method ReadBody(conn: Client, channel: nat, header: Frame, ghost goal: ReadOut) returns (r: Result)
    requires conn.Valid() && header.Header? && header.bodySize > 0
    requires goal == Read(conn.Here(), channel, Filling(header, []))
    modifies conn.receiver, conn.queue.Repr
    ensures fresh(conn.queue.Repr - old(conn.queue.Repr)) && HasRead(conn, goal, r)
  {
    var body := new byte[header.bodySize](_ => 0);
    var read: nat := 0;
    assert body[..0] == [];
    while true
      invariant conn.Valid() && fresh(conn.queue.Repr - old(conn.queue.Repr)) && body !in conn.queue.Repr
      invariant read < body.Length && goal == Read(conn.Here(), channel, Filling(header, body[..read]))
      decreases |conn.receiver.turns|, |conn.receiver.inbound| - conn.receiver.offset, |conn.queue.links|
    {
      var over: Option<Result>;
      over, read := ReadTurn(conn, channel, body, read, header, goal);
      if over.Some? { return over.value; }
    }
  }

  /** `amqp_read_message`. */
  method ReadMessage(conn: Client, channel: nat) returns (r: Result)
    requires conn.Valid()
    modifies conn.receiver, conn.queue.Repr
    ensures fresh(conn.queue.Repr - old(conn.queue.Repr)) && HasRead(conn, old(Read(conn.Here(), channel, Waiting)), r)
  {
    ghost var goal := Read(conn.Here(), channel, Waiting);
    var w := WaitOnChannel(conn, channel);
    if !w.Frame? { return Interrupted(w); }
    if !w.frame.Header? {
      r := if IsClose(w.frame) then Closed(w.frame) else Unexpected(w.frame);
      if r.Unexpected? { conn.queue.PutBack(w.frame); }
      return;
    }
    if !PropertiesClone(w.frame) { return BadProperties; }
    if w.frame.bodySize == 0 { return Message(w.frame, []); }
    r := ReadBody(conn, channel, w.frame, goal);
  }

  // ----- frames of one channel -----

  /** The frames of the channel that come to the waiting loop. */
  function OnChannel(news: seq<News>, channel: nat): (fs: seq<Frame>)
    ensures |fs| <= |news|
  {
    if news == [] then []
    else (if IsOn(news[0], channel) then [news[0].frame] else []) + OnChannel(news[1..], channel)
  }

  predicate IsOn(n: News, channel: nat) { n.Came? && !n.frame.Heartbeat? && ChannelOf(n.frame) == channel }

  /** All others, heartbeats aside: they are queued. */
  function OffChannel(news: seq<News>, channel: nat): seq<Frame> {
    if news == [] then [] else (if IsOn(news[0], channel) then [] else KeptOne(news[0])) + OffChannel(news[1..], channel)
  }

  /** Waiting does not break off, and a frame of the channel is parsed aside only during the last wait. */
  predicate Timely(news: seq<News>, channel: nat) {
    news == [] ||
    (&& !news[0].Broke? && (IsAside(news[0], channel) ==> |OnChannel(news, channel)| <= 1)
     && Timely(news[1..], channel))
  }

  predicate IsAside(n: News, channel: nat) { n.Aside? && ChannelOf(n.frame) == channel }

  /** `fs`, and no beginning of it, completes the assembly. */
  ghost predicate Completes(a: Assembly, fs: seq<Frame>, result: Result)
    decreases |fs|
  {
    fs != [] && !a.Done? &&
    var next := Assemble(a, fs[0]);
    if |fs| == 1 then next == Done(result) else Completes(next, fs[1..], result)
  }

  /** A message is told by its own frames: of two runs of frames, one continuing the other, that each
      complete the assembly, both are the same. */
  lemma {:induction false} CompletesOnce(a: Assembly, fs: seq<Frame>, gs: seq<Frame>, r: Result, s: Result)
    requires Completes(a, fs, r) && Completes(a, gs, s) && fs <= gs
    ensures fs == gs && r == s
    decreases |fs|
  {
    assert fs[0] == gs[0] && fs[1..] <= gs[1..];
    if |fs| > 1 {
      CompletesOnce(Assemble(a, fs[0]), fs[1..], gs[1..], r, s);
      assert fs == [fs[0]] + fs[1..] && gs == [gs[0]] + gs[1..];
    } else {
      assert |gs| == 1;
    }
  }

  // ----- a message among other frames -----

  /** News that are not the channel's only add to the queue. */
  lemma ReadPast(l: Line, n: News, rest: Run<News>, channel: nat, a: Assembly)
    requires l.news == Prefixed([n], rest) && FirstOn(l.queue, channel, 0).None? && !a.Done?
    requires !IsOn(n, channel) && !n.Broke? && !IsAside(n, channel)
    ensures FirstOn(l.queue + KeptOne(n), channel, 0).None?
    ensures Read(l, channel, a) == Read(Line(l.queue + KeptOne(n), rest), channel, a)
  {
    AwaitFirst(l.queue, n, rest, FrameOn(channel));
    assert l.queue + [] == l.queue;
  }

  /** News that are the channel's go to the assembly. */
  lemma ReadOne(l: Line, n: News, rest: Run<News>, channel: nat, a: Assembly)
    requires l.news == Prefixed([n], rest) && FirstOn(l.queue, channel, 0).None? && !a.Done? && IsOn(n, channel)
    requires !Assemble(a, n.frame).Done?
    ensures Read(l, channel, a) == Read(Line(l.queue, rest), channel, Assemble(a, n.frame))
  {
    AwaitFirst(l.queue, n, rest, FrameOn(channel));
  }

  lemma {:induction false} EndsOnChannel(news: seq<News>, channel: nat)
    requires news != [] && IsOn(news[|news| - 1], channel)
    ensures OnChannel(news, channel) != []
  {
    if |news| > 1 { EndsOnChannel(news[1..], channel); }
  }

  /** Waiting for the one frame of the channel that ends the news. */
  lemma {:induction false} AwaitAlong(queue: seq<Frame>, news: seq<News>, rest: Run<News>, channel: nat)
    requires news != [] && IsOn(news[|news| - 1], channel) && |OnChannel(news, channel)| == 1
    ensures var a := Await(Line(queue, Prefixed(news, rest)), FrameOn(channel));
            if Timely(news, channel) then
              a == Awaited(Session.Frame(OnChannel(news, channel)[0]), Line(queue + OffChannel(news, channel), rest))
            else !a.w.Frame?
    decreases |news|
  {
    var n, later := news[0], news[1..];
    PrefixedJoin([n], later, rest);
    assert [n] + later == news;
    AwaitFirst(queue, n, Prefixed(later, rest), FrameOn(channel));
    if later == [] {
      PrefixedNothing(rest);
      assert queue + OffChannel(news, channel) == queue;
      assert Timely(later, channel);
    } else {
      EndsOnChannel(later, channel);
      assert !IsOn(n, channel) by { if IsOn(n, channel) { OnFirst(n, later, channel); } }
      OffFirst(queue, n, later, channel);
      assert queue + [] == queue;
      AwaitAlong(queue + KeptOne(n), later, rest, channel);
    }
  }

  /** Reading gives the result, takes exactly `news`, and queues everything in them that is not the
      channel's, in order. */
  ghost predicate ReadsTo(l: Line, news: seq<News>, rest: Run<News>, channel: nat, a: Assembly, result: Result)
    requires !a.Done?
  {
    Read(l, channel, a) == ReadOut(result, Line(l.queue + OffChannel(news, channel), rest))
  }

  /** The last wait for a message. */
  lemma ReadLast(l: Line, news: seq<News>, rest: Run<News>, channel: nat, a: Assembly, result: Result)
    requires l.news == Prefixed(news, rest) && FirstOn(l.queue, channel, 0).None?
    requires news != [] && IsOn(news[|news| - 1], channel) && |OnChannel(news, channel)| == 1
    requires Completes(a, OnChannel(news, channel), result) && result.Message?
    ensures ReadsTo(l, news, rest, channel, a, result) <==> Timely(news, channel)
  {
    AwaitAlong(l.queue, news, rest, channel);
  }

  // What waiting takes and what it adds to the queue.

  lemma {:induction false} AwaitBound(l: Line, channel: nat) returns (k: nat)
    requires Await(l, FrameOn(channel)).w.Frame?
    ensures var a := Await(l, FrameOn(channel));
            && 0 < k <= |l.news.frames| && a.line.news == Tail(l.news, k)
            && a.line.queue == l.queue + OffChannel(l.news.frames[..k], channel)
            && Unbroken(l.news.frames[..k])
    decreases |l.news.frames|
  {
    var news := l.news.frames;
    var n := news[0];
    if IsOn(n, channel) {
      k := 1;
      assert news[..1] == [n] + [];
      OnFirst(n, [], channel);
      assert l.queue + [] == l.queue;
    } else {
      var next := Line(l.queue + KeptOne(n), Tail(l.news, 1));
      assert l.queue + [] == l.queue;
      k := AwaitBound(next, channel);
      BoundFirst(l, n, next, k, channel);
      k := k + 1;
    }
  }

  lemma BoundFirst(l: Line, n: News, next: Line, k: nat, channel: nat)
    requires l.news.frames != [] && n == l.news.frames[0] && !n.Broke? && !IsOn(n, channel)
    requires next == Line(l.queue + KeptOne(n), Tail(l.news, 1)) && k <= |next.news.frames|
    requires Unbroken(next.news.frames[..k])
    ensures Unbroken(l.news.frames[..k + 1]) && Tail(next.news, k) == Tail(l.news, k + 1)
    ensures next.queue + OffChannel(next.news.frames[..k], channel) == l.queue + OffChannel(l.news.frames[..k + 1], channel)
  {
    assert l.news.frames[..k + 1] == [n] + next.news.frames[..k];
    UnbrokenFirst(n, next.news.frames[..k]);
    OffFirst(l.queue, n, next.news.frames[..k], channel);
  }

  lemma UnbrokenFirst(n: News, news: seq<News>)
    ensures Unbroken([n] + news) <==> !n.Broke? && Unbroken(news)
  {
    assert forall i | 0 <= i < |news| :: ([n] + news)[i + 1] == news[i];
    assert ([n] + news)[0] == n;
  }

  lemma {:induction false} OffJoin(a: seq<News>, b: seq<News>, channel: nat)
    ensures OffChannel(a + b, channel) == OffChannel(a, channel) + OffChannel(b, channel)
    decreases |a|
  {
    if a == [] {
      assert a + b == b;
    } else {
      assert (a + b)[1..] == a[1..] + b;
      OffJoin(a[1..], b, channel);
    }
  }

  /** From `l`, waiting has come to `out` by hearing `k` pieces of news. */
  ghost predicate Heard(l: Line, out: Line, k: nat) {
    k <= |l.news.frames| && out.news == Tail(l.news, k) && Unbroken(l.news.frames[..k])
  }

  /** How many frames of others those are. */
  function OffCount(l: Line, k: nat, channel: nat): nat
    requires k <= |l.news.frames|
  {
    |OffChannel(l.news.frames[..k], channel)|
  }

  lemma HeardNothing(l: Line, out: Line, channel: nat)
    requires out.news == l.news
    ensures Heard(l, out, 0) && OffCount(l, 0, channel) == 0
  {
    assert Tail(l.news, 0) == l.news;
  }

  lemma HeardMore(l: Line, mid: Line, out: Line, i: nat, j: nat, channel: nat)
    requires Heard(l, mid, i) && Heard(mid, out, j)
    ensures Heard(l, out, i + j) && OffCount(l, i + j, channel) == OffCount(l, i, channel) + OffCount(mid, j, channel)
  {
    OffSplit(l.news.frames, i, i + j, channel);
    assert Tail(Tail(l.news, i), j) == Tail(l.news, i + j);
  }

  lemma OffSplit(news: seq<News>, i: nat, k: nat, channel: nat)
    requires i <= k <= |news|
    ensures OffChannel(news[..k], channel) == OffChannel(news[..i], channel) + OffChannel(news[i..][..k - i], channel)
    ensures Unbroken(news[..k]) <==> Unbroken(news[..i]) && Unbroken(news[i..][..k - i])
  {
    var a, b := news[..i], news[i..][..k - i];
    assert news[..k] == a + b;
    OffJoin(a, b, channel);
    UnbrokenJoin(a, b);
  }

  lemma UnbrokenJoin(a: seq<News>, b: seq<News>)
    ensures Unbroken(a + b) <==> Unbroken(a) && Unbroken(b)
  {
    assert forall i | 0 <= i < |a| :: (a + b)[i] == a[i];
    assert forall i | 0 <= i < |b| :: (a + b)[|a| + i] == b[i];
  }

  /** One wait: the news it hears, and what that does to the queue. */
  lemma WaitBound(l: Line, channel: nat) returns (k: nat)
    requires WaitOn(l, channel).w.Frame?
    ensures var out := WaitOn(l, channel).line;
            && Heard(l, out, k)
            && (match FirstOn(l.queue, channel, 0)
                case None => out.queue == l.queue + OffChannel(l.news.frames[..k], channel)
                case Some(m) => k == 0 && |out.queue| == |l.queue| - m - 1)
  {
    if FirstOn(l.queue, channel, 0).None? {
      k := AwaitBound(l, channel);
    } else {
      k := 0;
      HeardNothing(l, WaitOn(l, channel).line, channel);
    }
  }

  /** Reading a message never queues more than what it heard from others, and less if it found a frame
      of the channel in the queue. */
  lemma {:induction false} ReadBound(l: Line, channel: nat, a: Assembly) returns (k: nat)
    requires !a.Done? && Read(l, channel, a).result.Message?
    ensures var out := Read(l, channel, a).line;
            && Heard(l, out, k) && |out.queue| <= |l.queue| + OffCount(l, k, channel)
            && (FirstOn(l.queue, channel, 0).Some? ==>
                |out.queue| < |l.queue| - FirstOn(l.queue, channel, 0).value + OffCount(l, k, channel))
    decreases |l.news.frames|, |l.queue|
  {
    var w := WaitOn(l, channel);
    var i := WaitBound(l, channel);
    var next := Assemble(a, w.w.frame);
    k := i;
    if !next.Done? {
      var j := ReadBound(w.line, channel, next);
      k := i + j;
      HeardMore(l, w.line, Read(l, channel, a).line, i, j, channel);
    }
  }

  lemma {:induction false} AwaitGetsFirst(l: Line, news: seq<News>, rest: seq<News>, channel: nat)
    requires l.news.frames == news + rest && OnChannel(news, channel) != []
    requires Await(l, FrameOn(channel)).w.Frame?
    ensures Await(l, FrameOn(channel)).w.frame == OnChannel(news, channel)[0]
    decreases |news|
  {
    var n := news[0];
    if !IsOn(n, channel) {
      assert (news + rest)[1..] == news[1..] + rest && l.queue + [] == l.queue;
      assert news == [n] + news[1..];
      OffFirst([], n, news[1..], channel);
      AwaitGetsFirst(Line(l.queue + KeptOne(n), Tail(l.news, 1)), news[1..], rest, channel);
    }
  }

  lemma AsideQueued(l: Line, k: nat, channel: nat)
    requires 0 < k <= |l.news.frames| && IsAside(l.news.frames[0], channel)
    ensures FirstOn(l.queue + OffChannel(l.news.frames[..k], channel), channel, 0).Some?
  {
    var off := OffChannel(l.news.frames[..k], channel);
    assert off[0] == l.news.frames[0].frame;
    assert (l.queue + off)[|l.queue|] == off[0];
  }

  /** A frame parsed aside before the last wait is found in the queue by the next one, and taken for part
      of the message. */
  lemma AsideTaken(l: Line, news: seq<News>, rest: seq<News>, channel: nat, a: Assembly) returns (k: nat)
    requires l.news.frames == news + rest && FirstOn(l.queue, channel, 0).None? && !a.Done?
    requires news != [] && IsAside(news[0], channel) && OnChannel(news, channel) != []
    requires !Assemble(a, OnChannel(news, channel)[0]).Done? && Read(l, channel, a).result.Message?
    ensures var out := Read(l, channel, a).line;
            Heard(l, out, k) && |out.queue| < |l.queue| + OffCount(l, k, channel)
  {
    var w := WaitOn(l, channel);
    var i := AwaitBound(l, channel);
    AwaitGetsFirst(l, news, rest, channel);
    AsideQueued(l, i, channel);
    var j := ReadBound(w.line, channel, Assemble(a, w.w.frame));
    k := i + j;
    HeardMore(l, w.line, Read(l, channel, a).line, i, j, channel);
  }

  lemma ReadAside(l: Line, news: seq<News>, rest: Run<News>, channel: nat, a: Assembly, result: Result)
    requires l.news == Prefixed(news, rest) && FirstOn(l.queue, channel, 0).None?
    requires news != [] && IsAside(news[0], channel) && |OnChannel(news, channel)| > 1
    requires Completes(a, OnChannel(news, channel), result) && result.Message?
    ensures !ReadsTo(l, news, rest, channel, a, result)
  {
    if Read(l, channel, a).result.Message? {
      var k := AsideTaken(l, news, rest.frames, channel, a);
      if Read(l, channel, a).line.news == rest { AllTaken(l.news, news, rest, k); }
    }
  }

  lemma AllTaken(r: Run<News>, news: seq<News>, rest: Run<News>, k: nat)
    requires r == Prefixed(news, rest) && k <= |r.frames| && Tail(r, k) == rest
    ensures r.frames[..k] == news
  {
    assert |Tail(r, k).frames| == |r.frames| - k;
  }

  /** Reading along news that end with the last frame of a message.  That whatever else is heard in
      between is queued in order, and nothing behind the message touched, is true exactly when the news
      are timely. */
  lemma {:induction false} ReadAlong(l: Line, news: seq<News>, rest: Run<News>, channel: nat, a: Assembly, result: Result)
    requires l.news == Prefixed(news, rest) && FirstOn(l.queue, channel, 0).None?
    requires news != [] && IsOn(news[|news| - 1], channel)
    requires Completes(a, OnChannel(news, channel), result) && result.Message?
    ensures ReadsTo(l, news, rest, channel, a, result) <==> Timely(news, channel)
    decreases |news|
  {
    var n, later := news[0], news[1..];
    PrefixedJoin([n], later, rest);
    assert [n] + later == news;
    if |OnChannel(news, channel)| == 1 {
      ReadLast(l, news, rest, channel, a, result);
    } else if IsAside(n, channel) {
      ReadAside(l, news, rest, channel, a, result);
    } else if n.Broke? {
      ReadBroken(l, n, later, rest, channel, a, result);
    } else {
      StepAlong(l, n, later, rest, channel, a, result);
      EndsAlike(news, channel);
      ReadAlong(Passed(l, n, Prefixed(later, rest), channel), later, rest, channel, After(a, n, channel), result);
    }
  }

  lemma EndsAlike(news: seq<News>, channel: nat)
    requires |OnChannel(news, channel)| > 1 && IsOn(news[|news| - 1], channel)
    ensures news[1..] != [] && IsOn(news[1..][|news[1..]| - 1], channel)
  {
  }

  /** The assembly and the line after one piece of news. */
  function After(a: Assembly, n: News, channel: nat): Assembly { if IsOn(n, channel) then Assemble(a, n.frame) else a }

  function Passed(l: Line, n: News, rest: Run<News>, channel: nat): Line {
    Line(if IsOn(n, channel) then l.queue else l.queue + KeptOne(n), rest)
  }

  /** One piece of news further. */
  lemma StepAlong(l: Line, n: News, later: seq<News>, rest: Run<News>, channel: nat, a: Assembly, result: Result)
    requires l.news == Prefixed([n], Prefixed(later, rest)) && FirstOn(l.queue, channel, 0).None?
    requires Completes(a, OnChannel([n] + later, channel), result) && |OnChannel([n] + later, channel)| > 1
    requires !IsAside(n, channel) && !n.Broke?
    ensures var l', a' := Passed(l, n, Prefixed(later, rest), channel), After(a, n, channel);
            && FirstOn(l'.queue, channel, 0).None? && Completes(a', OnChannel(later, channel), result)
            && (Timely([n] + later, channel) <==> Timely(later, channel))
            && (ReadsTo(l, [n] + later, rest, channel, a, result) <==> ReadsTo(l', later, rest, channel, a', result))
  {
    if IsOn(n, channel) {
      StepOn(l, n, later, rest, channel, a, result);
    } else {
      StepOff(l, n, later, rest, channel, a, result);
    }
  }

  lemma ReadBroken(l: Line, n: News, later: seq<News>, rest: Run<News>, channel: nat, a: Assembly, result: Result)
    requires l.news == Prefixed([n], Prefixed(later, rest)) && FirstOn(l.queue, channel, 0).None? && !a.Done?
    requires n.Broke? && result.Message?
    ensures !ReadsTo(l, [n] + later, rest, channel, a, result) && !Timely([n] + later, channel)
  {
    AwaitFirst(l.queue, n, Prefixed(later, rest), FrameOn(channel));
  }

  /** One frame of the channel further. */
  lemma StepOn(l: Line, n: News, later: seq<News>, rest: Run<News>, channel: nat, a: Assembly, result: Result)
    requires l.news == Prefixed([n], Prefixed(later, rest)) && FirstOn(l.queue, channel, 0).None? && IsOn(n, channel)
    requires Completes(a, OnChannel([n] + later, channel), result) && |OnChannel([n] + later, channel)| > 1
    ensures Completes(Assemble(a, n.frame), OnChannel(later, channel), result)
    ensures Timely([n] + later, channel) <==> Timely(later, channel)
    ensures ReadsTo(l, [n] + later, rest, channel, a, result)
       <==> ReadsTo(Line(l.queue, Prefixed(later, rest)), later, rest, channel, Assemble(a, n.frame), result)
  {
    assert ([n] + later)[1..] == later;
    OnFirst(n, later, channel);
    assert ([n.frame] + OnChannel(later, channel))[1..] == OnChannel(later, channel);
    ReadOne(l, n, Prefixed(later, rest), channel, a);
  }

  /** One other frame further. */
  lemma StepOff(l: Line, n: News, later: seq<News>, rest: Run<News>, channel: nat, a: Assembly, result: Result)
    requires l.news == Prefixed([n], Prefixed(later, rest)) && FirstOn(l.queue, channel, 0).None? && !a.Done?
    requires !IsOn(n, channel) && !IsAside(n, channel) && !n.Broke?
    ensures OnChannel([n] + later, channel) == OnChannel(later, channel)
    ensures Timely([n] + later, channel) <==> Timely(later, channel)
    ensures FirstOn(l.queue + KeptOne(n), channel, 0).None?
    ensures ReadsTo(l, [n] + later, rest, channel, a, result)
       <==> ReadsTo(Line(l.queue + KeptOne(n), Prefixed(later, rest)), later, rest, channel, a, result)
  {
    assert ([n] + later)[1..] == later;
    OffFirst(l.queue, n, later, channel);
    ReadPast(l, n, Prefixed(later, rest), channel, a);
  }

  lemma OnFirst(n: News, news: seq<News>, channel: nat)
    requires IsOn(n, channel)
    ensures OnChannel([n] + news, channel) == [n.frame] + OnChannel(news, channel)
    ensures OffChannel([n] + news, channel) == OffChannel(news, channel)
  {
    assert ([n] + news)[1..] == news;
    assert [] + OffChannel(news, channel) == OffChannel(news, channel);
  }

  lemma OffFirst(queue: seq<Frame>, n: News, news: seq<News>, channel: nat)
    requires !IsOn(n, channel)
    ensures OnChannel([n] + news, channel) == OnChannel(news, channel)
    ensures queue + KeptOne(n) + OffChannel(news, channel) == queue + OffChannel([n] + news, channel)
  {
    assert ([n] + news)[1..] == news;
    assert [] + OnChannel(news, channel) == OnChannel(news, channel);
    Appended(queue, KeptOne(n), OffChannel(news, channel));
  }

  // ----- what was published is read -----

  /** Behind the header, the fragments fill the body one by one. */
  lemma {:induction false} FragmentsComplete(h: Frame, got: seq<byte>, body: seq<byte>, channel: nat, usable: nat)
    requires h.Header? && usable > 0 && body != [] && |got| + |body| == h.bodySize
    ensures Completes(Filling(h, got), Sending.Fragments(channel, body, usable), Message(h, got + body))
    decreases |body|
  {
    var n := if |body| >= usable then usable else |body|;
    var fs := Sending.Fragments(channel, body, usable);
    assert fs[0] == Body(channel, body[..n]) && fs[1..] == Sending.Fragments(channel, body[n..], usable);
    assert got + body == got + body[..n] + body[n..];
    if n < |body| {
      FragmentsComplete(h, got + body[..n], body[n..], channel, usable);
    } else {
      assert body[..n] == body && body[n..] == [];
    }
  }

  /** A published header and its fragments are exactly the message. */
  lemma PublishedCompletes(h: Frame, body: seq<byte>, usable: nat)
    requires h.Header? && PropertiesClone(h) && h.bodySize == |body| && usable > 0
    ensures Completes(Waiting, [h] + Sending.Fragments(h.channel, body, usable), Message(h, body))
  {
    var fs := Sending.Fragments(h.channel, body, usable);
    assert ([h] + fs)[1..] == fs;
    if body != [] {
      FragmentsComplete(h, [], body, h.channel, usable);
      assert [] + body == body;
    }
  }

  /** However the frames of other channels and heartbeats are mixed in: if a header and the fragments of
      its body all come to the waiting loop, then reading gives the body, takes exactly the news up to
      the last fragment, and leaves the old queue followed by all other frames in the order in which
      they were heard; exactly when waiting does not break off before, and no other frame of the channel
      is parsed aside except during the last wait. */
  lemma ReadWhenAllCame(l: Line, h: Frame, body: seq<byte>, usable: nat, mixed: seq<News>, rest: Run<News>)
    requires h.Header? && PropertiesClone(h) && h.bodySize == |body| && usable > 0
    requires FirstOn(l.queue, h.channel, 0).None? && l.news == Prefixed(mixed, rest)
    requires mixed != [] && IsOn(mixed[|mixed| - 1], h.channel)
    requires OnChannel(mixed, h.channel) == [h] + Sending.Fragments(h.channel, body, usable)
    ensures ReadsTo(l, mixed, rest, h.channel, Waiting, Message(h, body)) <==> Timely(mixed, h.channel)
  {
    PublishedCompletes(h, body, usable);
    ReadAlong(l, mixed, rest, h.channel, Waiting, Message(h, body));
  }

  /** Frames that came to the waiting loop are timely. */
  lemma {:induction false} CameTimely(fs: seq<Frame>, channel: nat)
    ensures Timely(Tag(fs, false), channel)
  {
    if fs != [] { CameTimely(fs[1..], channel); }
  }

  // ----- frames of the message that are parsed aside -----

  /** The frames of the channel, whoever parsed them. */
  function Own(news: seq<News>, channel: nat): seq<Frame> {
    if news == [] then []
    else (if IsOwn(news[0], channel) then [news[0].frame] else []) + Own(news[1..], channel)
  }

  predicate IsOwn(n: News, channel: nat) { IsOn(n, channel) || IsAside(n, channel) }

  /** All other frames, heartbeats that came to the loop aside. */
  function Others(news: seq<News>, channel: nat): seq<Frame> {
    if news == [] then [] else (if IsOwn(news[0], channel) then [] else KeptOne(news[0])) + Others(news[1..], channel)
  }

  ghost predicate NoneAside(news: seq<News>, channel: nat) { forall i | 0 <= i < |news| :: !IsAside(news[i], channel) }

  lemma NoneAsideFirst(n: News, news: seq<News>, channel: nat)
    ensures NoneAside([n] + news, channel) <==> !IsAside(n, channel) && NoneAside(news, channel)
  {
    assert forall i | 0 <= i < |news| :: ([n] + news)[i + 1] == news[i];
    assert ([n] + news)[0] == n;
  }

  /** What is parsed aside makes all the difference between the others and what waiting queues. */
  lemma {:induction false} OthersQueued(news: seq<News>, channel: nat)
    ensures |Others(news, channel)| <= |OffChannel(news, channel)| <= |news|
    ensures |Others(news, channel)| == |OffChannel(news, channel)| <==> NoneAside(news, channel)
    ensures NoneAside(news, channel) ==>
              Others(news, channel) == OffChannel(news, channel) && Own(news, channel) == OnChannel(news, channel)
    decreases |news|
  {
    if news != [] {
      assert news == [news[0]] + news[1..];
      NoneAsideFirst(news[0], news[1..], channel);
      OthersQueued(news[1..], channel);
    }
  }

  lemma {:induction false} UnbrokenTimely(news: seq<News>, channel: nat)
    requires Unbroken(news) && NoneAside(news, channel)
    ensures Timely(news, channel)
    decreases |news|
  {
    if news != [] {
      assert news == [news[0]] + news[1..];
      NoneAsideFirst(news[0], news[1..], channel);
      UnbrokenFirst(news[0], news[1..]);
      UnbrokenTimely(news[1..], channel);
    }
  }

  lemma FirstBehind(queue: seq<Frame>, more: seq<Frame>, channel: nat)
    requires FirstOn(queue, channel, 0).None? && FirstOn(queue + more, channel, 0).Some?
    ensures FirstOn(queue + more, channel, 0).value >= |queue|
  {
    assert forall j | 0 <= j < |queue| :: (queue + more)[j] == queue[j];
  }

  /** With no frame of the channel queued at first: either reading never takes a frame from the queue, and
      everything it hears from others is there in the end; or it does, and then nothing is left of the
      old queue. */
  lemma {:induction false} ReadTakes(l: Line, channel: nat, a: Assembly) returns (k: nat)
    requires !a.Done? && Read(l, channel, a).result.Message? && FirstOn(l.queue, channel, 0).None?
    ensures var out := Read(l, channel, a).line;
            Heard(l, out, k) && AllOrNothing(l, out, k, channel)
    decreases |l.news.frames|
  {
    var w := WaitOn(l, channel);
    var i := AwaitBound(l, channel);
    var next := Assemble(a, w.w.frame);
    k := i;
    if !next.Done? {
      var j: nat;
      if FirstOn(w.line.queue, channel, 0).None? {
        j := ReadTakes(w.line, channel, next);
      } else {
        j := ReadFound(l.queue, OffChannel(l.news.frames[..i], channel), w.line, channel, next);
      }
      k := i + j;
      TakesMore(l, w.line, Read(w.line, channel, next).line, i, j, channel);
    }
  }

  /** Either nothing was taken from the queue, or nothing is left of it. */
  ghost predicate AllOrNothing(l: Line, out: Line, k: nat, channel: nat)
    requires k <= |l.news.frames|
  {
    |out.queue| == |l.queue| + OffCount(l, k, channel) || |out.queue| < OffCount(l, k, channel)
  }

  lemma TakesMore(l: Line, mid: Line, out: Line, i: nat, j: nat, channel: nat)
    requires Heard(l, mid, i) && Heard(mid, out, j) && |mid.queue| == |l.queue| + OffCount(l, i, channel)
    requires AllOrNothing(mid, out, j, channel) || |out.queue| < OffCount(l, i, channel) + OffCount(mid, j, channel)
    ensures Heard(l, out, i + j) && AllOrNothing(l, out, i + j, channel)
  {
    HeardMore(l, mid, out, i, j, channel);
  }

  /** A frame of the channel among those queued since then is taken: nothing is left of the old queue. */
  lemma ReadFound(queue: seq<Frame>, more: seq<Frame>, l: Line, channel: nat, a: Assembly) returns (k: nat)
    requires l.queue == queue + more && FirstOn(queue, channel, 0).None? && FirstOn(l.queue, channel, 0).Some?
    requires !a.Done? && Read(l, channel, a).result.Message?
    ensures Heard(l, Read(l, channel, a).line, k) && |Read(l, channel, a).line.queue| < |more| + OffCount(l, k, channel)
  {
    k := ReadBound(l, channel, a);
    FirstBehind(queue, more, channel);
  }

  /** A queue of `n` frames of another channel. */
  function Strangers(channel: nat, n: nat): (q: seq<Frame>)
    ensures |q| == n && FirstOn(q, channel, 0).None?
  {
    seq(n, _ => Body(channel + 1, []))
  }

  /** Whatever the queue holds for other channels, reading gives the result, takes exactly `news`, and leaves
      the queue followed by all frames that are not the channel's. */
  ghost predicate AlwaysReads(news: seq<News>, rest: Run<News>, channel: nat, result: Result) {
    forall q | FirstOn(q, channel, 0).None? ::
      Read(Line(q, Prefixed(news, rest)), channel, Waiting) == ReadOut(result, Line(q + Others(news, channel), rest))
  }

  /** If the queue is longer than the news, what is taken from it shows. */
  lemma AlwaysReadsOnly(news: seq<News>, rest: Run<News>, channel: nat, result: Result)
    requires AlwaysReads(news, rest, channel, result) && result.Message?
    ensures Unbroken(news) && NoneAside(news, channel)
  {
    var q := Strangers(channel, |news|);
    var l := Line(q, Prefixed(news, rest));
    assert Read(l, channel, Waiting) == ReadOut(result, Line(q + Others(news, channel), rest));
    var k := ReadTakes(l, channel, Waiting);
    AllTaken(l.news, news, rest, k);
    OthersQueued(news, channel);
  }

  /** However the frames of other channels and heartbeats are mixed in, and whatever the queue holds for
      other channels: if the frames of the channel, whoever parses them, are a header and the fragments
      of its body, then reading gives the body, takes exactly the news up to the last fragment, and
      leaves the old queue followed by all other frames in the order in which they were heard; exactly
      when waiting does not break off before and no frame of the message is parsed aside. */
  lemma ReadPublished(h: Frame, body: seq<byte>, usable: nat, mixed: seq<News>, rest: Run<News>)
    requires h.Header? && PropertiesClone(h) && h.bodySize == |body| && usable > 0
    requires mixed != [] && IsOwn(mixed[|mixed| - 1], h.channel)
    requires Own(mixed, h.channel) == [h] + Sending.Fragments(h.channel, body, usable)
    ensures AlwaysReads(mixed, rest, h.channel, Message(h, body)) <==> Unbroken(mixed) && NoneAside(mixed, h.channel)
  {
    if AlwaysReads(mixed, rest, h.channel, Message(h, body)) {
      AlwaysReadsOnly(mixed, rest, h.channel, Message(h, body));
    }
    if Unbroken(mixed) && NoneAside(mixed, h.channel) {
      OthersQueued(mixed, h.channel);
      UnbrokenTimely(mixed, h.channel);
      forall q | FirstOn(q, h.channel, 0).None?
        ensures Read(Line(q, Prefixed(mixed, rest)), h.channel, Waiting)
             == ReadOut(Message(h, body), Line(q + Others(mixed, h.channel), rest))
      {
        ReadWhenAllCame(Line(q, Prefixed(mixed, rest)), h, body, usable, mixed, rest);
      }
    }
  }

  /** A fragment that is parsed aside is overtaken by the next one: reading succeeds with a scrambled body,
      and everything that was queued is lost. */
  lemma ScrambledBody(queue: seq<Frame>, h: Frame, x: seq<byte>, y: seq<byte>, rest: Run<News>)
    requires h.Header? && PropertiesClone(h) && h.bodySize == |x| + |y| && x != [] && y != []
    requires FirstOn(queue, h.channel, 0).None?
    ensures var news := [Came(h), Aside(Body(h.channel, x)), Came(Body(h.channel, y))];
            Read(Line(queue, Prefixed(news, rest)), h.channel, Waiting) == ReadOut(Message(h, y + x), Line([], rest))
  {
    var c, fx, fy := h.channel, Body(h.channel, x), Body(h.channel, y);
    var r2 := Prefixed([Came(fy)], rest);
    var r1 := Prefixed([Aside(fx)], r2);
    PrefixedJoin([Aside(fx)], [Came(fy)], rest);
    PrefixedJoin([Came(h)], [Aside(fx), Came(fy)], rest);
    assert [Aside(fx)] + [Came(fy)] == [Aside(fx), Came(fy)];
    assert [Came(h)] + [Aside(fx), Came(fy)] == [Came(h), Aside(fx), Came(fy)];
    assert Prefixed([Came(h), Aside(fx), Came(fy)], rest) == Prefixed([Came(h)], r1);
    ReadOne(Line(queue, Prefixed([Came(h)], r1)), Came(h), r1, c, Waiting);
    Overtaken(queue, h, fx, fy, rest);
    LastFromQueue(queue, h, y, fx, rest);
  }

  /** A frame that comes to the loop is taken before the one that was parsed aside. */
  lemma Overtaken(queue: seq<Frame>, h: Frame, fx: Frame, fy: Frame, rest: Run<News>)
    requires h.Header? && fx.Body? && fy.Body? && fx.channel == fy.channel == h.channel
    requires 0 < |fy.fragment| < h.bodySize && FirstOn(queue, h.channel, 0).None?
    ensures Read(Line(queue, Prefixed([Aside(fx)], Prefixed([Came(fy)], rest))), h.channel, Filling(h, []))
         == Read(Line(queue + [fx], rest), h.channel, Filling(h, fy.fragment))
  {
    AwaitFirst(queue, Aside(fx), Prefixed([Came(fy)], rest), FrameOn(h.channel));
    AwaitFirst(queue + [fx], Came(fy), rest, FrameOn(h.channel));
    assert [] + fy.fragment == fy.fragment;
  }

  /** The last fragment is found in the queue. */
  lemma LastFromQueue(queue: seq<Frame>, h: Frame, got: seq<byte>, f: Frame, rest: Run<News>)
    requires h.Header? && f.Body? && f.channel == h.channel && |got| + |f.fragment| == h.bodySize
    requires FirstOn(queue, h.channel, 0).None?
    ensures Read(Line(queue + [f], rest), h.channel, Filling(h, got)) == ReadOut(Message(h, got + f.fragment), Line([], rest))
  {
    assert (queue + [f])[|queue|] == f && (queue + [f])[|queue| + 1..] == [];
    assert FirstOn(queue + [f], h.channel, 0).Some?;
    FirstBehind(queue, [f], h.channel);
  }

  /** A header that is parsed aside is not found: the next frame of the channel is unexpected and put back,
      and if there is none, reading goes on waiting. */
  lemma HeaderAside(queue: seq<Frame>, h: Frame, b: Frame, rest: Run<News>, p: Parser, channel: nat)
    requires FirstOn(queue, channel, 0).None? && b.Body? && b.channel == channel
    ensures Read(Line(queue, Prefixed([Aside(h), Came(b)], rest)), channel, Waiting)
         == ReadOut(Unexpected(b), Line([b] + (queue + [h]), rest))
    ensures Read(Line(queue, Running(p, [Aside(h)])), channel, Waiting)
         == ReadOut(Interrupted(SocketFailed(SCRIPT_OVER)), Line(queue + [h], Running(p, [])))
  {
    AsideIsMissed(queue, h, p, FrameOn(channel));
    PrefixedJoin([Aside(h)], [Came(b)], rest);
    assert [Aside(h)] + [Came(b)] == [Aside(h), Came(b)];
    AwaitFirst(queue, Aside(h), Prefixed([Came(b)], rest), FrameOn(channel));
    AwaitFirst(queue + [h], Came(b), rest, FrameOn(channel));
  }

  /** The socket brings the octets of `fs` to an idle connection, in any pieces and with heartbeats in
      between. */
  ghost predicate Brings(conn: Client, cat: Catalogue, fs: seq<Frame>, cap: nat)
    requires 20 <= cap < U32
    reads conn, conn.receiver, conn.queue, conn.queue.Repr
  {
    && AllSendable(cat, fs, cap) && Sending.AllRepresentable(cat, fs)
    && conn.Valid() && conn.receiver.codec == AmqpCodec(cat) && conn.receiver.frameMax == cap
    && conn.receiver.parser == IDLE && conn.receiver.Left() == [] && Calm(conn.receiver.turns)
    && Coming(conn.receiver.turns) == Sending.WireOf(cat, fs, cap)
  }

  /** Sender, network and receiver together: what the connection hears is exactly what was sent. */
  lemma WhatIsSentArrives(conn: Client, cat: Catalogue, fs: seq<Frame>, cap: nat)
    requires 20 <= cap < U32 && Brings(conn, cat, fs, cap)
    ensures conn.Here() == Line(conn.queue.Contents(), Running(IDLE, Tag(NormalFrames(cat, fs, cap), false)))
  {
    var r := conn.receiver;
    Sending.WireIsStream(cat, fs, cap);
    assert r.Left() + Coming(r.turns) == Coming(r.turns);
    CalmNews(r.codec, r.frameMax, r.parser, r.Left(), r.turns);
    StreamConsumed(cat, fs, cap);
  }

  /** Of the frames `gs`, those of the channel are a header and the fragments of its body, and the last
      one of all is among them. */
  ghost predicate HoldsMessage(gs: seq<Frame>, h: Frame, body: seq<byte>, usable: nat)
    requires h.Header? && usable > 0
  {
    && gs != [] && IsOn(Came(gs[|gs| - 1]), h.channel)
    && OnChannel(Tag(gs, false), h.channel) == [h] + Sending.Fragments(h.channel, body, usable)
  }

  lemma ReadAll(queue: seq<Frame>, gs: seq<Frame>, p: Parser, h: Frame, body: seq<byte>, usable: nat)
    requires h.Header? && PropertiesClone(h) && h.bodySize == |body| && usable > 0
    requires FirstOn(queue, h.channel, 0).None? && HoldsMessage(gs, h, body, usable)
    ensures Read(Line(queue, Running(p, Tag(gs, false))), h.channel, Waiting)
         == ReadOut(Message(h, body), Line(queue + OffChannel(Tag(gs, false), h.channel), Running(p, [])))
  {
    var mixed := Tag(gs, false);
    assert mixed + [] == mixed;
    CameTimely(gs, h.channel);
    ReadWhenAllCame(Line(queue, Running(p, mixed)), h, body, usable, mixed, Running(p, []));
  }

  /** What is sent is read: if the frames that were sent, as they arrive, hold a message, then reading its
      channel gives the body, and everything else that was sent is queued in order. */
  lemma WhatIsSentIsRead(conn: Client, cat: Catalogue, fs: seq<Frame>, cap: nat, h: Frame, body: seq<byte>, usable: nat)
    requires 20 <= cap < U32 && Brings(conn, cat, fs, cap)
    requires h.Header? && PropertiesClone(h) && h.bodySize == |body| && usable > 0
    requires FirstOn(conn.queue.Contents(), h.channel, 0).None? && HoldsMessage(NormalFrames(cat, fs, cap), h, body, usable)
    ensures var others := OffChannel(Tag(NormalFrames(cat, fs, cap), false), h.channel);
            Read(conn.Here(), h.channel, Waiting)
            == ReadOut(Message(h, body), Line(conn.queue.Contents() + others, Running(IDLE, [])))
  {
    WhatIsSentArrives(conn, cat, fs, cap);
    ReadAll(conn.queue.Contents(), NormalFrames(cat, fs, cap), IDLE, h, body, usable);
  }
}
