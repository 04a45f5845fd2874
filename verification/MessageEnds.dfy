/** How reading a message ends, for every run of frames of its channel: with the message, with a close, with
    a frame that is put back, with bad data, or with the failure of the wait. */
module MessageEnds {
  import Wire
  import opened FrameParser
  import opened Frames
  import opened FrameQueue
  import opened Session
  import opened Messages
  import Sending

  /** channel.close or connection.close. */
  predicate Closes(f: Frame) { f.Method? && (f.id == 0x00140028 || f.id == 0x000A0032) }

  /** Nothing breaks the wait off, no frame of the channel is parsed aside, and none is queued. */
  ghost predicate Undisturbed(queue: seq<Frame>, news: seq<News>, channel: nat) {
    Unbroken(news) && NoneAside(news, channel) && FirstOn(queue, channel, 0).None?
  }

  /** A header that can be taken over, and fragments that do not fill its body. */
  ghost predicate Incomplete(h: Frame, bodies: seq<Frame>) {
    && h.Header? && PropertiesClone(h)
    && (forall i | 0 <= i < |bodies| :: bodies[i].Body?)
    && |Sending.BodyOf(bodies)| < h.bodySize
  }

  // ----- while the message is not over -----

  /** The assembly goes through `fs` and comes to `a'`. */
  ghost predicate Proceeds(a: Assembly, fs: seq<Frame>, a': Assembly)
    decreases |fs|
  {
    !a.Done? && if fs == [] then a == a' else Proceeds(Assemble(a, fs[0]), fs[1..], a')
  }

  lemma {:induction false} FillsUp(h: Frame, got: seq<Wire.byte>, bodies: seq<Frame>)
    requires h.Header? && forall i | 0 <= i < |bodies| :: bodies[i].Body?
    requires |got| + |Sending.BodyOf(bodies)| < h.bodySize
    ensures Proceeds(Filling(h, got), bodies, Filling(h, got + Sending.BodyOf(bodies)))
    decreases |bodies|
  {
    if bodies == [] {
      assert got + [] == got;
    } else {
      var f := bodies[0].fragment;
      FillsUp(h, got + f, bodies[1..]);
      assert got + f + Sending.BodyOf(bodies[1..]) == got + Sending.BodyOf(bodies);
    }
  }

  lemma StartsFilling(h: Frame, bodies: seq<Frame>)
    requires Incomplete(h, bodies)
    ensures Proceeds(Waiting, [h] + bodies, Filling(h, Sending.BodyOf(bodies)))
  {
    FillsUp(h, [], bodies);
    assert [] + Sending.BodyOf(bodies) == Sending.BodyOf(bodies);
    assert ([h] + bodies)[1..] == bodies;
    assert Assemble(Waiting, h) == Filling(h, []);
  }

  lemma UndisturbedFirst(queue: seq<Frame>, n: News, news: seq<News>, channel: nat)
    requires Undisturbed(queue, [n] + news, channel)
    ensures !n.Broke? && !IsAside(n, channel) && Undisturbed(queue, news, channel)
  {
    UnbrokenFirst(n, news);
    NoneAsideFirst(n, news, channel);
  }

  /** Reading hears the news one by one: frames of the channel go to the assembly, others to the queue. */
  lemma {:induction false} ReadsOn(queue: seq<Frame>, news: seq<News>, rest: Run<News>, channel: nat, a: Assembly,
                                   a': Assembly)
    requires Undisturbed(queue, news, channel) && Proceeds(a, OnChannel(news, channel), a')
    ensures !a'.Done? && FirstOn(queue + OffChannel(news, channel), channel, 0).None?
    ensures Read(Line(queue, Prefixed(news, rest)), channel, a)
         == Read(Line(queue + OffChannel(news, channel), rest), channel, a')
    decreases |news|
  {
    if news == [] {
      assert queue + [] == queue;
      PrefixedNothing(rest);
    } else {
      var n, later := news[0], news[1..];
      assert news == [n] + later;
      UndisturbedFirst(queue, n, later, channel);
      PrefixedJoin([n], later, rest);
      if IsOn(n, channel) {
        OnFirst(n, later, channel);
        assert ([n.frame] + OnChannel(later, channel))[1..] == OnChannel(later, channel);
        ProceedsNotDone(Assemble(a, n.frame), OnChannel(later, channel), a');
        ReadOne(Line(queue, Prefixed(news, rest)), n, Prefixed(later, rest), channel, a);
        ReadsOn(queue, later, rest, channel, Assemble(a, n.frame), a');
      } else {
        OffFirst(queue, n, later, channel);
        ReadPast(Line(queue, Prefixed(news, rest)), n, Prefixed(later, rest), channel, a);
        ReadsOn(queue + KeptOne(n), later, rest, channel, a, a');
      }
    }
  }

  lemma ProceedsNotDone(a: Assembly, fs: seq<Frame>, a': Assembly)
    requires Proceeds(a, fs, a')
    ensures !a.Done?
  {
  }

  /** The frame that decides. */
  lemma ReadsLast(queue: seq<Frame>, g: Frame, rest: Run<News>, channel: nat, a: Assembly)
    requires FirstOn(queue, channel, 0).None? && !a.Done? && IsOn(Came(g), channel) && Assemble(a, g).Done?
    ensures var result := Assemble(a, g).result;
            Read(Line(queue, Prefixed([Came(g)], rest)), channel, a)
            == ReadOut(result, Line(if result.Unexpected? then [g] + queue else queue, rest))
  {
    AwaitFirst(queue, Came(g), rest, FrameOn(channel));
  }

  lemma Decided(queue: seq<Frame>, news: seq<News>, g: Frame, rest: Run<News>, channel: nat, a: Assembly)
    requires Undisturbed(queue, news, channel) && IsOn(Came(g), channel)
    requires Proceeds(Waiting, OnChannel(news, channel), a) && !a.Done? && Assemble(a, g).Done?
    ensures var result, q := Assemble(a, g).result, queue + OffChannel(news, channel);
            Read(Line(queue, Prefixed(news, Prefixed([Came(g)], rest))), channel, Waiting)
            == ReadOut(result, Line(if result.Unexpected? then [g] + q else q, rest))
  {
    ReadsOn(queue, news, Prefixed([Came(g)], rest), channel, Waiting, a);
    ReadsLast(queue + OffChannel(news, channel), g, rest, channel, a);
  }

  // ----- how it ends -----

  /** What the first frame of the channel does, `news` being what is heard before it: a close is reported
      and taken; anything else that is no header is unexpected and put back in front of the queue; a header
      whose properties cannot be taken over is refused; one that announces an empty body is the message. */
  lemma ReadFirst(queue: seq<Frame>, news: seq<News>, f: Frame, rest: Run<News>, channel: nat)
    requires Undisturbed(queue, news, channel) && OnChannel(news, channel) == [] && IsOn(Came(f), channel)
    ensures var r := Read(Line(queue, Prefixed(news, Prefixed([Came(f)], rest))), channel, Waiting);
            var q := queue + OffChannel(news, channel);
            && (Closes(f) ==> r == ReadOut(Closed(f), Line(q, rest)))
            && (!f.Header? && !Closes(f) ==> r == ReadOut(Unexpected(f), Line([f] + q, rest)))
            && (f.Header? && !PropertiesClone(f) ==> r == ReadOut(BadProperties, Line(q, rest)))
            && (f.Header? && PropertiesClone(f) && f.bodySize == 0 ==> r == ReadOut(Result.Message(f, []), Line(q, rest)))
  {
    if !(f.Header? && PropertiesClone(f) && f.bodySize > 0) {
      assert Proceeds(Waiting, [], Waiting);
      Decided(queue, news, f, rest, channel, Waiting);
    }
  }

  /** What the next frame of the channel does behind a header and an incomplete body: the fragment that
      completes the body gives the message, one that passes its size is bad data, a close is reported, and
      any other frame is bad data.  Everything heard from others is queued in order. */
  lemma ReadInBody(queue: seq<Frame>, news: seq<News>, h: Frame, bodies: seq<Frame>, g: Frame, rest: Run<News>,
                   channel: nat)
    requires Undisturbed(queue, news, channel) && OnChannel(news, channel) == [h] + bodies && Incomplete(h, bodies)
    requires IsOn(Came(g), channel)
    ensures var r := Read(Line(queue, Prefixed(news, Prefixed([Came(g)], rest))), channel, Waiting);
            var l, got := Line(queue + OffChannel(news, channel), rest), Sending.BodyOf(bodies);
            && (Closes(g) ==> r == ReadOut(Closed(g), l))
            && (!g.Body? && !Closes(g) ==> r == ReadOut(BadData, l))
            && (g.Body? && |got| + |g.fragment| > h.bodySize ==> r == ReadOut(BadData, l))
            && (g.Body? && |got| + |g.fragment| == h.bodySize ==> r == ReadOut(Result.Message(h, got + g.fragment), l))
  {
    StartsFilling(h, bodies);
    var a := Filling(h, Sending.BodyOf(bodies));
    if !(g.Body? && |a.got| + |g.fragment| < h.bodySize) { Decided(queue, news, g, rest, channel, a); }
  }

  /** If the wait breaks off, or the news end, before the message is over, reading reports why and everything
      heard from others is queued. */
  lemma ReadBreaksOff(queue: seq<Frame>, news: seq<News>, h: Frame, bodies: seq<Frame>, code: nat, rest: Run<News>,
                      channel: nat)
    requires Undisturbed(queue, news, channel)
    requires OnChannel(news, channel) == [] || (OnChannel(news, channel) == [h] + bodies && Incomplete(h, bodies))
    ensures var q := queue + OffChannel(news, channel);
            && Read(Line(queue, Prefixed(news, Prefixed([Broke(code)], rest))), channel, Waiting)
               == ReadOut(Interrupted(SocketFailed(code)), Line(q, rest))
            && (rest.frames == [] ==>
                  Read(Line(queue, Prefixed(news, rest)), channel, Waiting)
                  == ReadOut(Interrupted(if rest.Running? then SocketFailed(SCRIPT_OVER) else BadInput(rest.status)),
                             Line(q, rest)))
  {
    var a := if OnChannel(news, channel) == [] then Waiting else Filling(h, Sending.BodyOf(bodies));
    if a.Filling? { StartsFilling(h, bodies); } else { assert Proceeds(Waiting, [], Waiting); }
    ReadsOn(queue, news, Prefixed([Broke(code)], rest), channel, Waiting, a);
    AwaitFirst(queue + OffChannel(news, channel), Broke(code), rest, FrameOn(channel));
    if rest.frames == [] { ReadsOn(queue, news, rest, channel, Waiting, a); }
  }
}
