/** How sending ends, event by event: the status, the octets taken and what is left of the script, for
    every script, told by the first event with which it does not go on. */
module SendRuns {
  import opened Wire
  import opened Arguments
  import opened Properties
  import opened Frames
  import opened Sending

  /** The octets taken by the first `k` events. */
  function TakenIn(script: seq<Event>, k: nat): nat
    requires k <= |script|
  {
    if k == 0 then 0 else TakenIn(script, k - 1) + if script[k - 1].Took? then script[k - 1].n else 0
  }

  /** The heartbeat time in force at event `k`: that of the last receive. */
  function HeartbeatAt(script: seq<Event>, k: nat, nextRecv: nat): nat
    requires k <= |script|
  {
    if k == 0 then nextRecv
    else if script[k - 1].Received? then script[k - 1].nextRecv
    else HeartbeatAt(script, k - 1, nextRecv)
  }

  /** A poll has just timed out, so that a receive is due. */
  predicate ReceiveDue(script: seq<Event>, k: nat)
    requires k <= |script|
  {
    k > 0 && script[k - 1] == Blocked(Timeout)
  }

  /** Sending goes on after event `k`: octets were taken, the socket is ready again, a poll was ended by
      the heartbeat time and not by the deadline, or the receive that was due has succeeded. */
  predicate GoesOn(script: seq<Event>, k: nat, nextRecv: nat, deadline: nat)
    requires k < |script|
  {
    match script[k]
    case Took(_) => !ReceiveDue(script, k)
    case Blocked(p) =>
      !ReceiveDue(script, k) && (p == Ok || (p == Timeout && HeartbeatAt(script, k, nextRecv) < deadline))
    case Received(s, _) => ReceiveDue(script, k) && s == Ok
    case Renewed(_) => false
  }

  /** Sending has gone on through the first `k` events, with octets still to be sent. */
  ghost predicate Unfinished(script: seq<Event>, k: nat, nextRecv: nat, left: nat, deadline: nat) {
    && k <= |script| && TakenIn(script, k) < left
    && forall i | 0 <= i < k :: GoesOn(script, i, nextRecv, deadline)
  }

  // ----- the loop, one event at a time -----

  /** The rest of the loop, from a send or from a receive on. */
  function Rest(script: seq<Event>, nextRecv: nat, left: nat, deadline: nat, due: bool): Looped
    requires left > 0
  {
    if !due then SendLoop(script, nextRecv, left, deadline)
    else
      var g := Receive(script, nextRecv);
      if g.status == Timeout then Looped(HeartbeatTimeout, 0, g.script, g.nextRecv)
      else if g.status != Ok then Looped(g.status, 0, g.script, g.nextRecv)
      else SendLoop(g.script, g.nextRecv, left, deadline)
  }

  lemma LaterTwice(a: nat, b: nat, r: Looped)
    ensures Later(a, Later(b, r)) == Later(a + b, r) && Later(0, r) == r
  {
  }

  /** The loop behind one try to send. */
  function AfterTry(t: Tried, nextRecv: nat, left: nat, deadline: nat): Looped
    requires t.n <= left
  {
    if t.sent.Refused? then Looped(t.sent.status, t.n, t.script, nextRecv)
    else if t.n == left then Looped(Ok, left, t.script, nextRecv)
    else if deadline <= nextRecv then Looped(Timeout, t.n, t.script, nextRecv)
    else Later(t.n, Rest(t.script, nextRecv, left - t.n, deadline, true))
  }

  lemma LoopIs(script: seq<Event>, nextRecv: nat, left: nat, deadline: nat)
    requires left > 0
    ensures SendLoop(script, nextRecv, left, deadline) == AfterTry(TryTo(script, left), nextRecv, left, deadline)
  {
    var t := TryTo(script, left);
    if t.sent.Count? && t.n < left && deadline > nextRecv { LoopReceives(script, nextRecv, left, deadline, t); }
  }

  lemma LoopReceives(script: seq<Event>, nextRecv: nat, left: nat, deadline: nat, t: Tried)
    requires left > 0 && t == TryTo(script, left) && t.sent.Count? && t.n < left && deadline > nextRecv
    ensures SendLoop(script, nextRecv, left, deadline) == Later(t.n, Rest(t.script, nextRecv, left - t.n, deadline, true))
  {
    var g := Receive(t.script, nextRecv);
    if g.status == Ok {
      assert Rest(t.script, nextRecv, left - t.n, deadline, true) == SendLoop(g.script, g.nextRecv, left - t.n, deadline);
    } else {
      assert Rest(t.script, nextRecv, left - t.n, deadline, true).n == 0;
    }
  }

  lemma AfterTryShift(t: Tried, m: nat, nextRecv: nat, left: nat, deadline: nat)
    requires m < left && t.n <= left - m
    ensures AfterTry(After(m, t), nextRecv, left, deadline) == Later(m, AfterTry(t, nextRecv, left - m, deadline))
  {
    if t.n < left - m { LaterTwice(m, t.n, Rest(t.script, nextRecv, left - m - t.n, deadline, true)); }
  }

  /** A send that takes some of the octets. */
  lemma TakesSome(script: seq<Event>, nextRecv: nat, left: nat, deadline: nat)
    requires script != [] && script[0].Took? && script[0].n < left
    ensures SendLoop(script, nextRecv, left, deadline)
         == Later(script[0].n, SendLoop(script[1..], nextRecv, left - script[0].n, deadline))
  {
    var m := script[0].n;
    var t := TryTo(script[1..], left - m);
    assert TryTo(script, left) == After(m, t);
    LoopIs(script, nextRecv, left, deadline);
    LoopIs(script[1..], nextRecv, left - m, deadline);
    AfterTryShift(t, m, nextRecv, left, deadline);
  }

  lemma ReadyAgain(script: seq<Event>, nextRecv: nat, left: nat, deadline: nat)
    requires left > 0 && script != [] && script[0] == Blocked(Ok)
    ensures SendLoop(script, nextRecv, left, deadline) == SendLoop(script[1..], nextRecv, left, deadline)
  {
    assert TryTo(script, left) == TryTo(script[1..], left);
  }

  lemma PollTimedOut(script: seq<Event>, nextRecv: nat, left: nat, deadline: nat)
    requires left > 0 && script != [] && script[0] == Blocked(Timeout)
    ensures SendLoop(script, nextRecv, left, deadline)
         == if deadline <= nextRecv then Looped(Timeout, 0, script[1..], nextRecv)
            else Rest(script[1..], nextRecv, left, deadline, true)
  {
    assert TryTo(script, left) == Tried(Count(0), 0, script[1..]);
    var g := Receive(script[1..], nextRecv);
    if deadline > nextRecv && g.status == Ok { LaterTwice(0, 0, SendLoop(g.script, g.nextRecv, left, deadline)); }
  }

  /** The rest of the loop behind the first `k` events. */
  function RestAt(script: seq<Event>, k: nat, nextRecv: nat, left: nat, deadline: nat): Looped
    requires k <= |script| && TakenIn(script, k) < left
  {
    Rest(script[k..], HeartbeatAt(script, k, nextRecv), left - TakenIn(script, k), deadline, ReceiveDue(script, k))
  }

  lemma OneStep(script: seq<Event>, k: nat, nextRecv: nat, left: nat, deadline: nat)
    requires k < |script| && TakenIn(script, k + 1) < left && GoesOn(script, k, nextRecv, deadline)
    ensures RestAt(script, k, nextRecv, left, deadline)
         == Later(TakenIn(script, k + 1) - TakenIn(script, k), RestAt(script, k + 1, nextRecv, left, deadline))
  {
    var s, h, n := script[k..], HeartbeatAt(script, k, nextRecv), left - TakenIn(script, k);
    assert s[0] == script[k] && s[1..] == script[k + 1..];
    match script[k]
    case Took(_) => TakesSome(s, h, n, deadline);
    case Blocked(p) =>
      if p == Ok { ReadyAgain(s, h, n, deadline); } else { PollTimedOut(s, h, n, deadline); }
      LaterTwice(0, 0, Rest(s[1..], h, n, deadline, p == Timeout));
    case Received(_, _) => LaterTwice(0, 0, SendLoop(s[1..], script[k].nextRecv, n, deadline));
  }

  lemma RestAtStart(script: seq<Event>, nextRecv: nat, left: nat, deadline: nat)
    requires left > 0
    ensures SendLoop(script, nextRecv, left, deadline) == RestAt(script, 0, nextRecv, left, deadline)
  {
    assert script[0..] == script;
  }

  lemma UnfinishedBefore(script: seq<Event>, k: nat, nextRecv: nat, left: nat, deadline: nat)
    requires k > 0 && Unfinished(script, k, nextRecv, left, deadline)
    ensures Unfinished(script, k - 1, nextRecv, left, deadline) && GoesOn(script, k - 1, nextRecv, deadline)
  {
  }

  lemma LaterStep(r: Looped, n: nat, m: nat, x: Looped, y: Looped)
    requires n <= m && r == Later(n, x) && x == Later(m - n, y)
    ensures r == Later(m, y)
  {
  }

  /** After `k` events, the loop is where the script says. */
  lemma {:induction false} Reaches(script: seq<Event>, k: nat, nextRecv: nat, left: nat, deadline: nat)
    requires Unfinished(script, k, nextRecv, left, deadline)
    ensures SendLoop(script, nextRecv, left, deadline)
         == Later(TakenIn(script, k), RestAt(script, k, nextRecv, left, deadline))
  {
    var r := SendLoop(script, nextRecv, left, deadline);
    if k == 0 {
      RestAtStart(script, nextRecv, left, deadline);
      LaterTwice(0, 0, r);
    } else {
      UnfinishedBefore(script, k, nextRecv, left, deadline);
      Reaches(script, k - 1, nextRecv, left, deadline);
      OneStep(script, k - 1, nextRecv, left, deadline);
      LaterStep(r, TakenIn(script, k - 1), TakenIn(script, k), RestAt(script, k - 1, nextRecv, left, deadline),
                RestAt(script, k, nextRecv, left, deadline));
    }
  }

  // ----- how it ends -----

  /** The event at which sending ends decides the status. */
  lemma SendEnds(script: seq<Event>, k: nat, nextRecv: nat, left: nat, deadline: nat)
    requires Unfinished(script, k, nextRecv, left, deadline)
    ensures k == |script| ==>
              SendLoop(script, nextRecv, left, deadline)
              == Looped(Failure(0), TakenIn(script, k), [], HeartbeatAt(script, k, nextRecv))
    ensures k < |script| ==>
              var r := SendLoop(script, nextRecv, left, deadline);
              var n, h := TakenIn(script, k), HeartbeatAt(script, k, nextRecv);
              match script[k]
              case Took(m) =>
                if ReceiveDue(script, k) then r == Looped(Failure(0), n, script[k + 1..], h)
                else n + m >= left ==> r == Looped(Ok, left, script[k + 1..], h)
              case Blocked(p) =>
                if ReceiveDue(script, k) then r == Looped(Failure(0), n, script[k + 1..], h)
                else
                  && (p == Timeout && deadline <= h ==> r == Looped(Timeout, n, script[k + 1..], h))
                  && (p != Ok && p != Timeout ==> r == Looped(p, n, script[k + 1..], h))
              case Received(s, _) =>
                if !ReceiveDue(script, k) then r == Looped(Failure(0), n, script[k + 1..], h)
                else
                  && (s == Timeout ==> r == Looped(HeartbeatTimeout, n, script[k + 1..], h))
                  && (s != Ok && s != Timeout ==> r == Looped(s, n, script[k + 1..], h))
              case Renewed(_) => r == Looped(Failure(0), n, script[k + 1..], h)
  {
    Reaches(script, k, nextRecv, left, deadline);
    var s, h, n := script[k..], HeartbeatAt(script, k, nextRecv), left - TakenIn(script, k);
    if k < |script| {
      assert s[0] == script[k] && s[1..] == script[k + 1..];
      if !ReceiveDue(script, k) { FirstEvent(s, h, n, deadline); }
    }
  }

  lemma FirstEvent(script: seq<Event>, nextRecv: nat, left: nat, deadline: nat)
    requires script != [] && left > 0
    ensures var r := SendLoop(script, nextRecv, left, deadline);
            match script[0]
            case Took(m) => m >= left ==> r == Looped(Ok, left, script[1..], nextRecv)
            case Blocked(p) =>
              && (p == Timeout && deadline <= nextRecv ==> r == Looped(Timeout, 0, script[1..], nextRecv))
              && (p != Ok && p != Timeout ==> r == Looped(p, 0, script[1..], nextRecv))
            case _ => r == Looped(Failure(0), 0, script[1..], nextRecv)
  {
    var t := TryTo(script, left);
  }

  /** Every script has a first event with which sending does not go on, or goes on to its end. */
  lemma {:induction false} EndExists(script: seq<Event>, nextRecv: nat, left: nat, deadline: nat, i: nat) returns (k: nat)
    requires Unfinished(script, i, nextRecv, left, deadline)
    ensures Unfinished(script, k, nextRecv, left, deadline)
    ensures k < |script| ==> !Unfinished(script, k + 1, nextRecv, left, deadline)
    decreases |script| - i
  {
    k := i;
    if i < |script| && Unfinished(script, i + 1, nextRecv, left, deadline) {
      k := EndExists(script, nextRecv, left, deadline, i + 1);
    }
  }

  /** The send that completes the octets. */
  ghost predicate Completing(script: seq<Event>, k: nat, nextRecv: nat, left: nat, deadline: nat) {
    && Unfinished(script, k, nextRecv, left, deadline) && k < |script| && !ReceiveDue(script, k)
    && script[k].Took? && TakenIn(script, k) + script[k].n >= left
  }

  /** The poll that the deadline ends. */
  ghost predicate PastDeadline(script: seq<Event>, k: nat, nextRecv: nat, left: nat, deadline: nat) {
    && Unfinished(script, k, nextRecv, left, deadline) && k < |script| && !ReceiveDue(script, k)
    && script[k] == Blocked(Timeout) && deadline <= HeartbeatAt(script, k, nextRecv)
  }

  /** Everything was sent exactly when every poll and every receive before the completing send was
      successful or waited for a heartbeat in time; a timeout is reported exactly for a poll that the
      deadline ends. */
  lemma SendExact(script: seq<Event>, nextRecv: nat, left: nat, deadline: nat)
    requires left > 0
    ensures SendLoop(script, nextRecv, left, deadline).status == Ok
       <==> exists k: nat :: Completing(script, k, nextRecv, left, deadline)
    ensures SendLoop(script, nextRecv, left, deadline).status == Timeout
       <==> exists k: nat :: PastDeadline(script, k, nextRecv, left, deadline)
  {
    var k := EndExists(script, nextRecv, left, deadline, 0);
    EndIs(script, k, nextRecv, left, deadline);
    if i: nat :| Completing(script, i, nextRecv, left, deadline) { SendEnds(script, i, nextRecv, left, deadline); }
    if i: nat :| PastDeadline(script, i, nextRecv, left, deadline) { SendEnds(script, i, nextRecv, left, deadline); }
  }

  lemma EndIs(script: seq<Event>, k: nat, nextRecv: nat, left: nat, deadline: nat)
    requires Unfinished(script, k, nextRecv, left, deadline)
    requires k < |script| ==> !Unfinished(script, k + 1, nextRecv, left, deadline)
    ensures SendLoop(script, nextRecv, left, deadline).status == Ok ==> Completing(script, k, nextRecv, left, deadline)
    ensures SendLoop(script, nextRecv, left, deadline).status == Timeout ==>
              PastDeadline(script, k, nextRecv, left, deadline)
  {
    SendEnds(script, k, nextRecv, left, deadline);
    if k < |script| { StopsHere(script, k, nextRecv, left, deadline); }
  }

  lemma StopsHere(script: seq<Event>, k: nat, nextRecv: nat, left: nat, deadline: nat)
    requires Unfinished(script, k, nextRecv, left, deadline) && k < |script|
    requires !Unfinished(script, k + 1, nextRecv, left, deadline)
    ensures GoesOn(script, k, nextRecv, deadline) ==> Completing(script, k, nextRecv, left, deadline)
  {
  }

  // ----- frames and messages -----

  /** One frame: one that cannot be written takes nothing off the script; once all its octets are taken,
      the result is that of renewing the timer; else it is that of the loop. */
  lemma FrameSent(cat: Catalogue, f: Frame, cap: nat, script: seq<Event>, nextRecv: nat, deadline: nat)
    requires Representable(cat, f) && cap >= 20
    ensures var r := SendOne(cat, f, cap, script, nextRecv, deadline);
            match FrameBytes(cat, f, cap)
            case None => r == Looped(Failure(1), 0, script, nextRecv)
            case Some(w) =>
              && w != []
              && var l := SendLoop(script, nextRecv, |w|, deadline);
                 if l.status != Ok then r == l
                 else if l.script == [] then r == Looped(Failure(0), |w|, [], l.nextRecv)
                 else if l.script[0].Renewed? then r == Looped(l.script[0].result, |w|, l.script[1..], l.nextRecv)
                 else r == Looped(Failure(0), |w|, l.script[1..], l.nextRecv)
  {
  }

  /** Frames one behind the other: the later ones are sent, without a deadline, exactly when all those
      before them were. */
  lemma {:induction false} FramesSent(cat: Catalogue, fs: seq<Frame>, f: Frame, cap: nat, script: seq<Event>, nextRecv: nat)
    requires AllRepresentable(cat, fs) && Representable(cat, f) && cap >= 20
    ensures AllRepresentable(cat, fs + [f])
    ensures var r := SendAll(cat, fs, cap, script, nextRecv);
            SendAll(cat, fs + [f], cap, script, nextRecv)
            == if r.status != Ok then r
               else Later(r.n, SendOne(cat, f, cap, r.script, r.nextRecv, 0xFFFF_FFFF_FFFF_FFFF))
    decreases |fs|
  {
    AllRepresentableAppend(cat, fs, [f]);
    if fs == [] {
      assert [] + [f] == [f] + [];
      SendAllFirst(cat, f, [], cap, script, nextRecv);
      LaterTwice(0, 0, SendOne(cat, f, cap, script, nextRecv, FOREVER));
    } else {
      var g, rest := fs[0], fs[1..];
      assert fs == [g] + rest && fs + [f] == [g] + (rest + [f]);
      AllRepresentableAppend(cat, rest, [f]);
      SendAllFirst(cat, g, rest, cap, script, nextRecv);
      SendAllFirst(cat, g, rest + [f], cap, script, nextRecv);
      var a := SendOne(cat, g, cap, script, nextRecv, FOREVER);
      if a.status == Ok {
        FramesSent(cat, rest, f, cap, a.script, a.nextRecv);
        var b := SendAll(cat, rest, cap, a.script, a.nextRecv);
        if b.status == Ok { LaterTwice(a.n, b.n, SendOne(cat, f, cap, b.script, b.nextRecv, FOREVER)); }
      }
    }
  }

  /** Before a message: a clock that fails ends it, a heartbeat time that has passed asks for a receive,
      and the frames are sent only if that succeeds. */
  lemma PublishStarts(cat: Catalogue, fs: seq<Frame>, cap: nat, script: seq<Event>, nextRecv: nat, recvDue: Status)
    requires AllRepresentable(cat, fs) && cap >= 20
    ensures var r := Publishing(cat, fs, cap, script, nextRecv, recvDue);
            && (recvDue == TimerFailure ==> r == Looped(TimerFailure, 0, script, nextRecv))
            && (recvDue == Timeout && script != [] && script[0].Received? ==>
                  match script[0].result
                  case Ok => r == SendAll(cat, fs, cap, script[1..], script[0].nextRecv)
                  case Timeout => r == Looped(HeartbeatTimeout, 0, script[1..], nextRecv)
                  case s => r == Looped(s, 0, script[1..], nextRecv))
            && (recvDue != TimerFailure && recvDue != Timeout ==> r == SendAll(cat, fs, cap, script, nextRecv))
  {
  }

  /** The frames of a message: basic.publish, a header of class 60 with the body's size, and fragments
      of which all but the last are full. */
  lemma {:induction false} MessageFrames(channel: nat, args: seq<Field>, props: Props, body: seq<byte>, usable: nat)
    requires usable > 0
    ensures var fs := Message(channel, args, props, body, usable);
            && |fs| >= 2 && fs[0] == Method(channel, 0x003C0028, args) && fs[1] == Header(channel, 60, |body|, props)
            && FullBodies(fs[2..], channel, usable) && BodyOf(fs[2..]) == body
  {
    var fs := Message(channel, args, props, body, usable);
    assert fs[2..] == Fragments(channel, body, usable);
    FragmentsJoin(channel, body, usable);
    FragmentsFull(channel, body, usable);
  }

  ghost predicate FullBodies(fs: seq<Frame>, channel: nat, usable: nat) {
    forall i | 0 <= i < |fs| :: fs[i].Body? && fs[i].channel == channel
                                && (if i < |fs| - 1 then |fs[i].fragment| == usable else 0 < |fs[i].fragment| <= usable)
  }

  lemma {:induction false} FragmentsFull(channel: nat, body: seq<byte>, usable: nat)
    requires usable > 0
    ensures FullBodies(Fragments(channel, body, usable), channel, usable)
    decreases |body|
  {
    if body != [] {
      var n := if |body| >= usable then usable else |body|;
      FragmentsFull(channel, body[n..], usable);
      var fs := Fragments(channel, body, usable);
      assert fs == [Body(channel, body[..n])] + Fragments(channel, body[n..], usable);
      if |body| < usable { assert body[n..] == []; }
    }
  }
}
