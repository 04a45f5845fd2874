/** Sending frames over a socket that takes as much as it likes, and publishing a message as a
    method, a header and body fragments.  The socket and the clock are a script of results. */
module Sending {
  import opened Wire
  import opened Arguments
  import opened Properties
  import opened Frames

  datatype Status = Ok | Timeout | HeartbeatTimeout | TimerFailure | Failure(code: nat)

  /** What the next system call brings: a send that took `n` octets, a send that would have blocked
      and the outcome of polling, a receive and the new time to wait for heartbeats, the renewal of
      the send timer. */
  datatype Event = Took(n: nat) | Blocked(polled: Status) | Received(result: Status, nextRecv: nat) | Renewed(result: Status)

  const SCRIPT_OVER := Failure(0)

  /** `amqp_time_infinite`. */
  const FOREVER: nat := U64 - 1

  datatype Sent = Count(n: nat) | Refused(status: Status)

  /** `out` was extended by a prefix of `data`, in order and without repetition. */
  ghost predicate Extends(before: seq<byte>, after: seq<byte>, data: seq<byte>, n: nat) {
    n <= |data| && after == before + data[..n]
  }

  lemma ExtendsMore(a: seq<byte>, b: seq<byte>, c: seq<byte>, data: seq<byte>, n: nat, m: nat)
    requires n <= |data| && Extends(a, b, data, n) && Extends(b, c, data[n..], m)
    ensures Extends(a, c, data, n + m)
  {
    assert data[..n] + data[n..][..m] == data[..n + m];
    assert a + data[..n] + data[n..][..m] == a + (data[..n] + data[n..][..m]);
  }

  // ----- what a script amounts to -----

  /** The result of one `amqp_try_send` of `left` octets: how many were taken, and the script after. */
  datatype Tried = Tried(sent: Sent, n: nat, script: seq<Event>)

  function After(k: nat, t: Tried): Tried {
    Tried(if t.sent.Count? then Count(k + t.sent.n) else t.sent, k + t.n, t.script)
  }

  function TryTo(script: seq<Event>, left: nat): (t: Tried)
    requires left > 0
    ensures t.n <= left && (if t.sent.Count? then t.sent.n == t.n else t.sent.status != Ok)
    ensures script != [] ==> |t.script| < |script|
    decreases |script|
  {
    if script == [] then Tried(Refused(SCRIPT_OVER), 0, [])
    else
      match script[0]
      case Took(n) =>
        if n >= left then Tried(Count(left), left, script[1..]) else After(n, TryTo(script[1..], left - n))
      case Blocked(polled) =>
        if polled == Ok then TryTo(script[1..], left)
        else if polled == Timeout then Tried(Count(0), 0, script[1..])
        else Tried(Refused(polled), 0, script[1..])
      case _ => Tried(Refused(SCRIPT_OVER), 0, script[1..])
  }

  datatype Got = GotStatus(status: Status, script: seq<Event>, nextRecv: nat)

  function Receive(script: seq<Event>, nextRecv: nat): Got {
    if script == [] || !script[0].Received? then GotStatus(SCRIPT_OVER, if script == [] then [] else script[1..], nextRecv)
    else GotStatus(script[0].result, script[1..], if script[0].result == Ok then script[0].nextRecv else nextRecv)
  }

  /** How sending ended, the octets taken by then, and what is left of the script. */
  datatype Looped = Looped(status: Status, n: nat, script: seq<Event>, nextRecv: nat)

  function Later(k: nat, r: Looped): Looped { r.(n := k + r.n) }

  /** The loop of `amqp_send_frame_inner`: a partial send is a timeout if the deadline was the nearer
      one, and otherwise something must be received before the rest is sent. */
  function SendLoop(script: seq<Event>, nextRecv: nat, left: nat, deadline: nat): (r: Looped)
    requires left > 0
    ensures r.n <= left && (r.status == Ok ==> r.n == left)
    decreases |script|
  {
    if script == [] then Looped(SCRIPT_OVER, 0, script, nextRecv)
    else
      var t := TryTo(script, left);
      if t.sent.Refused? then Looped(t.sent.status, t.n, t.script, nextRecv)
      else if t.n == left then Looped(Ok, left, t.script, nextRecv)
      else if deadline <= nextRecv then Looped(Timeout, t.n, t.script, nextRecv)
      else
        var g := Receive(t.script, nextRecv);
        if g.status == Timeout then Looped(HeartbeatTimeout, t.n, g.script, g.nextRecv)
        else if g.status != Ok then Looped(g.status, t.n, g.script, g.nextRecv)
        else Later(t.n, SendLoop(g.script, g.nextRecv, left - t.n, deadline))
  }

  /** Renewing the send timer after a frame went out. */
  function Renewal(r: Looped): Looped {
    if r.script == [] then r.(status := SCRIPT_OVER)
    else r.(status := if r.script[0].Renewed? then r.script[0].result else SCRIPT_OVER, script := r.script[1..])
  }

  // ----- fragments -----

  const PUBLISH_METHOD: nat := 0x003C0028
  const BASIC_CLASS: nat := 0x003C

  /** The body frames: full ones, and what is left over. */
  function Fragments(channel: nat, body: seq<byte>, usable: nat): (fs: seq<Frame>)
    requires usable > 0
    ensures forall i | 0 <= i < |fs| :: fs[i].Body? && fs[i].channel == channel && 0 < |fs[i].fragment| <= usable
  {
    if body == [] then []
    else
      var n := if |body| >= usable then usable else |body|;
      [Body(channel, body[..n])] + Fragments(channel, body[n..], usable)
  }

  /** The bodies of all body frames, one behind the other. */
  function BodyOf(fs: seq<Frame>): seq<byte> {
    if fs == [] then [] else (if fs[0].Body? then fs[0].fragment else []) + BodyOf(fs[1..])
  }

  /** Fragmenting loses nothing. */
  lemma {:induction false} FragmentsJoin(channel: nat, body: seq<byte>, usable: nat)
    requires usable > 0
    ensures BodyOf(Fragments(channel, body, usable)) == body
    decreases |body|
  {
    if body != [] {
      var n := if |body| >= usable then usable else |body|;
      FragmentsJoin(channel, body[n..], usable);
      var fs := Fragments(channel, body, usable);
      assert fs[1..] == Fragments(channel, body[n..], usable);
      assert body == body[..n] + body[n..];
    }
  }

  lemma FragmentsSplit(channel: nat, body: seq<byte>, usable: nat, off: nat)
    requires usable > 0 && off < |body|
    ensures var n := if |body| - off >= usable then usable else |body| - off;
            Fragments(channel, body[off..], usable)
            == [Body(channel, body[off..off + n])] + Fragments(channel, body[off + n..], usable)
  {
    var n := if |body| - off >= usable then usable else |body| - off;
    assert body[off..][..n] == body[off..off + n] && body[off..][n..] == body[off + n..];
  }

  /** A message as frames. */
  function Message(channel: nat, args: seq<Field>, props: Props, body: seq<byte>, usable: nat): seq<Frame>
    requires usable > 0
  {
    [Method(channel, PUBLISH_METHOD, args), Header(channel, BASIC_CLASS, |body|, props)] + Fragments(channel, body, usable)
  }

  predicate AllRepresentable(cat: Catalogue, fs: seq<Frame>) { forall i | 0 <= i < |fs| :: Representable(cat, fs[i]) }

  /** The octets of a frame; one that cannot be written has none. */
  function OctetsOf(cat: Catalogue, f: Frame, cap: nat): (w: seq<byte>)
    requires Representable(cat, f) && cap >= 20
    ensures FrameBytes(cat, f, cap).Some? ==> w != []
  {
    if FrameBytes(cat, f, cap).Some? then FrameBytes(cat, f, cap).value else []
  }

  /** The octets of a sequence of frames. */
  function WireOf(cat: Catalogue, fs: seq<Frame>, cap: nat): seq<byte>
    requires AllRepresentable(cat, fs) && cap >= 20
  {
    if fs == [] then [] else OctetsOf(cat, fs[0], cap) + WireOf(cat, fs[1..], cap)
  }

  /** Frames that can be written and read back have the octets of the stream. */
  lemma {:induction false} WireIsStream(cat: Catalogue, fs: seq<Frame>, cap: nat)
    requires 20 <= cap < U32 && AllSendable(cat, fs, cap)
    ensures AllRepresentable(cat, fs) && WireOf(cat, fs, cap) == Stream(cat, fs, cap)
    decreases |fs|
  {
    assert forall i | 0 <= i < |fs| :: Sendable(cat, fs[i], cap);
    if fs != [] { WireIsStream(cat, fs[1..], cap); }
  }

  /** Sending one frame. */
  function SendOne(cat: Catalogue, f: Frame, cap: nat, script: seq<Event>, nextRecv: nat, deadline: nat): (r: Looped)
    requires Representable(cat, f) && cap >= 20
    ensures r.n <= |OctetsOf(cat, f, cap)| && (r.status == Ok ==> r.n == |OctetsOf(cat, f, cap)|)
  {
    if FrameBytes(cat, f, cap).None? then Looped(Failure(1), 0, script, nextRecv)
    else
      var r := SendLoop(script, nextRecv, |OctetsOf(cat, f, cap)|, deadline);
      if r.status == Ok then Renewal(r) else r
  }

  /** Sending frame after frame, until one of them fails: what was taken is a beginning of all their
      octets, and all of them if none fails. */
  function SendAll(cat: Catalogue, fs: seq<Frame>, cap: nat, script: seq<Event>, nextRecv: nat): (r: Looped)
    requires AllRepresentable(cat, fs) && cap >= 20
    ensures r.n <= |WireOf(cat, fs, cap)| && (r.status == Ok ==> r.n == |WireOf(cat, fs, cap)|)
    decreases |fs|
  {
    if fs == [] then Looped(Ok, 0, script, nextRecv)
    else
      var r := SendOne(cat, fs[0], cap, script, nextRecv, FOREVER);
      if r.status != Ok then r else Later(r.n, SendAll(cat, fs[1..], cap, r.script, r.nextRecv))
  }

  /** The check of the receiving heartbeat before a message is sent. */
  function Checked(recvDue: Status, script: seq<Event>, nextRecv: nat): Looped {
    if recvDue == TimerFailure then Looped(TimerFailure, 0, script, nextRecv)
    else if recvDue == Timeout then
      var g := Receive(script, nextRecv);
      Looped(if g.status == Timeout then HeartbeatTimeout else g.status, 0, g.script, g.nextRecv)
    else Looped(Ok, 0, script, nextRecv)
  }

  /** Publishing, as the script has it. */
  function Publishing(cat: Catalogue, fs: seq<Frame>, cap: nat, script: seq<Event>, nextRecv: nat, recvDue: Status): (r: Looped)
    requires AllRepresentable(cat, fs) && cap >= 20
    ensures r.n <= |WireOf(cat, fs, cap)| && (r.status == Ok ==> r.n == |WireOf(cat, fs, cap)|)
  {
    var c := Checked(recvDue, script, nextRecv);
    if c.status != Ok then c else SendAll(cat, fs, cap, c.script, c.nextRecv)
  }

  /** A socket that takes every frame at once and a clock that works. */
  function Willing(cat: Catalogue, fs: seq<Frame>, cap: nat): seq<Event>
    requires AllRepresentable(cat, fs) && cap >= 20
  {
    if fs == [] then [] else [Took(|OctetsOf(cat, fs[0], cap)|), Renewed(Ok)] + Willing(cat, fs[1..], cap)
  }

  /** With such a socket, sending succeeds exactly when every frame can be written. */
  lemma {:induction false} WillingSocket(cat: Catalogue, fs: seq<Frame>, cap: nat, nextRecv: nat)
    requires AllRepresentable(cat, fs) && cap >= 20
    ensures SendAll(cat, fs, cap, Willing(cat, fs, cap), nextRecv).status == Ok
       <==> forall i | 0 <= i < |fs| :: FrameBytes(cat, fs[i], cap).Some?
    decreases |fs|
  {
    if fs != [] {
      WillingSocket(cat, fs[1..], cap, nextRecv);
      WillingOne(cat, fs[0], cap, Willing(cat, fs[1..], cap), nextRecv);
      assert forall i | 1 <= i < |fs| :: fs[i] == fs[1..][i - 1];
      assert forall i | 0 <= i < |fs| - 1 :: fs[1..][i] == fs[i + 1];
    }
  }

  lemma WillingOne(cat: Catalogue, f: Frame, cap: nat, rest: seq<Event>, nextRecv: nat)
    requires Representable(cat, f) && cap >= 20
    ensures var w := |OctetsOf(cat, f, cap)|;
            var r := SendOne(cat, f, cap, [Took(w), Renewed(Ok)] + rest, nextRecv, FOREVER);
            if FrameBytes(cat, f, cap).Some? then r == Looped(Ok, w, rest, nextRecv) else r.status != Ok
  {
    var w := |OctetsOf(cat, f, cap)|;
    var script := [Took(w), Renewed(Ok)] + rest;
    assert script[0] == Took(w) && script[1..] == [Renewed(Ok)] + rest && ([Renewed(Ok)] + rest)[1..] == rest;
    if FrameBytes(cat, f, cap).Some? {
      assert TryTo(script, w) == Tried(Count(w), w, script[1..]);
      assert SendLoop(script, nextRecv, w, FOREVER) == Looped(Ok, w, script[1..], nextRecv);
    }
  }

  lemma AllRepresentableAppend(cat: Catalogue, fs: seq<Frame>, gs: seq<Frame>)
    requires AllRepresentable(cat, fs) && AllRepresentable(cat, gs)
    ensures AllRepresentable(cat, fs + gs)
  {
  }

  lemma MessageRepresentable(cat: Catalogue, channel: nat, args: seq<Field>, props: Props, body: seq<byte>, usable: nat)
    requires usable > 0 && channel < U16 && Representable(cat, Method(channel, PUBLISH_METHOD, args))
    requires Representable(cat, Header(channel, BASIC_CLASS, |body|, props))
    ensures AllRepresentable(cat, Message(channel, args, props, body, usable))
  {
    AllRepresentableAppend(cat, [Method(channel, PUBLISH_METHOD, args), Header(channel, BASIC_CLASS, |body|, props)],
                           Fragments(channel, body, usable));
  }

  lemma WireFirst(cat: Catalogue, f: Frame, fs: seq<Frame>, cap: nat)
    requires AllRepresentable(cat, [f] + fs) && cap >= 20
    ensures Representable(cat, f) && AllRepresentable(cat, fs)
    ensures WireOf(cat, [f] + fs, cap) == OctetsOf(cat, f, cap) + WireOf(cat, fs, cap)
  {
    assert ([f] + fs)[0] == f && ([f] + fs)[1..] == fs;
  }

  /** Sending the first of several frames, seen against all octets. */
  lemma SendFirst(cat: Catalogue, f: Frame, rest: seq<Frame>, cap: nat, script: seq<Event>, nextRecv: nat,
                  all: seq<byte>, n: nat)
    requires AllRepresentable(cat, [f] + rest) && cap >= 20 && n <= |all| && all[n..] == WireOf(cat, [f] + rest, cap)
    ensures Representable(cat, f) && AllRepresentable(cat, rest)
    ensures var r := SendOne(cat, f, cap, script, nextRecv, FOREVER);
            var goal := Later(n, SendAll(cat, [f] + rest, cap, script, nextRecv));
            && r.n <= |all| - n && OctetsOf(cat, f, cap)[..r.n] == all[n..][..r.n]
            && (if r.status != Ok then goal == Later(n, r)
                else all[n + r.n..] == WireOf(cat, rest, cap)
                     && goal == Later(n + r.n, SendAll(cat, rest, cap, r.script, r.nextRecv)))
  {
    SendAllFirst(cat, f, rest, cap, script, nextRecv);
    WireFirst(cat, f, rest, cap);
    WireTaken(all, n, OctetsOf(cat, f, cap), WireOf(cat, rest, cap), SendOne(cat, f, cap, script, nextRecv, FOREVER).n);
  }

  /** Of the octets still to be sent, the first `k` have been taken. */
  lemma WireTaken(all: seq<byte>, n: nat, w: seq<byte>, rest: seq<byte>, k: nat)
    requires n <= |all| && all[n..] == w + rest && k <= |w|
    ensures w[..k] == all[n..][..k] && (k == |w| ==> all[n + k..] == rest)
  {
    assert all[n..][k..] == all[n + k..];
  }

  lemma SendAllFirst(cat: Catalogue, f: Frame, fs: seq<Frame>, cap: nat, script: seq<Event>, nextRecv: nat)
    requires AllRepresentable(cat, [f] + fs) && cap >= 20
    ensures Representable(cat, f) && AllRepresentable(cat, fs)
    ensures var r := SendOne(cat, f, cap, script, nextRecv, FOREVER);
            SendAll(cat, [f] + fs, cap, script, nextRecv)
            == if r.status != Ok then r else Later(r.n, SendAll(cat, fs, cap, r.script, r.nextRecv))
  {
    WireFirst(cat, f, fs, cap);
  }

  // ----- the connection's sending side -----

  class Sender {
    const cat: Catalogue
    const outbound: array<byte>
    var script: seq<Event>
    var nextRecv: nat
    ghost var wire: seq<byte>

    ghost predicate Valid() { outbound.Length >= 20 }

    constructor (cat: Catalogue, frameMax: nat, script: seq<Event>)
      requires frameMax >= 20
      ensures Valid() && wire == [] && this.script == script && this.cat == cat
      ensures outbound.Length == frameMax && fresh(outbound)
    {
      this.cat, this.script, nextRecv, wire := cat, script, 0, [];
      outbound := new byte[frameMax];
    }

    method Next() returns (e: Event)
      requires script != []
      modifies `script
      ensures e == old(script)[0] && script == old(script)[1..]
    {
      e := script[0];
      script := script[1..];
    }

    /** The first `n` octets have been taken, and trying to send the rest will end with `goal`. */
    ghost predicate Trying(start: seq<byte>, data: seq<byte>, n: nat, goal: Tried)
      reads this
    {
      match goal
      case Tried(_, total, _) =>
        n <= total && n < |data| && Extends(start, wire, data, n) && goal == After(n, TryTo(script, |data| - n))
    }

    /** `amqp_try_send`: until everything is taken, or polling times out or fails.  A send that takes
        nothing is tried again. */
    method TrySend(data: seq<byte>) returns (r: Sent, ghost n: nat)
      requires data != []
      modifies `script, `wire
      ensures Extends(old(wire), wire, data, n)
      ensures Tried(r, n, script) == TryTo(old(script), |data|)
    {
      var sent := 0;
      n := 0;
      assert old(wire) + data[..0] == old(wire);
      while script != []
        invariant sent == n && Trying(old(wire), data, n, TryTo(old(script), |data|))
        decreases |script|
      {
        var e := Next();
        if e.Took? {
          var k := if e.n <= |data| - sent then e.n else |data| - sent;
          Put(data, sent, k, old(wire));
          sent := sent + k;
          n := n + k;
          if sent == |data| { return Count(sent), n; }
        } else if e.Blocked? {
          if e.polled == Timeout { return Count(sent), n; }
          if e.polled != Ok { return Refused(e.polled), n; }
        } else {
          return Refused(SCRIPT_OVER), n;
        }
      }
      r := Refused(SCRIPT_OVER);
    }

    /** The socket takes `k` octets. */
    ghost method Put(data: seq<byte>, sent: nat, k: nat, start: seq<byte>)
      requires sent + k <= |data| && Extends(start, wire, data, sent)
      modifies `wire
      ensures Extends(start, wire, data, sent + k)
    {
      wire := wire + data[sent..sent + k];
      assert start + data[..sent] + data[sent..sent + k] == start + data[..sent + k];
    }

    /** `amqp_try_recv`, as far as sending is concerned: its result and the new heartbeat time. */
    method TryRecv() returns (status: Status)
      modifies `script, `nextRecv
      ensures GotStatus(status, script, nextRecv) == Receive(old(script), old(nextRecv))
    {
      if script == [] { return SCRIPT_OVER; }
      var e := Next();
      if !e.Received? { return SCRIPT_OVER; }
      if e.result == Ok { nextRecv := e.nextRecv; }
      status := e.result;
    }

    /** `amqp_send_frame_inner`: whatever the socket does, what goes onto the wire is a prefix of the
        frame's octets, once and in order; how many, and the result, is what the script dictates. */
    method SendFrame(f: Frame, deadline: nat) returns (status: Status, ghost n: nat)
      requires Valid() && Representable(cat, f) && (f.Body? ==> |f.fragment| + 8 <= outbound.Length)
      modifies `script, `wire, `nextRecv, outbound
      ensures Extends(old(wire), wire, OctetsOf(cat, f, outbound.Length), n)
      ensures Looped(status, n, script, nextRecv)
           == SendOne(cat, f, outbound.Length, old(script), old(nextRecv), deadline)
    {
      n := 0;
      var encoded := WriteFrame(cat, f, outbound);
      if encoded.None? {
        assert wire + [] == wire;
        return Failure(1), n;
      }
      var data := outbound[..encoded.value];
      status, n := SendOctets(data, deadline);
      if status == Ok { status := RenewTimer(n); }
    }

    method RenewTimer(ghost n: nat) returns (status: Status)
      modifies `script
      ensures Looped(status, n, script, nextRecv) == Renewal(Looped(Ok, n, old(script), nextRecv))
    {
      if script == [] { return SCRIPT_OVER; }
      var e := Next();
      status := if e.Renewed? then e.result else SCRIPT_OVER;
    }

    /** The loop of `amqp_send_frame_inner`. */
    method SendOctets(data: seq<byte>, deadline: nat) returns (status: Status, ghost n: nat)
      requires data != []
      modifies `script, `wire, `nextRecv
      ensures Extends(old(wire), wire, data, n)
      ensures Looped(status, n, script, nextRecv) == SendLoop(old(script), old(nextRecv), |data|, deadline)
    {
      n := 0;
      ghost var goal := SendLoop(script, nextRecv, |data|, deadline);
      var rest := data;
      assert old(wire) + data[..0] == old(wire);
      while true
        invariant n < |data| && rest == data[n..] && Extends(old(wire), wire, data, n)
        invariant goal == Later(n, SendLoop(script, nextRecv, |rest|, deadline))
        decreases |script|
      {
        if script == [] { return SCRIPT_OVER, n; }
        ghost var before, k := wire, 0;
        var taken: nat;
        status, taken, k := SendPart(rest, deadline);
        ExtendsMore(old(wire), before, wire, data, n, k);
        n := n + k;
        if status != Ok || taken == |rest| { return; }
        rest := rest[taken..];
      }
    }

    /** One turn of it: a try to send everything, and if that was not possible, a receive. */
    method SendPart(data: seq<byte>, deadline: nat) returns (status: Status, taken: nat, ghost n: nat)
      requires data != [] && script != []
      modifies `script, `wire, `nextRecv
      ensures Extends(old(wire), wire, data, n) && |script| < |old(script)|
      ensures status == Ok ==> taken == n
      ensures SendLoop(old(script), old(nextRecv), |data|, deadline)
           == if status == Ok && n < |data| then Later(n, SendLoop(script, nextRecv, |data| - n, deadline))
              else Looped(status, n, script, nextRecv)
    {
      var nextTimeout := if deadline < nextRecv then deadline else nextRecv;
      var sent: Sent;
      sent, n := TrySend(data);
      taken := if sent.Count? then sent.n else 0;
      if sent.Refused? { return sent.status, taken, n; }
      if taken == |data| { return Ok, taken, n; }
      if nextTimeout == deadline { return Timeout, taken, n; }
      var received := TryRecv();
      status := if received == Timeout then HeartbeatTimeout else received;
    }

    /** Of the octets `all`, the first `n` went out; those of `rest` are still to come, and how that
        will end is `goal`. */
    ghost predicate Underway(start: seq<byte>, all: seq<byte>, n: nat, rest: seq<Frame>, goal: Looped)
      requires Valid()
      reads this
    {
      match goal
      case Looped(_, total, _, _) =>
        && n <= total && Extends(start, wire, all, n)
        && AllRepresentable(cat, rest) && all[n..] == WireOf(cat, rest, outbound.Length)
        && goal == Later(n, SendAll(cat, rest, outbound.Length, script, nextRecv))
    }

    ghost predicate Over(start: seq<byte>, all: seq<byte>, n: nat, status: Status, goal: Looped)
      reads this
    {
      match goal
      case Looped(s, k, rest, next) =>
        s == status && k == n && rest == script && next == nextRecv && Extends(start, wire, all, n)
    }

    /** One more frame of a message, sent without a deadline. */
    method SendNext(f: Frame, ghost start: seq<byte>, ghost all: seq<byte>, ghost n: nat, ghost rest: seq<Frame>,
                    ghost goal: Looped)
      returns (status: Status, ghost n': nat)
      requires Valid() && Representable(cat, f) && (f.Body? ==> |f.fragment| + 8 <= outbound.Length)
      requires Underway(start, all, n, [f] + rest, goal)
      modifies `script, `wire, `nextRecv, outbound
      ensures status == Ok ==> Underway(start, all, n', rest, goal)
      ensures status != Ok ==> Over(start, all, n', status, goal)
    {
      ghost var before, k := wire, 0;
      SendFirst(cat, f, rest, outbound.Length, script, nextRecv, all, n);
      status, k := SendFrame(f, FOREVER);
      n' := n + k;
      ExtendsMore(start, before, wire, all, n, k);
    }

    /** One turn of the fragmentation loop. */
    method SendFragment(channel: nat, body: seq<byte>, off: nat, ghost start: seq<byte>, ghost all: seq<byte>, ghost n: nat,
                        ghost goal: Looped)
      returns (status: Status, next: nat, ghost n': nat)
      requires Valid() && channel < U16 && off < |body|
      requires Underway(start, all, n, Fragments(channel, body[off..], outbound.Length - 8), goal)
      modifies `script, `wire, `nextRecv, outbound
      ensures off < next <= |body|
      ensures status == Ok ==> Underway(start, all, n', Fragments(channel, body[next..], outbound.Length - 8), goal)
      ensures status != Ok ==> Over(start, all, n', status, goal)
    {
      var usable := outbound.Length - 8;
      next := off + if |body| - off >= usable then usable else |body| - off;
      FragmentsSplit(channel, body, usable, off);
      var f := Body(channel, body[off..next]);
      ghost var rest := Fragments(channel, body[next..], outbound.Length - 8);
      SameUnderway(start, all, n, Fragments(channel, body[off..], outbound.Length - 8), [f] + rest, goal);
      status, n' := SendNext(f, start, all, n, rest, goal);
    }

    lemma SameUnderway(start: seq<byte>, all: seq<byte>, n: nat, fs: seq<Frame>, gs: seq<Frame>, goal: Looped)
      requires Valid() && Underway(start, all, n, fs, goal) && gs == fs
      ensures Underway(start, all, n, gs, goal)
    {
    }

    /** The fragmentation loop of `amqp_basic_publish`. */
    method SendBody(channel: nat, body: seq<byte>, ghost start: seq<byte>, ghost all: seq<byte>, ghost n: nat,
                    ghost goal: Looped)
      returns (status: Status, ghost n': nat)
      requires Valid() && channel < U16
      requires Underway(start, all, n, Fragments(channel, body, outbound.Length - 8), goal)
      modifies `script, `wire, `nextRecv, outbound
      ensures Over(start, all, n', status, goal)
    {
      n' := n;
      var off := 0;
      assert body[0..] == body;
      while off < |body|
        invariant off <= |body| && Underway(start, all, n', Fragments(channel, body[off..], outbound.Length - 8), goal)
      {
        status, off, n' := SendFragment(channel, body, off, start, all, n', goal);
        if status != Ok { return; }
      }
      status := Ok;
      assert Fragments(channel, body[off..], outbound.Length - 8) == [];
      AllSent(start, all, n', goal);
    }

    lemma AllSent(start: seq<byte>, all: seq<byte>, n: nat, goal: Looped)
      requires Valid() && Underway(start, all, n, [], goal)
      ensures Over(start, all, n, Ok, goal)
    {
    }

    /** `amqp_basic_publish`: `recvDue` is what the clock says about the receiving heartbeat.  What goes
        onto the wire is a beginning of the octets of method, header and fragments, in this order: how
        much of them, and the result, is what the script dictates, and all of them if the result is
        `Ok`. */
    method Publish(channel: nat, args: seq<Field>, props: Props, body: seq<byte>, recvDue: Status)
      returns (status: Status, ghost n: nat)
      requires Valid() && channel < U16
      requires Representable(cat, Method(channel, PUBLISH_METHOD, args))
      requires Representable(cat, Header(channel, BASIC_CLASS, |body|, props))
      modifies `script, `wire, `nextRecv, outbound
      ensures var frames := Message(channel, args, props, body, outbound.Length - 8);
              && AllRepresentable(cat, frames)
              && Extends(old(wire), wire, WireOf(cat, frames, outbound.Length), n)
              && Looped(status, n, script, nextRecv)
                 == Publishing(cat, frames, outbound.Length, old(script), old(nextRecv), recvDue)
    {
      status, n := Ok, 0;
      var m, h := Method(channel, PUBLISH_METHOD, args), Header(channel, BASIC_CLASS, |body|, props);
      ghost var fragments := Fragments(channel, body, outbound.Length - 8);
      ghost var frames := Message(channel, args, props, body, outbound.Length - 8);
      MessageRepresentable(cat, channel, args, props, body, outbound.Length - 8);
      ghost var start, all := wire, WireOf(cat, frames, outbound.Length);
      assert start + all[..0] == start;
      if recvDue == TimerFailure { return TimerFailure, n; }
      if recvDue == Timeout {
        status := TryRecv();
        if status == Timeout { return HeartbeatTimeout, n; }
        if status != Ok { return; }
      }
      ghost var goal := SendAll(cat, frames, outbound.Length, script, nextRecv);
      assert frames == [m] + ([h] + fragments);
      assert Underway(start, all, 0, [m] + ([h] + fragments), goal) by { assert all[0..] == all; }
      status, n := SendNext(m, start, all, 0, [h] + fragments, goal);
      if status != Ok { return; }
      status, n := SendNext(h, start, all, n, fragments, goal);
      if status != Ok { return; }
      status, n := SendBody(channel, body, start, all, n, goal);
    }
  }
}
