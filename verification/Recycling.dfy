/** When memory is recycled.  Frames, the links that queue them and the frame being read all live in
    the pool of their channel, and a pool is recycled only between frames and when nothing of its
    channel is queued.  The steps of the library, in any order, never recycle what is still needed. */
module Recycling {
  import opened Wire
  import opened AmqpPool

  const LINK_SIZE: nat := 16
  const FRAME_SIZE: nat := 48

  /** Memory as it was handed out: by a pool that had been recycled `epoch` times. */
  datatype Grant = Grant(epoch: nat, region: Region)

  /** Memory of a channel's pool that somebody still needs. */
  datatype Claim = Claim(channel: nat, grant: Grant)

  /** A frame outside the queue: its raw octets and what decoding allocated for it. */
  datatype Loose = Loose(channel: nat, parts: seq<Grant>)

  /** A queued frame, with its link and its copy of the frame struct. */
  datatype Queued = Queued(frame: Loose, link: Grant, copy: Grant)

  /** Between frames, inside a header, or inside a frame whose buffer has been allocated. */
  datatype Mode = Idle | Gathering | Reading(frame: Loose)

  /** `held` is the frame last handed to the caller. */
  datatype State = State(frameMax: nat, pools: map<nat, History>, mode: Mode, queue: seq<Queued>, held: Option<Loose>)

  function Start(frameMax: nat): State { State(frameMax, map[], Gathering, [], None) }

  // ----- the steps -----

  datatype Event =
    | Begin                                // first octet of a frame
    | Header(channel: nat, size: nat)      // header complete: the frame's buffer
    | Decode(size: nat)                    // an allocation for the frame being completed
    | Finish                               // the frame goes to the caller
    | Scratch(channel: nat, size: nat)     // any other allocation
    | Requeue(front: bool)                 // the caller's frame is queued, or put back
    | Take(index: nat)                     // a queued frame is taken; what was before it is dropped
    | Release(channel: nat)                // amqp_maybe_release_buffers_on_channel
    | ReleaseAll                           // amqp_maybe_release_buffers

  function PoolOf(s: State, channel: nat): History {
    if channel in s.pools then s.pools[channel] else Fresh(s.frameMax)
  }

  datatype Granted = Granted(state: State, parts: seq<Grant>)

  /** An allocation from the channel's pool, which is created if need be. */
  function Allocate(s: State, channel: nat, size: nat): Granted {
    var h := PoolOf(s, channel);
    var r := Alloc(h.pool, size).region;
    Granted(s.(pools := s.pools[channel := AmqpPool.Step(h, Request(size))]),
            if r.Some? && r.value.len > 0 then [Grant(h.epoch, r.value)] else [])
  }

  predicate QueuedOn(queue: seq<Queued>, channel: nat) {
    exists i :: 0 <= i < |queue| && queue[i].frame.channel == channel
  }

  /** The pool is recycled: its channel is not queued, no frame is half read. */
  predicate Recyclable(s: State, channel: nat) {
    s.mode.Idle? && !QueuedOn(s.queue, channel) && channel in s.pools
  }

  /** The caller gives up a frame when its channel's memory is released. */
  function StillHeld(s: State, gone: set<nat>): Option<Loose> {
    if s.held.Some? && s.held.value.channel in gone then None else s.held
  }

  function Recycled(s: State, gone: set<nat>): State
    requires gone <= s.pools.Keys
  {
    s.(pools := map c | c in s.pools :: if c in gone then AmqpPool.Step(s.pools[c], Reuse) else s.pools[c],
       held := StillHeld(s, gone))
  }

  /** The step recycles the pool of the channel. */
  predicate Recycles(s: State, e: Event, channel: nat) {
    (e == Release(channel) || e == ReleaseAll) && Recyclable(s, channel)
  }

  /** The channels whose pools the step recycles. */
  function Gone(s: State, e: Event): (gone: set<nat>)
    ensures gone <= s.pools.Keys
    ensures forall c :: c in gone <==> Recycles(s, e, c)
  {
    set c | c in s.pools && Recycles(s, e, c)
  }

  function Released(s: State, gone: set<nat>): State
    requires gone <= s.pools.Keys
  {
    if gone == {} then s else Recycled(s, gone)
  }

  function QueueFrame(s: State, f: Loose, front: bool): State {
    var link := Allocate(s, f.channel, LINK_SIZE);
    var copy := Allocate(link.state, f.channel, FRAME_SIZE);
    if link.parts == [] || copy.parts == [] then copy.state
    else
      var q := Queued(f, link.parts[0], copy.parts[0]);
      copy.state.(queue := if front then [q] + s.queue else s.queue + [q])
  }

  /** The header is complete: the frame's buffer is allocated. */
  function Headed(s: State, channel: nat, size: nat): State {
    var g := Allocate(s, channel, size);
    if g.parts == [] then s else g.state.(mode := Reading(Loose(channel, g.parts)))
  }

  function Decoded(s: State, f: Loose, size: nat): State {
    var g := Allocate(s, f.channel, size);
    g.state.(mode := Reading(Loose(f.channel, f.parts + g.parts)))
  }

  function Finished(s: State, f: Loose): State { s.(mode := Idle, held := Some(f)) }

  function Taken(s: State, k: nat): State
    requires k < |s.queue|
  {
    s.(queue := s.queue[k + 1..], held := Some(s.queue[k].frame))
  }

  function Step(s: State, e: Event): State {
    match e
    case Begin => if s.mode.Idle? then s.(mode := Gathering) else s
    case Header(c, n) => if s.mode.Gathering? then Headed(s, c, n) else s
    case Decode(n) => if s.mode.Reading? then Decoded(s, s.mode.frame, n) else s
    case Finish => if s.mode.Reading? then Finished(s, s.mode.frame) else s
    case Scratch(c, n) => Allocate(s, c, n).state
    case Requeue(front) => if s.held.Some? then QueueFrame(s.(held := None), s.held.value, front) else s
    case Take(k) => if k < |s.queue| then Taken(s, k) else s
    case Release(_) => Released(s, Gone(s, e))
    case ReleaseAll => Released(s, Gone(s, e))
  }

  function Run(s: State, events: seq<Event>): State
    decreases |events|
  {
    if events == [] then s else Run(Step(s, events[0]), events[1..])
  }

  // ----- what is still needed -----

  function PartClaims(channel: nat, parts: seq<Grant>): multiset<Claim> {
    if parts == [] then multiset{} else multiset{Claim(channel, parts[0])} + PartClaims(channel, parts[1..])
  }

  function FrameClaims(f: Loose): multiset<Claim> { PartClaims(f.channel, f.parts) }

  function QueuedClaims(q: Queued): multiset<Claim> {
    FrameClaims(q.frame) + multiset{Claim(q.frame.channel, q.link), Claim(q.frame.channel, q.copy)}
  }

  function QueueClaims(queue: seq<Queued>): multiset<Claim> {
    if queue == [] then multiset{} else QueuedClaims(queue[0]) + QueueClaims(queue[1..])
  }

  function ReadingClaims(m: Mode): multiset<Claim> { if m.Reading? then FrameClaims(m.frame) else multiset{} }

  function HeldClaims(held: Option<Loose>): multiset<Claim> {
    if held.Some? then FrameClaims(held.value) else multiset{}
  }

  function Claims(s: State): multiset<Claim> { Total(QueueClaims(s.queue), ReadingClaims(s.mode), HeldClaims(s.held)) }

  function Total(q: multiset<Claim>, r: multiset<Claim>, h: multiset<Claim>): multiset<Claim> { q + r + h }

  lemma TotalMore(q: multiset<Claim>, r: multiset<Claim>, h: multiset<Claim>, x: multiset<Claim>)
    ensures Total(q + x, r, h) == Total(q, r, h) + x
    ensures Total(q, r + x, h) == Total(q, r, h) + x
  {
  }

  lemma TotalLess(q: multiset<Claim>, r: multiset<Claim>, h: multiset<Claim>,
                  q': multiset<Claim>, r': multiset<Claim>, h': multiset<Claim>)
    requires q' <= q && r' <= r && h' <= h
    ensures Total(q', r', h') <= Total(q, r, h)
  {
  }

  lemma Regroup(x: multiset<Claim>, y: multiset<Claim>, z: multiset<Claim>)
    ensures x + (y + z) == x + y + z
    ensures x + y == y + x
  {
  }

  /** In the pool of its channel, handed out since that pool was last recycled. */
  ghost predicate Live(pools: map<nat, History>, c: Claim) {
    && c.channel in pools && c.grant.epoch == pools[c.channel].epoch
    && c.grant.region in pools[c.channel].live && c.grant.region.len > 0
  }

  /** No memory is claimed twice. */
  ghost predicate Apart(m: multiset<Claim>) {
    && (forall a | a in m :: m[a] == 1)
    && (forall a, b {:trigger Disjoint(a.grant.region, b.grant.region)} |
          a in m && b in m && a != b && a.channel == b.channel :: Disjoint(a.grant.region, b.grant.region))
  }

  ghost predicate Covered(pools: map<nat, History>, m: multiset<Claim>) {
    && (forall c | c in pools :: AmqpPool.Valid(pools[c]))
    && (forall a | a in m :: Live(pools, a))
    && Apart(m)
  }

  /** Everything still needed is live and apart. */
  ghost predicate Safe(s: State) {
    match s case State(frameMax, pools, _, _, _) => frameMax > 0 && Covered(pools, Claims(s))
  }

  /** And so is what somebody else needs. */
  ghost predicate SafeWith(s: State, x: multiset<Claim>) {
    match s case State(frameMax, pools, _, _, _) => frameMax > 0 && Covered(pools, Claims(s) + x)
  }

  lemma SafeAlone(s: State)
    ensures Safe(s) <==> SafeWith(s, multiset{})
  {
    assert Claims(s) + multiset{} == Claims(s);
  }

  // ----- claims -----

  lemma CoveredLess(pools: map<nat, History>, m: multiset<Claim>, less: multiset<Claim>)
    requires Covered(pools, m) && less <= m
    ensures Covered(pools, less)
  {
    assert forall a | a in less :: a in m && less[a] == 1;
  }

  lemma {:induction false} PartClaimsMore(channel: nat, parts: seq<Grant>, r: Grant)
    ensures PartClaims(channel, parts + [r]) == PartClaims(channel, parts) + multiset{Claim(channel, r)}
    decreases |parts|
  {
    if parts == [] {
      assert parts + [r] == [r] && [r][1..] == [];
    } else {
      assert (parts + [r])[1..] == parts[1..] + [r];
      PartClaimsMore(channel, parts[1..], r);
      Regroup(multiset{Claim(channel, parts[0])}, PartClaims(channel, parts[1..]), multiset{Claim(channel, r)});
    }
  }

  lemma {:induction false} QueueClaimsBack(queue: seq<Queued>, q: Queued)
    ensures QueueClaims(queue + [q]) == QueueClaims(queue) + QueuedClaims(q)
    decreases |queue|
  {
    if queue == [] {
      assert queue + [q] == [q] && [q][1..] == [];
    } else {
      var first, rest := queue[0], queue[1..];
      assert (queue + [q])[0] == first && (queue + [q])[1..] == rest + [q];
      QueueClaimsBack(rest, q);
      Regroup(QueuedClaims(first), QueueClaims(rest), QueuedClaims(q));
    }
  }

  lemma QueueClaimsFront(queue: seq<Queued>, q: Queued)
    ensures QueueClaims([q] + queue) == QueueClaims(queue) + QueuedClaims(q)
  {
    assert ([q] + queue)[1..] == queue;
    Regroup(QueuedClaims(q), QueueClaims(queue), multiset{});
  }

  lemma QueueHead(queue: seq<Queued>)
    requires queue != []
    ensures QueueClaims(queue) == QueuedClaims(queue[0]) + QueueClaims(queue[1..])
    ensures QueueClaims(queue[1..]) + FrameClaims(queue[0].frame) <= QueueClaims(queue)
  {
    FrameAmong(queue[0]);
    var a, b, c := FrameClaims(queue[0].frame), QueuedClaims(queue[0]), QueueClaims(queue[1..]);
    assert a <= b ==> c + a <= b + c;
  }

  lemma FrameAmong(q: Queued)
    ensures FrameClaims(q.frame) <= QueuedClaims(q)
  {
  }

  lemma Larger(a: multiset<Claim>, b: multiset<Claim>, x: multiset<Claim>)
    requires a <= b
    ensures a <= x + b
  {
  }

  /** Taking a frame claims no more than the queue did. */
  lemma {:induction false} QueueClaimsTake(queue: seq<Queued>, k: nat)
    requires k < |queue|
    ensures QueueClaims(queue[k + 1..]) + FrameClaims(queue[k].frame) <= QueueClaims(queue)
    decreases k
  {
    QueueHead(queue);
    if k > 0 {
      var rest := queue[1..];
      assert rest[k..] == queue[k + 1..] && rest[k - 1] == queue[k];
      QueueClaimsTake(rest, k - 1);
      Larger(QueueClaims(rest[k..]) + FrameClaims(rest[k - 1].frame), QueueClaims(rest), QueuedClaims(queue[0]));
    }
  }

  lemma {:induction false} PartChannels(channel: nat, parts: seq<Grant>)
    ensures forall a | a in PartClaims(channel, parts) :: a.channel == channel
    decreases |parts|
  {
    if parts != [] { PartChannels(channel, parts[1..]); }
  }

  lemma QueuedChannel(q: Queued, a: Claim)
    requires a in QueuedClaims(q)
    ensures a.channel == q.frame.channel
  {
    PartChannels(q.frame.channel, q.frame.parts);
  }

  lemma InRest(a: Claim, x: multiset<Claim>, y: multiset<Claim>)
    requires a in x + y && a !in x
    ensures a in y
  {
  }

  /** A claim of the queue is a claim of one of its frames. */
  lemma {:induction false} QueueChannel(queue: seq<Queued>, a: Claim) returns (i: nat)
    requires a in QueueClaims(queue)
    ensures i < |queue| && queue[i].frame.channel == a.channel
    decreases |queue|
  {
    if a in QueuedClaims(queue[0]) {
      QueuedChannel(queue[0], a);
      i := 0;
    } else {
      InRest(a, QueuedClaims(queue[0]), QueueClaims(queue[1..]));
      i := QueueChannel(queue[1..], a);
      i := i + 1;
    }
  }

  lemma QueueChannels(queue: seq<Queued>)
    ensures forall a | a in QueueClaims(queue) :: QueuedOn(queue, a.channel)
  {
    forall a | a in QueueClaims(queue) ensures QueuedOn(queue, a.channel) {
      var i := QueueChannel(queue, a);
    }
  }

  // ----- every step is safe -----

  lemma PoolGrows(s: State, channel: nat, size: nat, m: multiset<Claim>)
    requires s.frameMax > 0 && Covered(s.pools, m)
    ensures Covered(Allocate(s, channel, size).state.pools, m)
  {
    var g := Allocate(s, channel, size);
    AllocValid(PoolOf(s, channel), size);
    forall a | a in m ensures Live(g.state.pools, a) { assert Live(s.pools, a); }
  }

  lemma NewPart(s: State, channel: nat, size: nat, m: multiset<Claim>)
    requires s.frameMax > 0 && Covered(s.pools, m) && Allocate(s, channel, size).parts != []
    ensures var g := Allocate(s, channel, size);
            && Live(g.state.pools, Claim(channel, g.parts[0]))
            && forall a | a in m && a.channel == channel ::
                 a.grant != g.parts[0] && Disjoint(a.grant.region, g.parts[0].region)
  {
    var h, g := PoolOf(s, channel), Allocate(s, channel, size);
    AllocTaken(h, size);
    assert g.state.pools[channel].live[|h.live|] == g.parts[0].region;
    forall a | a in m && a.channel == channel
      ensures a.grant != g.parts[0] && Disjoint(a.grant.region, g.parts[0].region)
    {
      assert Live(s.pools, a);
    }
  }

  lemma CoveredMore(pools: map<nat, History>, m: multiset<Claim>, c: Claim)
    requires Covered(pools, m) && Live(pools, c)
    requires forall a | a in m && a.channel == c.channel :: a.grant != c.grant && Disjoint(a.grant.region, c.grant.region)
    ensures Covered(pools, m + multiset{c})
  {
  }

  /** What is newly allocated is live and apart from every claim. */
  lemma AllocateCovers(s: State, channel: nat, size: nat, m: multiset<Claim>)
    requires s.frameMax > 0 && Covered(s.pools, m)
    ensures var g := Allocate(s, channel, size);
            && g.state == s.(pools := g.state.pools) && |g.parts| <= 1
            && Covered(g.state.pools, m)
            && (g.parts != [] ==> Covered(g.state.pools, m + multiset{Claim(channel, g.parts[0])}))
  {
    PoolGrows(s, channel, size, m);
    var g := Allocate(s, channel, size);
    if g.parts != [] {
      NewPart(s, channel, size, m);
      CoveredMore(g.state.pools, m, Claim(channel, g.parts[0]));
    }
  }

  lemma AllocateSafe(s: State, channel: nat, size: nat, x: multiset<Claim>)
    requires SafeWith(s, x)
    ensures SafeWith(Allocate(s, channel, size).state, x)
  {
    AllocateCovers(s, channel, size, Claims(s) + x);
  }

  lemma Shuffle(a: multiset<Claim>, b: multiset<Claim>, c: multiset<Claim>)
    ensures a + b + c == a + c + b
  {
  }

  /** One more part of the frame being read. */
  lemma PartAdded(s: State, s': State, channel: nat, parts: seq<Grant>, r: Grant, x: multiset<Claim>)
    requires s'.queue == s.queue && s'.held == s.held
    requires ReadingClaims(s.mode) == PartClaims(channel, parts)
    requires s'.mode == Reading(Loose(channel, parts + [r]))
    ensures Claims(s') + x == Claims(s) + x + multiset{Claim(channel, r)}
  {
    PartClaimsMore(channel, parts, r);
    TotalMore(QueueClaims(s.queue), ReadingClaims(s.mode), HeldClaims(s.held), multiset{Claim(channel, r)});
    Shuffle(Claims(s), x, multiset{Claim(channel, r)});
  }

  lemma HeaderSafe(s: State, channel: nat, size: nat, x: multiset<Claim>)
    requires SafeWith(s, x) && s.mode.Gathering?
    ensures SafeWith(Headed(s, channel, size), x)
  {
    var g := Allocate(s, channel, size);
    AllocateCovers(s, channel, size, Claims(s) + x);
    if g.parts != [] {
      assert g.parts == [] + [g.parts[0]];
      PartAdded(s, Headed(s, channel, size), channel, [], g.parts[0], x);
    }
  }

  lemma DecodeSafe(s: State, f: Loose, size: nat, x: multiset<Claim>)
    requires SafeWith(s, x) && s.mode == Reading(f)
    ensures SafeWith(Decoded(s, f, size), x)
  {
    var g := Allocate(s, f.channel, size);
    AllocateCovers(s, f.channel, size, Claims(s) + x);
    if g.parts != [] {
      assert g.parts == [g.parts[0]];
      PartAdded(s, Decoded(s, f, size), f.channel, f.parts, g.parts[0], x);
    } else {
      assert f.parts + g.parts == f.parts;
    }
  }

  lemma QueueOneClaims(s: State, q: Queued, front: bool)
    ensures var s' := s.(queue := if front then [q] + s.queue else s.queue + [q]);
            Claims(s') == Claims(s) + QueuedClaims(q)
  {
    if front { QueueClaimsFront(s.queue, q); } else { QueueClaimsBack(s.queue, q); }
    TotalMore(QueueClaims(s.queue), ReadingClaims(s.mode), HeldClaims(s.held), QueuedClaims(q));
  }

  lemma PairAdded(m: multiset<Claim>, f: multiset<Claim>, x: multiset<Claim>, a: Claim, b: Claim)
    ensures m + f + x + multiset{a} + multiset{b} == m + (f + multiset{a, b}) + x
  {
  }

  /** A frame whose memory is claimed can be queued. */
  lemma QueueFrameSafe(s: State, f: Loose, front: bool, x: multiset<Claim>)
    requires s.frameMax > 0 && Covered(s.pools, Claims(s) + FrameClaims(f) + x)
    ensures SafeWith(QueueFrame(s, f, front), x)
  {
    var m := Claims(s) + FrameClaims(f) + x;
    var link := Allocate(s, f.channel, LINK_SIZE);
    AllocateCovers(s, f.channel, LINK_SIZE, m);
    var copy := Allocate(link.state, f.channel, FRAME_SIZE);
    if link.parts == [] || copy.parts == [] {
      AllocateCovers(link.state, f.channel, FRAME_SIZE, m);
      CoveredLess(copy.state.pools, m, Claims(s) + x);
    } else {
      AllocateCovers(link.state, f.channel, FRAME_SIZE, m + multiset{Claim(f.channel, link.parts[0])});
      PairAdded(Claims(s), FrameClaims(f), x, Claim(f.channel, link.parts[0]), Claim(f.channel, copy.parts[0]));
      QueueOneClaims(copy.state, Queued(f, link.parts[0], copy.parts[0]), front);
    }
  }

  lemma HeldAside(s: State)
    requires s.held.Some?
    ensures Claims(s) == Claims(s.(held := None)) + FrameClaims(s.held.value)
  {
  }

  lemma RequeueSafe(s: State, f: Loose, front: bool, x: multiset<Claim>)
    requires SafeWith(s, x) && s.held == Some(f)
    ensures SafeWith(QueueFrame(s.(held := None), f, front), x)
  {
    HeldAside(s);
    QueueFrameSafe(s.(held := None), f, front, x);
  }

  lemma Fewer(a: multiset<Claim>, b: multiset<Claim>, x: multiset<Claim>)
    requires a <= b
    ensures a + x <= b + x
  {
  }

  /** Giving up claims is safe. */
  lemma SafeLess(s: State, s': State, x: multiset<Claim>, y: multiset<Claim>)
    requires SafeWith(s, x) && s'.frameMax == s.frameMax && s'.pools == s.pools && Claims(s') + y <= Claims(s) + x
    ensures SafeWith(s', y)
  {
    CoveredLess(s.pools, Claims(s) + x, Claims(s') + y);
  }

  lemma TakenTotal(q: multiset<Claim>, q': multiset<Claim>, f: multiset<Claim>, r: multiset<Claim>, h: multiset<Claim>)
    requires q' + f <= q
    ensures Total(q', r, f) + h <= Total(q, r, h)
  {
    assert q' + r + f + h == q' + f + r + h;
  }

  lemma LessAgain(a: multiset<Claim>, b: multiset<Claim>, h: multiset<Claim>)
    requires a + h <= b
    ensures a <= b
  {
  }

  /** Taking a frame claims no more than before, even if the frame held until then is kept in mind. */
  lemma TakenClaims(s: State, k: nat)
    requires k < |s.queue|
    ensures Claims(Taken(s, k)) + HeldClaims(s.held) <= Claims(s)
    ensures Claims(Taken(s, k)) <= Claims(s)
  {
    QueueClaimsTake(s.queue, k);
    TakenTotal(QueueClaims(s.queue), QueueClaims(s.queue[k + 1..]), FrameClaims(s.queue[k].frame),
               ReadingClaims(s.mode), HeldClaims(s.held));
    LessAgain(Claims(Taken(s, k)), Claims(s), HeldClaims(s.held));
  }

  lemma TakeSafe(s: State, k: nat, x: multiset<Claim>)
    requires SafeWith(s, x) && k < |s.queue|
    ensures SafeWith(Taken(s, k), x)
  {
    TakenClaims(s, k);
    Fewer(Claims(Taken(s, k)), Claims(s), x);
    SafeLess(s, Taken(s, k), x, x);
  }

  /** The same for a frame that is complete. */
  lemma FinishedClaims(s: State, f: Loose)
    requires s.mode == Reading(f)
    ensures Claims(Finished(s, f)) + HeldClaims(s.held) <= Claims(s)
    ensures Claims(Finished(s, f)) <= Claims(s)
  {
    FinishedTotal(QueueClaims(s.queue), ReadingClaims(s.mode), HeldClaims(s.held));
    LessAgain(Claims(Finished(s, f)), Claims(s), HeldClaims(s.held));
  }

  lemma FinishedTotal(q: multiset<Claim>, r: multiset<Claim>, h: multiset<Claim>)
    ensures Total(q, multiset{}, r) + h <= Total(q, r, h)
  {
  }

  lemma FinishSafe(s: State, f: Loose, x: multiset<Claim>)
    requires SafeWith(s, x) && s.mode == Reading(f)
    ensures SafeWith(Finished(s, f), x)
  {
    FinishedClaims(s, f);
    Fewer(Claims(Finished(s, f)), Claims(s), x);
    SafeLess(s, Finished(s, f), x, x);
  }

  lemma ClaimChannels(s: State, gone: set<nat>)
    requires s.mode.Idle? && forall c | c in gone :: !QueuedOn(s.queue, c)
    ensures forall a | a in Claims(s.(held := StillHeld(s, gone))) :: a.channel !in gone
    ensures Claims(s.(held := StillHeld(s, gone))) <= Claims(s)
  {
    QueueChannels(s.queue);
    if s.held.Some? { PartChannels(s.held.value.channel, s.held.value.parts); }
    TotalLess(QueueClaims(s.queue), multiset{}, HeldClaims(s.held),
              QueueClaims(s.queue), multiset{}, HeldClaims(StillHeld(s, gone)));
  }

  lemma ReuseValid(h: History)
    requires AmqpPool.Valid(h)
    ensures AmqpPool.Valid(AmqpPool.Step(h, Reuse))
  {
  }

  /** Claims on other channels survive a recycling. */
  lemma RecycledCovers(s: State, gone: set<nat>, m: multiset<Claim>)
    requires gone <= s.pools.Keys && Covered(s.pools, m) && forall a | a in m :: a.channel !in gone
    ensures Covered(Recycled(s, gone).pools, m)
  {
    var pools := Recycled(s, gone).pools;
    forall c | c in pools ensures AmqpPool.Valid(pools[c]) {
      if c in gone { ReuseValid(s.pools[c]); }
    }
    forall a | a in m ensures Live(pools, a) {
      assert Live(s.pools, a);
      assert pools[a.channel] == s.pools[a.channel];
    }
  }

  /** Nothing that is still needed belongs to a channel that is recycled. */
  lemma RecycledSafe(s: State, gone: set<nat>, x: multiset<Claim>)
    requires SafeWith(s, x) && s.mode.Idle? && gone <= s.pools.Keys
    requires (forall c | c in gone :: !QueuedOn(s.queue, c)) && forall a | a in x :: a.channel !in gone
    ensures SafeWith(Recycled(s, gone), x)
  {
    var m := Claims(s.(held := StillHeld(s, gone)));
    ClaimChannels(s, gone);
    Fewer(m, Claims(s), x);
    CoveredLess(s.pools, Claims(s) + x, m + x);
    RecycledCovers(s, gone, m + x);
  }

  lemma ReleaseSafe(s: State, gone: set<nat>, x: multiset<Claim>)
    requires SafeWith(s, x) && gone <= s.pools.Keys && forall c | c in gone :: Recyclable(s, c)
    requires forall a | a in x :: a.channel !in gone
    ensures SafeWith(Released(s, gone), x)
  {
    if gone != {} {
      var c :| c in gone;
      assert Recyclable(s, c);
      RecycledSafe(s, gone, x);
    }
  }

  ghost predicate Untouched(s: State, e: Event, x: multiset<Claim>) {
    forall a | a in x :: !Recycles(s, e, a.channel)
  }

  // What each step amounts to.

  lemma StepIsInput(s: State, e: Event)
    ensures e.Header? && s.mode.Gathering? ==> Step(s, e) == Headed(s, e.channel, e.size)
    ensures e.Decode? && s.mode.Reading? ==> Step(s, e) == Decoded(s, s.mode.frame, e.size)
    ensures e.Finish? && s.mode.Reading? ==> Step(s, e) == Finished(s, s.mode.frame)
    ensures e.Begin? && s.mode.Idle? ==> Step(s, e) == s.(mode := Gathering)
  {
  }

  lemma StepIsQueueing(s: State, e: Event)
    ensures e.Scratch? ==> Step(s, e) == Allocate(s, e.channel, e.size).state
    ensures e.Take? && e.index < |s.queue| ==> Step(s, e) == Taken(s, e.index)
    ensures e.Requeue? && s.held.Some? ==> Step(s, e) == QueueFrame(s.(held := None), s.held.value, e.front)
    ensures e.Release? || e.ReleaseAll? ==> Step(s, e) == Released(s, Gone(s, e))
  {
  }

  lemma StepIsNothing(s: State, e: Event)
    requires || (e.Begin? && !s.mode.Idle?) || (e.Header? && !s.mode.Gathering?)
             || ((e.Decode? || e.Finish?) && !s.mode.Reading?)
             || (e.Take? && e.index >= |s.queue|) || (e.Requeue? && s.held.None?)
    ensures Step(s, e) == s
  {
  }

  lemma SameSafe(s: State, s': State, x: multiset<Claim>)
    requires SafeWith(s, x) && s' == s
    ensures SafeWith(s', x)
  {
  }

  lemma HeaderStep(s: State, e: Event, x: multiset<Claim>)
    requires SafeWith(s, x) && e.Header? && s.mode.Gathering?
    ensures SafeWith(Step(s, e), x)
  {
    HeaderSafe(s, e.channel, e.size, x);
    StepIsInput(s, e);
    SameSafe(Headed(s, e.channel, e.size), Step(s, e), x);
  }

  lemma DecodeStep(s: State, e: Event, x: multiset<Claim>)
    requires SafeWith(s, x) && e.Decode? && s.mode.Reading?
    ensures SafeWith(Step(s, e), x)
  {
    DecodeSafe(s, s.mode.frame, e.size, x);
    StepIsInput(s, e);
    SameSafe(Decoded(s, s.mode.frame, e.size), Step(s, e), x);
  }

  lemma FinishStep(s: State, e: Event, x: multiset<Claim>)
    requires SafeWith(s, x) && e.Finish? && s.mode.Reading?
    ensures SafeWith(Step(s, e), x)
  {
    FinishSafe(s, s.mode.frame, x);
    StepIsInput(s, e);
    SameSafe(Finished(s, s.mode.frame), Step(s, e), x);
  }

  lemma BeginStep(s: State, e: Event, x: multiset<Claim>)
    requires SafeWith(s, x) && e.Begin? && s.mode.Idle?
    ensures SafeWith(Step(s, e), x)
  {
    SafeLess(s, s.(mode := Gathering), x, x);
    StepIsInput(s, e);
    SameSafe(s.(mode := Gathering), Step(s, e), x);
  }

  lemma ScratchStep(s: State, e: Event, x: multiset<Claim>)
    requires SafeWith(s, x) && e.Scratch?
    ensures SafeWith(Step(s, e), x)
  {
    AllocateSafe(s, e.channel, e.size, x);
    StepIsQueueing(s, e);
    SameSafe(Allocate(s, e.channel, e.size).state, Step(s, e), x);
  }

  lemma TakeStep(s: State, e: Event, x: multiset<Claim>)
    requires SafeWith(s, x) && e.Take? && e.index < |s.queue|
    ensures SafeWith(Step(s, e), x)
  {
    TakeSafe(s, e.index, x);
    StepIsQueueing(s, e);
    SameSafe(Taken(s, e.index), Step(s, e), x);
  }

  lemma RequeueStep(s: State, e: Event, x: multiset<Claim>)
    requires SafeWith(s, x) && e.Requeue? && s.held.Some?
    ensures SafeWith(Step(s, e), x)
  {
    RequeueSafe(s, s.held.value, e.front, x);
    StepIsQueueing(s, e);
    SameSafe(QueueFrame(s.(held := None), s.held.value, e.front), Step(s, e), x);
  }

  lemma GoneSafe(s: State, e: Event, x: multiset<Claim>)
    requires SafeWith(s, x) && (e.Release? || e.ReleaseAll?) && Untouched(s, e, x)
    ensures SafeWith(Released(s, Gone(s, e)), x)
  {
    forall a | a in x ensures a.channel !in Gone(s, e) { assert !Recycles(s, e, a.channel); }
    ReleaseSafe(s, Gone(s, e), x);
  }

  lemma ReleaseStep(s: State, e: Event, x: multiset<Claim>)
    requires SafeWith(s, x) && (e.Release? || e.ReleaseAll?) && Untouched(s, e, x)
    ensures SafeWith(Step(s, e), x)
  {
    GoneSafe(s, e, x);
    StepIsQueueing(s, e);
    SameSafe(Released(s, Gone(s, e)), Step(s, e), x);
  }

  /** Every step keeps everything that is needed, and whatever else belongs to channels it does not
      recycle. */
  lemma StepSafe(s: State, e: Event, x: multiset<Claim>)
    requires SafeWith(s, x) && Untouched(s, e, x)
    ensures SafeWith(Step(s, e), x)
  {
    if e.Begin? && s.mode.Idle? {
      BeginStep(s, e, x);
    } else if e.Header? && s.mode.Gathering? {
      HeaderStep(s, e, x);
    } else if e.Decode? && s.mode.Reading? {
      DecodeStep(s, e, x);
    } else if e.Finish? && s.mode.Reading? {
      FinishStep(s, e, x);
    } else if e.Scratch? {
      ScratchStep(s, e, x);
    } else if e.Take? && e.index < |s.queue| {
      TakeStep(s, e, x);
    } else if e.Requeue? && s.held.Some? {
      RequeueStep(s, e, x);
    } else if e.Release? || e.ReleaseAll? {
      ReleaseStep(s, e, x);
    } else {
      StepIsNothing(s, e);
      SameSafe(s, Step(s, e), x);
    }
  }

  lemma {:induction false} RunSafe(s: State, events: seq<Event>)
    requires Safe(s)
    ensures Safe(Run(s, events))
    decreases |events|
  {
    if events != [] {
      SafeAlone(s);
      StepSafe(s, events[0], multiset{});
      SafeAlone(Step(s, events[0]));
      RunSafe(Step(s, events[0]), events[1..]);
    }
  }

  lemma FirstInClaims(a: multiset<Claim>, b: multiset<Claim>)
    ensures a <= a + b
  {
  }

  lemma {:induction false} QueuedInClaims(queue: seq<Queued>, i: nat)
    requires i < |queue|
    ensures QueuedClaims(queue[i]) <= QueueClaims(queue)
    decreases i
  {
    if i == 0 {
      FirstInClaims(QueuedClaims(queue[0]), QueueClaims(queue[1..]));
    } else {
      QueuedInClaims(queue[1..], i - 1);
      Larger(QueuedClaims(queue[i]), QueueClaims(queue[1..]), QueuedClaims(queue[0]));
    }
  }

  /** For every interleaving of input, decoding, queueing, putting back, taking and releasing: the
      memory of every queued frame and of the frame being read was handed out by its own channel's
      pool since that pool was last recycled, and no two of them share any. */
  lemma RecyclingSafety(frameMax: nat, events: seq<Event>)
    requires frameMax > 0
    ensures var s := Run(Start(frameMax), events);
            && (forall i, a | 0 <= i < |s.queue| && a in QueuedClaims(s.queue[i]) :: Live(s.pools, a))
            && (s.mode.Reading? ==> forall a | a in FrameClaims(s.mode.frame) :: Live(s.pools, a))
            && Apart(Claims(s))
  {
    RunSafe(Start(frameMax), events);
    var s := Run(Start(frameMax), events);
    forall i, a | 0 <= i < |s.queue| && a in QueuedClaims(s.queue[i]) ensures Live(s.pools, a) {
      QueuedInClaims(s.queue, i);
      assert a in Claims(s);
    }
  }

  // ----- frames that were kept for too long -----

  predicate InQueue(s: State, f: Loose) {
    exists i :: 0 <= i < |s.queue| && s.queue[i].frame == f
  }

  /** The frame is queued, or it is the one held. */
  predicate Known(s: State, f: Loose) { s.held == Some(f) || InQueue(s, f) }

  /** Some step of the run recycles the pool of the channel. */
  predicate RecycledDuring(s: State, events: seq<Event>, channel: nat)
    decreases |events|
  {
    events != [] && (Recycles(s, events[0], channel) || RecycledDuring(Step(s, events[0]), events[1..], channel))
  }

  /** The memory of the frame is intact: it is among the claims, or could be. */
  ghost predicate Intact(s: State, f: Loose) {
    match Known(s, f)
    case true => Safe(s)
    case false => SafeWith(s, FrameClaims(f))
  }

  lemma Granting(s: State, channel: nat, size: nat)
    requires size == LINK_SIZE || size == FRAME_SIZE
    ensures var g := Allocate(s, channel, size);
            && |g.parts| == 1
            && g.state.pools == s.pools[channel := g.state.pools[channel]]
            && g.state.pools[channel].epoch == PoolOf(s, channel).epoch == g.parts[0].epoch
            && g.state.pools[channel].live == PoolOf(s, channel).live + [g.parts[0].region]
  {
    assert Rounded(size) == size;
  }

  /** A frame that is requeued is in the queue afterwards, and the queue loses nothing. */
  lemma RequeuedKnown(s: State, g: Loose, front: bool, f: Loose)
    requires InQueue(s, f) || f == g
    ensures InQueue(QueueFrame(s, g, front), f)
  {
    var link := Allocate(s, g.channel, LINK_SIZE);
    Granting(s, g.channel, LINK_SIZE);
    Granting(link.state, g.channel, FRAME_SIZE);
    var q := QueueFrame(s, g, front).queue;
    if InQueue(s, f) {
      var i :| 0 <= i < |s.queue| && s.queue[i].frame == f;
      assert q[if front then i + 1 else i].frame == f;
    } else {
      assert q[if front then 0 else |s.queue|].frame == f;
    }
  }

  /** A frame's claims and those of the frames behind it are claims of the queue. */
  lemma {:induction false} FromFrameOn(queue: seq<Queued>, i: nat)
    requires i < |queue|
    ensures QueuedClaims(queue[i]) + QueueClaims(queue[i + 1..]) <= QueueClaims(queue)
    decreases i
  {
    if i > 0 {
      assert queue[1..][i..] == queue[i + 1..];
      FromFrameOn(queue[1..], i - 1);
      Larger(QueuedClaims(queue[i]) + QueueClaims(queue[i + 1..]), QueueClaims(queue[1..]), QueuedClaims(queue[0]));
    }
  }

  /** Frames in front of the one that is taken give up their memory. */
  lemma SkippedClaims(queue: seq<Queued>, i: nat, k: nat)
    requires i < k < |queue|
    ensures QueueClaims(queue[k + 1..]) + FrameClaims(queue[k].frame) + FrameClaims(queue[i].frame) <= QueueClaims(queue)
  {
    var rest := queue[i + 1..];
    TakeBehind(queue, i, k);
    FromFrameOn(queue, i);
    FrameAmong(queue[i]);
    SumLess(QueueClaims(queue[k + 1..]) + FrameClaims(queue[k].frame), QueueClaims(rest),
            FrameClaims(queue[i].frame), QueuedClaims(queue[i]), QueueClaims(queue));
  }

  lemma TakeBehind(queue: seq<Queued>, i: nat, k: nat)
    requires i < k < |queue|
    ensures QueueClaims(queue[k + 1..]) + FrameClaims(queue[k].frame) <= QueueClaims(queue[i + 1..])
  {
    var rest := queue[i + 1..];
    assert rest[k - i..] == queue[k + 1..] && rest[k - i - 1] == queue[k];
    QueueClaimsTake(rest, k - i - 1);
  }

  lemma SumLess(a: multiset<Claim>, b: multiset<Claim>, x: multiset<Claim>, y: multiset<Claim>, all: multiset<Claim>)
    requires a <= b && x <= y && y + b <= all
    ensures a + x <= all
  {
  }

  lemma SkippedTotal(q: multiset<Claim>, q': multiset<Claim>, f: multiset<Claim>, x: multiset<Claim>,
                     r: multiset<Claim>, h: multiset<Claim>)
    requires q' + f + x <= q
    ensures Total(q', r, f) + x <= Total(q, r, h)
  {
    assert q' + r + f + x == q' + f + x + r;
  }

  lemma StillQueued(s: State, i: nat, k: nat)
    requires i < |s.queue| && k < |s.queue|
    ensures i >= k ==> Known(Taken(s, k), s.queue[i].frame)
  {
    if i > k { assert Taken(s, k).queue[i - k - 1].frame == s.queue[i].frame; }
  }

  /** If a frame's memory could be claimed, it is intact. */
  lemma IntactWith(s: State, f: Loose)
    requires SafeWith(s, FrameClaims(f))
    ensures Safe(s) && Intact(s, f)
  {
    CoveredLess(s.pools, Claims(s) + FrameClaims(f), Claims(s));
  }

  lemma TakeForgets(s: State, k: nat, f: Loose)
    requires Safe(s) && k < |s.queue| && Known(s, f) && !Known(Taken(s, k), f)
    ensures SafeWith(Taken(s, k), FrameClaims(f))
  {
    SafeAlone(s);
    if s.held == Some(f) {
      TakenClaims(s, k);
    } else {
      var i :| 0 <= i < |s.queue| && s.queue[i].frame == f;
      StillQueued(s, i, k);
      SkippedClaims(s.queue, i, k);
      SkippedTotal(QueueClaims(s.queue), QueueClaims(s.queue[k + 1..]), FrameClaims(s.queue[k].frame), FrameClaims(f),
                   ReadingClaims(s.mode), HeldClaims(s.held));
    }
    SafeLess(s, Taken(s, k), multiset{}, FrameClaims(f));
  }

  lemma TakeIntact(s: State, k: nat, f: Loose)
    requires Intact(s, f) && k < |s.queue|
    ensures Safe(Taken(s, k)) && Intact(Taken(s, k), f)
  {
    if !Known(s, f) {
      TakeSafe(s, k, FrameClaims(f));
      IntactWith(Taken(s, k), f);
    } else if Known(Taken(s, k), f) {
      SafeAlone(s);
      TakeSafe(s, k, multiset{});
      SafeAlone(Taken(s, k));
    } else {
      TakeForgets(s, k, f);
      IntactWith(Taken(s, k), f);
    }
  }

  lemma FinishIntact(s: State, g: Loose, f: Loose)
    requires Intact(s, f) && s.mode == Reading(g)
    ensures Safe(Finished(s, g)) && Intact(Finished(s, g), f)
  {
    if !Known(s, f) {
      FinishSafe(s, g, FrameClaims(f));
      IntactWith(Finished(s, g), f);
    } else if s.held == Some(f) {
      SafeAlone(s);
      FinishedClaims(s, g);
      SafeLess(s, Finished(s, g), multiset{}, FrameClaims(f));
      IntactWith(Finished(s, g), f);
    } else {
      SafeAlone(s);
      FinishSafe(s, g, multiset{});
      SafeAlone(Finished(s, g));
      assert Finished(s, g).queue == s.queue;
    }
  }

  /** A frame stays known while the queue and the caller's frame stay. */
  lemma StaysKnown(s: State, s': State, f: Loose)
    requires Known(s, f) && s'.queue == s.queue && (s.held == Some(f) ==> s'.held == s.held)
    ensures Known(s', f)
  {
  }

  lemma InputQuiet(s: State, e: Event)
    requires e.Begin? || e.Header? || e.Decode? || e.Scratch?
    ensures Step(s, e).queue == s.queue && Step(s, e).held == s.held
  {
  }

  lemma ReleaseQuiet(s: State, e: Event, f: Loose)
    requires (e.Release? || e.ReleaseAll?) && !Recycles(s, e, f.channel)
    ensures Step(s, e).queue == s.queue && (s.held == Some(f) ==> Step(s, e).held == s.held)
  {
    StepIsQueueing(s, e);
    assert f.channel !in Gone(s, e);
  }

  /** Only taking another frame, or completing one, makes a known frame unknown. */
  lemma OthersKeepKnown(s: State, e: Event, f: Loose)
    requires Known(s, f) && !Recycles(s, e, f.channel) && !e.Take? && !e.Finish?
    ensures Known(Step(s, e), f)
  {
    if e.Release? || e.ReleaseAll? {
      ReleaseQuiet(s, e, f);
      StaysKnown(s, Step(s, e), f);
    } else if e.Requeue? {
      if s.held.Some? {
        RequeuedKnown(s.(held := None), s.held.value, e.front, f);
        StepIsQueueing(s, e);
      }
    } else {
      InputQuiet(s, e);
      StaysKnown(s, Step(s, e), f);
    }
  }

  lemma OtherIntact(s: State, e: Event, f: Loose)
    requires Intact(s, f) && !Recycles(s, e, f.channel) && !e.Take? && !e.Finish?
    ensures Safe(Step(s, e)) && Intact(Step(s, e), f)
  {
    if Known(s, f) {
      SafeAlone(s);
      StepSafe(s, e, multiset{});
      SafeAlone(Step(s, e));
      OthersKeepKnown(s, e, f);
    } else {
      PartChannels(f.channel, f.parts);
      StepSafe(s, e, FrameClaims(f));
      IntactWith(Step(s, e), f);
    }
  }

  lemma SameIntact(s: State, s': State, f: Loose)
    requires Intact(s, f) && s' == s
    ensures Intact(s', f)
  {
  }

  lemma StepIntact(s: State, e: Event, f: Loose)
    requires Intact(s, f) && !Recycles(s, e, f.channel)
    ensures Intact(Step(s, e), f)
  {
    if e.Take? && e.index < |s.queue| {
      TakeIntact(s, e.index, f);
      StepIsQueueing(s, e);
      SameIntact(Taken(s, e.index), Step(s, e), f);
    } else if e.Finish? && s.mode.Reading? {
      FinishIntact(s, s.mode.frame, f);
      StepIsInput(s, e);
      SameIntact(Finished(s, s.mode.frame), Step(s, e), f);
    } else if e.Take? || e.Finish? {
      StepIsNothing(s, e);
      SameIntact(s, Step(s, e), f);
    } else {
      OtherIntact(s, e, f);
    }
  }

  lemma {:induction false} RunIntact(s: State, events: seq<Event>, f: Loose)
    requires Intact(s, f) && !RecycledDuring(s, events, f.channel)
    ensures Intact(Run(s, events), f)
    decreases |events|
  {
    if events != [] {
      StepIntact(s, events[0], f);
      RunIntact(Step(s, events[0]), events[1..], f);
    }
  }

  /** The pool of a channel is recycled by no step but those that say so. */
  lemma StepEpoch(s: State, e: Event, channel: nat)
    ensures PoolOf(Step(s, e), channel).epoch == PoolOf(s, channel).epoch + if Recycles(s, e, channel) then 1 else 0
  {
    if e.Requeue? && s.held.Some? {
      var f := s.held.value;
      Granting(s.(held := None), f.channel, LINK_SIZE);
      Granting(Allocate(s.(held := None), f.channel, LINK_SIZE).state, f.channel, FRAME_SIZE);
    }
  }

  lemma {:induction false} RunEpoch(s: State, events: seq<Event>, channel: nat)
    ensures PoolOf(Run(s, events), channel).epoch >= PoolOf(s, channel).epoch
    ensures RecycledDuring(s, events, channel) ==> PoolOf(Run(s, events), channel).epoch > PoolOf(s, channel).epoch
    decreases |events|
  {
    if events != [] {
      StepEpoch(s, events[0], channel);
      RunEpoch(Step(s, events[0]), events[1..], channel);
    }
  }

  /** A frame of an earlier epoch cannot be queued safely, whatever its memory is used for now. */
  lemma StaleUnsafe(s: State, f: Loose, front: bool)
    requires f.parts != [] && f.parts[0].epoch < PoolOf(s, f.channel).epoch
    ensures !Safe(QueueFrame(s, f, front))
  {
    var s' := QueueFrame(s, f, front);
    var link := Allocate(s, f.channel, LINK_SIZE);
    Granting(s, f.channel, LINK_SIZE);
    Granting(link.state, f.channel, FRAME_SIZE);
    RequeuedKnown(s, f, front, f);
    var i :| 0 <= i < |s'.queue| && s'.queue[i].frame == f;
    QueuedInClaims(s'.queue, i);
    var c := Claim(f.channel, f.parts[0]);
    assert c in FrameClaims(f);
    assert c in Claims(s') && !Live(s'.pools, c);
  }

  lemma {:induction false} TwiceClaimed(queue: seq<Queued>, i: nat, j: nat, c: Claim)
    requires i < j < |queue| && c in QueuedClaims(queue[i]) && c in QueuedClaims(queue[j])
    ensures QueueClaims(queue)[c] >= 2
    decreases i
  {
    if i == 0 {
      assert queue[j] == queue[1..][j - 1];
      QueuedInClaims(queue[1..], j - 1);
    } else {
      TwiceClaimed(queue[1..], i - 1, j - 1, c);
    }
  }

  /** A frame that is still queued cannot be queued again. */
  lemma QueuedTwice(s: State, f: Loose, front: bool)
    requires f.parts != [] && InQueue(s, f)
    ensures !Safe(QueueFrame(s, f, front))
  {
    var c := Claim(f.channel, f.parts[0]);
    assert c in FrameClaims(f);
    ClaimedTwice(s, f, front, c);
    NotApart(QueueFrame(s, f, front), c);
  }

  lemma ClaimedTwice(s: State, f: Loose, front: bool, c: Claim)
    requires c in FrameClaims(f) && InQueue(s, f)
    ensures QueueClaims(QueueFrame(s, f, front).queue)[c] >= 2
  {
    var s' := QueueFrame(s, f, front);
    Granting(s, f.channel, LINK_SIZE);
    Granting(Allocate(s, f.channel, LINK_SIZE).state, f.channel, FRAME_SIZE);
    var i :| 0 <= i < |s.queue| && s.queue[i].frame == f;
    if front {
      assert s'.queue[0].frame == f && s'.queue[i + 1].frame == f;
      TwiceClaimed(s'.queue, 0, i + 1, c);
    } else {
      assert s'.queue[i].frame == f && s'.queue[|s.queue|].frame == f;
      TwiceClaimed(s'.queue, i, |s.queue|, c);
    }
  }

  lemma NotApart(s: State, c: Claim)
    requires QueueClaims(s.queue)[c] >= 2
    ensures !Safe(s)
  {
    assert Claims(s)[c] >= 2;
  }

  lemma QueueIntact(s: State, f: Loose, front: bool)
    requires Intact(s, f) && !InQueue(s, f)
    ensures Safe(QueueFrame(s.(held := None), f, front))
  {
    var s0 := s.(held := None);
    if s.held == Some(f) {
      HeldAside(s);
    } else {
      TotalLess(QueueClaims(s.queue), ReadingClaims(s.mode), HeldClaims(s.held),
                QueueClaims(s.queue), ReadingClaims(s.mode), multiset{});
      Fewer(Claims(s0), Claims(s), FrameClaims(f));
      CoveredLess(s.pools, Claims(s) + FrameClaims(f), Claims(s0) + FrameClaims(f));
    }
    assert Claims(s0) + FrameClaims(f) + multiset{} == Claims(s0) + FrameClaims(f);
    QueueFrameSafe(s0, f, front, multiset{});
    SafeAlone(QueueFrame(s0, f, front));
  }

  /** Frames always own memory: at least their raw octets. */
  ghost predicate Solid(s: State) {
    && (s.mode.Reading? ==> s.mode.frame.parts != [])
    && (s.held.Some? ==> s.held.value.parts != [])
    && forall i | 0 <= i < |s.queue| :: s.queue[i].frame.parts != []
  }

  lemma {:induction false} RunSolid(s: State, events: seq<Event>)
    requires Solid(s)
    ensures Solid(Run(s, events))
    decreases |events|
  {
    if events != [] {
      StepSolid(s, events[0]);
      RunSolid(Step(s, events[0]), events[1..]);
    }
  }

  lemma StepSolid(s: State, e: Event)
    requires Solid(s)
    ensures Solid(Step(s, e))
  {
  }

  lemma HeldIsCurrent(s: State, f: Loose)
    requires Safe(s) && s.held == Some(f) && f.parts != []
    ensures f.parts[0].epoch == PoolOf(s, f.channel).epoch
  {
    var c := Claim(f.channel, f.parts[0]);
    assert c in FrameClaims(f);
    assert c in Claims(s);
    assert Live(s.pools, c);
  }

  /** Over all runs: a frame that was once handed to the caller can be queued, later and whatever
      happened in between, exactly when its channel has not been recycled since and the frame does not
      already stand in the queue. */
  lemma RequeueExact(frameMax: nat, before: seq<Event>, f: Loose, since: seq<Event>, front: bool)
    requires frameMax > 0 && Run(Start(frameMax), before).held == Some(f)
    ensures var s := Run(Start(frameMax), before);
            var s' := Run(s, since);
            Safe(QueueFrame(s'.(held := None), f, front)) <==>
              !RecycledDuring(s, since, f.channel) && !InQueue(s', f)
  {
    var s := Run(Start(frameMax), before);
    RunSafe(Start(frameMax), before);
    RunSolid(Start(frameMax), before);
    RequeueLater(s, f, since, front);
  }

  lemma RequeueLater(s: State, f: Loose, since: seq<Event>, front: bool)
    requires Safe(s) && s.held == Some(f) && f.parts != []
    ensures var s' := Run(s, since);
            Safe(QueueFrame(s'.(held := None), f, front)) <==>
              !RecycledDuring(s, since, f.channel) && !InQueue(s', f)
  {
    var s' := Run(s, since);
    if RecycledDuring(s, since, f.channel) {
      HeldIsCurrent(s, f);
      RunEpoch(s, since, f.channel);
      StaleUnsafe(s'.(held := None), f, front);
    } else if InQueue(s', f) {
      QueuedTwice(s'.(held := None), f, front);
    } else {
      RunIntact(s, since, f);
      QueueIntact(s', f, front);
    }
  }

  /** A frame of 104 octets on channel 1, the first thing its pool ever handed out. */
  const FIRST: Loose := Loose(1, [Grant(0, Region(Page(0), 0, 104))])

  lemma FirstFrameHeld()
    ensures var s := Run(Start(4096), [Header(1, 100), Finish]);
            && s.held == Some(FIRST) && s.mode == Idle && s.queue == [] && 1 in s.pools
            && s.pools[1] == History(Pool(4096, 1, [], 1, Some(0), 104), [Region(Page(0), 0, 104)], 0)
  {
    var s1 := Step(Start(4096), Header(1, 100));
    assert Rounded(100) == 104;
    assert s1.mode == Reading(FIRST);
    assert [Header(1, 100), Finish][1..] == [Finish] && [Finish][1..] == [];
    assert Run(s1, [Finish]) == Step(s1, Finish);
  }

  lemma HandedOutAgain(s: State)
    requires s.mode == Idle && s.queue == [] && 1 in s.pools
    requires s.pools[1] == History(Pool(4096, 1, [], 1, Some(0), 104), [Region(Page(0), 0, 104)], 0)
    ensures var s' := Run(s, [Release(1), Scratch(1, 100)]);
            1 in s'.pools && s'.pools[1].live == [Region(Page(0), 0, 104)] && s'.pools[1].epoch == 1
  {
    var s2 := Step(s, Release(1));
    assert Gone(s, Release(1)) == {1};
    assert Rounded(100) == 104;
    assert s2.pools[1] == History(Pool(4096, 1, [], 0, None, 0), [], 1);
    assert [Release(1), Scratch(1, 100)][1..] == [Scratch(1, 100)] && [Scratch(1, 100)][1..] == [];
    assert Run(s2, [Scratch(1, 100)]) == Step(s2, Scratch(1, 100));
  }

  /** The memory of a frame kept across a release may look live, because it was handed out again; the
      frame is lost all the same. */
  lemma StaleFrame(front: bool)
    ensures var s := Run(Start(4096), [Header(1, 100), Finish]);
            var s' := Run(s, [Release(1), Scratch(1, 100)]);
            && s.held == Some(FIRST) && 1 in s'.pools && s'.pools[1].live == [FIRST.parts[0].region]
            && !Safe(QueueFrame(s', FIRST, front))
  {
    FirstFrameHeld();
    var s := Run(Start(4096), [Header(1, 100), Finish]);
    HandedOutAgain(s);
    StaleUnsafe(Run(s, [Release(1), Scratch(1, 100)]), FIRST, front);
  }
}
