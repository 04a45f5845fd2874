/** What a release gives back: exactly the pools that nobody needs, whatever else is queued. */
module Releases {
  import opened Wire
  import AmqpPool
  import opened Recycling

  /** No frame of the channel is queued. */
  ghost predicate NothingQueued(queue: seq<Queued>, channel: nat) {
    forall i | 0 <= i < |queue| :: queue[i].frame.channel != channel
  }

  /** The pool was recycled: it has no region in use, and it is in its next epoch with all its pages. */
  ghost predicate GivenBack(before: AmqpPool.History, after: AmqpPool.History) {
    after.live == [] && after.epoch == before.epoch + 1 && after.pool.pages == before.pool.pages
  }

  /** Everything but the pools and the caller's frame is left alone. */
  ghost predicate SameRest(s: State, s': State) {
    s'.frameMax == s.frameMax && s'.mode == s.mode && s'.queue == s.queue && s'.pools.Keys == s.pools.Keys
  }

  /** Between frames, releasing a channel gives its pool back exactly when no frame of it is queued, whatever
      other channels have queued, and touches no other pool.  Inside a frame it does nothing. */
  lemma ReleaseExact(s: State, channel: nat)
    ensures s.mode.Idle? && NothingQueued(s.queue, channel) && channel in s.pools ==>
              var s' := Step(s, Release(channel));
              && SameRest(s, s') && GivenBack(s.pools[channel], s'.pools[channel])
              && (forall c | c in s.pools && c != channel :: s'.pools[c] == s.pools[c])
              && s'.held == if s.held.Some? && s.held.value.channel == channel then None else s.held
    ensures !s.mode.Idle? || !NothingQueued(s.queue, channel) || channel !in s.pools ==> Step(s, Release(channel)) == s
  {
    var gone := Gone(s, Release(channel));
    if s.mode.Idle? && NothingQueued(s.queue, channel) && channel in s.pools {
      assert channel in gone;
    } else {
      NotRecyclable(s, channel);
      assert gone == {};
    }
  }

  lemma NotRecyclable(s: State, channel: nat)
    requires !s.mode.Idle? || !NothingQueued(s.queue, channel) || channel !in s.pools
    ensures !Recyclable(s, channel)
  {
    if s.mode.Idle? && !NothingQueued(s.queue, channel) {
      var i :| 0 <= i < |s.queue| && s.queue[i].frame.channel == channel;
    }
  }

  /** Releasing all buffers gives back, between frames, exactly the pools of channels that have nothing
      queued. */
  lemma ReleaseAllExact(s: State)
    ensures SameRest(s, Step(s, ReleaseAll))
    ensures forall c | c in s.pools ::
              && c in Step(s, ReleaseAll).pools
              && (if s.mode.Idle? && NothingQueued(s.queue, c) then GivenBack(s.pools[c], Step(s, ReleaseAll).pools[c])
                  else Step(s, ReleaseAll).pools[c] == s.pools[c])
  {
    var gone := Gone(s, ReleaseAll);
    forall c | c in s.pools ensures c in gone <==> s.mode.Idle? && NothingQueued(s.queue, c) {
      if !s.mode.Idle? || !NothingQueued(s.queue, c) { NotRecyclable(s, c); }
    }
  }

  function FramesOf(queue: seq<Queued>): (fs: seq<Loose>)
    ensures |fs| == |queue|
  {
    seq(|queue|, i requires 0 <= i < |queue| => queue[i].frame)
  }

  lemma FramesJoin(a: seq<Queued>, b: seq<Queued>)
    ensures FramesOf(a + b) == FramesOf(a) + FramesOf(b)
  {
    var l, r := FramesOf(a + b), FramesOf(a) + FramesOf(b);
    assert |l| == |r| && forall i | 0 <= i < |l| :: l[i] == r[i];
  }

  lemma QueueFrameOrder(s: State, f: Loose, front: bool) returns (q: Queued)
    ensures QueueFrame(s, f, front).held == s.held && q.frame == f
    ensures QueueFrame(s, f, front).queue == if front then [q] + s.queue else s.queue + [q]
  {
    var link := Allocate(s, f.channel, LINK_SIZE);
    AlwaysGranted(s, f.channel, LINK_SIZE);
    AlwaysGranted(link.state, f.channel, FRAME_SIZE);
    var copy := Allocate(link.state, f.channel, FRAME_SIZE);
    q := Queued(f, link.parts[0], copy.parts[0]);
  }

  /** A frame that the caller queues is the last one, one that is put back the first. */
  lemma QueueOrder(s: State, front: bool)
    requires s.held.Some?
    ensures FramesOf(Step(s, Requeue(front)).queue)
         == if front then [s.held.value] + FramesOf(s.queue) else FramesOf(s.queue) + [s.held.value]
    ensures Step(s, Requeue(front)).held.None?
  {
    var f, s0 := s.held.value, s.(held := None);
    var q := QueueFrameOrder(s0, f, front);
    assert FramesOf([q]) == [f];
    FramesJoin([q], s.queue);
    FramesJoin(s.queue, [q]);
  }

  /** A frame that is taken goes to the caller, and those queued before it are dropped. */
  lemma TakeOrder(s: State, k: nat)
    ensures Step(s, Take(k)) == if k < |s.queue| then s.(queue := s.queue[k + 1..], held := Some(s.queue[k].frame)) else s
  {
  }

  /** Links and frame structs are always granted. */
  lemma AlwaysGranted(s: State, channel: nat, size: nat)
    requires size == 16 || size == 48
    ensures |Allocate(s, channel, size).parts| == 1
    ensures Allocate(s, channel, size).state.queue == s.queue && Allocate(s, channel, size).state.held == s.held
  {
    assert AmqpPool.Rounded(size) == size;
  }
}
