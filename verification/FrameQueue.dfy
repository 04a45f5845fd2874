/** The queue of frames that arrived before they were asked for: a singly linked list with a tail
    pointer, kept with its links as a ghost sequence. */
module FrameQueue {
  import opened Wire
  import opened Frames

  function ChannelOf(f: Frame): nat { if f.ProtocolHeader? then 0 else f.channel }

  class Link {
    const frame: Frame
    var next: Link?

    constructor (frame: Frame)
      ensures this.frame == frame && next == null
    {
      this.frame, next := frame, null;
    }
  }

  function FramesOf(links: seq<Link>): (fs: seq<Frame>)
    ensures |fs| == |links| && forall i | 0 <= i < |links| :: fs[i] == links[i].frame
  {
    seq(|links|, i requires 0 <= i < |links| => links[i].frame)
  }

  /** Link `i` points to the next one. */
  ghost predicate Wired(links: seq<Link>, i: nat)
    requires i < |links|
    reads links
  {
    links[i].next == if i + 1 < |links| then links[i + 1] else null
  }

  /** The first frame on the channel. */
  function FirstOn(fs: seq<Frame>, channel: nat, i: nat): (r: Option<nat>)
    requires i <= |fs|
    ensures r.Some? ==> i <= r.value < |fs| && ChannelOf(fs[r.value]) == channel
    ensures forall k | i <= k < |fs| && (r.Some? ==> k < r.value) :: ChannelOf(fs[k]) != channel
    decreases |fs| - i
  {
    if i == |fs| then None else if ChannelOf(fs[i]) == channel then Some(i) else FirstOn(fs, channel, i + 1)
  }

  class Queue {
    var first: Link?
    var last: Link?
    ghost var links: seq<Link>
    ghost var Repr: set<object>

    /** `last` is the true tail, and null exactly when `first` is. */
    ghost predicate Valid()
      reads this, Repr
      ensures Valid() ==> this in Repr
    {
      && this in Repr && (forall l | l in links :: l in Repr)
      && (forall i, j | 0 <= i < j < |links| :: links[i] != links[j])
      && (first == null <==> last == null) && (first == null <==> links == [])
      && (links != [] ==> first == links[0] && last == links[|links| - 1])
      && forall i | 0 <= i < |links| :: Wired(links, i)
    }

    ghost function Contents(): seq<Frame>
      reads this
    {
      FramesOf(links)
    }

    constructor ()
      ensures Valid() && Contents() == [] && fresh(Repr)
    {
      first, last, links := null, null, [];
      Repr := {this};
    }

    /** `amqp_queue_frame`, and the same steps in `amqp_try_recv` and `simple_rpc_inner`. */
    method Enqueue(f: Frame)
      requires Valid()
      modifies Repr
      ensures Valid() && fresh(Repr - old(Repr)) && Contents() == old(Contents()) + [f]
    {
      var link := new Link(f);
      if first == null { first := link; } else { last.next := link; }
      last := link;
      ghost var before := links;
      links := before + [link];
      Repr := Repr + {link};
      forall i | 0 <= i < |links| ensures Wired(links, i) {
        if i < |before| { assert old(Wired(before, i)); }
      }
    }

    /** `amqp_put_back_frame`. */
    method PutBack(f: Frame)
      requires Valid()
      modifies Repr
      ensures Valid() && fresh(Repr - old(Repr)) && Contents() == [f] + old(Contents())
    {
      var link := new Link(f);
      if first == null { last := link; } else { link.next := first; }
      first := link;
      ghost var before := links;
      links := [link] + before;
      Repr := Repr + {link};
      forall i | 0 <= i < |links| ensures Wired(links, i) {
        if i > 0 { assert old(Wired(before, i - 1)); }
      }
    }

    /** The frame at the front, as `amqp_simple_wait_frame_noblock` takes it. */
    method TakeFirst() returns (f: Frame)
      requires Valid() && Contents() != []
      modifies this
      ensures Valid() && Repr == old(Repr) && [f] + Contents() == old(Contents())
    {
      f := first.frame;
      assert Wired(links, 0);
      SetFirst(first.next, 1);
    }

    /** Let the queue start behind its first `k` links. */
    method SetFirst(next: Link?, ghost k: nat)
      requires Valid() && 0 < k <= |links| && next == links[k - 1].next
      modifies this
      ensures Valid() && Repr == old(Repr) && links == old(links)[k..]
    {
      ghost var before := links;
      assert Wired(before, k - 1);
      first := next;
      links := before[k..];
      if first == null { last := null; }
      forall i | 0 <= i < |links| ensures Wired(links, i) {
        assert old(Wired(before, k + i));
      }
    }

    /** The first frame of the channel, as `amqp_simple_wait_frame_on_channel` takes it: the queue goes
        on behind it, whatever stood in front of it. */
    method TakeOnChannel(channel: nat) returns (f: Option<Frame>)
      requires Valid()
      modifies this
      ensures Valid() && Repr == old(Repr)
      ensures match FirstOn(old(Contents()), channel, 0)
              case None => f == None && Contents() == old(Contents())
              case Some(k) => f == Some(old(Contents())[k]) && Contents() == old(Contents())[k + 1..]
    {
      var cur := first;
      ghost var i := 0;
      while cur != null
        invariant Valid() && links == old(links) && Repr == old(Repr)
        invariant i <= |links| && cur == (if i < |links| then links[i] else null)
        invariant FirstOn(Contents(), channel, 0) == FirstOn(Contents(), channel, i)
        decreases |links| - i
      {
        assert cur.frame == Contents()[i] && Wired(links, i);
        if ChannelOf(cur.frame) == channel {
          SetFirst(cur.next, i + 1);
          return Some(cur.frame);
        }
        cur, i := cur.next, i + 1;
      }
      f := None;
    }
  }

  /** Taking a frame by channel keeps all others exactly when the match stood at the front. */
  lemma NothingLost(fs: seq<Frame>, channel: nat)
    requires FirstOn(fs, channel, 0).Some?
    ensures var k := FirstOn(fs, channel, 0).value;
            multiset(fs) == multiset{fs[k]} + multiset(fs[k + 1..]) <==> ChannelOf(fs[0]) == channel
  {
    var k := FirstOn(fs, channel, 0).value;
    assert fs == fs[..k] + [fs[k]] + fs[k + 1..];
    assert |multiset(fs)| == |fs| && |multiset(fs[k + 1..])| == |fs| - k - 1;
  }

  /** A frame of another channel in front of the match is lost. */
  lemma FrontLost(f: Frame, g: Frame, channel: nat)
    requires ChannelOf(f) != channel == ChannelOf(g)
    ensures FirstOn([f, g], channel, 0) == Some(1) && f !in [f, g][2..]
  {
    assert FirstOn([f, g], channel, 1) == Some(1);
  }
}
