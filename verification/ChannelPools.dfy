/** The table that finds a channel's pool: sixteen buckets of entries, new entries in front. */
module ChannelPools {
  import opened Wire
  import opened AmqpPool

  const POOL_TABLE_SIZE: nat := 16

  datatype Bucket = End | Entry(channel: nat, pool: Allocator, next: Bucket)

  function Find(b: Bucket, channel: nat): Option<Allocator> {
    match b
    case End => None
    case Entry(c, pool, next) => if c == channel then Some(pool) else Find(next, channel)
  }

  function PoolsOf(b: Bucket): set<Allocator> {
    match b
    case End => {}
    case Entry(_, p, next) => {p} + PoolsOf(next)
  }

  lemma {:induction false} FoundIsHeld(b: Bucket, channel: nat)
    ensures Find(b, channel).Some? ==> Find(b, channel).value in PoolsOf(b)
  {
    if b.Entry? { FoundIsHeld(b.next, channel); }
  }

  class PoolTable {
    const frameMax: nat
    const buckets: array<Bucket>
    ghost var pools: set<Allocator>

    /** Which pool a channel has, if it has one. */
    ghost function PoolAt(channel: nat): Option<Allocator>
      requires buckets.Length == POOL_TABLE_SIZE
      reads this, buckets
    {
      Find(buckets[channel % POOL_TABLE_SIZE], channel)
    }

    /** No two channels share a pool. */
    ghost predicate Valid()
      reads this, buckets
    {
      && buckets.Length == POOL_TABLE_SIZE
      && (forall i | 0 <= i < POOL_TABLE_SIZE :: PoolsOf(buckets[i]) <= pools)
      && (forall c: nat, d: nat | PoolAt(c).Some? && PoolAt(c) == PoolAt(d) :: c == d)
    }

    constructor (frameMax: nat)
      ensures Valid() && fresh(buckets) && pools == {} && forall c: nat :: PoolAt(c) == None
    {
      this.frameMax := frameMax;
      buckets := new Bucket[POOL_TABLE_SIZE](_ => End);
      pools := {};
    }

    /** `amqp_get_channel_pool`. */
    method Get(channel: nat) returns (r: Option<Allocator>)
      requires Valid()
      ensures r == PoolAt(channel)
    {
      var entry := buckets[channel % POOL_TABLE_SIZE];
      while entry.Entry?
        invariant PoolAt(channel) == Find(entry, channel)
        decreases entry
      {
        if entry.channel == channel { return Some(entry.pool); }
        entry := entry.next;
      }
      r := None;
    }

    /** `amqp_get_or_create_channel_pool`: the channel's pool from now on, and every other channel
        keeps its own. */
    method GetOrCreate(channel: nat) returns (pool: Allocator)
      requires Valid()
      modifies this, buckets
      ensures Valid() && PoolAt(channel) == Some(pool)
      ensures forall c: nat | c != channel :: PoolAt(c) == old(PoolAt(c))
      ensures old(PoolAt(channel)).Some? ==> old(PoolAt(channel)) == Some(pool)
      ensures old(PoolAt(channel)).None? ==> fresh(pool) && pool.Valid() && pool.View() == Empty(frameMax)
    {
      var found := Get(channel);
      if found.Some? { return found.value; }
      pool := new Allocator(frameMax);
      var i := channel % POOL_TABLE_SIZE;
      buckets[i] := Entry(channel, pool, buckets[i]);
      pools := pools + {pool};
      forall c: nat ensures PoolAt(c) == if c == channel then Some(pool) else old(PoolAt(c)) {
      }
      forall c: nat | c != channel ensures PoolAt(c) != Some(pool) {
        FoundIsHeld(old(buckets[c % POOL_TABLE_SIZE]), c);
      }
    }
  }
}
