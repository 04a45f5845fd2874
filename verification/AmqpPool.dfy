/** The page pool of the AMQP client: requests are cut from pages that are kept when the pool is
    recycled; what does not fit a page gets a block of its own.  The allocator is specified as a
    function on the pool's counters, and proved for every run of requests and recyclings. */
module AmqpPool {
  import opened Wire

  const SIZE_LIMIT: nat := U64

  /** The blocks of a pool, numbered in the order in which they were recorded. */
  datatype BlockId = Page(index: nat) | Large(index: nat)

  datatype Region = Region(block: BlockId, off: nat, len: nat)

  /** The counters of `amqp_pool_t`; `large` holds the sizes of the large blocks. */
  datatype Pool = Pool(pagesize: nat, pages: nat, large: seq<nat>, nextPage: nat, current: Option<nat>, used: nat)

  function Empty(pagesize: nat): Pool {
    Pool(if pagesize == 0 then 4096 else pagesize, 0, [], 0, None, 0)
  }

  /** `(amount + 7) & ~7` on a 64-bit size. */
  function Rounded(amount: nat): (r: nat)
    ensures r % 8 == 0 && r < SIZE_LIMIT
  {
    (amount + 7) % SIZE_LIMIT / 8 * 8
  }

  datatype Served = Served(pool: Pool, region: Option<Region>)

  /** `amqp_pool_alloc`; an empty request gets nothing. */
  function Alloc(p: Pool, amount: nat): Served {
    var a := Rounded(amount);
    if amount == 0 then Served(p, None)
    else if a > p.pagesize then
      Served(p.(large := p.large + [a]), Some(Region(Large(|p.large|), 0, a)))
    else if p.current.Some? && p.used + a <= p.pagesize then
      Served(p.(used := p.used + a), Some(Region(Page(p.current.value), p.used, a)))
    else if p.nextPage >= p.pages then
      Served(p.(pages := p.pages + 1, nextPage := p.pages + 1, current := Some(p.pages), used := a),
             Some(Region(Page(p.pages), 0, a)))
    else
      Served(p.(nextPage := p.nextPage + 1, current := Some(p.nextPage), used := a),
             Some(Region(Page(p.nextPage), 0, a)))
  }

  /** `recycle_amqp_pool`: the pages stay. */
  function Recycle(p: Pool): Pool {
    p.(large := [], nextPage := 0, current := None, used := 0)
  }

  // ----- runs -----

  /** A pool, the regions handed out since it was last recycled, and how often it has been recycled. */
  datatype History = History(pool: Pool, live: seq<Region>, epoch: nat)

  datatype Op = Request(amount: nat) | Reuse

  function Step(h: History, op: Op): History {
    match op
    case Request(n) =>
      var s := Alloc(h.pool, n);
      History(s.pool, if s.region.Some? then h.live + [s.region.value] else h.live, h.epoch)
    case Reuse => History(Recycle(h.pool), [], h.epoch + 1)
  }

  function Run(h: History, ops: seq<Op>): History
    decreases |ops|
  {
    if ops == [] then h else Run(Step(h, ops[0]), ops[1..])
  }

  function Fresh(pagesize: nat): History { History(Empty(pagesize), [], 0) }

  predicate Disjoint(a: Region, b: Region) {
    a.block != b.block || a.off + a.len <= b.off || b.off + b.len <= a.off
  }

  ghost predicate PairwiseDisjoint(rs: seq<Region>) {
    forall i, j | 0 <= i < j < |rs| :: Disjoint(rs[i], rs[j])
  }

  /** Inside its block, and aligned to eight octets like the block itself. */
  predicate Inside(p: Pool, r: Region) {
    r.off % 8 == 0 &&
    match r.block
    case Page(i) => i < p.pages && r.off + r.len <= p.pagesize
    case Large(i) => i < |p.large| && r.off + r.len <= p.large[i]
  }

  ghost predicate Counters(p: Pool) {
    && p.used <= p.pagesize && p.used % 8 == 0 && p.nextPage <= p.pages
    && (if p.current.None? then p.nextPage == p.used == 0 else p.nextPage == p.current.value + 1)
  }

  /** The part of its block that has been given away ends no earlier than the region. */
  predicate Taken(p: Pool, r: Region) {
    match r.block
    case Page(i) => i < p.nextPage && (Some(i) == p.current ==> r.off + r.len <= p.used)
    case Large(i) => i < |p.large|
  }

  ghost predicate InUse(live: seq<Region>, page: nat) {
    exists k :: 0 <= k < |live| && live[k].block == Page(page)
  }

  ghost predicate PagesFilled(h: History) {
    forall i: nat | i < h.pool.nextPage :: InUse(h.live, i)
  }

  ghost predicate Valid(h: History) {
    && Counters(h.pool)
    && (forall k | 0 <= k < |h.live| :: Inside(h.pool, h.live[k]) && Taken(h.pool, h.live[k]))
    && PairwiseDisjoint(h.live)
    && PagesFilled(h)
  }

  lemma StillInUse(live: seq<Region>, r: Region, page: nat)
    requires InUse(live, page) || r.block == Page(page)
    ensures InUse(live + [r], page)
  {
    if InUse(live, page) {
      var k :| 0 <= k < |live| && live[k].block == Page(page);
      assert (live + [r])[k].block == Page(page);
    } else {
      assert (live + [r])[|live|].block == Page(page);
    }
  }

  /** What one request gets is new: inside its block, aligned, and apart from everything live. */
  lemma AllocValid(h: History, n: nat)
    requires Valid(h)
    ensures Valid(Step(h, Request(n)))
  {
    var s := Alloc(h.pool, n);
    if s.region.Some? {
      AllocTaken(h, n);
      forall i: nat | i < s.pool.nextPage ensures InUse(h.live + [s.region.value], i) {
        StillInUse(h.live, s.region.value, i);
      }
    }
  }

  lemma AllocTaken(h: History, n: nat)
    requires Valid(h) && Alloc(h.pool, n).region.Some?
    ensures var s := Alloc(h.pool, n);
            && Counters(s.pool) && Inside(s.pool, s.region.value) && Taken(s.pool, s.region.value)
            && forall k | 0 <= k < |h.live| ::
                 Inside(s.pool, h.live[k]) && Taken(s.pool, h.live[k]) && Disjoint(h.live[k], s.region.value)
  {
    forall k | 0 <= k < |h.live| { TakenApart(h.pool, h.live[k], n); }
  }

  /** What was taken before stays inside its block and apart from the new region. */
  lemma TakenApart(p: Pool, r: Region, n: nat)
    requires Counters(p) && Inside(p, r) && Taken(p, r) && Alloc(p, n).region.Some?
    ensures var s := Alloc(p, n); Inside(s.pool, r) && Taken(s.pool, r) && Disjoint(r, s.region.value)
  {
  }

  lemma {:induction false} RunValid(h: History, ops: seq<Op>)
    requires Valid(h)
    ensures Valid(Run(h, ops))
    decreases |ops|
  {
    if ops != [] {
      if ops[0].Request? { AllocValid(h, ops[0].amount); }
      RunValid(Step(h, ops[0]), ops[1..]);
    }
  }

  /** For every page size and every run of requests and recyclings: the regions handed out since the
      last recycling are pairwise disjoint, aligned, inside their page or block, and the page in use
      is never overrun. */
  lemma RegionsSafe(pagesize: nat, ops: seq<Op>)
    ensures var h := Run(Fresh(pagesize), ops);
            && PairwiseDisjoint(h.live)
            && (forall k | 0 <= k < |h.live| :: Inside(h.pool, h.live[k]))
            && h.pool.used <= h.pool.pagesize
  {
    RunValid(Fresh(pagesize), ops);
  }

  // ----- how many pages -----

  function PagesOf(live: seq<Region>): set<nat> {
    set k | 0 <= k < |live| && live[k].block.Page? :: live[k].block.index
  }

  /** The largest number of pages in use at any time of the run. */
  function Peak(h: History, ops: seq<Op>): nat
    decreases |ops|
  {
    var here := |PagesOf(h.live)|;
    if ops == [] then here
    else
      var later := Peak(Step(h, ops[0]), ops[1..]);
      if here < later then later else here
  }

  lemma {:induction false} RangeSize(s: set<nat>, n: nat)
    requires forall i: nat :: i in s <==> i < n
    ensures |s| == n
    decreases n
  {
    if n > 0 {
      RangeSize(s - {n - 1}, n - 1);
    } else {
      assert s == {};
    }
  }

  lemma PagesInUse(h: History)
    requires Valid(h)
    ensures |PagesOf(h.live)| == h.pool.nextPage
  {
    var s := PagesOf(h.live);
    forall i: nat ensures i in s <==> i < h.pool.nextPage {
      if i < h.pool.nextPage {
        assert InUse(h.live, i);
        var k :| 0 <= k < |h.live| && h.live[k].block == Page(i);
        assert h.live[k].block.index in s;
      }
      if i in s {
        var k :| 0 <= k < |h.live| && h.live[k].block.Page? && h.live[k].block.index == i;
        assert Taken(h.pool, h.live[k]);
      }
    }
    RangeSize(s, h.pool.nextPage);
  }

  lemma {:induction false} PagesArePeak(h: History, ops: seq<Op>)
    requires Valid(h)
    ensures Run(h, ops).pool.pages == if h.pool.pages < Peak(h, ops) then Peak(h, ops) else h.pool.pages
    decreases |ops|
  {
    PagesInUse(h);
    if ops != [] {
      if ops[0].Request? { AllocValid(h, ops[0].amount); }
      PagesInUse(Step(h, ops[0]));
      PagesArePeak(Step(h, ops[0]), ops[1..]);
      FirstStepPeak(h, ops);
    }
  }

  /** A new page is taken only when all pages are in use. */
  lemma FirstStepPeak(h: History, ops: seq<Op>)
    requires Valid(h) && ops != []
    ensures var p, p' := h.pool, Step(h, ops[0]).pool;
            p'.pages == if p.pages < p'.nextPage then p'.nextPage else p.pages
    ensures Peak(Step(h, ops[0]), ops[1..]) >= |PagesOf(Step(h, ops[0]).live)|
  {
  }

  /** Recycling loses no page and leaks none: the pool owns exactly as many pages as were ever in use
      at once. */
  lemma PagesAreNeverWasted(pagesize: nat, ops: seq<Op>)
    ensures Run(Fresh(pagesize), ops).pool.pages == Peak(Fresh(pagesize), ops)
  {
    PagesArePeak(Fresh(pagesize), ops);
  }

  /** A request gets at least what it asked for exactly when rounding it up does not leave the
      64-bit range. */
  lemma EnoughExactly(p: Pool, amount: nat)
    requires 0 < amount < SIZE_LIMIT
    ensures Alloc(p, amount).region.Some?
    ensures Alloc(p, amount).region.value.len >= amount <==> amount + 7 < SIZE_LIMIT
  {
    if amount + 7 >= SIZE_LIMIT {
      assert (amount + 7) % SIZE_LIMIT == amount + 7 - SIZE_LIMIT;
    }
  }

  /** The largest request of all is rounded to nothing. */
  lemma RoundingWraps(p: Pool)
    ensures Alloc(p, SIZE_LIMIT - 1).region.Some? && Alloc(p, SIZE_LIMIT - 1).region.value.len == 0
  {
    EnoughExactly(p, SIZE_LIMIT - 1);
    assert (SIZE_LIMIT - 1 + 7) % SIZE_LIMIT == 6;
  }

  // ----- the allocator -----

  /** Memory from `calloc`. */
  class Block {
    const size: nat

    constructor (size: nat)
      ensures this.size == size
    {
      this.size := size;
    }
  }

  ghost predicate Different<T>(s: seq<T>) { forall i, j | 0 <= i < j < |s| :: s[i] != s[j] }

  class Allocator {
    const pagesize: nat
    var pages: seq<Block>
    var largeBlocks: seq<Block>
    var nextPage: nat
    var allocBlock: Block?
    var allocUsed: nat

    /** All blocks are different memory, so that what is apart in the numbering is apart in fact. */
    ghost predicate Valid()
      reads this
    {
      && Different(pages + largeBlocks)
      && (forall i | 0 <= i < |pages| :: pages[i].size == pagesize)
      && pagesize > 0 && nextPage <= |pages| && allocUsed <= pagesize
      && (if allocBlock == null then nextPage == 0 else nextPage > 0 && allocBlock == pages[nextPage - 1])
    }

    ghost function View(): Pool
      reads this
    {
      Pool(pagesize, |pages|, seq(|largeBlocks|, i requires 0 <= i < |largeBlocks| reads this => largeBlocks[i].size),
           nextPage, if allocBlock == null then None else Some(if nextPage == 0 then 0 else nextPage - 1), allocUsed)
    }

    ghost predicate IsBlock(b: Block?, id: BlockId)
      reads this
    {
      match id
      case Page(i) => i < |pages| && b == pages[i]
      case Large(i) => i < |largeBlocks| && b == largeBlocks[i]
    }

    constructor (pagesize: nat)
      ensures Valid() && View() == Empty(pagesize)
    {
      this.pagesize := if pagesize == 0 then 4096 else pagesize;
      pages, largeBlocks, nextPage, allocBlock, allocUsed := [], [], 0, null, 0;
      new;
      assert View().large == [];
    }

    /** `recycle_amqp_pool`. */
    method RecyclePool()
      requires Valid()
      modifies this
      ensures Valid() && View() == Recycle(old(View())) && pages == old(pages)
    {
      largeBlocks, nextPage, allocBlock, allocUsed := [], 0, null, 0;
      assert View().large == [];
      assert pages + largeBlocks == pages;
      assert forall i | 0 <= i < |pages| :: pages[i] == old(pages + largeBlocks)[i];
    }

    /** `empty_amqp_pool`. */
    method EmptyPool()
      requires Valid()
      modifies this
      ensures Valid() && View() == Empty(pagesize)
    {
      RecyclePool();
      pages := [];
      assert pages + largeBlocks == [];
    }

    /** `amqp_pool_alloc`, with memory always available: the place of the region the specification
        gives, in memory that is either a block of the pool or new. */
    method AllocRegion(amount: nat) returns (block: Block?, off: nat)
      requires Valid()
      modifies this
      ensures Valid() && View() == Alloc(old(View()), amount).pool
      ensures match Alloc(old(View()), amount).region
              case None => block == null
              case Some(r) => IsBlock(block, r.block) && off == r.off
      ensures old(pages) <= pages && old(largeBlocks) <= largeBlocks
    {
      if amount == 0 { return null, 0; }
      var a := (amount + 7) % SIZE_LIMIT / 8 * 8;
      if a > pagesize {
        var result := new Block(a);
        AddedLast(pages, largeBlocks, result);
        largeBlocks := largeBlocks + [result];
        assert View().large == old(View()).large + [a];
        return result, 0;
      }
      if allocBlock != null && allocUsed + a <= pagesize {
        block, off := allocBlock, allocUsed;
        allocUsed := allocUsed + a;
        assert View().large == old(View()).large;
        return;
      }
      if nextPage >= |pages| {
        var page := new Block(pagesize);
        AddedBetween(pages, largeBlocks, page);
        pages := pages + [page];
        allocBlock := page;
        nextPage := |pages|;
      } else {
        allocBlock := pages[nextPage];
        nextPage := nextPage + 1;
      }
      allocUsed := a;
      assert View().large == old(View()).large;
      block, off := allocBlock, 0;
    }
  }

  lemma AddedLast<T>(a: seq<T>, b: seq<T>, x: T)
    requires Different(a + b) && x !in a && x !in b
    ensures Different(a + (b + [x]))
  {
    assert a + (b + [x]) == a + b + [x];
  }

  lemma AddedBetween<T>(a: seq<T>, b: seq<T>, x: T)
    requires Different(a + b) && x !in a && x !in b
    ensures Different(a + [x] + b)
  {
    var s, t := a + b, a + [x] + b;
    forall i, j | 0 <= i < j < |t| ensures t[i] != t[j] {
      var i', j' := if i > |a| then i - 1 else i, if j > |a| then j - 1 else j;
      assert i != |a| ==> t[i] == s[i'];
      assert j != |a| ==> t[j] == s[j'];
    }
  }
}
