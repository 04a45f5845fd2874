/** Where the nginx pool puts a request, in every reachable state: which requests are small, in which block
    and at which offset they are served, what a new block costs the others, which slot a large one takes,
    and that a reset makes every block available again. */
module NgxPlacement {
  import opened Wire
  import opened NgxPool

  /** The next multiple of eight. */
  function Up8(n: nat): (r: nat)
    ensures n <= r < n + 8 && r % 8 == 0
  {
    if n % 8 == 0 then n else n - n % 8 + 8
  }

  /** Where the next region of a block would start. */
  function Free(b: Block, aligned: bool): nat { if aligned then Up8(b.last) else b.last }

  predicate Room(size: nat, b: Block, n: nat, aligned: bool) { Free(b, aligned) + n <= size }

  /** Small requests: what fits an empty first block, and less than a page. */
  predicate IsSmall(size: nat, page: PageSize, n: nat) { n + 80 <= size && n < page }

  lemma FreeIsStart(b: Block, aligned: bool)
    ensures Free(b, aligned) == Start(b, aligned)
  {
  }

  lemma RoomIsFits(size: nat, b: Block, n: nat, aligned: bool)
    requires b.last <= size < U64 && size % 8 == 0
    ensures Fits(size, b, n, aligned) <==> Room(size, b, n, aligned)
  {
    FreeIsStart(b, aligned);
    FitsIsRoom(size, b, n, aligned);
  }

  // ----- small requests -----

  /** A failure was counted for every block searched but the last; blocks that had failed five times in a row
      are not searched any more. */
  ghost predicate Counted<Id>(p: Pool<Id>, q: Pool<Id>) {
    && p.current <= q.current < |p.blocks| < |q.blocks|
    && (forall k | 0 <= k < |p.blocks| ::
          q.blocks[k] == Block(p.blocks[k].last, p.blocks[k].failed + if p.current <= k < |p.blocks| - 1 then 1 else 0))
    && (forall k | p.current <= k < q.current :: p.blocks[k].failed == 5)
    && (q.current < |p.blocks| - 1 ==> p.blocks[q.current].failed <= 4)
  }

  lemma {:induction false} PassExact(blocks: seq<Block>, i: nat, current: nat)
    requires i < |blocks|
    ensures var r := Pass(blocks, i, current);
            forall k | 0 <= k < |blocks| ::
              r.blocks[k] == Block(blocks[k].last, blocks[k].failed + if i <= k < |blocks| - 1 then 1 else 0)
    decreases |blocks| - i
  {
    if i + 1 < |blocks| {
      PassExact(blocks[i := blocks[i].(failed := blocks[i].failed + 1)], i + 1,
                if blocks[i].failed > 4 then i + 1 else current);
    }
  }

  /** The pool's current block moves behind the last block that had failed too often. */
  lemma {:induction false} PassMoves(blocks: seq<Block>, i: nat, current: nat)
    requires i < |blocks|
    ensures var r := Pass(blocks, i, current);
            && (forall j | i <= j < |blocks| - 1 && blocks[j].failed > 4 :: r.current > j)
            && (r.current == current || (i < r.current < |blocks| && blocks[r.current - 1].failed > 4))
    decreases |blocks| - i
  {
    if i + 1 < |blocks| {
      var blocks' := blocks[i := blocks[i].(failed := blocks[i].failed + 1)];
      PassMoves(blocks', i + 1, if blocks[i].failed > 4 then i + 1 else current);
      assert forall j | i < j < |blocks| :: blocks'[j] == blocks[j];
    }
  }

  lemma AppendCounts<Id>(p: Pool<Id>, n: nat, aligned: bool)
    requires p.current < |p.blocks| && Retired(p.blocks, p.current)
    ensures var s := AppendBlock(p, n, aligned);
            && Counted(p, s.pool) && s.pool.large == p.large
            && |s.pool.blocks| == |p.blocks| + 1 && s.pool.blocks[|p.blocks|] == Block(32 + n, 0)
            && s.region == Region(|p.blocks|, 32, n, aligned)
  {
    PassExact(p.blocks, p.current, p.current);
    PassMoves(p.blocks, p.current, p.current);
  }

  /** The request was cut from the first block with room, behind what was cut from it before. */
  ghost predicate CutFrom<Id>(p: Pool<Id>, q: Pool<Id>, r: Region, n: nat, aligned: bool) {
    && r.block < |p.blocks| && Room(p.size, p.blocks[r.block], n, aligned) && r.off == Free(p.blocks[r.block], aligned)
    && q == p.(blocks := p.blocks[r.block := Block(r.off + n, p.blocks[r.block].failed)])
  }

  /** The request was cut from a new block, behind a header of 32 octets. */
  ghost predicate CutFromNew<Id>(p: Pool<Id>, q: Pool<Id>, r: Region, n: nat) {
    && r.block == |p.blocks| && r.off == 32 && |q.blocks| == |p.blocks| + 1 && q.blocks[r.block] == Block(32 + n, 0)
    && q.large == p.large && Counted(p, q)
  }

  lemma SmallPlaced<Id>(p: Pool<Id>, n: nat, aligned: bool)
    requires Sized(p) && p.size % 8 == 0 && Ends(p.size, p.blocks) && Retired(p.blocks, p.current)
    ensures var s := Small(p, n, aligned);
            && s.region.len == n && s.region.aligned == aligned && s.region.block >= p.current
            && (forall k | p.current <= k < s.region.block && k < |p.blocks| :: !Room(p.size, p.blocks[k], n, aligned))
            && (CutFrom(p, s.pool, s.region, n, aligned) || CutFromNew(p, s.pool, s.region, n))
  {
    forall k | 0 <= k < |p.blocks|
      ensures Fits(p.size, p.blocks[k], n, aligned) <==> Room(p.size, p.blocks[k], n, aligned)
    {
      RoomIsFits(p.size, p.blocks[k], n, aligned);
    }
    var found := Search(p.size, p.blocks, p.current, n, aligned);
    if found.Some? { FreeIsStart(p.blocks[found.value], aligned); } else { AppendCounts(p, n, aligned); }
  }

  lemma Reachable<Id>(size: nat, page: PageSize, ops: seq<Op<Id>>)
    requires PoolSize(size) && size % 8 == 0
    ensures var p := Run(size, page, ops).pool;
            && Sized(p) && p.size == size && Ends(p.size, p.blocks) && Retired(p.blocks, p.current)
            && forall n: nat :: n <= p.max <==> IsSmall(size, page, n)
  {
    RunValid(size, page, ops);
    RunRetires(size, page, ops);
  }

  /** In every reachable state: a request is served from the blocks exactly when it is small; it is then cut
      from the first block, from the current one on, that has room for it, or else from a new block. */
  lemma SmallServed<Id>(size: nat, page: PageSize, ops: seq<Op<Id>>, n: nat, aligned: bool, id: Id)
    requires PoolSize(size) && size % 8 == 0 && IsSmall(size, page, n)
    ensures var p := Run(size, page, ops).pool;
            var r := Request(p, n, aligned, id);
            && r.region.Some? && r.region.value.len == n && r.region.value.aligned == aligned
            && r.region.value.block >= p.current
            && (forall k | p.current <= k < r.region.value.block && k < |p.blocks| ::
                  !Room(size, p.blocks[k], n, aligned))
            && (CutFrom(p, r.pool, r.region.value, n, aligned) || CutFromNew(p, r.pool, r.region.value, n))
  {
    Reachable(size, page, ops);
    SmallPlaced(Run(size, page, ops).pool, n, aligned);
  }

  // ----- large requests -----

  /** One of the first five slots is free. */
  predicate SlotFree<Id>(large: seq<Option<Id>>, i: nat) { i < 5 && i < |large| && large[i].None? }

  lemma {:induction false} FirstFreeSlot<Id>(large: seq<Option<Id>>, i: nat)
    requires i <= |large| && i <= 5
    ensures match FreeSlot(large, i)
            case Some(k) => i <= k && SlotFree(large, k) && forall j | i <= j < k :: !SlotFree(large, j)
            case None => forall j | i <= j :: !SlotFree(large, j)
    decreases |large| - i
  {
    if i < |large| && i < 5 && large[i].Some? { FirstFreeSlot(large, i + 1); }
  }

  /** In every reachable state: any other request gets memory of its own, remembered in the first free slot
      among the first five, and else in a new slot of 16 octets, cut like a small request. */
  lemma LargeServed<Id>(size: nat, page: PageSize, ops: seq<Op<Id>>, n: nat, aligned: bool, id: Id)
    requires PoolSize(size) && size % 8 == 0 && !IsSmall(size, page, n)
    ensures var p := Run(size, page, ops).pool;
            var r := Request(p, n, aligned, id);
            && (forall i: nat | SlotFree(p.large, i) && (forall j | 0 <= j < i :: !SlotFree(p.large, j)) ::
                  r == MaybeServed(p.(large := p.large[i := Some(id)]), None))
            && ((forall i: nat :: !SlotFree(p.large, i)) ==>
                  && r.region.Some? && r.region.value.len == 16 && r.region.value.aligned
                  && r.pool.large == [Some(id)] + p.large)
  {
    Reachable(size, page, ops);
    FirstFreeSlot(Run(size, page, ops).pool.large, 0);
    SmallPlaced(Run(size, page, ops).pool, SLOT_SIZE, true);
  }

  // ----- after a reset -----

  /** After a reset, whatever happened before, a small request is served from the first block behind its
      header, no memory of its own is held any more, and no block was given back. */
  lemma AfterReset<Id>(size: nat, page: PageSize, ops: seq<Op<Id>>, n: nat, aligned: bool, id: Id)
    requires PoolSize(size) && IsSmall(size, page, n)
    ensures var before, h := Run(size, page, ops).pool, Run(size, page, ops + [Clear]);
            && h.live == [] && h.pool.large == [] && |h.pool.blocks| == |before.blocks|
            && Request(h.pool, n, aligned, id).region == Some(Region(0, 80, n, aligned))
  {
    RunThen(size, page, ops, Clear);
    EmptyFits(size, Block(80, 0), n, aligned);
  }

  lemma EmptyFits(size: nat, b: Block, n: nat, aligned: bool)
    requires b.last == 80 && 80 + n <= size < U64
    ensures Fits(size, b, n, aligned) && Start(b, aligned) == 80
  {
  }

  /** `k` equal requests. */
  function Asks<Id>(k: nat, n: nat, aligned: bool, id: Id): (ops: seq<Op<Id>>)
    ensures |ops| == k
  {
    if k == 0 then [] else Asks(k - 1, n, aligned, id) + [Ask(n, aligned, id)]
  }

  /** The first `k` blocks hold one region of `n` octets each, the others nothing. */
  function FilledTo(total: nat, k: nat, n: nat): (bs: seq<Block>)
    ensures |bs| == total
  {
    seq(total, i => if i < k then Block(80 + n, 0) else Block(80, 0))
  }

  function OneEach(k: nat, n: nat, aligned: bool): (rs: seq<Region>)
    ensures |rs| == k
  {
    seq(k, i requires 0 <= i < k => Region(i, 80, n, aligned))
  }

  /** The first `k` of all blocks were filled. */
  ghost predicate Holding<Id>(h: History<Id>, total: nat, k: nat, n: nat, aligned: bool) {
    h.live == OneEach(k, n, aligned) && h.pool.blocks == FilledTo(total, k, n) && h.pool.current == 0
  }

  lemma FillsNext<Id>(h: History<Id>, total: nat, k: nat, n: nat, aligned: bool, id: Id)
    requires Sized(h.pool) && h.pool.size % 8 == 0 && n <= h.pool.max && h.pool.size < 80 + 2 * n && k < total
    requires Holding(h, total, k, n, aligned)
    ensures Holding(Step(h, Ask(n, aligned, id)), total, k + 1, n, aligned)
  {
    var p := h.pool;
    forall i | 0 <= i < k ensures !Fits(p.size, p.blocks[i], n, aligned) {
      RoomIsFits(p.size, p.blocks[i], n, aligned);
    }
    EmptyFits(p.size, p.blocks[k], n, aligned);
    assert Search(p.size, p.blocks, 0, n, aligned) == Some(k);
    assert p.blocks[k := Block(80 + n, 0)] == FilledTo(total, k + 1, n);
    assert OneEach(k, n, aligned) + [Region(k, 80, n, aligned)] == OneEach(k + 1, n, aligned);
  }

  lemma ResetHolds<Id>(size: nat, page: PageSize, ops: seq<Op<Id>>, n: nat, aligned: bool)
    requires PoolSize(size)
    ensures Holding(Run(size, page, ops + [Clear]), |Run(size, page, ops).pool.blocks|, 0, n, aligned)
  {
    RunThen(size, page, ops, Clear);
    assert FilledTo(|Run(size, page, ops).pool.blocks|, 0, n) == Run(size, page, ops + [Clear]).pool.blocks;
  }

  lemma AskMore<Id>(size: nat, page: PageSize, start: seq<Op<Id>>, k: nat, n: nat, aligned: bool, id: Id)
    requires PoolSize(size)
    ensures Run(size, page, start + Asks(k + 1, n, aligned, id))
         == Step(Run(size, page, start + Asks(k, n, aligned, id)), Ask(n, aligned, id))
  {
    var more, ask := start + Asks(k, n, aligned, id), Ask(n, aligned, id);
    assert start + Asks(k + 1, n, aligned, id) == more + [ask];
    RunThen(size, page, more, ask);
  }

  /** After a reset, requests of which each block holds only one are served from one block after the other,
      all those there were, before a new one is needed. */
  lemma {:induction false} ResetReuses<Id>(size: nat, page: PageSize, ops: seq<Op<Id>>, k: nat, n: nat, aligned: bool,
                                           id: Id)
    requires PoolSize(size) && size % 8 == 0 && IsSmall(size, page, n) && size < 80 + 2 * n
    requires k <= |Run(size, page, ops).pool.blocks|
    ensures Holding(Run(size, page, ops + [Clear] + Asks(k, n, aligned, id)), |Run(size, page, ops).pool.blocks|, k, n,
                    aligned)
    decreases k
  {
    var start := ops + [Clear];
    if k == 0 {
      assert start + Asks(0, n, aligned, id) == start;
      ResetHolds(size, page, ops, n, aligned);
    } else {
      ResetReuses(size, page, ops, k - 1, n, aligned, id);
      var more := start + Asks(k - 1, n, aligned, id);
      Reachable(size, page, more);
      FillsNext(Run(size, page, more), |Run(size, page, ops).pool.blocks|, k - 1, n, aligned, id);
      AskMore(size, page, start, k - 1, n, aligned, id);
    }
  }
}
