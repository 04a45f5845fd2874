/** The nginx memory pool: small requests are cut from a chain of equal blocks, large ones are
    allocated on their own and remembered in slots.  The pool is specified as a function on the
    chain's counters; the class at the end is the linked chain itself. */
module NgxPool {
  import opened Wire

  const POOL_HEADER: nat := 80      // sizeof(ngx_pool_t)
  const DATA_HEADER: nat := 32      // sizeof(ngx_pool_data_t)
  const SLOT_SIZE: nat := 16        // sizeof(ngx_pool_large_t)
  const SLOTS_SEARCHED: nat := 5

  /** A block: where its free part starts, and how often it was passed over. */
  datatype Block = Block(last: nat, failed: nat)

  /** `large` holds what the slots point to, most recent slot first; a freed slot points to nothing. */
  datatype Pool<Id> = Pool(size: nat, max: nat, blocks: seq<Block>, current: nat, large: seq<Option<Id>>)

  type PageSize = n: nat | n >= 4096 witness 4096

  /** A block has room for the pool's header and one slot, and an address space has room for a block. */
  predicate PoolSize(size: nat) { POOL_HEADER + SLOT_SIZE <= size < U64 - 4096 }

  ghost predicate Sized<Id>(p: Pool<Id>) {
    PoolSize(p.size) && SLOT_SIZE <= p.max <= p.size - POOL_HEADER
    && p.current < |p.blocks|
  }

  /** `ngx_create_pool`. */
  function Create<Id>(size: nat, page: PageSize): (p: Pool<Id>)
    requires PoolSize(size)
    ensures Sized(p)
  {
    var rest := size - POOL_HEADER;
    Pool(size, if rest < page - 1 then rest else page - 1, [Block(POOL_HEADER, 0)], 0, [])
  }

  // ----- small requests -----

  /** `ngx_align_ptr`: blocks are aligned to sixteen, so offsets can be rounded instead of addresses. */
  function AlignUp(n: nat): (r: nat)
    ensures n <= r < n + 8 && r % 8 == 0
  {
    (n + 7) / 8 * 8
  }

  function Start(b: Block, aligned: bool): nat { if aligned then AlignUp(b.last) else b.last }

  /** `(size_t)(end - m) >= n`: the difference is unsigned. */
  predicate Fits(size: nat, b: Block, n: nat, aligned: bool) {
    (size - Start(b, aligned)) % U64 >= n
  }

  /** The first block from `i` on in which the request fits. */
  function Search(size: nat, blocks: seq<Block>, i: nat, n: nat, aligned: bool): (r: Option<nat>)
    requires i <= |blocks|
    ensures r.Some? ==> i <= r.value < |blocks| && Fits(size, blocks[r.value], n, aligned)
    ensures forall k | i <= k < |blocks| && (r.Some? ==> k < r.value) :: !Fits(size, blocks[k], n, aligned)
    decreases |blocks| - i
  {
    if i == |blocks| then None
    else if Fits(size, blocks[i], n, aligned) then Some(i)
    else Search(size, blocks, i + 1, n, aligned)
  }

  datatype Region = Region(block: nat, off: nat, len: nat, aligned: bool)

  datatype Passed = Passed(blocks: seq<Block>, current: nat)

  /** The loop that appends a block: every block but the last counts a failure, and one that had
      already failed more than four times is retired. */
  function Pass(blocks: seq<Block>, i: nat, current: nat): (r: Passed)
    requires i < |blocks|
    ensures |r.blocks| == |blocks|
    decreases |blocks| - i
  {
    if i + 1 == |blocks| then Passed(blocks, current)
    else
      Pass(blocks[i := blocks[i].(failed := blocks[i].failed + 1)], i + 1,
           if blocks[i].failed > 4 then i + 1 else current)
  }

  datatype Served<Id> = Served(pool: Pool<Id>, region: Region)

  /** `ngx_palloc_block`. */
  function AppendBlock<Id>(p: Pool<Id>, n: nat, aligned: bool): Served<Id>
    requires p.current < |p.blocks|
  {
    var r := Pass(p.blocks, p.current, p.current);
    Served(p.(blocks := r.blocks + [Block(DATA_HEADER + n, 0)], current := r.current),
           Region(|p.blocks|, DATA_HEADER, n, aligned))
  }

  /** `ngx_palloc` (aligned) and `ngx_pnalloc` (not) for a request of at most `max`. */
  function Small<Id>(p: Pool<Id>, n: nat, aligned: bool): Served<Id>
    requires p.current < |p.blocks|
  {
    match Search(p.size, p.blocks, p.current, n, aligned)
    case None => AppendBlock(p, n, aligned)
    case Some(i) =>
      var m := Start(p.blocks[i], aligned);
      Served(p.(blocks := p.blocks[i := p.blocks[i].(last := m + n)]), Region(i, m, n, aligned))
  }

  // ----- large requests -----

  /** The first free slot among the first few. */
  function FreeSlot<Id>(large: seq<Option<Id>>, i: nat): (r: Option<nat>)
    requires i <= |large|
    ensures r.Some? ==> i <= r.value < |large| && large[r.value].None?
    decreases |large| - i
  {
    if i == |large| || i == SLOTS_SEARCHED then None
    else if large[i].None? then Some(i)
    else FreeSlot(large, i + 1)
  }

  datatype MaybeServed<Id> = MaybeServed(pool: Pool<Id>, region: Option<Region>)

  /** `ngx_palloc_large`: a free slot, or a new one cut from the pool like any small request. */
  function TakeSlot<Id>(p: Pool<Id>, id: Id): MaybeServed<Id>
    requires p.current < |p.blocks|
  {
    match FreeSlot(p.large, 0)
    case Some(i) => MaybeServed(p.(large := p.large[i := Some(id)]), None)
    case None =>
      var s := Small(p, SLOT_SIZE, true);
      MaybeServed(s.pool.(large := [Some(id)] + p.large), Some(s.region))
  }

  function Request<Id>(p: Pool<Id>, n: nat, aligned: bool, id: Id): MaybeServed<Id>
    requires p.current < |p.blocks|
  {
    if n <= p.max then
      var s := Small(p, n, aligned);
      MaybeServed(s.pool, Some(s.region))
    else TakeSlot(p, id)
  }

  /** `ngx_pfree`: the first slot that points to `id` is emptied. */
  function FreeLarge<Id(==)>(large: seq<Option<Id>>, id: Id): seq<Option<Id>> {
    if large == [] then []
    else if large[0] == Some(id) then [None] + large[1..]
    else [large[0]] + FreeLarge(large[1..], id)
  }

  /** `ngx_reset_pool`: every block, the first like the others, starts behind a full pool header. */
  function Reset<Id>(p: Pool<Id>): Pool<Id> {
    p.(blocks := seq(|p.blocks|, _ => Block(POOL_HEADER, 0)), current := 0, large := [])
  }

  // ----- runs -----

  datatype Op<Id> = Ask(n: nat, aligned: bool, id: Id) | Free(id: Id) | Clear

  /** A pool and the regions cut from its blocks since the last reset. */
  datatype History<Id> = History(pool: Pool<Id>, live: seq<Region>)

  function Step<Id(==)>(h: History<Id>, op: Op<Id>): History<Id>
    requires h.pool.current < |h.pool.blocks|
  {
    match op
    case Ask(n, aligned, id) =>
      var r := Request(h.pool, n, aligned, id);
      History(r.pool, if r.region.Some? then h.live + [r.region.value] else h.live)
    case Free(id) => History(h.pool.(large := FreeLarge(h.pool.large, id)), h.live)
    case Clear => History(Reset(h.pool), [])
  }

  lemma {:induction false} PassCurrent(blocks: seq<Block>, i: nat, current: nat)
    requires current <= i < |blocks|
    ensures Pass(blocks, i, current).current < |blocks|
    decreases |blocks| - i
  {
    if i + 1 < |blocks| {
      PassCurrent(blocks[i := blocks[i].(failed := blocks[i].failed + 1)], i + 1,
                  if blocks[i].failed > 4 then i + 1 else current);
    }
  }

  lemma StepCurrent<Id>(h: History<Id>, op: Op<Id>)
    requires h.pool.current < |h.pool.blocks|
    ensures Step(h, op).pool.current < |Step(h, op).pool.blocks|
    ensures Step(h, op).pool.size == h.pool.size && Step(h, op).pool.max == h.pool.max
  {
    PassCurrent(h.pool.blocks, h.pool.current, h.pool.current);
  }

  function Run<Id(==)>(size: nat, page: PageSize, ops: seq<Op<Id>>): (h: History<Id>)
    requires PoolSize(size)
    ensures h.pool.current < |h.pool.blocks| && h.pool.size == size && h.pool.max == Create<Id>(size, page).max
    decreases |ops|
  {
    if ops == [] then History(Create(size, page), [])
    else
      var h := Run(size, page, ops[..|ops| - 1]);
      StepCurrent(h, ops[|ops| - 1]);
      Step(h, ops[|ops| - 1])
  }

  lemma RunThen<Id>(size: nat, page: PageSize, ops: seq<Op<Id>>, op: Op<Id>)
    requires PoolSize(size)
    ensures Run(size, page, ops + [op]) == Step(Run(size, page, ops), op)
  {
    assert (ops + [op])[..|ops|] == ops;
  }

  // ----- where the regions are -----

  predicate Disjoint(a: Region, b: Region) {
    a.block != b.block || a.off + a.len <= b.off || b.off + b.len <= a.off
  }

  function Header(block: nat): nat { if block == 0 then POOL_HEADER else DATA_HEADER }

  /** Inside one block, behind its header, and aligned if alignment was asked for. */
  predicate Inside<Id>(p: Pool<Id>, r: Region) {
    r.block < |p.blocks| && Header(r.block) <= r.off && r.off + r.len <= p.size && (r.aligned ==> r.off % 8 == 0)
  }

  ghost predicate Safe<Id>(h: History<Id>) {
    && (forall k | 0 <= k < |h.live| :: Inside(h.pool, h.live[k]))
    && (forall i, j | 0 <= i < j < |h.live| :: Disjoint(h.live[i], h.live[j]))
  }

  ghost predicate Ends(size: nat, blocks: seq<Block>) {
    forall i | 0 <= i < |blocks| :: Header(i) <= blocks[i].last <= size
  }

  predicate Below<Id>(p: Pool<Id>, r: Region) { r.block < |p.blocks| && r.off + r.len <= p.blocks[r.block].last }

  ghost predicate Valid<Id>(h: History<Id>) {
    && Sized(h.pool) && h.pool.size % 8 == 0
    && Ends(h.pool.size, h.pool.blocks)
    && (forall k | 0 <= k < |h.live| :: Below(h.pool, h.live[k]))
    && Safe(h)
  }

  lemma {:induction false} PassKeepsLast(blocks: seq<Block>, i: nat, current: nat)
    requires i < |blocks|
    ensures forall k | 0 <= k < |blocks| :: Pass(blocks, i, current).blocks[k].last == blocks[k].last
    decreases |blocks| - i
  {
    if i + 1 < |blocks| {
      PassKeepsLast(blocks[i := blocks[i].(failed := blocks[i].failed + 1)], i + 1,
                    if blocks[i].failed > 4 then i + 1 else current);
    }
  }

  /** In a block whose size is a multiple of the alignment the unsigned test is the real one. */
  lemma FitsIsRoom(size: nat, b: Block, n: nat, aligned: bool)
    requires b.last <= size < U64 && size % 8 == 0
    ensures Start(b, aligned) <= size
    ensures Fits(size, b, n, aligned) <==> Start(b, aligned) + n <= size
  {
  }

  lemma AddRegion<Id>(h: History<Id>, p: Pool<Id>, r: Region)
    requires Valid(h) && Sized(p) && p.size == h.pool.size && |p.blocks| >= |h.pool.blocks| && Ends(p.size, p.blocks)
    requires Inside(p, r) && Below(p, r)
    requires forall k | 0 <= k < |h.pool.blocks| :: p.blocks[k].last >= h.pool.blocks[k].last
    requires r.block < |h.pool.blocks| ==> r.off >= h.pool.blocks[r.block].last
    ensures Valid(History(p, h.live + [r]))
  {
    var h' := History(p, h.live + [r]);
    forall k | 0 <= k < |h'.live| ensures Below(p, h'.live[k]) && Inside(p, h'.live[k]) {
      if k < |h.live| { assert Below(h.pool, h.live[k]) && Inside(h.pool, h.live[k]); }
    }
    forall i, j | 0 <= i < j < |h'.live| ensures Disjoint(h'.live[i], h'.live[j]) {
      if j < |h.live| {
        assert Disjoint(h.live[i], h.live[j]);
      } else {
        assert Below(h.pool, h.live[i]);
      }
    }
  }

  lemma SmallValid<Id>(h: History<Id>, n: nat, aligned: bool)
    requires Valid(h) && n <= h.pool.max
    ensures var s := Small(h.pool, n, aligned); Valid(History(s.pool, h.live + [s.region]))
  {
    var p := h.pool;
    var s := Small(p, n, aligned);
    var found := Search(p.size, p.blocks, p.current, n, aligned);
    if found.Some? {
      assert Header(found.value) <= p.blocks[found.value].last <= p.size;
      FitsIsRoom(p.size, p.blocks[found.value], n, aligned);
    } else {
      PassKeepsLast(p.blocks, p.current, p.current);
      PassCurrent(p.blocks, p.current, p.current);
    }
    AddRegion(h, s.pool, s.region);
  }

  lemma StepValid<Id>(h: History<Id>, op: Op<Id>)
    requires Valid(h)
    ensures Valid(Step(h, op))
  {
    if op.Ask? {
      if op.n <= h.pool.max {
        SmallValid(h, op.n, op.aligned);
      } else {
        TakeSlotValid(h, op.id);
      }
    }
  }

  lemma TakeSlotValid<Id>(h: History<Id>, id: Id)
    requires Valid(h)
    ensures var r := TakeSlot(h.pool, id);
            Valid(History(r.pool, if r.region.Some? then h.live + [r.region.value] else h.live))
  {
    if FreeSlot(h.pool.large, 0).None? {
      SmallValid(h, SLOT_SIZE, true);
      var s := Small(h.pool, SLOT_SIZE, true);
      OtherSlots(History(s.pool, h.live + [s.region]), [Some(id)] + h.pool.large);
    } else {
      OtherSlots(h, TakeSlot(h.pool, id).pool.large);
    }
  }

  lemma OtherSlots<Id>(h: History<Id>, large: seq<Option<Id>>)
    requires Valid(h)
    ensures Valid(h.(pool := h.pool.(large := large)))
  {
    forall k | 0 <= k < |h.live|
      ensures Inside(h.pool.(large := large), h.live[k]) && Below(h.pool.(large := large), h.live[k])
    {
      assert Inside(h.pool, h.live[k]) && Below(h.pool, h.live[k]);
    }
  }

  lemma {:induction false} RunValid<Id>(size: nat, page: PageSize, ops: seq<Op<Id>>)
    requires PoolSize(size) && size % 8 == 0
    ensures Valid(Run(size, page, ops))
    decreases |ops|
  {
    if ops != [] {
      RunValid(size, page, ops[..|ops| - 1]);
      StepValid(Run(size, page, ops[..|ops| - 1]), ops[|ops| - 1]);
    }
  }

  // ----- pool sizes that are no multiple of the alignment -----

  /** `k` unaligned requests of one octet. */
  function Octets(k: nat): (ops: seq<Op<nat>>)
    ensures |ops| == k
  {
    if k == 0 then [] else Octets(k - 1) + [Ask(1, false, 0)]
  }

  lemma OctetFits(p: Pool<nat>, last: nat)
    requires Sized(p) && p.blocks == [Block(last, 0)] && p.current == 0 && last < p.size
    ensures Small(p, 1, false).pool == p.(blocks := [Block(last + 1, 0)])
  {
    assert (p.size - last) % U64 == p.size - last;
    assert Fits(p.size, p.blocks[0], 1, false);
    assert p.blocks[0 := Block(last + 1, 0)] == [Block(last + 1, 0)];
  }

  lemma {:induction false} OctetsFill(size: nat, page: PageSize, k: nat)
    requires PoolSize(size) && POOL_HEADER + k <= size
    ensures Run(size, page, Octets(k)).pool == Create<nat>(size, page).(blocks := [Block(POOL_HEADER + k, 0)])
  {
    if k > 0 {
      OctetsFill(size, page, k - 1);
      RunThen(size, page, Octets(k - 1), Ask(1, false, 0));
      OctetFits(Run(size, page, Octets(k - 1)).pool, POOL_HEADER + k - 1);
    }
  }

  /** Once such a block is full, aligning passes its end, the unsigned difference is huge, and an
      aligned request is served outside the block. */
  lemma UnalignedSizeOverruns(size: nat, page: PageSize)
    requires PoolSize(size) && size % 8 != 0
    ensures var ops := Octets(size - POOL_HEADER) + [Ask(1, true, 0)]; !Safe(Run(size, page, ops))
  {
    var k := size - POOL_HEADER;
    OctetsFill(size, page, k);
    RunThen(size, page, Octets(k), Ask(1, true, 0));
    FullBlockOverruns(Run(size, page, Octets(k)), Run(size, page, Octets(k) + [Ask(1, true, 0)]));
  }

  lemma FullBlockOverruns(h: History<nat>, h': History<nat>)
    requires Sized(h.pool) && h.pool.blocks == [Block(h.pool.size, 0)] && h.pool.current == 0 && h.pool.size % 8 != 0
    requires h' == Step(h, Ask(1, true, 0))
    ensures !Safe(h')
  {
    var size, b := h.pool.size, h.pool.blocks[0];
    PastTheEnd(size);
    assert Search(size, h.pool.blocks, 0, 1, true) == Some(0);
    var r := Region(0, Start(b, true), 1, true);
    assert h'.live == h.live + [r] && h'.live[|h.live|] == r;
    assert !Inside(h'.pool, r);
  }

  lemma PastTheEnd(size: nat)
    requires PoolSize(size) && size % 8 != 0
    ensures Start(Block(size, 0), true) > size && Fits(size, Block(size, 0), 1, true)
  {
    var d := size - AlignUp(size);
    assert -8 < d < 0;
    assert d % U64 == d + U64;
  }

  /** For every run of requests, frees and resets, the regions handed out since the last reset are
      apart, inside a block behind its header, and aligned where asked: exactly when the pool's size
      is a multiple of the alignment. */
  lemma RegionsSafe(size: nat, page: PageSize)
    requires PoolSize(size)
    ensures (forall ops: seq<Op<nat>> :: Safe(Run(size, page, ops))) <==> size % 8 == 0
  {
    if size % 8 == 0 {
      forall ops: seq<Op<nat>> ensures Safe(Run(size, page, ops)) { RunValid(size, page, ops); }
    } else {
      UnalignedSizeOverruns(size, page);
    }
  }

  // ----- retired blocks -----

  /** Blocks in front of `current` have failed six times, the others at most five times, and the
      count never grows along the chain. */
  ghost predicate Retired(blocks: seq<Block>, current: nat) {
    && (forall k | 0 <= k < current && k < |blocks| :: blocks[k].failed == 6)
    && (forall k | current <= k < |blocks| :: blocks[k].failed <= 5)
    && Falling(blocks, current)
  }

  ghost predicate Falling(blocks: seq<Block>, from: nat) {
    forall j, k | from <= j < k < |blocks| :: blocks[k].failed <= blocks[j].failed
  }

  /** Where the appending loop stands at `i`: behind `i` nothing was counted yet. */
  ghost predicate Passing(blocks: seq<Block>, i: nat, current: nat, start: nat) {
    && start <= current <= i < |blocks|
    && (forall k | 0 <= k < current :: blocks[k].failed == 6)
    && (forall k | current <= k < |blocks| :: blocks[k].failed <= 5)
    && Falling(blocks, i)
    && (forall j, k | current <= j < k < i :: blocks[k].failed <= blocks[j].failed)
    && (forall j, k | current <= j < i <= k < |blocks| :: blocks[k].failed < blocks[j].failed)
    && (current < i ==> blocks[i].failed <= 4)
  }

  lemma {:induction false} PassRetires(blocks: seq<Block>, i: nat, current: nat, start: nat)
    requires Passing(blocks, i, current, start)
    ensures var r := Pass(blocks, i, current); start <= r.current < |blocks| && Retired(r.blocks, r.current)
    decreases |blocks| - i
  {
    if i + 1 < |blocks| {
      var blocks' := blocks[i := blocks[i].(failed := blocks[i].failed + 1)];
      var current' := if blocks[i].failed > 4 then i + 1 else current;
      PassingOn(blocks, i, current, start);
      PassRetires(blocks', i + 1, current', start);
    }
  }

  lemma PassingOn(blocks: seq<Block>, i: nat, current: nat, start: nat)
    requires Passing(blocks, i, current, start) && i + 1 < |blocks|
    ensures Passing(blocks[i := blocks[i].(failed := blocks[i].failed + 1)], i + 1,
                    if blocks[i].failed > 4 then i + 1 else current, start)
  {
  }

  lemma AppendRetires<Id>(p: Pool<Id>, n: nat, aligned: bool)
    requires p.current < |p.blocks| && Retired(p.blocks, p.current)
    ensures var q := AppendBlock(p, n, aligned).pool; p.current <= q.current && Retired(q.blocks, q.current)
  {
    PassRetires(p.blocks, p.current, p.current, p.current);
  }

  lemma SmallRetires<Id>(p: Pool<Id>, n: nat, aligned: bool)
    requires p.current < |p.blocks| && Retired(p.blocks, p.current)
    ensures var q := Small(p, n, aligned).pool; p.current <= q.current && Retired(q.blocks, q.current)
  {
    if Search(p.size, p.blocks, p.current, n, aligned).None? { AppendRetires(p, n, aligned); }
  }

  lemma StepRetires<Id>(h: History<Id>, op: Op<Id>)
    requires h.pool.current < |h.pool.blocks| && Retired(h.pool.blocks, h.pool.current)
    ensures Retired(Step(h, op).pool.blocks, Step(h, op).pool.current)
  {
    if op.Ask? {
      SmallRetires(h.pool, op.n, op.aligned);
      SmallRetires(h.pool, SLOT_SIZE, true);
    }
  }

  lemma {:induction false} RunRetires<Id>(size: nat, page: PageSize, ops: seq<Op<Id>>)
    requires PoolSize(size)
    ensures Retired(Run(size, page, ops).pool.blocks, Run(size, page, ops).pool.current)
    decreases |ops|
  {
    if ops != [] {
      RunRetires(size, page, ops[..|ops| - 1]);
      StepRetires(Run(size, page, ops[..|ops| - 1]), ops[|ops| - 1]);
    }
  }

  /** In every reachable state, the blocks in front of `current` are exactly those that failed six
      times since the last reset, and the counts never grow along the chain from there on. */
  lemma RetirementInvariant<Id>(size: nat, page: PageSize, ops: seq<Op<Id>>)
    requires PoolSize(size)
    ensures var p := Run(size, page, ops).pool;
            && p.current < |p.blocks| && Falling(p.blocks, p.current)
            && forall k | 0 <= k < |p.blocks| :: (k < p.current <==> p.blocks[k].failed == 6) && p.blocks[k].failed <= 6
  {
    RunRetires(size, page, ops);
  }

  /** The operation looked into block `i` and found no room there. */
  predicate Missed<Id>(p: Pool<Id>, op: Op<Id>, i: nat)
    requires p.current < |p.blocks|
  {
    && op.Ask? && (op.n > p.max ==> FreeSlot(p.large, 0).None?)
    && p.current <= i < |p.blocks|
    && var n, aligned := if op.n <= p.max then op.n else SLOT_SIZE, op.n > p.max || op.aligned;
       match Search(p.size, p.blocks, p.current, n, aligned)
       case Some(found) => i < found
       case None => true
  }

  /** How often, since the last reset, a request found no room in block `i`. */
  function Misses<Id(==)>(size: nat, page: PageSize, ops: seq<Op<Id>>, i: nat): nat
    requires PoolSize(size)
    decreases |ops|
  {
    if ops == [] then 0
    else
      var front, op := ops[..|ops| - 1], ops[|ops| - 1];
      if op.Clear? then 0
      else Misses(size, page, front, i) + if Missed(Run(size, page, front).pool, op, i) then 1 else 0
  }

  lemma {:induction false} PassCounts(blocks: seq<Block>, i: nat, current: nat)
    requires i < |blocks|
    ensures forall k | 0 <= k < |blocks| ::
              Pass(blocks, i, current).blocks[k].failed <= blocks[k].failed + if k >= i then 1 else 0
    decreases |blocks| - i
  {
    if i + 1 < |blocks| {
      var blocks' := blocks[i := blocks[i].(failed := blocks[i].failed + 1)];
      PassCounts(blocks', i + 1, if blocks[i].failed > 4 then i + 1 else current);
    }
  }

  lemma StepCounts<Id>(h: History<Id>, op: Op<Id>, i: nat)
    requires h.pool.current < |h.pool.blocks| && i < |Step(h, op).pool.blocks|
    ensures var before := if i < |h.pool.blocks| && !op.Clear? then h.pool.blocks[i].failed else 0;
            Step(h, op).pool.blocks[i].failed <= before + if Missed(h.pool, op, i) then 1 else 0
  {
    PassCounts(h.pool.blocks, h.pool.current, h.pool.current);
  }

  /** Every failure that is counted did happen. */
  lemma {:induction false} CountedMisses<Id>(size: nat, page: PageSize, ops: seq<Op<Id>>, i: nat)
    requires PoolSize(size) && i < |Run(size, page, ops).pool.blocks|
    ensures Run(size, page, ops).pool.blocks[i].failed <= Misses(size, page, ops, i)
    decreases |ops|
  {
    if ops != [] {
      var front, op := ops[..|ops| - 1], ops[|ops| - 1];
      var h := Run(size, page, front);
      if i < |h.pool.blocks| { CountedMisses(size, page, front, i); }
      StepCounts(h, op, i);
    }
  }

  /** A block is given up only after at least six requests since the last reset found no room in it. */
  lemma RetiredBlocksMissed<Id>(size: nat, page: PageSize, ops: seq<Op<Id>>, i: nat)
    requires PoolSize(size) && i < Run(size, page, ops).pool.current
    ensures Misses(size, page, ops, i) >= 6
  {
    RetirementInvariant(size, page, ops);
    CountedMisses(size, page, ops, i);
  }

  // ----- large memory -----

  /** What the slots point to. */
  function Held<Id>(large: seq<Option<Id>>): multiset<Id> {
    if large == [] then multiset{}
    else (if large[0].Some? then multiset{large[0].value} else multiset{}) + Held(large[1..])
  }

  lemma {:induction false} HeldUpdate<Id>(large: seq<Option<Id>>, i: nat, id: Id)
    requires i < |large| && large[i].None?
    ensures Held(large[i := Some(id)]) == Held(large) + multiset{id}
    decreases i
  {
    var changed := large[i := Some(id)];
    if i > 0 {
      assert changed[1..] == large[1..][i - 1 := Some(id)];
      HeldUpdate(large[1..], i - 1, id);
    } else {
      assert changed[1..] == large[1..];
    }
  }

  /** A large request is remembered by one more slot, whichever slot is taken. */
  lemma TakeSlotHolds<Id>(p: Pool<Id>, id: Id)
    requires p.current < |p.blocks|
    ensures Held(TakeSlot(p, id).pool.large) == Held(p.large) + multiset{id}
  {
    var slot := FreeSlot(p.large, 0);
    if slot.Some? { HeldUpdate(p.large, slot.value, id); } else { assert ([Some(id)] + p.large)[1..] == p.large; }
  }

  /** Freeing takes exactly one slot's memory away, and changes nothing if no slot points to it. */
  lemma {:induction false} FreeReleases<Id>(large: seq<Option<Id>>, id: Id)
    ensures Held(FreeLarge(large, id)) == Held(large) - multiset{id} && |FreeLarge(large, id)| == |large|
    ensures Some(id) !in large ==> FreeLarge(large, id) == large
    decreases |large|
  {
    if large != [] {
      FreeReleases(large[1..], id);
      HeldFirst(None, large[1..]);
      HeldFirst(large[0], FreeLarge(large[1..], id));
      if large[0] != Some(id) { OneLess(Held(large[1..]), large[0], id); }
    }
  }

  function One<Id>(slot: Option<Id>): multiset<Id> { if slot.Some? then multiset{slot.value} else multiset{} }

  lemma HeldFirst<Id>(slot: Option<Id>, large: seq<Option<Id>>)
    ensures Held([slot] + large) == One(slot) + Held(large)
  {
    assert ([slot] + large)[1..] == large;
  }

  lemma OneLess<Id>(m: multiset<Id>, slot: Option<Id>, id: Id)
    requires slot != Some(id)
    ensures One(slot) + (m - multiset{id}) == One(slot) + m - multiset{id}
  {
  }

  /** The first slot that points to the memory is the one that is emptied. */
  lemma {:induction false} FreeFirst<Id>(large: seq<Option<Id>>, id: Id, i: nat)
    requires i < |large| && large[i] == Some(id) && Some(id) !in large[..i]
    ensures FreeLarge(large, id) == large[i := None]
    decreases i
  {
    if i == 0 {
      assert [None] + large[1..] == large[0 := None];
    } else {
      assert large[..i] == [large[0]] + large[1..][..i - 1];
      FreeFirst(large[1..], id, i - 1);
      assert [large[0]] + large[1..][i - 1 := None] == large[i := None];
    }
  }

}
