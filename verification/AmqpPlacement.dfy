/** Where the AMQP pool puts a request, told by the regions handed out before it: for every run of requests
    and recyclings. */
module AmqpPlacement {
  import opened Wire
  import opened AmqpPool

  /** The next multiple of eight. */
  function Up8(n: nat): nat { if n % 8 == 0 then n else n - n % 8 + 8 }

  /** The last region that was cut from a page. */
  function LastCut(live: seq<Region>): Option<Region> {
    if live == [] then None
    else if live[|live| - 1].block.Page? then Some(live[|live| - 1])
    else LastCut(live[..|live| - 1])
  }

  /** The regions that have a block of their own. */
  function OwnBlocks(live: seq<Region>): nat {
    if live == [] then 0 else OwnBlocks(live[..|live| - 1]) + if live[|live| - 1].block.Large? then 1 else 0
  }

  lemma LiveMore(live: seq<Region>, r: Region)
    ensures LastCut(live + [r]) == if r.block.Page? then Some(r) else LastCut(live)
    ensures OwnBlocks(live + [r]) == OwnBlocks(live) + if r.block.Large? then 1 else 0
  {
    assert (live + [r])[..|live|] == live;
  }

  /** The counters say what the regions say. */
  ghost predicate Tells(h: History) {
    && |h.pool.large| == OwnBlocks(h.live)
    && match LastCut(h.live)
       case None => h.pool.current == None && h.pool.nextPage == 0
       case Some(r) =>
         && r.block.Page? && h.pool.current == Some(r.block.index) && h.pool.used == r.off + r.len
         && h.pool.nextPage == r.block.index + 1
  }

  lemma RoundedIs(amount: nat)
    requires amount + 8 <= U64
    ensures Rounded(amount) == Up8(amount)
  {
  }

  /** What a request gets. */
  function Placed(live: seq<Region>, amount: nat, pagesize: nat): Region {
    var a := Up8(amount);
    if a > pagesize then Region(Large(OwnBlocks(live)), 0, a)
    else
      match LastCut(live)
      case None => Region(Page(0), 0, a)
      case Some(r) =>
        if r.block.Page? && r.off + r.len + a <= pagesize then Region(r.block, r.off + r.len, a)
        else Region(Page(r.block.index + 1), 0, a)
  }

  lemma RequestTells(h: History, amount: nat)
    requires Tells(h) && 0 < amount && amount + 8 <= U64 && h.pool.nextPage <= h.pool.pages
    ensures Tells(Step(h, Request(amount)))
    ensures Step(h, Request(amount)).live == h.live + [Placed(h.live, amount, h.pool.pagesize)]
  {
    RoundedIs(amount);
    LiveMore(h.live, Placed(h.live, amount, h.pool.pagesize));
  }

  lemma StepTells(h: History, op: Op)
    requires Tells(h) && h.pool.nextPage <= h.pool.pages
    ensures Tells(Step(h, op)) && Step(h, op).pool.nextPage <= Step(h, op).pool.pages
    ensures Step(h, op).pool.pagesize == h.pool.pagesize
  {
    if op.Request? && op.amount > 0 { LiveMore(h.live, Alloc(h.pool, op.amount).region.value); }
  }

  lemma {:induction false} RunTells(h: History, ops: seq<Op>)
    requires Tells(h) && h.pool.nextPage <= h.pool.pages
    ensures var h' := Run(h, ops);
            Tells(h') && h'.pool.nextPage <= h'.pool.pages && h'.pool.pagesize == h.pool.pagesize
    decreases |ops|
  {
    if ops != [] {
      StepTells(h, ops[0]);
      RunTells(Step(h, ops[0]), ops[1..]);
    }
  }

  /** In every reachable state, a request, rounded up to a multiple of eight, is cut from the page of the last
      one right behind it, if there is room; else from the start of the next page, the first one if there was
      none since the last recycling; and it gets a block of its own exactly when it is larger than a page.
      Pages have 4096 octets if no size is given. */
  lemma RequestPlaced(pagesize: nat, ops: seq<Op>, amount: nat)
    requires 0 < amount && amount + 8 <= U64
    ensures var h := Run(Fresh(pagesize), ops);
            Step(h, Request(amount)).live == h.live + [Placed(h.live, amount, if pagesize == 0 then 4096 else pagesize)]
  {
    RunTells(Fresh(pagesize), ops);
    RequestTells(Run(Fresh(pagesize), ops), amount);
  }

  /** Recycling takes all regions back; an empty request gets nothing. */
  lemma RecyclePlaced(h: History)
    ensures Step(h, Reuse).live == [] && Step(h, Reuse).epoch == h.epoch + 1 && Step(h, Reuse).pool.pages == h.pool.pages
    ensures Step(h, Request(0)) == h
  {
  }
}
