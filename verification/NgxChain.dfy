/** The nginx pool as it runs: a linked chain of blocks whose counters are updated in place. */
module NgxChain {
  import opened Wire
  import opened NgxPool

  /** A block of the chain; its offsets are relative to its own start. */
  class Node {
    const end: nat
    var last: nat
    var failed: nat
    var next: Node?

    constructor (end: nat, last: nat)
      ensures this.end == end && this.last == last && failed == 0 && next == null
    {
      this.end, this.last, failed, next := end, last, 0, null;
    }
  }

  /** Memory from `malloc`. */
  class Chunk {
    const size: nat

    constructor (size: nat)
      ensures this.size == size
    {
      this.size := size;
    }
  }

  ghost predicate Linked(chain: seq<Node>, i: nat)
    requires i < |chain|
    reads chain
  {
    chain[i].next == if i + 1 < |chain| then chain[i + 1] else null
  }

  ghost predicate Chained(chain: seq<Node>)
    reads chain
  {
    && |chain| > 0
    && (forall i, j | 0 <= i < j < |chain| :: chain[i] != chain[j])
    && (forall i | 0 <= i < |chain| :: Linked(chain, i))
  }

  ghost function Counts(chain: seq<Node>): (bs: seq<Block>)
    reads chain
    ensures |bs| == |chain|
  {
    seq(|chain|, i requires 0 <= i < |chain| reads chain => Block(chain[i].last, chain[i].failed))
  }

  lemma CountsAre(chain: seq<Node>, bs: seq<Block>)
    requires |bs| == |chain| && forall i | 0 <= i < |chain| :: bs[i] == Block(chain[i].last, chain[i].failed)
    ensures Counts(chain) == bs
  {
  }

  lemma PassOn(blocks: seq<Block>, i: nat, current: nat)
    requires i + 1 < |blocks|
    ensures Pass(blocks, i, current)
         == Pass(blocks[i := Block(blocks[i].last, blocks[i].failed + 1)], i + 1,
                 if blocks[i].failed > 4 then i + 1 else current)
  {
  }

  /** Set the counters of one node. */
  method SetCounters(node: Node, last: nat, failed: nat, ghost chain: seq<Node>, ghost i: nat)
    requires Chained(chain) && i < |chain| && chain[i] == node
    modifies node`last, node`failed
    ensures Chained(chain) && Counts(chain) == old(Counts(chain))[i := Block(last, failed)]
    ensures node.last == last && node.failed == failed
  {
    node.last, node.failed := last, failed;
    forall k | 0 <= k < |chain| ensures Linked(chain, k) { assert old(Linked(chain, k)); }
    CountsAre(chain, old(Counts(chain))[i := Block(last, failed)]);
  }

  /** Append a node to the chain. */
  method LinkLast(p: Node, node: Node, ghost chain: seq<Node>)
    requires Chained(chain) && p == chain[|chain| - 1] && node !in chain && node.next == null
    modifies p`next
    ensures Chained(chain + [node])
    ensures Counts(chain + [node]) == old(Counts(chain)) + [Block(node.last, node.failed)]
  {
    p.next := node;
    ghost var longer := chain + [node];
    forall k | 0 <= k < |longer| ensures Linked(longer, k) {
      if k + 1 < |chain| { assert old(Linked(chain, k)); }
    }
    CountsAre(longer, old(Counts(chain)) + [Block(node.last, node.failed)]);
  }

  lemma ChainEnd(chain: seq<Node>, i: nat)
    requires Chained(chain) && i < |chain|
    ensures chain[i].next == if i + 1 < |chain| then chain[i + 1] else null
  {
    assert Linked(chain, i);
  }

  /** What an allocation gives: a place in a block of the chain, or memory of its own. */
  datatype Memory = InBlock(node: Node, off: nat) | Own(chunk: Chunk)

  class ChainPool {
    const size: nat
    const max: nat
    const head: Node
    var current: Node
    var large: seq<Option<Chunk>>
    ghost var chain: seq<Node>
    ghost var index: nat

    ghost predicate Valid()
      reads this, chain
    {
      && Chained(chain) && chain[0] == head
      && index < |chain| && current == chain[index]
      && PoolSize(size) && SLOT_SIZE <= max
      && forall i | 0 <= i < |chain| :: chain[i].end == size
    }

    ghost function View(): Pool<Chunk>
      reads this, chain
    {
      Pool(size, max, Counts(chain), index, large)
    }

    /** `ngx_create_pool`. */
    constructor (size: nat, page: PageSize)
      requires PoolSize(size)
      ensures Valid() && View() == Create(size, page) && fresh(chain)
    {
      this.size := size;
      max := if size - POOL_HEADER < page - 1 then size - POOL_HEADER else page - 1;
      var first := new Node(size, POOL_HEADER);
      head, current := first, first;
      large, chain, index := [], [first], 0;
      new;
      CountsAre(chain, [Block(POOL_HEADER, 0)]);
    }

    /** The search loop of `ngx_palloc` and `ngx_pnalloc`. */
    method Find(n: nat, aligned: bool) returns (p: Node?, ghost i: nat)
      requires Valid()
      ensures match Search(size, Counts(chain), index, n, aligned)
              case None => p == null
              case Some(k) => k == i < |chain| && p == chain[i]
    {
      p, i := current, index;
      while p != null
        invariant i <= |chain| && p == (if i < |chain| then chain[i] else null)
        invariant Search(size, Counts(chain), index, n, aligned) == Search(size, Counts(chain), i, n, aligned)
        decreases |chain| - i
      {
        assert Linked(chain, i);
        var m := if aligned then AlignUp(p.last) else p.last;
        if (p.end - m) % U64 >= n { return; }
        p, i := p.next, i + 1;
      }
    }

    /** `ngx_palloc` and `ngx_pnalloc`, for requests of at most `max`. */
    method Cut(n: nat, aligned: bool) returns (m: Memory)
      requires Valid()
      modifies this, chain
      ensures Valid() && View() == Small(old(View()), n, aligned).pool
      ensures var r := Small(old(View()), n, aligned).region;
              r.block < |chain| && m == InBlock(chain[r.block], r.off)
      ensures fresh(set x | x in chain && x !in old(chain)) && large == old(large)
    {
      var p, i := Find(n, aligned);
      if p == null {
        m := Append(n);
        return;
      }
      var start := if aligned then AlignUp(p.last) else p.last;
      SetCounters(p, start + n, p.failed, chain, i);
      m := InBlock(p, start);
    }

    /** The counting loop stands at block `i`, and its outcome will be `goal`. */
    ghost predicate Counting(last: Node, i: nat, goal: Passed)
      reads this, chain
    {
      && Chained(chain) && index <= i < |chain| && last == chain[i] && current == chain[index]
      && goal == Pass(Counts(chain), i, index)
    }

    /** One turn of the counting loop of `ngx_palloc_block`. */
    method CountOne(last: Node, ghost i: nat, ghost goal: Passed) returns (next: Node)
      requires Counting(last, i, goal) && last.next != null
      modifies this`current, this`index, chain
      ensures Counting(next, i + 1, goal)
    {
      ChainEnd(chain, i);
      PassOn(Counts(chain), i, index);
      var failed := last.failed;
      SetCounters(last, last.last, failed + 1, chain, i);
      ChainEnd(chain, i);
      if failed > 4 { current, index := last.next, i + 1; }
      next := last.next;
    }

    /** The counting loop; it ends at the last block. */
    method CountFailures() returns (last: Node)
      requires Valid()
      modifies this, chain
      ensures Chained(chain) && chain == old(chain) && large == old(large)
      ensures last == chain[|chain| - 1]
      ensures var r := Pass(old(Counts(chain)), old(index), old(index));
              Counts(chain) == r.blocks && index == r.current < |chain| && current == chain[index]
    {
      last := current;
      ghost var i, goal := index, Pass(Counts(chain), index, index);
      while last.next != null
        invariant chain == old(chain) && large == old(large) && Counting(last, i, goal)
        decreases |chain| - i
      {
        last := CountOne(last, i, goal);
        i := i + 1;
      }
      ChainEnd(chain, i);
    }

    /** `ngx_palloc_block`. */
    method Append(n: nat) returns (m: Memory)
      requires Valid()
      modifies this, chain
      ensures Valid() && View() == AppendBlock(old(View()), n, false).pool
      ensures |chain| == |old(chain)| + 1 && chain[..|old(chain)|] == old(chain) && fresh(chain[|old(chain)|])
      ensures m == InBlock(chain[|old(chain)|], DATA_HEADER) && large == old(large)
    {
      var node := new Node(size, DATA_HEADER + n);
      var p := CountFailures();
      Attach(p, node);
      m := InBlock(node, DATA_HEADER);
    }

    /** Link a node behind the last one. */
    method Attach(p: Node, node: Node)
      requires Chained(chain) && p == chain[|chain| - 1] && node !in chain && node.next == null
      modifies this`chain, p`next
      ensures chain == old(chain) + [node] && Chained(chain)
      ensures Counts(chain) == old(Counts(chain)) + [Block(node.last, node.failed)]
    {
      LinkLast(p, node, chain);
      chain := chain + [node];
    }

    /** `ngx_palloc` and `ngx_pnalloc`. */
    method Alloc(n: nat, aligned: bool) returns (m: Memory)
      requires Valid()
      modifies this, chain
      ensures Valid()
      ensures n <= max ==>
                var r := Small(old(View()), n, aligned);
                View() == r.pool && r.region.block < |chain| && m == InBlock(chain[r.region.block], r.region.off)
      ensures n > max ==>
                && m.Own? && fresh(m.chunk) && m.chunk.size == n
                && View() == TakeSlot(old(View()), m.chunk).pool
    {
      if n <= max {
        m := Cut(n, aligned);
      } else {
        var chunk := AllocLarge(n);
        m := Own(chunk);
      }
    }

    /** `ngx_palloc_large`; a slot is never larger than `max`, so it is cut like a small request. */
    method AllocLarge(n: nat) returns (chunk: Chunk)
      requires Valid() && n > max
      modifies this, chain
      ensures Valid() && fresh(chunk) && chunk.size == n && View() == TakeSlot(old(View()), chunk).pool
    {
      chunk := new Chunk(n);
      var i := 0;
      while i < |large| && i < SLOTS_SEARCHED
        invariant i <= |large| && i <= SLOTS_SEARCHED && FreeSlot(large, 0) == FreeSlot(large, i)
      {
        if large[i].None? {
          large := large[i := Some(chunk)];
          return;
        }
        i := i + 1;
      }
      var _ := Cut(SLOT_SIZE, true);
      large := [Some(chunk)] + large;
    }

    /** `ngx_pfree`: whether a slot pointed to the memory. */
    method FreeChunk(chunk: Chunk) returns (ok: bool)
      requires Valid()
      modifies this`large
      ensures Valid() && large == FreeLarge(old(large), chunk) && (ok <==> Some(chunk) in old(large))
    {
      var i := 0;
      while i < |large|
        invariant i <= |large| && large == old(large) && Some(chunk) !in large[..i]
      {
        if large[i] == Some(chunk) {
          FreeFirst(large, chunk, i);
          large := large[i := None];
          return true;
        }
        i := i + 1;
      }
      FreeReleases(large, chunk);
      ok := false;
    }

    /** `ngx_reset_pool`. */
    method ResetPool()
      requires Valid()
      modifies this, chain
      ensures Valid() && View() == Reset(old(View())) && chain == old(chain)
    {
      var p: Node? := head;
      ghost var i := 0;
      while p != null
        invariant Chained(chain) && chain == old(chain)
        invariant i <= |chain| && p == (if i < |chain| then chain[i] else null)
        invariant forall k | 0 <= k < i :: chain[k].last == POOL_HEADER && chain[k].failed == 0
        decreases |chain| - i
      {
        SetCounters(p, POOL_HEADER, 0, chain, i);
        ChainEnd(chain, i);
        p, i := p.next, i + 1;
      }
      current, index, large := head, 0, [];
      CountsAre(chain, Reset(old(View())).blocks);
    }
  }
}
