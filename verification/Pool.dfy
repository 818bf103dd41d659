/** The pool of `ngx_palloc.c`: a chain of blocks and a list of large allocations. */
module Pool {
  import opened PoolModel

  /** The C library's heap, with the memory that is in use. A call for memory is given its `reply`: an address
      where there is room, or 0. */
  class Heap {
    var live: map<nat, nat>

    method Alloc(size: nat, reply: nat) returns (p: nat)
      requires reply != 0 ==> Room(live, reply, size)
      modifies this
      ensures p == reply && live == if p == 0 then old(live) else old(live)[p := size]
    {
      p := reply;
      if p != 0 {
        live := live[p := size];
      }
    }

    /** `ngx_free`: what is freed is in use, and then no more. */
    method Free(p: nat)
      requires p == 0 || p in live
      modifies this
      ensures live == if p == 0 then old(live) else old(live) - {p}
    {
      if p != 0 {
        live := live - {p};
      }
    }
  }

  /** `ngx_pool_data_t` at the start of a block. */
  class PoolBlock {
    const base: nat
    const end: nat
    var last: nat
    var next: PoolBlock?
    var failed: nat
    ghost const place: nat

    constructor (base: nat, last: nat, end: nat, ghost place: nat)
      ensures this.base == base && this.last == last && this.end == end && next == null && failed == 0
      ensures this.place == place
    {
      this.base, this.last, this.end, this.place := base, last, end, place;
      next, failed := null, 0;
    }
  }

  ghost function NextBlock(chain: seq<PoolBlock>, i: nat): PoolBlock? {
    if i + 1 < |chain| then chain[i + 1] else null
  }

  ghost predicate Same(b: PoolBlock, info: Block)
    reads b
  {
    b.base == info.base && b.last == info.last && b.end == info.end && b.failed == info.failed
  }

  /** The objects of the chain, each at its place, with what they hold. */
  ghost predicate Represents(chain: seq<PoolBlock>, blocks: seq<Block>)
    reads chain
  {
    && |chain| == |blocks|
    && (forall i | 0 <= i < |chain| :: chain[i].place == i)
    && forall i | 0 <= i < |chain| :: Same(chain[i], blocks[i])
  }

  ghost predicate Linked(chain: seq<PoolBlock>)
    reads chain
  {
    forall i {:trigger chain[i].next} | 0 <= i < |chain| :: chain[i].next == NextBlock(chain, i)
  }

  /** `ngx_pool_large_t`, at `at` in a block of the pool. */
  class LargeNode {
    const at: nat
    var alloc: nat
    var next: LargeNode?
    ghost const region: Region
    ghost const depth: nat

    constructor (at: nat, alloc: nat, next: LargeNode?, ghost region: Region, ghost depth: nat)
      ensures this.at == at && this.alloc == alloc && this.next == next && this.region == region && this.depth == depth
    {
      this.at, this.alloc, this.next, this.region, this.depth := at, alloc, next, region, depth;
    }
  }

  ghost function NextNode(nodes: seq<LargeNode>, k: nat): LargeNode? {
    if k + 1 < |nodes| then nodes[k + 1] else null
  }

  /** The list of large allocations, and where its nodes are. */
  ghost predicate Listed(nodes: seq<LargeNode>, allocs: seq<nat>)
    reads nodes
  {
    && |nodes| == |allocs|
    && (forall k | 0 <= k < |nodes| :: nodes[k].depth == |nodes| - 1 - k)
    && (forall k {:trigger nodes[k].next} | 0 <= k < |nodes| :: nodes[k].next == NextNode(nodes, k))
    && forall k | 0 <= k < |nodes| :: nodes[k].alloc == allocs[k]
  }

  ghost predicate InRegions(nodes: seq<LargeNode>, rs: seq<Region>) {
    forall k | 0 <= k < |nodes| ::
      && nodes[k].region in rs && nodes[k].region.at == nodes[k].at
      && nodes[k].region.size == SIZEOF_LARGE && nodes[k].region.node
  }

  ghost predicate InBlocks(nodes: seq<LargeNode>, c: Chain) {
    forall k | 0 <= k < |nodes| :: nodes[k].region.block < |c.blocks|
  }

  lemma NodesInBlocks(c: Chain, nodes: seq<LargeNode>, rs: seq<Region>)
    requires RegionsOk(c, rs) && InRegions(nodes, rs)
    ensures InBlocks(nodes, c)
  {
    forall k | 0 <= k < |nodes|
      ensures nodes[k].region.block < |c.blocks|
    {
      var i :| 0 <= i < |rs| && rs[i] == nodes[k].region;
      assert RegionOk(c, rs[i]);
    }
  }

  /** All memory that a pool has handed out, and what it owns of the heap. */
  ghost predicate Ledger(c: Chain, nodes: seq<LargeNode>, allocs: seq<nat>, rs: seq<Region>, psize: nat,
                         live: map<nat, nat>) {
    RegionsOk(c, rs) && NoWaste(c, rs) && InRegions(nodes, rs) && Owns(c, allocs, psize, live)
  }

  function With(rs: seq<Region>, m: nat, size: nat, block: nat, aligned: bool, node: bool): seq<Region> {
    if m == 0 then rs else rs + [Region(m, size, block, aligned, node)]
  }

  lemma NodesRemain(nodes: seq<LargeNode>, rs: seq<Region>, k: nat, r: Region)
    requires InRegions(nodes, rs) && k < |rs| && !rs[k].node
    ensures InRegions(nodes, rs[k := r])
  {
    forall i | 0 <= i < |nodes|
      ensures nodes[i].region in rs[k := r]
    {
      var l :| 0 <= l < |rs| && rs[l] == nodes[i].region;
      assert rs[k := r][l] == nodes[i].region;
    }
  }

  lemma WidenedLedger(c: Chain, nodes: seq<LargeNode>, allocs: seq<nat>, rs: seq<Region>, psize: nat,
                      live: map<nat, nat>, k: nat, size: nat)
    requires ChainOk(c, psize) && Ledger(c, nodes, allocs, rs, psize, live) && k < |rs| && !rs[k].node
    requires rs[k].at + rs[k].size == c.blocks[0].last && c.blocks[0].last + size <= c.blocks[0].end
    ensures ChainOk(Widened(c, size), psize)
    ensures Ledger(Widened(c, size), nodes, allocs, rs[k := rs[k].(size := rs[k].size + size)], psize, live)
    ensures NeverReset(c) ==> NeverReset(Widened(c, size))
  {
    EndsFirstBlock(c, psize, rs[k]);
    WidenedOk(c, psize, rs, allocs, live, k, size);
    NodesRemain(nodes, rs, k, rs[k].(size := rs[k].size + size));
  }

  lemma LedgerElsewhere(c: Chain, nodes: seq<LargeNode>, allocs: seq<nat>, rs: seq<Region>, psize: nat,
                        live: map<nat, nat>, reply: nat)
    requires ChainOk(c, psize) && Ledger(c, nodes, allocs, rs, psize, live)
    requires reply != 0 ==> Room(live, reply, psize) && reply % POOL_ALIGNMENT == 0
    ensures reply != 0 ==> Elsewhere(c, reply, psize)
  {
    if reply != 0 {
      RoomIsElsewhere(c, allocs, psize, live, reply);
    }
  }

  lemma LedgerGrows(c: Chain, c': Chain, live: map<nat, nat>, live': map<nat, nat>, psize: nat, size: nat, align: bool,
                    reply: nat, m: nat, block: nat, node: bool, nodes: seq<LargeNode>, rs: seq<Region>,
                    allocs: seq<nat>)
    requires ChainOk(c, psize) && Ledger(c, nodes, allocs, rs, psize, live)
    requires (size <= c.max || size == SIZEOF_LARGE) && Round(psize, align)
    requires reply != 0 ==> Room(live, reply, psize) && reply % POOL_ALIGNMENT == 0
    requires Allocated(c, c', live, live', psize, size, align, reply, m, block)
    ensures Ledger(c', nodes, allocs, With(rs, m, size, block, align, node), psize, live')
    ensures NeverReset(c) ==> NeverReset(c')
  {
    AllocatedKeeps(c, c', live, live', psize, size, align, reply, m, block, node, rs, allocs);
  }

  class Pool {
    const head: PoolBlock
    const max: nat
    var current: PoolBlock
    var large: LargeNode?
    ghost const psize: nat
    ghost var chain: seq<PoolBlock>
    ghost var state: Chain
    ghost var nodes: seq<LargeNode>
    ghost var allocs: seq<nat>
    ghost var regions: seq<Region>

    /** The chain of blocks. */
    ghost predicate Valid()
      reads this`current, this`chain, this`state, chain
    {
      && ChainOk(state, psize) && max == state.max
      && Represents(chain, state.blocks) && Linked(chain)
      && head == chain[0] && current == chain[state.current]
    }

    /** The whole pool: its blocks, its large allocations, all memory that it has handed out, and what it owns
        of the heap. */
    ghost predicate Sound(heap: Heap)
      reads this, chain, nodes, heap
    {
      && Valid() && Listed(nodes, allocs) && large == (if nodes == [] then null else nodes[0])
      && Ledger(state, nodes, allocs, regions, psize, heap.live)
    }

    /** The pool as a value. */
    ghost function View(heap: Heap): Books
      reads this`state, this`allocs, heap
    {
      Books(state, allocs, heap.live)
    }

    /** What others have of the heap. */
    ghost function Foreign(heap: Heap): map<nat, nat>
      reads this`state, this`allocs, heap
    {
      Others(state, allocs, heap.live)
    }

    constructor (base: nat, size: nat)
      requires base > 0 && base % POOL_ALIGNMENT == 0 && base + size < TWO_TO_64
      requires size >= SIZEOF_POOL
      ensures Valid() && psize == size && fresh(chain)
      ensures state == Chain([Block(base, base + SIZEOF_POOL, base + size, 0)], 0, max)
      ensures large == null && nodes == [] && allocs == [] && regions == []
    {
      var p := new PoolBlock(base, base + SIZEOF_POOL, base + size, 0);
      var room := size - SIZEOF_POOL;
      head := p;
      max := if room < MAX_ALLOC_FROM_POOL then room else MAX_ALLOC_FROM_POOL;
      current := p;
      large, nodes, allocs, regions := null, [], [], [];
      psize := size;
      chain := [p];
      state := Chain([Block(base, base + SIZEOF_POOL, base + size, 0)], 0,
                     if room < MAX_ALLOC_FROM_POOL then room else MAX_ALLOC_FROM_POOL);
    }

    method TakeFrom(p: PoolBlock, ghost i: nat, m: nat, size: nat, ghost align: bool)
      requires Valid() && Round(psize, align) && i < |chain| && p == chain[i]
      requires m == Place(state.blocks[i], align) && Fits(state.blocks[i], size, align)
      modifies this`state, p`last
      ensures Valid() && state == Taken(old(state), i, size, align)
    {
      TakenOk(state, psize, i, size, align);
      assert Same(chain[i], state.blocks[i]);
      p.last := m + size;
      state := Taken(state, i, size, align);
    }

    /** The loop of `ngx_palloc_small`; 0 if no block has room. */
    method Search(size: nat, align: bool) returns (m: nat)
      requires Valid() && Round(psize, align)
      modifies this`state, chain`last
      ensures Valid() && chain == old(chain)
      ensures var j := FirstFit(old(state.blocks), old(state.current), size, align);
              if j == |old(state.blocks)| then m == 0 && state == old(state)
              else m == Place(old(state.blocks)[j], align) && state == Taken(old(state), j, size, align)
    {
      var p := current;
      ghost var i := state.current;
      while true
        invariant i < |chain| && p == chain[i] && unchanged(this) && unchanged(chain)
        invariant FirstFit(state.blocks, state.current, size, align) == FirstFit(state.blocks, i, size, align)
        decreases |chain| - i
      {
        assert Same(chain[i], state.blocks[i]);
        m := p.last;
        if align {
          m := AlignPtr(m);
        }
        if Difference(p.end, m) >= size {
          TakeFrom(p, i, m, size, align);
          return;
        }
        p := p.next;
        i := i + 1;
        if p == null {
          break;
        }
      }
      m := 0;
    }

    /** The body of the loop of `ngx_palloc_block`. */
    method Fail(p: PoolBlock, ghost i: nat, ghost blocks: seq<Block>, ghost now: nat)
      requires Represents(chain, blocks) && Linked(chain) && i + 1 < |chain| && p == chain[i]
      requires now < |chain| && current == chain[now]
      modifies this`current, p`failed
      ensures Represents(chain, blocks[i := blocks[i].(failed := blocks[i].failed + 1)]) && Linked(chain)
      ensures current == chain[if blocks[i].failed > 4 then i + 1 else now]
    {
      assert Same(chain[i], blocks[i]);
      var failed := p.failed;
      p.failed := p.failed + 1;
      if failed > 4 {
        current := p.next;
      }
    }

    /** The loop of `ngx_palloc_block`; `p` is where it stops. */
    method CountFailures() returns (p: PoolBlock)
      requires Valid()
      modifies this`current, this`state, chain`failed
      ensures chain != [] && p == chain[|chain| - 1] && state == Counted(old(state))
      ensures state.current < |chain| && current == chain[state.current]
      ensures Represents(chain, state.blocks) && Linked(chain)
    {
      hide Same;
      p := current;
      ghost var blocks: seq<Block>, now: nat, i: nat := state.blocks, state.current, state.current;
      ghost var goal := Failed(blocks, i, i);
      while p.next != null
        invariant i < |chain| && p == chain[i] && now < |chain| && current == chain[now]
        invariant unchanged(`state) && Represents(chain, blocks) && Linked(chain)
        invariant Failed(blocks, now, i) == goal
        decreases |chain| - i
      {
        Fail(p, i, blocks, now);
        now := if blocks[i].failed > 4 then i + 1 else now;
        blocks := blocks[i := blocks[i].(failed := blocks[i].failed + 1)];
        p := p.next;
        i := i + 1;
      }
      state := state.(blocks := blocks, current := now);
    }

    /** A new block goes to the end of the chain, behind `p`. */
    method Append(p: PoolBlock, base: nat, last: nat, end: nat)
      requires Represents(chain, state.blocks) && Linked(chain) && chain != [] && p == chain[|chain| - 1]
      modifies this`chain, this`state, p`next
      ensures old(chain) <= chain && |chain| == |old(chain)| + 1 && fresh(chain[|old(chain)|])
      ensures state == old(state).(blocks := old(state.blocks) + [Block(base, last, end, 0)])
      ensures Represents(chain, state.blocks) && Linked(chain)
    {
      var newBlock := new PoolBlock(base, last, end, |chain|);
      p.next := newBlock;
      chain := chain + [newBlock];
      state := state.(blocks := state.blocks + [Block(base, last, end, 0)]);
    }

    /** `ngx_palloc_block` */
    method PallocBlock(heap: Heap, size: nat, reply: nat) returns (m: nat)
      requires Valid() && (size <= max || size == SIZEOF_LARGE)
      requires reply != 0 ==> Room(heap.live, reply, psize) && Elsewhere(state, reply, psize)
      modifies this`current, this`state, this`chain, chain`failed, chain`next, heap
      ensures Valid() && old(chain) <= chain && forall i | |old(chain)| <= i < |chain| :: fresh(chain[i])
      ensures heap.live == if reply == 0 then old(heap.live) else old(heap.live)[reply := psize]
      ensures if reply == 0 then m == 0 && state == old(state)
              else m == AlignPtr(reply + SIZEOF_POOL_DATA) && state == Extended(old(state), reply, psize, size)
    {
      hide Elsewhere, Extended, Room;
      assert Same(chain[0], state.blocks[0]) && BlockOk(state.blocks[0], psize);
      var blockSize := head.end - head.base;
      m := heap.Alloc(blockSize, reply);
      if m == 0 {
        return;
      }
      m := AddBlock(m, blockSize, size);
    }

    method AddBlock(base: nat, blockSize: nat, size: nat) returns (m: nat)
      requires Valid() && (size <= max || size == SIZEOF_LARGE)
      requires Elsewhere(state, base, psize) && blockSize == psize
      modifies this`current, this`state, this`chain, chain`failed, chain`next
      ensures Valid() && old(chain) <= chain && |chain| == |old(chain)| + 1 && fresh(chain[|old(chain)|])
      ensures m == AlignPtr(base + SIZEOF_POOL_DATA) && state == Extended(old(state), base, psize, size)
    {
      hide ChainOk;
      ExtendedOk(state, base, psize, size);
      m := AlignPtr(base + SIZEOF_POOL_DATA);
      var p := CountFailures();
      Append(p, base, m + size, base + blockSize);
    }

    /** `ngx_palloc_small` */
    method PallocSmall(heap: Heap, size: nat, align: bool, reply: nat) returns (m: nat, ghost block: nat)
      requires Valid() && (size <= max || size == SIZEOF_LARGE) && Round(psize, align)
      requires reply != 0 ==> Room(heap.live, reply, psize) && Elsewhere(state, reply, psize)
      modifies this`current, this`state, this`chain, chain, heap
      ensures Valid() && old(chain) <= chain && forall i | |old(chain)| <= i < |chain| :: fresh(chain[i])
      ensures Allocated(old(state), state, old(heap.live), heap.live, psize, size, align, reply, m, block)
    {
      block := FirstFit(state.blocks, state.current, size, align);
      assert block < |state.blocks| ==> BlockOk(state.blocks[block], psize);
      m := Search(size, align);
      if m == 0 {
        m := PallocBlock(heap, size, reply);
      }
    }

    /** A small allocation is recorded as handed out. */
    method HandOut(heap: Heap, size: nat, align: bool, reply: nat, ghost node: bool) returns (m: nat, ghost block: nat)
      requires Valid() && Ledger(state, nodes, allocs, regions, psize, heap.live)
      requires (size <= max || size == SIZEOF_LARGE) && Round(psize, align)
      requires reply != 0 ==> Room(heap.live, reply, psize) && reply % POOL_ALIGNMENT == 0
      modifies this`current, this`state, this`chain, this`regions, chain, heap
      ensures Valid() && Ledger(state, nodes, allocs, regions, psize, heap.live)
      ensures old(chain) <= chain && forall i | |old(chain)| <= i < |chain| :: fresh(chain[i])
      ensures Allocated(old(state), state, old(heap.live), heap.live, psize, size, align, reply, m, block)
      ensures old(NeverReset(state)) ==> NeverReset(state)
      ensures Extends(old(heap.live), heap.live)
      ensures Foreign(heap) == old(Foreign(heap))
      ensures m != 0 <==> Served(old(state), size, align, reply)
      ensures regions == With(old(regions), m, size, block, align, node)
    {
      hide Represents, Others;
      LedgerElsewhere(state, nodes, allocs, regions, psize, heap.live, reply);
      ghost var c, live := state, heap.live;
      m, block := PallocSmall(heap, size, align, reply);
      LedgerGrows(c, state, live, heap.live, psize, size, align, reply, m, block, node, nodes, regions, allocs);
      ServedExactly(c, state, live, heap.live, psize, size, align, reply, m, block);
      AllocatedOthers(c, state, live, heap.live, psize, size, align, reply, m, block, allocs);
      regions := With(regions, m, size, block, align, node);
    }

    /** The loop of `ngx_palloc_large`. It looks for a free node behind the end of the list, so it finds none. */
    method LookForNode()
      requires Listed(nodes, allocs) && large == (if nodes == [] then null else nodes[0])
    {
      var n, l := 0, large;
      ghost var k: nat := 0;
      while l != null
        invariant k <= |nodes| && l == (if k < |nodes| then nodes[k] else null)
        decreases |nodes| - k
      {
        if l == null {
          assert false;
        }
        if n > 3 {
          break;
        }
        n := n + 1;
        l := l.next;
        k := k + 1;
      }
    }

    /** A node goes to the front of the list. */
    method PushNode(at: nat, p: nat, ghost region: Region)
      requires Listed(nodes, allocs) && large == (if nodes == [] then null else nodes[0])
      modifies this`large, this`nodes, this`allocs
      ensures nodes != [] && nodes[1..] == old(nodes) && allocs == [p] + old(allocs)
      ensures Listed(nodes, allocs) && large == nodes[0] && fresh(nodes[0])
      ensures nodes[0].at == at && nodes[0].region == region
    {
      var node := new LargeNode(at, p, large, region, |nodes|);
      large := node;
      nodes := [node] + nodes;
      allocs := [p] + allocs;
    }

    /** Memory for a node of the list. */
    method ReserveNode(heap: Heap, p: nat, blockReply: nat) returns (at: nat, ghost region: Region)
      requires Valid() && Ledger(state, nodes, allocs, regions, psize, heap.live) && Round(psize, true)
      requires p in heap.live
      requires p !in Bases(state)
      requires blockReply != 0 ==> blockReply % POOL_ALIGNMENT == 0 && Room(heap.live, blockReply, psize)
      modifies this`current, this`state, this`chain, this`regions, chain, heap
      ensures Valid() && Ledger(state, nodes, allocs, regions, psize, heap.live)
      ensures old(chain) <= chain && forall i | |old(chain)| <= i < |chain| :: fresh(chain[i])
      ensures old(NeverReset(state)) ==> NeverReset(state)
      ensures Extends(old(heap.live), heap.live) && p !in Bases(state)
      ensures Foreign(heap) == old(Foreign(heap))
      ensures Allocated(old(state), state, old(heap.live), heap.live, psize, SIZEOF_LARGE, true, blockReply, at,
                        region.block)
      ensures at != 0 <==> Served(old(state), SIZEOF_LARGE, true, blockReply)
      ensures at == 0 ==> regions == old(regions) && heap.live == old(heap.live) && state == old(state)
      ensures at != 0 ==> regions == old(regions) + [region] && region.at == at
      ensures at != 0 ==> region.size == SIZEOF_LARGE && region.node
    {
      hide Others;
      OwnsBases(state, allocs, psize, heap.live);
      ghost var c, live, block := state, heap.live, 0;
      at, block := HandOut(heap, SIZEOF_LARGE, true, blockReply, true);
      AllocatedSpares(c, state, live, heap.live, psize, SIZEOF_LARGE, true, blockReply, at, block, p);
      region := Region(at, SIZEOF_LARGE, block, true, true);
    }

    /** The second half of `ngx_palloc_large`: a node for the allocation `p`, or the end of it. */
    method KeepLarge(heap: Heap, p: nat, blockReply: nat) returns (ok: bool)
      requires Sound(heap) && Round(psize, true) && p != 0 && p in heap.live && p !in Bases(state)
      requires p !in Larges(allocs)
      requires blockReply != 0 ==> blockReply % POOL_ALIGNMENT == 0 && Room(heap.live, blockReply, psize)
      modifies this, chain, heap
      ensures Sound(heap) && old(chain) <= chain && forall i | |old(chain)| <= i < |chain| :: fresh(chain[i])
      ensures old(NeverReset(state)) ==> NeverReset(state)
      ensures !ok ==> nodes == old(nodes) && allocs == old(allocs) && regions == old(regions)
                      && heap.live == old(heap.live) - {p}
      ensures ok ==> allocs == [p] + old(allocs) && nodes != [] && fresh(nodes[0]) && nodes[1..] == old(nodes)
                     && regions == old(regions) + [nodes[0].region] && Extends(old(heap.live), heap.live)
      ensures ok ==> nodes != [] && nodes[0].at != 0
      ensures ok <==> Served(old(state), SIZEOF_LARGE, true, blockReply)
      ensures Foreign(heap) == old(Foreign(heap)) - {p} && (!ok ==> state == old(state))
      ensures ok ==> Allocated(old(state), state, old(heap.live), heap.live, psize, SIZEOF_LARGE, true, blockReply,
                               nodes[0].at, nodes[0].region.block)
    {
      hide Ledger, Others, Allocated;
      var at, region := ReserveNode(heap, p, blockReply);
      assert Listed(nodes, allocs);
      if at == 0 {
        LargeRemoved(state, allocs, heap.live, p);
        GiveUp(heap, p);
        ok := false;
      } else {
        assert region in regions;
        LargeListed(state, allocs, heap.live, p);
        Keep(heap, at, p, region);
        ok := true;
      }
    }

    method GiveUp(heap: Heap, p: nat)
      requires Ledger(state, nodes, allocs, regions, psize, heap.live)
      requires p != 0 && p in heap.live && p !in Bases(state) && p !in Larges(allocs)
      modifies heap
      ensures Ledger(state, nodes, allocs, regions, psize, heap.live) && heap.live == old(heap.live) - {p}
    {
      LedgerWithout(state, nodes, allocs, regions, psize, heap.live, p);
      heap.Free(p);
    }

    method Keep(heap: Heap, at: nat, p: nat, ghost region: Region)
      requires Listed(nodes, allocs) && large == (if nodes == [] then null else nodes[0])
      requires Ledger(state, nodes, allocs, regions, psize, heap.live)
      requires p in heap.live && p !in Bases(state) && p !in Larges(allocs)
      requires region in regions && region.at == at && region.size == SIZEOF_LARGE && region.node
      modifies this`large, this`nodes, this`allocs
      ensures Ledger(state, nodes, allocs, regions, psize, heap.live)
      ensures nodes != [] && nodes[1..] == old(nodes) && allocs == [p] + old(allocs)
      ensures Listed(nodes, allocs) && large == nodes[0] && fresh(nodes[0])
      ensures nodes[0].region == region && nodes[0].at == at
    {
      PushNode(at, p, region);
      LedgerPush(state, nodes, old(allocs), regions, psize, heap.live, p);
    }

    /** The pool has memory for the request: in a block, from the heap, and for the node of a large one. */
    ghost predicate Has(size: nat, align: bool, reply: nat, blockReply: nat)
      requires Valid()
      reads this`current, this`chain, this`state, chain
    {
      if size <= max then Served(state, size, align, blockReply)
      else reply != 0 && Served(state, SIZEOF_LARGE, true, blockReply)
    }

    /** `ngx_palloc_large` */
    method PallocLarge(heap: Heap, size: nat, reply: nat, blockReply: nat) returns (p: nat)
      requires Sound(heap) && Round(psize, true)
      requires reply != 0 ==> Room(heap.live, reply, size)
      requires blockReply != 0 ==> blockReply % POOL_ALIGNMENT == 0
      requires blockReply != 0 ==> Room(if reply == 0 then heap.live else heap.live[reply := size], blockReply, psize)
      modifies this, chain, heap
      ensures Sound(heap) && old(chain) <= chain && forall i | |old(chain)| <= i < |chain| :: fresh(chain[i])
      ensures old(NeverReset(state)) ==> NeverReset(state)
      ensures Extends(old(heap.live), heap.live)
      ensures p != 0 <==> reply != 0 && Served(old(state), SIZEOF_LARGE, true, blockReply)
      ensures p == 0 ==> nodes == old(nodes) && allocs == old(allocs) && regions == old(regions)
      ensures p == 0 ==> heap.live == old(heap.live)
      ensures p != 0 ==> p == reply && p in heap.live && heap.live[p] == size && allocs == [p] + old(allocs)
      ensures p != 0 ==> nodes != [] && fresh(nodes[0]) && nodes[1..] == old(nodes)
      ensures p != 0 ==> regions == old(regions) + [nodes[0].region] && nodes[0].at != 0
      ensures Foreign(heap) == old(Foreign(heap)) && (p == 0 ==> state == old(state))
      ensures p != 0 ==>
        Allocated(old(state), state, old(heap.live)[p := size], heap.live, psize, SIZEOF_LARGE, true, blockReply,
                  nodes[0].at, nodes[0].region.block)
    {
      hide Others, Allocated;
      p := heap.Alloc(size, reply);
      if p == 0 {
        return;
      }
      LookForNode();
      OwnsBases(state, allocs, psize, old(heap.live));
      LargeLedger(state, nodes, allocs, regions, psize, old(heap.live), p, size);
      LargeOthers(state, allocs, old(heap.live), p, size);
      var ok := KeepLarge(heap, p, blockReply);
      if !ok {
        assert heap.live == old(heap.live);
        p := 0;
      }
    }

    /** `ngx_palloc`; what `ngx_pcalloc` clears is what this returns. */
    method Palloc(heap: Heap, size: nat, reply: nat, blockReply: nat) returns (p: nat)
      requires Sound(heap) && Round(psize, true)
      requires reply != 0 ==> Room(heap.live, reply, size)
      requires blockReply != 0 ==> blockReply % POOL_ALIGNMENT == 0
      requires blockReply != 0 ==>
        Room(if size <= max || reply == 0 then heap.live else heap.live[reply := size], blockReply, psize)
      modifies this, chain, heap
      ensures Sound(heap) && old(chain) <= chain && forall i | |old(chain)| <= i < |chain| :: fresh(chain[i])
      ensures old(NeverReset(state)) ==> NeverReset(state)
      ensures Extends(old(heap.live), heap.live)
      ensures p != 0 <==> old(Has(size, true, reply, blockReply))
      ensures p == 0 ==> nodes == old(nodes) && allocs == old(allocs) && regions == old(regions)
      ensures p == 0 ==> heap.live == old(heap.live)
      ensures p != 0 && size <= max ==> nodes == old(nodes) && allocs == old(allocs)
      ensures size <= max ==> exists block {:trigger With(old(regions), p, size, block, true, false)} ::
        && regions == With(old(regions), p, size, block, true, false)
        && Allocated(old(state), state, old(heap.live), heap.live, psize, size, true, blockReply, p, block)
      ensures p != 0 && size > max ==>
        p == reply && p in heap.live && heap.live[p] == size && allocs == [p] + old(allocs)
      ensures p != 0 && size > max ==>
        nodes != [] && fresh(nodes[0]) && nodes[1..] == old(nodes) && regions == old(regions) + [nodes[0].region]
      ensures p != 0 && size > max ==> nodes[0].at != 0
      ensures p != 0 && size > max ==>
        Allocated(old(state), state, old(heap.live)[p := size], heap.live, psize, SIZEOF_LARGE, true, blockReply,
                  nodes[0].at, nodes[0].region.block)
      ensures Foreign(heap) == old(Foreign(heap)) && (p == 0 ==> state == old(state))
    {
      hide Others;
      if size <= max {
        ghost var block;
        p, block := HandOut(heap, size, true, blockReply, false);
      } else {
        p := PallocLarge(heap, size, reply, blockReply);
      }
    }

    /** `ngx_pnalloc` */
    method Pnalloc(heap: Heap, size: nat, reply: nat, blockReply: nat) returns (p: nat)
      requires Sound(heap) && (size > max ==> Round(psize, true))
      requires reply != 0 ==> Room(heap.live, reply, size)
      requires blockReply != 0 ==> blockReply % POOL_ALIGNMENT == 0
      requires blockReply != 0 ==>
        Room(if size <= max || reply == 0 then heap.live else heap.live[reply := size], blockReply, psize)
      modifies this, chain, heap
      ensures Sound(heap) && old(chain) <= chain && forall i | |old(chain)| <= i < |chain| :: fresh(chain[i])
      ensures old(NeverReset(state)) ==> NeverReset(state)
      ensures Extends(old(heap.live), heap.live)
      ensures p != 0 <==> old(Has(size, false, reply, blockReply))
      ensures p == 0 ==> nodes == old(nodes) && allocs == old(allocs) && regions == old(regions)
      ensures p == 0 ==> heap.live == old(heap.live)
      ensures p != 0 && size <= max ==> nodes == old(nodes) && allocs == old(allocs)
      ensures size <= max ==> exists block {:trigger With(old(regions), p, size, block, false, false)} ::
        && regions == With(old(regions), p, size, block, false, false)
        && Allocated(old(state), state, old(heap.live), heap.live, psize, size, false, blockReply, p, block)
      ensures p != 0 && size > max ==>
        p == reply && p in heap.live && heap.live[p] == size && allocs == [p] + old(allocs)
      ensures p != 0 && size > max ==>
        nodes != [] && fresh(nodes[0]) && nodes[1..] == old(nodes) && regions == old(regions) + [nodes[0].region]
      ensures p != 0 && size > max ==> nodes[0].at != 0
      ensures p != 0 && size > max ==>
        Allocated(old(state), state, old(heap.live)[p := size], heap.live, psize, SIZEOF_LARGE, true, blockReply,
                  nodes[0].at, nodes[0].region.block)
      ensures Foreign(heap) == old(Foreign(heap)) && (p == 0 ==> state == old(state))
    {
      hide Others;
      if size <= max {
        ghost var block;
        p, block := HandOut(heap, size, false, blockReply, false);
      } else {
        p := PallocLarge(heap, size, reply, blockReply);
      }
    }

    /** `p->d.last += size` */
    method WidenLast(size: nat)
      requires Valid() && ChainOk(Widened(state, size), psize)
      modifies this`state, head`last
      ensures Valid() && state == Widened(old(state), size)
    {
      assert Same(chain[0], state.blocks[0]);
      head.last := head.last + size;
      state := Widened(state, size);
    }

    /** Allocation `k` is the last in the first block, and grows. */
    method Widen(heap: Heap, size: nat, ghost k: nat)
      requires Sound(heap) && k < |regions| && !regions[k].node && regions[k].at + regions[k].size == head.last
      requires head.last + size <= head.end
      modifies this`state, this`regions, head`last
      ensures Sound(heap) && state == Widened(old(state), size)
      ensures regions == old(regions)[k := old(regions[k]).(size := old(regions[k].size) + size)]
      ensures old(NeverReset(state)) ==> NeverReset(state)
      ensures Foreign(heap) == old(Foreign(heap))
    {
      hide Ledger, Others;
      ghost var rs := regions[k := regions[k].(size := regions[k].size + size)];
      assert Same(chain[0], state.blocks[0]);
      WidenedLedger(state, nodes, allocs, regions, psize, heap.live, k, size);
      WidenedOthers(state, allocs, heap.live, size);
      WidenLast(size);
      regions := rs;
    }

    /** `ngx_pfree` */
    method Pfree(heap: Heap, p: nat) returns (ok: bool)
      requires Sound(heap)
      modifies this`allocs, nodes`alloc, heap
      ensures Sound(heap) && (ok <==> p in old(allocs))
      ensures Larges(allocs) == Larges(old(allocs)) - {p} && allocs == Zeroed(old(allocs), p)
      ensures heap.live == if p in Larges(old(allocs)) then old(heap.live) - {p} else old(heap.live)
      ensures Foreign(heap) == old(Foreign(heap))
    {
      hide Ledger;
      OnceListed(heap.live);
      var l, k := FindNode(p);
      if l != null {
        ZeroedAt(allocs, k);
        FreeNode(heap, l, k);
      } else {
        assert Zeroed(allocs, p) == allocs;
      }
      return l != null;
    }

    lemma OnceListed(live: map<nat, nat>)
      requires Ledger(state, nodes, allocs, regions, psize, live)
      ensures forall i, j | 0 <= i < j < |allocs| && allocs[i] != 0 :: allocs[i] != allocs[j]
    {
    }

    /** The loop of `ngx_pfree`. */
    method FindNode(p: nat) returns (l: LargeNode?, ghost k: nat)
      requires Listed(nodes, allocs) && large == (if nodes == [] then null else nodes[0])
      ensures if l == null then p !in allocs else k < |nodes| && l == nodes[k] && allocs[k] == p
    {
      l, k := large, 0;
      while l != null
        invariant k <= |nodes| && l == (if k < |nodes| then nodes[k] else null)
        invariant forall i | 0 <= i < k :: allocs[i] != p
        decreases |nodes| - k
      {
        if p == l.alloc {
          return;
        }
        l := l.next;
        k := k + 1;
      }
    }

    /** `ngx_free(l->alloc); l->alloc = NULL;` */
    method FreeNode(heap: Heap, l: LargeNode, ghost k: nat)
      requires Listed(nodes, allocs) && Ledger(state, nodes, allocs, regions, psize, heap.live)
      requires k < |nodes| && l == nodes[k]
      modifies this`allocs, l`alloc, heap
      ensures Listed(nodes, allocs) && Ledger(state, nodes, allocs, regions, psize, heap.live)
      ensures allocs == old(allocs)[k := 0] && Larges(allocs) == Larges(old(allocs)) - {old(allocs[k])}
      ensures heap.live == if old(allocs[k]) == 0 then old(heap.live) else old(heap.live) - {old(allocs[k])}
    {
      if allocs[k] != 0 {
        FreedOwns(state, allocs, psize, heap.live, k);
      } else {
        assert allocs[k := 0] == allocs;
      }
      heap.Free(l.alloc);
      l.alloc := 0;
      allocs := allocs[k := 0];
    }

    /** The block that a node of the list is in is still there. */
    ghost predicate Readable(heap: Heap, l: LargeNode)
      reads this`state, heap
    {
      l.region.block < |state.blocks| && state.blocks[l.region.block].base in heap.live
    }

    method AllocOf(heap: Heap, l: LargeNode) returns (alloc: nat)
      requires Readable(heap, l)
      ensures alloc == l.alloc
    {
      alloc := l.alloc;
    }

    method NodeAfter(heap: Heap, l: LargeNode) returns (next: LargeNode?)
      requires Readable(heap, l)
      ensures next == l.next
    {
      next := l.next;
    }

    /** The loop over the large allocations that `ngx_reset_pool` and `ngx_destroy_pool` begin with: a node is
        read only while its block is still there. */
    method FreeLarges(heap: Heap)
      requires Listed(nodes, allocs) && large == (if nodes == [] then null else nodes[0])
      requires Owns(state, allocs, psize, heap.live) && InBlocks(nodes, state)
      modifies heap
      ensures heap.live == old(heap.live) - Larges(allocs)
    {
      hide Owns;
      var l := large;
      ghost var k: nat := 0;
      while l != null
        invariant k <= |nodes| && l == (if k < |nodes| then nodes[k] else null)
        invariant heap.live == old(heap.live) - LargesTo(allocs, k)
        decreases |nodes| - k
      {
        BlockRemains(state, allocs, psize, old(heap.live), k, l.region.block);
        var alloc := AllocOf(heap, l);
        if alloc != 0 {
          StillLarge(state, allocs, psize, old(heap.live), k);
          heap.Free(alloc);
        }
        BlockRemains(state, allocs, psize, old(heap.live), k + 1, l.region.block);
        l := NodeAfter(heap, l);
        k := k + 1;
      }
      LargesToAll(allocs);
    }

    method ResetBlock(p: PoolBlock, ghost k: nat, ghost blocks: seq<Block>)
      requires k < |chain| == |blocks| && p == chain[k] && Represents(chain, ResetTo(blocks, k)) && Linked(chain)
      modifies p`last, p`failed
      ensures Represents(chain, ResetTo(blocks, k + 1)) && Linked(chain)
    {
      ResetToIs(blocks, k);
      assert Same(chain[k], ResetTo(blocks, k)[k]);
      p.last := p.base + SIZEOF_POOL;
      p.failed := 0;
    }

    /** The loop over the blocks of `ngx_reset_pool`. */
    method ResetBlocks()
      requires Valid()
      modifies chain`last, chain`failed
      ensures Linked(chain) && Represents(chain, ResetTo(state.blocks, |state.blocks|))
    {
      hide Same;
      var p: PoolBlock? := head;
      ghost var k: nat := 0;
      while p != null
        invariant k <= |chain| == |state.blocks| && p == (if k < |chain| then chain[k] else null)
        invariant Represents(chain, ResetTo(state.blocks, k)) && Linked(chain)
        decreases |chain| - k
      {
        ResetBlock(p, k, state.blocks);
        p := p.next;
        k := k + 1;
      }
    }

    /** The loop, and the assignment to `current` behind it. */
    method ResetChain()
      requires Valid() && ChainOk(Reset(state), psize) && Reset(state).blocks == ResetTo(state.blocks, |state.blocks|)
      modifies this`current, this`state, chain`last, chain`failed
      ensures Valid() && state == Reset(old(state))
    {
      hide Represents;
      ResetBlocks();
      current := head;
      state := Reset(state);
    }

    method ResetAll(heap: Heap)
      requires Valid() && ChainOk(Reset(state), psize) && Reset(state).blocks == ResetTo(state.blocks, |state.blocks|)
      requires Listed(nodes, allocs) && large == (if nodes == [] then null else nodes[0])
      requires Owns(state, allocs, psize, heap.live) && InBlocks(nodes, state)
      modifies this, chain`last, chain`failed, heap
      ensures Valid() && chain == old(chain) && state == Reset(old(state)) && large == null
      ensures regions == [] && nodes == [] && allocs == [] && heap.live == old(heap.live) - Larges(old(allocs))
    {
      hide Represents;
      FreeLarges(heap);
      ResetChain();
      large := null;
      nodes, allocs, regions := [], [], [];
    }

    /** `ngx_reset_pool` */
    method ResetPool(heap: Heap)
      requires Sound(heap)
      modifies this, chain`last, chain`failed, heap
      ensures Sound(heap) && chain == old(chain) && state == Reset(old(state))
      ensures current == head && FirstFit(state.blocks, state.current, max, false) == 0
      ensures forall i | 0 <= i < |chain| :: chain[i].last == chain[i].base + SIZEOF_POOL && chain[i].failed == 0
      ensures regions == [] && nodes == [] && allocs == [] && heap.live == old(heap.live) - Larges(old(allocs))
      ensures Foreign(heap) == old(Foreign(heap))
    {
      hide Others;
      ResetLedger(state, nodes, allocs, regions, psize, heap.live);
      ResetOthers(state, allocs, heap.live);
      ResetEmpties(state, psize);
      NodesInBlocks(state, nodes, regions);
      ResetAll(heap);
    }

    /** One call; the address that it returns, if it returns one. */
    method Do(heap: Heap, call: Call) returns (p: nat)
      requires Sound(heap) && Round(psize, true)
      modifies this, chain, nodes, heap
      ensures Sound(heap) && Foreign(heap) == old(Foreign(heap))
      ensures (View(heap), p) == Called(old(View(heap)), psize, call)
      ensures forall k | 0 <= k < |chain| :: chain[k] in old(chain) || fresh(chain[k])
      ensures forall k | 0 <= k < |nodes| :: nodes[k] in old(nodes) || fresh(nodes[k])
    {
      p := 0;
      match call
      case Take(size, align, reply, blockReply) =>
        p := Serve(heap, size, align, reply, blockReply);
      case GiveBack(q) =>
        var _ := Pfree(heap, q);
      case ResetAll =>
        ResetPool(heap);
    }

    lemma RunsOn(a: Books, psize: nat, calls: seq<Call>)
      ensures CalledAll(a, psize, calls)
           == if calls == [] then a else CalledAll(Called(a, psize, calls[0]).0, psize, calls[1..])
      ensures Returned(a, psize, calls)
           == if calls == [] then []
              else [Called(a, psize, calls[0]).1] + Returned(Called(a, psize, calls[0]).0, psize, calls[1..])
    {
    }

    /** `ngx_palloc` or `ngx_pnalloc`, with answers that the library can give. */
    method Serve(heap: Heap, size: nat, align: bool, reply: nat, blockReply: nat) returns (p: nat)
      requires Sound(heap) && Round(psize, true)
      modifies this, chain, heap
      ensures Sound(heap) && Foreign(heap) == old(Foreign(heap))
      ensures (View(heap), p) == Called(old(View(heap)), psize, Take(size, align, reply, blockReply))
      ensures forall k | 0 <= k < |chain| :: chain[k] in old(chain) || fresh(chain[k])
      ensures forall k | 0 <= k < |nodes| :: nodes[k] in old(nodes) || fresh(nodes[k])
    {
      hide Ledger, Others, Allocated, Small, Large, Called;
      CurrentInside();
      TakeIs(View(heap), psize, size, align, reply, blockReply);
      var r := Answer(heap.live, reply, size, 1);
      var live := if size <= max || r == 0 then heap.live else heap.live[r := size];
      var b := Answer(live, blockReply, head.end - head.base, POOL_ALIGNMENT);
      if size <= max {
        p := ServeSmall(heap, size, align, b);
      } else {
        p := ServeLarge(heap, size, align, r, b);
      }
    }

    method ServeSmall(heap: Heap, size: nat, align: bool, blockReply: nat) returns (p: nat)
      requires Sound(heap) && Round(psize, true) && size <= max
      requires blockReply != 0 ==> blockReply % POOL_ALIGNMENT == 0
      requires blockReply != 0 ==> Room(heap.live, blockReply, psize)
      modifies this, chain, heap
      ensures Sound(heap) && Foreign(heap) == old(Foreign(heap))
      ensures forall k | 0 <= k < |chain| :: chain[k] in old(chain) || fresh(chain[k])
      ensures forall k | 0 <= k < |nodes| :: nodes[k] in old(nodes) || fresh(nodes[k])
      ensures (View(heap), p) == Small(old(View(heap)), psize, size, align, blockReply)
    {
      hide Ledger, Others, Allocated, Small, Served;
      ghost var c, live := state, heap.live;
      CurrentInside();
      if align {
        p := Palloc(heap, size, 0, blockReply);
      } else {
        p := Pnalloc(heap, size, 0, blockReply);
      }
      ghost var block :| Allocated(c, state, live, heap.live, psize, size, align, blockReply, p, block);
      SmallIs(c, state, allocs, live, heap.live, psize, size, align, blockReply, p, block);
    }

    lemma CurrentInside()
      requires Valid()
      ensures state.current <= |state.blocks| && max == state.max && head.end - head.base == psize
    {
      assert Same(chain[0], state.blocks[0]) && BlockOk(state.blocks[0], psize);
    }

    method ServeLarge(heap: Heap, size: nat, align: bool, reply: nat, blockReply: nat) returns (p: nat)
      requires Sound(heap) && Round(psize, true) && size > max
      requires blockReply != 0 ==> blockReply % POOL_ALIGNMENT == 0
      requires reply != 0 ==> Room(heap.live, reply, size)
      requires blockReply != 0 ==> Room(if reply == 0 then heap.live else heap.live[reply := size], blockReply, psize)
      modifies this, chain, heap
      ensures Sound(heap) && Foreign(heap) == old(Foreign(heap))
      ensures forall k | 0 <= k < |chain| :: chain[k] in old(chain) || fresh(chain[k])
      ensures forall k | 0 <= k < |nodes| :: nodes[k] in old(nodes) || fresh(nodes[k])
      ensures (View(heap), p) == Large(old(View(heap)), psize, size, reply, blockReply)
    {
      hide Ledger, Others, Allocated, Large, Served;
      ghost var c, live, before := state, heap.live, allocs;
      CurrentInside();
      if align {
        p := Palloc(heap, size, reply, blockReply);
      } else {
        p := Pnalloc(heap, size, reply, blockReply);
      }
      ghost var at, block := 0, 0;
      if p != 0 {
        at, block := nodes[0].at, nodes[0].region.block;
      }
      LargeIs(c, state, before, live, heap.live, psize, size, reply, blockReply, p, at, block);
    }

    /** Any run of calls leaves alone what others have of the heap. */
    method Run(heap: Heap, calls: seq<Call>) returns (answers: seq<nat>)
      requires Sound(heap) && Round(psize, true)
      modifies this, chain, nodes, heap
      ensures Sound(heap) && Foreign(heap) == old(Foreign(heap))
      ensures View(heap) == CalledAll(old(View(heap)), psize, calls)
      ensures answers == Returned(old(View(heap)), psize, calls)
      decreases |calls|
    {
      hide *;
      RunsOn(View(heap), psize, calls);
      answers := [];
      if calls != [] {
        var p := Do(heap, calls[0]);
        var rest := Run(heap, calls[1..]);
        answers := [p] + rest;
      }
    }

    /** Reading the link of a block that is still there. */
    method NextOf(heap: Heap, p: PoolBlock) returns (n: PoolBlock?)
      requires p.base in heap.live
      ensures n == p.next
    {
      n := p.next;
    }

    /** The loop over the blocks of `ngx_destroy_pool`: a block is read only while it is still there. */
    method FreeBlocks(heap: Heap, ghost live: map<nat, nat>)
      requires Valid() && Owns(state, allocs, psize, live) && heap.live == live - Larges(allocs)
      modifies heap
      ensures heap.live == live - Larges(allocs) - Bases(state)
    {
      StillBlock(state, allocs, psize, live, 0, 0);
      assert Same(chain[0], state.blocks[0]);
      var p := head;
      var n := NextOf(heap, p);
      ghost var k: nat := 0;
      while true
        invariant k < |chain| == |state.blocks| && p == chain[k] && n == NextBlock(chain, k)
        invariant heap.live == live - Larges(allocs) - BasesTo(state, k)
        decreases |chain| - k
      {
        StillBlock(state, allocs, psize, live, k, k);
        BasesDiffer(state, psize, k);
        assert Same(chain[k], state.blocks[k]);
        heap.Free(p.base);
        if n == null {
          break;
        }
        p := n;
        k := k + 1;
        StillBlock(state, allocs, psize, live, k, k);
        assert Same(chain[k], state.blocks[k]);
        n := NextOf(heap, p);
      }
      assert BasesTo(state, |chain|) == Bases(state);
    }

    /** `ngx_destroy_pool`: everything that the pool owns is freed, each block and each large allocation once. */
    method Destroy(heap: Heap)
      requires Sound(heap)
      modifies heap
      ensures heap.live == old(Foreign(heap)) == old(heap.live) - Larges(allocs) - Bases(state)
    {
      NodesInBlocks(state, nodes, regions);
      FreeLarges(heap);
      FreeBlocks(heap, old(heap.live));
    }
  }

  /** `ngx_create_pool` */
  method CreatePool(heap: Heap, size: nat, reply: nat) returns (pool: Pool?)
    requires size >= SIZEOF_POOL
    requires Separate(heap.live)
    requires reply != 0 ==> Room(heap.live, reply, size) && reply % POOL_ALIGNMENT == 0
    modifies heap
    ensures if reply == 0 then pool == null && heap.live == old(heap.live)
            else
              && pool != null && fresh(pool) && fresh(pool.chain)
              && pool.Sound(heap) && pool.psize == size && NeverReset(pool.state)
              && pool.regions == [] && pool.nodes == [] && heap.live == old(heap.live)[reply := size]
              && Bases(pool.state) == {reply} && pool.Foreign(heap) == old(heap.live)
              && pool.View(heap) == NewBooks(reply, size, old(heap.live))
  {
    var p := heap.Alloc(size, reply);
    if p == 0 {
      return null;
    }
    SeparateWith(old(heap.live), p, size);
    pool := new Pool(p, size);
  }

  /** A pool is created, used in any way, and destroyed: the calls return what they return on the pool as a value, and
      what it took of the heap has been given back, each piece once, and nothing else. */
  method Lifetime(heap: Heap, size: nat, reply: nat, calls: seq<Call>) returns (answers: seq<nat>)
    requires Separate(heap.live) && size >= SIZEOF_POOL && Round(size, true)
    modifies heap
    ensures heap.live == old(heap.live)
    ensures var p := Answer(old(heap.live), reply, size, POOL_ALIGNMENT);
            answers == if p == 0 then [] else Returned(NewBooks(p, size, old(heap.live)), size, calls)
  {
    var p := Answer(heap.live, reply, size, POOL_ALIGNMENT);
    var pool := CreatePool(heap, size, p);
    if pool == null {
      return [];
    }
    answers := pool.Run(heap, calls);
    pool.Destroy(heap);
  }

  lemma ResetLedger(c: Chain, nodes: seq<LargeNode>, allocs: seq<nat>, rs: seq<Region>, psize: nat, live: map<nat, nat>)
    requires ChainOk(c, psize) && Ledger(c, nodes, allocs, rs, psize, live)
    ensures ChainOk(Reset(c), psize) && Ledger(Reset(c), [], [], [], psize, live - Larges(allocs))
    ensures Reset(c).blocks == ResetTo(c.blocks, |c.blocks|)
  {
    ResetOk(c, psize);
    ResetOwns(c, allocs, psize, live);
  }

  lemma LedgerWithout(c: Chain, nodes: seq<LargeNode>, allocs: seq<nat>, rs: seq<Region>, psize: nat,
                      live: map<nat, nat>, p: nat)
    requires Ledger(c, nodes, allocs, rs, psize, live) && p !in Bases(c) && p !in Larges(allocs)
    ensures Ledger(c, nodes, allocs, rs, psize, live - {p})
  {
    SeparateWithout(live, {p});
    assert forall i | 0 <= i < |c.blocks| :: c.blocks[i].base in Bases(c);
    assert forall k | 0 <= k < |allocs| && allocs[k] != 0 :: allocs[k] in Larges(allocs);
  }

  lemma LedgerPush(c: Chain, nodes: seq<LargeNode>, allocs: seq<nat>, rs: seq<Region>, psize: nat,
                   live: map<nat, nat>, p: nat)
    requires nodes != [] && Ledger(c, nodes[1..], allocs, rs, psize, live)
    requires p in live && p !in Bases(c) && p !in Larges(allocs)
    requires nodes[0].region in rs && nodes[0].region.at == nodes[0].at
    requires nodes[0].region.size == SIZEOF_LARGE && nodes[0].region.node
    ensures Ledger(c, nodes, [p] + allocs, rs, psize, live)
  {
    assert forall i | 0 <= i < |c.blocks| :: c.blocks[i].base in Bases(c);
    assert forall k | 0 <= k < |allocs| && allocs[k] != 0 :: allocs[k] in Larges(allocs);
    assert forall k | 0 < k < |nodes| :: nodes[k] == nodes[1..][k - 1];
  }

  lemma LargeLedger(c: Chain, nodes: seq<LargeNode>, allocs: seq<nat>, rs: seq<Region>, psize: nat, live: map<nat, nat>,
                    p: nat, size: nat)
    requires Ledger(c, nodes, allocs, rs, psize, live) && Room(live, p, size)
    ensures Ledger(c, nodes, allocs, rs, psize, live[p := size])
  {
    LargeOwns(c, allocs, psize, live, p, size);
  }
}
