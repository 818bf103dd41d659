/** The arithmetic of the pool of `ngx_palloc.c`: where an allocation goes, and what a new block changes. */
module PoolModel {
  const TWO_TO_64: nat := 0x1_0000_0000_0000_0000

  /** `NGX_ALIGNMENT`, `NGX_POOL_ALIGNMENT`, `NGX_MAX_ALLOC_FROM_POOL` */
  const ALIGNMENT: nat := 8
  const POOL_ALIGNMENT: nat := 16
  const MAX_ALLOC_FROM_POOL: nat := 4096

  /** `sizeof(ngx_pool_t)`, `sizeof(ngx_pool_data_t)`, `sizeof(ngx_pool_large_t)` */
  const SIZEOF_POOL: nat := 64
  const SIZEOF_POOL_DATA: nat := 32
  const SIZEOF_LARGE: nat := 16

  /** `ngx_align_ptr(m, NGX_ALIGNMENT)` */
  function AlignPtr(m: nat): (a: nat)
    ensures a % ALIGNMENT == 0 && m <= a < m + ALIGNMENT
  {
    (m + ALIGNMENT - 1) / ALIGNMENT * ALIGNMENT
  }

  lemma AlignIsLeast(m: nat, a: nat)
    requires m <= a && a % ALIGNMENT == 0
    ensures AlignPtr(m) <= a
  {
  }

  /** The subtraction of two pointers, cast to `size_t`. */
  function Difference(end: nat, m: nat): nat {
    if m <= end then end - m else (end - m) % TWO_TO_64
  }

  datatype Block = Block(base: nat, last: nat, end: nat, failed: nat)

  /** Where the next allocation of a block would begin. */
  function Place(b: Block, align: bool): nat {
    if align then AlignPtr(b.last) else b.last
  }

  /** The test of `ngx_palloc_small`. */
  predicate Fits(b: Block, size: nat, align: bool) {
    Difference(b.end, Place(b, align)) >= size
  }

  /** Behind the end of a block, the test lets everything through. */
  lemma BehindTheEndEverythingFits(b: Block, size: nat)
    requires b.end < AlignPtr(b.last) <= b.end + ALIGNMENT && size <= MAX_ALLOC_FROM_POOL
    ensures Fits(b, size, true)
  {
  }

  // ---------- the chain of blocks ----------

  /** The blocks in the order of the chain, the place of `current` in it, and `max`. */
  datatype Chain = Chain(blocks: seq<Block>, current: nat, max: nat)

  ghost predicate BlockOk(b: Block, psize: nat) {
    && b.base > 0 && b.base % POOL_ALIGNMENT == 0 && b.end == b.base + psize < TWO_TO_64
    && b.base + SIZEOF_POOL_DATA <= b.last <= b.end
  }

  ghost predicate Apart(a: Block, b: Block) {
    a.end <= b.base || b.end <= a.base
  }

  ghost predicate SizeOk(psize: nat, max: nat) {
    && psize >= SIZEOF_POOL
    && max == if psize - SIZEOF_POOL < MAX_ALLOC_FROM_POOL then psize - SIZEOF_POOL else MAX_ALLOC_FROM_POOL
  }

  ghost predicate ChainOk(c: Chain, psize: nat) {
    && SizeOk(psize, c.max) && c.current < |c.blocks|
    && c.blocks[0].last >= c.blocks[0].base + SIZEOF_POOL
    && (forall i | 0 <= i < |c.blocks| :: BlockOk(c.blocks[i], psize))
    && forall i, j | 0 <= i < j < |c.blocks| :: Apart(c.blocks[i], c.blocks[j])
  }

  /** Allocations with alignment need a pool of round size. */
  predicate Round(psize: nat, align: bool) {
    align ==> psize % ALIGNMENT == 0
  }

  /** In a block of a pool the test then means that the allocation stays inside. */
  lemma FitsInside(b: Block, psize: nat, size: nat, align: bool)
    requires BlockOk(b, psize) && Round(psize, align)
    ensures Place(b, align) <= b.end && (Fits(b, size, align) <==> Place(b, align) + size <= b.end)
  {
    if align {
      AlignIsLeast(b.last, b.end);
    }
  }

  // ---------- which pools are sound ----------

  /** A call for memory of a block. */
  datatype Request = Request(size: nat, align: bool)

  /** A block after some calls: what fits is taken from it, the rest goes elsewhere. */
  function After(b: Block, calls: seq<Request>): Block {
    if calls == [] then b
    else
      var b' := After(b, calls[..|calls| - 1]);
      var r := calls[|calls| - 1];
      if Fits(b', r.size, r.align) then b'.(last := Place(b', r.align) + r.size) else b'
  }

  /** Whatever is asked of a block, by calls that the pool serves from its blocks, stays inside it. */
  ghost predicate StaysInside(b: Block, max: nat) {
    forall calls: seq<Request> ::
      (forall k | 0 <= k < |calls| :: calls[k].size <= max) ==> After(b, calls).last <= b.end
  }

  lemma {:induction false} RoundStaysInside(b: Block, psize: nat, calls: seq<Request>)
    requires BlockOk(b, psize) && psize % ALIGNMENT == 0
    ensures BlockOk(After(b, calls), psize) && After(b, calls).end == b.end
  {
    if calls != [] {
      RoundStaysInside(b, psize, calls[..|calls| - 1]);
      FitsInside(After(b, calls[..|calls| - 1]), psize, calls[|calls| - 1].size, calls[|calls| - 1].align);
    }
  }

  /** Calls for one byte each fill a block up. */
  lemma {:induction false} FilledUp(b: Block, n: nat)
    requires b.last + n <= b.end
    ensures After(b, seq(n, _ => Request(1, false))) == b.(last := b.last + n)
  {
    if n > 0 {
      var calls: seq<Request> := seq(n, _ => Request(1, false));
      assert calls[..n - 1] == seq(n - 1, _ => Request(1, false));
      FilledUp(b, n - 1);
    }
  }

  lemma AfterOneMore(b: Block, calls: seq<Request>, r: Request)
    ensures After(b, calls + [r]) ==
      var b' := After(b, calls); if Fits(b', r.size, r.align) then b'.(last := Place(b', r.align) + r.size) else b'
  {
    assert (calls + [r])[..|calls|] == calls;
  }

  lemma RaggedEnd(base: nat, psize: nat)
    requires base % POOL_ALIGNMENT == 0 && psize % ALIGNMENT != 0
    ensures base + psize < AlignPtr(base + psize) <= base + psize + ALIGNMENT
  {
    var k, q, r := base / POOL_ALIGNMENT, psize / ALIGNMENT, psize % ALIGNMENT;
    var e := 2 * k + q + 1;
    assert base == 16 * k && psize == 8 * q + r;
    assert base + psize + ALIGNMENT - 1 == 8 * e + (r - 1);
    assert (base + psize + ALIGNMENT - 1) / ALIGNMENT == e;
  }

  /** Then the next aligned allocation lies behind the end, unless the end is aligned. */
  lemma RaggedLeaves(b: Block, psize: nat)
    requires BlockOk(b, psize) && psize % ALIGNMENT != 0
    ensures After(b, seq(b.end - b.last, _ => Request(1, false)) + [Request(1, true)]).last > b.end
  {
    FilledUp(b, b.end - b.last);
    AfterOneMore(b, seq(b.end - b.last, _ => Request(1, false)), Request(1, true));
    RaggedEnd(b.base, psize);
    BehindTheEndEverythingFits(b.(last := b.end), 1);
  }

  /** What is asked of the first block of a pool stays inside it, exactly if the size of the pool is a multiple
      of the alignment. */
  lemma RoundPoolsOnly(base: nat, psize: nat, max: nat)
    requires psize >= SIZEOF_POOL && SizeOk(psize, max)
    requires BlockOk(Block(base, base + SIZEOF_POOL, base + psize, 0), psize)
    ensures StaysInside(Block(base, base + SIZEOF_POOL, base + psize, 0), max) <==> psize % ALIGNMENT == 0
  {
    var b := Block(base, base + SIZEOF_POOL, base + psize, 0);
    if psize % ALIGNMENT == 0 {
      forall calls: seq<Request>
        ensures After(b, calls).last <= b.end
      {
        RoundStaysInside(b, psize, calls);
      }
    } else {
      RaggedLeaves(b, psize);
      var calls: seq<Request> := seq(b.end - b.last, _ => Request(1, false)) + [Request(1, true)];
      assert forall k | 0 <= k < |calls| :: calls[k].size <= max;
    }
  }

  /** `NGX_REQUEST_POOL_SIZE` */
  const REQUEST_POOL_SIZE: nat := 2018

  /** In the pool of a request, an allocation without alignment that fills the block and one with alignment
      behind it: the second lies behind the end of the block. */
  lemma RequestPoolOverruns(base: nat)
    requires base > 0 && base % POOL_ALIGNMENT == 0 && base + REQUEST_POOL_SIZE < TWO_TO_64
    ensures var c0 := Chain([Block(base, base + SIZEOF_POOL, base + REQUEST_POOL_SIZE, 0)], 0, 1954);
            var c1 := Taken(c0, 0, 1954, false);
            && ChainOk(c0, REQUEST_POOL_SIZE)
            && FirstFit(c0.blocks, 0, 1954, false) == 0 && c1.blocks[0].last == c1.blocks[0].end
            && FirstFit(c1.blocks, 0, 8, true) == 0 && Place(c1.blocks[0], true) > c1.blocks[0].end
            && Taken(c1, 0, 8, true).blocks[0].last > c1.blocks[0].end
  {
  }

  /** The walk of `ngx_palloc_small`: the first block from `i` on that has room, or the number of blocks. */
  function FirstFit(blocks: seq<Block>, i: nat, size: nat, align: bool): (j: nat)
    requires i <= |blocks|
    ensures i <= j <= |blocks| && (j < |blocks| ==> Fits(blocks[j], size, align))
    ensures forall k | i <= k < j :: !Fits(blocks[k], size, align)
    decreases |blocks| - i
  {
    if i == |blocks| || Fits(blocks[i], size, align) then i else FirstFit(blocks, i + 1, size, align)
  }

  /** An allocation in block `j`. */
  function Taken(c: Chain, j: nat, size: nat, align: bool): Chain
    requires j < |c.blocks|
  {
    c.(blocks := c.blocks[j := c.blocks[j].(last := Place(c.blocks[j], align) + size)])
  }

  lemma TakenOk(c: Chain, psize: nat, j: nat, size: nat, align: bool)
    requires ChainOk(c, psize) && Round(psize, align) && j < |c.blocks| && Fits(c.blocks[j], size, align)
    ensures ChainOk(Taken(c, j, size, align), psize)
  {
    FitsInside(c.blocks[j], psize, size, align);
  }

  /** The loop of `ngx_palloc_block` from block `i` on. */
  function Failed(blocks: seq<Block>, current: nat, i: nat): (r: (seq<Block>, nat))
    ensures |r.0| == |blocks|
    decreases |blocks| - i
  {
    if i + 1 >= |blocks| then (blocks, current)
    else
      Failed(blocks[i := blocks[i].(failed := blocks[i].failed + 1)],
             if blocks[i].failed > 4 then i + 1 else current, i + 1)
  }

  /** What the loop does to every block, and where it leaves `current`. */
  lemma {:induction false} FailedCounts(blocks: seq<Block>, current: nat, i: nat)
    requires current <= i <= |blocks|
    ensures var (blocks', current') := Failed(blocks, current, i);
            && (forall k | 0 <= k < |blocks| ::
                  blocks'[k] == if i <= k < |blocks| - 1 then blocks[k].(failed := blocks[k].failed + 1) else blocks[k])
            && (current' == current || (i < current' < |blocks| && blocks[current' - 1].failed > 4))
            && current <= current' && (i < |blocks| ==> current' < |blocks|)
            && forall k | i <= k < |blocks| - 1 && current' <= k :: blocks[k].failed <= 4
    decreases |blocks| - i
  {
    if i + 1 < |blocks| {
      var blocks1 := blocks[i := blocks[i].(failed := blocks[i].failed + 1)];
      FailedCounts(blocks1, if blocks[i].failed > 4 then i + 1 else current, i + 1);
    }
  }

  function Counted(c: Chain): (c': Chain)
    ensures |c'.blocks| == |c.blocks|
  {
    var (blocks, current) := Failed(c.blocks, c.current, c.current);
    c.(blocks := blocks, current := current)
  }

  /** `ngx_palloc_block`: a new block at `base`, with the allocation in it. */
  function Extended(c: Chain, base: nat, psize: nat, size: nat): Chain {
    var c1 := Counted(c);
    c1.(blocks := c1.blocks + [Block(base, AlignPtr(base + SIZEOF_POOL_DATA) + size, base + psize, 0)])
  }

  ghost predicate Elsewhere(c: Chain, base: nat, psize: nat) {
    && base > 0 && base % POOL_ALIGNMENT == 0 && base + psize < TWO_TO_64
    && forall i | 0 <= i < |c.blocks| :: base + psize <= c.blocks[i].base || c.blocks[i].end <= base
  }

  lemma ExtendedOk(c: Chain, base: nat, psize: nat, size: nat)
    requires ChainOk(c, psize) && Elsewhere(c, base, psize)
    requires size <= c.max || size == SIZEOF_LARGE
    ensures ChainOk(Extended(c, base, psize, size), psize)
  {
    hide AlignPtr;
    FailedCounts(c.blocks, c.current, c.current);
    FirstPlace(base);
    var c' := Extended(c, base, psize, size);
    assert BlockOk(c'.blocks[|c.blocks|], psize);
  }

  // ---------- how long the search is ----------

  /** In a pool that has never been reset, the failure counts are a function of the number of blocks. */
  ghost predicate NeverReset(c: Chain) {
    var n := |c.blocks|;
    && c.current == (if n <= 7 then 0 else n - 7)
    && forall i | 0 <= i < n :: c.blocks[i].failed == if i == n - 1 then 0 else if n - 2 - i < 6 then n - 2 - i else 6
  }

  lemma ExtendedNeverReset(c: Chain, base: nat, psize: nat, size: nat)
    requires NeverReset(c) && c.current < |c.blocks|
    ensures NeverReset(Extended(c, base, psize, size))
  {
    FailedCounts(c.blocks, c.current, c.current);
  }

  /** So `current` is the first block that failed at most 5 times, the counts never grow along the chain, and
      the search visits at most 7 blocks. */
  lemma SearchIsShort(c: Chain)
    requires NeverReset(c) && c.blocks != []
    ensures c.current < |c.blocks| && c.blocks[c.current].failed <= 5
    ensures forall i | 0 <= i < c.current :: c.blocks[i].failed > 5
    ensures forall i, j | 0 <= i < j < |c.blocks| :: c.blocks[i].failed >= c.blocks[j].failed
    ensures |c.blocks| - c.current <= 7
  {
  }

  // ---------- the memory that has been handed out ----------

  /** A live allocation in block `block`; `aligned` if it came through `ngx_palloc`, `node` if it holds a node of
      the list of large allocations. */
  datatype Region = Region(at: nat, size: nat, block: nat, aligned: bool, node: bool)

  /** Where the header of a block ends; the first block holds the whole `ngx_pool_t`. */
  function Header(i: nat): nat {
    if i == 0 then SIZEOF_POOL else SIZEOF_POOL_DATA
  }

  ghost predicate RegionOk(c: Chain, r: Region) {
    && r.block < |c.blocks|
    && c.blocks[r.block].base + Header(r.block) <= r.at
    && r.at + r.size <= c.blocks[r.block].last
    && (r.aligned ==> r.at % ALIGNMENT == 0)
  }

  ghost predicate Disjoint(a: Region, b: Region) {
    a.size == 0 || b.size == 0 || a.at + a.size <= b.at || b.at + b.size <= a.at
  }

  ghost predicate RegionsOk(c: Chain, rs: seq<Region>) {
    && (forall k | 0 <= k < |rs| :: RegionOk(c, rs[k]))
    && forall k, l | 0 <= k < l < |rs| :: Disjoint(rs[k], rs[l])
  }

  ghost predicate EndsAt(rs: seq<Region>, k: int, j: nat, last: nat) {
    0 <= k < |rs| && rs[k].block == j && rs[k].at + rs[k].size == last
  }

  /** Block `j` is empty, or it is filled up to the end of something that was handed out and no further. */
  ghost predicate Filled(c: Chain, rs: seq<Region>, j: nat)
    requires j < |c.blocks|
  {
    c.blocks[j].last == c.blocks[j].base + SIZEOF_POOL || exists k :: EndsAt(rs, k, j, c.blocks[j].last)
  }

  /** No room is lost behind what was handed out. */
  ghost predicate NoWaste(c: Chain, rs: seq<Region>) {
    forall j | 0 <= j < |c.blocks| :: Filled(c, rs, j)
  }

  /** Nor in front of it, but for the alignment. */
  lemma GapIsSmall(b: Block, align: bool)
    ensures b.last <= Place(b, align) < b.last + ALIGNMENT && (!align ==> Place(b, align) == b.last)
    ensures align ==> forall a | b.last <= a && a % ALIGNMENT == 0 :: Place(b, align) <= a
  {
  }

  lemma StillFilled(c: Chain, c': Chain, rs: seq<Region>, r: Region, j: nat)
    requires j < |c.blocks| && j < |c'.blocks| && Filled(c, rs, j)
    requires c'.blocks[j].last == c.blocks[j].last && c'.blocks[j].base == c.blocks[j].base
    ensures Filled(c', rs + [r], j)
  {
    if k :| EndsAt(rs, k, j, c.blocks[j].last) {
      assert EndsAt(rs + [r], k, j, c'.blocks[j].last);
    }
  }

  lemma TakenNoWaste(c: Chain, rs: seq<Region>, j: nat, size: nat, align: bool, node: bool)
    requires NoWaste(c, rs) && j < |c.blocks|
    ensures NoWaste(Taken(c, j, size, align), rs + [Region(Place(c.blocks[j], align), size, j, align, node)])
  {
    var c', r := Taken(c, j, size, align), Region(Place(c.blocks[j], align), size, j, align, node);
    forall i | 0 <= i < |c'.blocks|
      ensures Filled(c', rs + [r], i)
    {
      if i == j {
        assert EndsAt(rs + [r], |rs|, j, c'.blocks[j].last);
      } else {
        StillFilled(c, c', rs, r, i);
      }
    }
  }

  lemma ExtendedNoWaste(c: Chain, rs: seq<Region>, base: nat, psize: nat, size: nat, align: bool, node: bool)
    requires NoWaste(c, rs) && c.current <= |c.blocks|
    ensures NoWaste(Extended(c, base, psize, size),
                    rs + [Region(AlignPtr(base + SIZEOF_POOL_DATA), size, |c.blocks|, align, node)])
  {
    hide AlignPtr, Failed;
    FailedCounts(c.blocks, c.current, c.current);
    var c' := Extended(c, base, psize, size);
    var r := Region(AlignPtr(base + SIZEOF_POOL_DATA), size, |c.blocks|, align, node);
    forall i | 0 <= i < |c'.blocks|
      ensures Filled(c', rs + [r], i)
    {
      if i == |c.blocks| {
        assert EndsAt(rs + [r], |rs|, i, c'.blocks[i].last);
      } else {
        StillFilled(c, c', rs, r, i);
      }
    }
  }

  /** A request that fits behind the first allocation of a new block is served from the blocks, without the heap. */
  lemma NextIsServed(c: Chain, psize: nat, base: nat, size: nat, next: nat, align: bool)
    requires ChainOk(c, psize) && Elsewhere(c, base, psize) && Round(psize, align)
    requires size <= c.max || size == SIZEOF_LARGE
    requires Place(Block(base, base + SIZEOF_POOL_DATA + size, base + psize, 0), align) + next <= base + psize
    ensures var c' := Extended(c, base, psize, size);
            c'.current <= |c'.blocks| && FirstFit(c'.blocks, c'.current, next, align) < |c'.blocks|
  {
    var c' := Extended(c, base, psize, size);
    FailedCounts(c.blocks, c.current, c.current);
    FirstPlace(base);
    ExtendedOk(c, base, psize, size);
    FitsInside(c'.blocks[|c.blocks|], psize, next, align);
  }

  /** Nothing that was handed out reaches beyond `last` of its block. */
  lemma BehindAllRegions(c: Chain, psize: nat, r: Region, j: nat, at: nat, size: nat)
    requires ChainOk(c, psize) && RegionOk(c, r) && j < |c.blocks|
    requires c.blocks[j].last <= at && at + size <= c.blocks[j].end
    ensures r.at + r.size <= at || at + size <= r.at
  {
    if r.block < j {
      assert Apart(c.blocks[r.block], c.blocks[j]);
    } else if j < r.block {
      assert Apart(c.blocks[j], c.blocks[r.block]);
    }
  }

  lemma TakenRegions(c: Chain, psize: nat, rs: seq<Region>, j: nat, size: nat, align: bool, node: bool)
    requires ChainOk(c, psize) && RegionsOk(c, rs) && Round(psize, align) && j < |c.blocks|
    requires Fits(c.blocks[j], size, align)
    ensures RegionsOk(Taken(c, j, size, align), rs + [Region(Place(c.blocks[j], align), size, j, align, node)])
  {
    FitsInside(c.blocks[j], psize, size, align);
    var c', r := Taken(c, j, size, align), Region(Place(c.blocks[j], align), size, j, align, node);
    forall k | 0 <= k < |rs|
      ensures RegionOk(c', rs[k]) && Disjoint(rs[k], r)
    {
      BehindAllRegions(c, psize, rs[k], j, r.at, size);
    }
  }

  lemma ExtendedRegions(c: Chain, psize: nat, rs: seq<Region>, base: nat, size: nat, align: bool, node: bool)
    requires ChainOk(c, psize) && RegionsOk(c, rs) && Elsewhere(c, base, psize)
    requires size <= c.max || size == SIZEOF_LARGE
    ensures RegionsOk(Extended(c, base, psize, size),
                      rs + [Region(AlignPtr(base + SIZEOF_POOL_DATA), size, |c.blocks|, align, node)])
  {
    var c', at := Extended(c, base, psize, size), AlignPtr(base + SIZEOF_POOL_DATA);
    forall k | 0 <= k < |rs|
      ensures RegionOk(c', rs[k]) && Disjoint(rs[k], Region(at, size, |c.blocks|, align, node))
    {
      RegionRemains(c, psize, rs[k], base, size);
    }
    FirstInNewBlock(c, psize, base, size, align, node);
  }

  lemma FirstPlace(base: nat)
    requires base % POOL_ALIGNMENT == 0
    ensures AlignPtr(base + SIZEOF_POOL_DATA) == base + SIZEOF_POOL_DATA
  {
    AlignIsLeast(base + SIZEOF_POOL_DATA, base + SIZEOF_POOL_DATA);
  }

  lemma RegionRemains(c: Chain, psize: nat, r: Region, base: nat, size: nat)
    requires ChainOk(c, psize) && RegionOk(c, r) && Elsewhere(c, base, psize) && (size <= c.max || size == SIZEOF_LARGE)
    ensures RegionOk(Extended(c, base, psize, size), r)
    ensures var at := AlignPtr(base + SIZEOF_POOL_DATA); at + size <= r.at || r.at + r.size <= at
  {
    hide AlignPtr;
    FailedCounts(c.blocks, c.current, c.current);
    FirstPlace(base);
    assert BlockOk(c.blocks[r.block], psize);
  }

  lemma FirstInNewBlock(c: Chain, psize: nat, base: nat, size: nat, align: bool, node: bool)
    requires c.blocks != []
    ensures RegionOk(Extended(c, base, psize, size),
                     Region(AlignPtr(base + SIZEOF_POOL_DATA), size, |c.blocks|, align, node))
  {
    hide Counted, AlignPtr;
    var at := AlignPtr(base + SIZEOF_POOL_DATA);
    assert Extended(c, base, psize, size).blocks[|c.blocks|] == Block(base, at + size, base + psize, 0);
  }

  /** `ngx_reset_pool`: every block is empty again. */
  function Emptied(b: Block): Block {
    b.(last := b.base + SIZEOF_POOL, failed := 0)
  }

  function Reset(c: Chain): Chain {
    c.(blocks := seq(|c.blocks|, i requires 0 <= i < |c.blocks| => Emptied(c.blocks[i])), current := 0)
  }

  lemma ResetOk(c: Chain, psize: nat)
    requires ChainOk(c, psize)
    ensures ChainOk(Reset(c), psize) && RegionsOk(Reset(c), []) && NoWaste(Reset(c), [])
  {
    forall i, j | 0 <= i < j < |c.blocks|
      ensures Apart(Reset(c).blocks[i], Reset(c).blocks[j])
    {
      assert Apart(c.blocks[i], c.blocks[j]);
    }
  }

  /** All of every block can be had again: the largest size is served from the first block. */
  lemma ResetEmpties(c: Chain, psize: nat)
    requires ChainOk(c, psize)
    ensures var c' := Reset(c);
            && |c'.blocks| == |c.blocks| && c'.current == 0 && c'.max == c.max
            && (forall i | 0 <= i < |c.blocks| ::
                  c'.blocks[i] == Block(c.blocks[i].base, c.blocks[i].base + SIZEOF_POOL, c.blocks[i].end, 0))
            && FirstFit(c'.blocks, 0, c.max, false) == 0
  {
    assert BlockOk(c.blocks[0], psize);
    FitsInside(Reset(c).blocks[0], psize, c.max, false);
  }

  // ---------- what the pool owns of the heap ----------

  /** `allocs` are the `alloc` fields of the list of large allocations; 0 stands for NULL. */
  ghost predicate Owns(c: Chain, allocs: seq<nat>, psize: nat, live: map<nat, nat>) {
    && Separate(live)
    && (forall i | 0 <= i < |c.blocks| :: c.blocks[i].base in live && live[c.blocks[i].base] == psize)
    && (forall k | 0 <= k < |allocs| && allocs[k] != 0 :: allocs[k] in live && IsLarge(c, allocs[k]))
    && forall k, l | 0 <= k < l < |allocs| && allocs[k] != 0 :: allocs[k] != allocs[l]
  }

  /** No two pieces of memory in use overlap. */
  ghost predicate Separate(live: map<nat, nat>) {
    forall a, b {:trigger NoOverlap(live, a, b)} | a in live && b in live && a != b :: NoOverlap(live, a, b)
  }

  ghost predicate NoOverlap(live: map<nat, nat>, a: nat, b: nat) {
    a in live && b in live && (a + live[a] <= b || b + live[b] <= a)
  }

  lemma SeparateWith(live: map<nat, nat>, p: nat, size: nat)
    requires Separate(live) && Room(live, p, size)
    ensures Separate(live[p := size])
  {
    var live' := live[p := size];
    forall a, b | a in live' && b in live' && a != b
      ensures NoOverlap(live', a, b)
    {
      assert a != p && b != p ==> NoOverlap(live, a, b);
    }
  }

  lemma SeparateWithout(live: map<nat, nat>, s: set<nat>)
    requires Separate(live)
    ensures Separate(live - s)
  {
    forall a, b | a in live - s && b in live - s && a != b
      ensures NoOverlap(live - s, a, b)
    {
      assert NoOverlap(live, a, b);
    }
  }

  ghost predicate IsLarge(c: Chain, p: nat) {
    forall i | 0 <= i < |c.blocks| :: c.blocks[i].base != p
  }

  ghost function Bases(c: Chain): set<nat> {
    set i | 0 <= i < |c.blocks| :: c.blocks[i].base
  }

  ghost function Larges(allocs: seq<nat>): set<nat> {
    set k | 0 <= k < |allocs| && allocs[k] != 0 :: allocs[k]
  }

  /** What others have of the heap. */
  ghost function Others(c: Chain, allocs: seq<nat>, live: map<nat, nat>): map<nat, nat> {
    live - Bases(c) - Larges(allocs)
  }

  /** There is room for `size` bytes at `at`. */
  predicate Room(live: map<nat, nat>, at: nat, size: nat) {
    && 0 < at && at !in live && at + size < TWO_TO_64
    && forall a | a in live :: a + live[a] <= at || at + size <= a
  }

  lemma RoomIsElsewhere(c: Chain, allocs: seq<nat>, psize: nat, live: map<nat, nat>, base: nat)
    requires ChainOk(c, psize) && Owns(c, allocs, psize, live) && Room(live, base, psize) && base % POOL_ALIGNMENT == 0
    ensures Elsewhere(c, base, psize)
  {
    forall i | 0 <= i < |c.blocks|
      ensures base + psize <= c.blocks[i].base || c.blocks[i].end <= base
    {
      assert BlockOk(c.blocks[i], psize) && c.blocks[i].base in live;
    }
  }

  /** What the pool owns when its blocks keep their places. */
  lemma OwnsBases(c: Chain, allocs: seq<nat>, psize: nat, live: map<nat, nat>)
    requires Owns(c, allocs, psize, live)
    ensures Bases(c) <= live.Keys && Larges(allocs) <= live.Keys && Bases(c) !! Larges(allocs)
  {
    forall k | 0 <= k < |allocs| && allocs[k] != 0
      ensures allocs[k] !in Bases(c)
    {
      assert IsLarge(c, allocs[k]);
    }
  }

  lemma TakenOwns(c: Chain, allocs: seq<nat>, psize: nat, live: map<nat, nat>, j: nat, size: nat, align: bool)
    requires Owns(c, allocs, psize, live) && j < |c.blocks|
    ensures Owns(Taken(c, j, size, align), allocs, psize, live)
  {
    SameBasesOwn(c, Taken(c, j, size, align), allocs, psize, live);
  }

  lemma SameBasesOwn(c: Chain, c': Chain, allocs: seq<nat>, psize: nat, live: map<nat, nat>)
    requires Owns(c, allocs, psize, live)
    requires |c'.blocks| == |c.blocks| && forall i | 0 <= i < |c.blocks| :: c'.blocks[i].base == c.blocks[i].base
    ensures Owns(c', allocs, psize, live) && Bases(c') == Bases(c)
  {
    forall k | 0 <= k < |allocs| && allocs[k] != 0
      ensures IsLarge(c', allocs[k])
    {
      assert IsLarge(c, allocs[k]);
    }
  }

  lemma ExtendedOwns(c: Chain, allocs: seq<nat>, psize: nat, live: map<nat, nat>, base: nat, size: nat)
    requires ChainOk(c, psize) && Owns(c, allocs, psize, live) && Room(live, base, psize)
    ensures Owns(Extended(c, base, psize, size), allocs, psize, live[base := psize])
  {
    FailedCounts(c.blocks, c.current, c.current);
    SeparateWith(live, base, psize);
    var c' := Extended(c, base, psize, size);
    forall i | 0 <= i < |c'.blocks|
      ensures c'.blocks[i].base == if i < |c.blocks| then c.blocks[i].base else base
    {
    }
    forall k | 0 <= k < |allocs| && allocs[k] != 0
      ensures IsLarge(c', allocs[k])
    {
      assert IsLarge(c, allocs[k]) && allocs[k] in live;
    }
  }

  lemma LargeOwns(c: Chain, allocs: seq<nat>, psize: nat, live: map<nat, nat>, p: nat, size: nat)
    requires Owns(c, allocs, psize, live) && Room(live, p, size)
    ensures Owns(c, allocs, psize, live[p := size]) && Owns(c, [p] + allocs, psize, live[p := size])
  {
    SeparateWith(live, p, size);
    var allocs' := [p] + allocs;
    forall k | 0 <= k < |allocs'| && allocs'[k] != 0
      ensures IsLarge(c, allocs'[k])
    {
      if k > 0 {
        assert IsLarge(c, allocs[k - 1]);
      }
    }
  }

  /** `ngx_pfree` of the large allocation of node `k`. */
  lemma FreedOwns(c: Chain, allocs: seq<nat>, psize: nat, live: map<nat, nat>, k: nat)
    requires Owns(c, allocs, psize, live) && k < |allocs| && allocs[k] != 0
    ensures Owns(c, allocs[k := 0], psize, live - {allocs[k]})
    ensures Larges(allocs[k := 0]) == Larges(allocs) - {allocs[k]}
  {
    SeparateWithout(live, {allocs[k]});
    var allocs' := allocs[k := 0];
    assert IsLarge(c, allocs[k]);
    forall l | 0 <= l < |allocs'| && allocs'[l] != 0
      ensures allocs'[l] in live - {allocs[k]} && IsLarge(c, allocs'[l])
    {
      assert IsLarge(c, allocs[l]);
    }
    forall p | p in Larges(allocs) - {allocs[k]}
      ensures p in Larges(allocs')
    {
      var l :| 0 <= l < |allocs| && allocs[l] != 0 && allocs[l] == p;
      assert allocs'[l] == p;
    }
  }

  /** What a small allocation does: it returns `m`, in block `block`, or 0; `reply` is the heap's answer if a new
      block is needed. */
  ghost predicate Allocated(c: Chain, c': Chain, live: map<nat, nat>, live': map<nat, nat>, psize: nat,
                            size: nat, align: bool, reply: nat, m: nat, block: nat)
    requires c.current <= |c.blocks|
  {
    var j := FirstFit(c.blocks, c.current, size, align);
    if j < |c.blocks| then
      block == j && m == Place(c.blocks[j], align) && c' == Taken(c, j, size, align) && live' == live
    else if reply == 0 then m == 0 && c' == c && live' == live
    else block == j && m == AlignPtr(reply + SIZEOF_POOL_DATA) && c' == Extended(c, reply, psize, size)
         && live' == live[reply := psize]
  }

  /** There is room in a block, or a new one can be had. */
  ghost predicate Served(c: Chain, size: nat, align: bool, reply: nat)
    requires c.current <= |c.blocks|
  {
    FirstFit(c.blocks, c.current, size, align) < |c.blocks| || reply != 0
  }

  /** Exactly then an address is returned. */
  lemma ServedExactly(c: Chain, c': Chain, live: map<nat, nat>, live': map<nat, nat>, psize: nat, size: nat,
                      align: bool, reply: nat, m: nat, block: nat)
    requires ChainOk(c, psize) && Allocated(c, c', live, live', psize, size, align, reply, m, block)
    ensures m != 0 <==> Served(c, size, align, reply)
  {
    var j := FirstFit(c.blocks, c.current, size, align);
    if j < |c.blocks| {
      assert BlockOk(c.blocks[j], psize);
    }
  }

  /** What is kept by it. */
  lemma AllocatedKeeps(c: Chain, c': Chain, live: map<nat, nat>, live': map<nat, nat>, psize: nat, size: nat,
                       align: bool, reply: nat, m: nat, block: nat, node: bool, rs: seq<Region>, allocs: seq<nat>)
    requires ChainOk(c, psize) && RegionsOk(c, rs) && NoWaste(c, rs) && Owns(c, allocs, psize, live)
    requires (size <= c.max || size == SIZEOF_LARGE) && Round(psize, align)
    requires reply != 0 ==> Room(live, reply, psize) && reply % POOL_ALIGNMENT == 0
    requires Allocated(c, c', live, live', psize, size, align, reply, m, block)
    ensures Owns(c', allocs, psize, live')
    ensures m != 0 ==>
      var rs' := rs + [Region(m, size, block, align, node)]; RegionsOk(c', rs') && NoWaste(c', rs')
    ensures m == 0 ==> RegionsOk(c', rs) && NoWaste(c', rs)
    ensures NeverReset(c) ==> NeverReset(c')
  {
    var j := FirstFit(c.blocks, c.current, size, align);
    if j < |c.blocks| {
      TakenOwns(c, allocs, psize, live, j, size, align);
      TakenRegions(c, psize, rs, j, size, align, node);
      TakenNoWaste(c, rs, j, size, align, node);
      assert BlockOk(c.blocks[j], psize);
    } else if reply != 0 {
      RoomIsElsewhere(c, allocs, psize, live, reply);
      ExtendedOwns(c, allocs, psize, live, reply, size);
      ExtendedRegions(c, psize, rs, reply, size, align, node);
      ExtendedNoWaste(c, rs, reply, psize, size, align, node);
      if NeverReset(c) {
        ExtendedNeverReset(c, reply, psize, size);
      }
    }
  }

  /** Other memory in use is still in use, and still not a block. */
  lemma AllocatedSpares(c: Chain, c': Chain, live: map<nat, nat>, live': map<nat, nat>, psize: nat, size: nat,
                        align: bool, reply: nat, m: nat, block: nat, p: nat)
    requires c.current <= |c.blocks| && (reply != 0 ==> Room(live, reply, psize))
    requires Bases(c) <= live.Keys && p in live && p !in Bases(c)
    requires Allocated(c, c', live, live', psize, size, align, reply, m, block)
    ensures p in live' && live'[p] == live[p] && p !in Bases(c')
    ensures Extends(live, live')
  {
    FailedCounts(c.blocks, c.current, c.current);
    assert forall i | 0 <= i < |c.blocks| :: c.blocks[i].base in Bases(c);
    assert forall i | 0 <= i < |c.blocks| :: c'.blocks[i].base == c.blocks[i].base;
    if |c'.blocks| > |c.blocks| {
      assert c'.blocks[|c.blocks|].base == reply;
      assert Bases(c') == Bases(c) + {reply};
    } else {
      assert Bases(c') == Bases(c);
    }
  }

  /** A small allocation takes nothing from others, and leaves them nothing that it does not use. */
  lemma AllocatedOthers(c: Chain, c': Chain, live: map<nat, nat>, live': map<nat, nat>, psize: nat, size: nat,
                        align: bool, reply: nat, m: nat, block: nat, allocs: seq<nat>)
    requires c.current <= |c.blocks| && (reply != 0 ==> Room(live, reply, psize))
    requires Allocated(c, c', live, live', psize, size, align, reply, m, block)
    ensures Others(c', allocs, live') == Others(c, allocs, live)
  {
    FailedCounts(c.blocks, c.current, c.current);
    assert forall i | 0 <= i < |c.blocks| :: c'.blocks[i].base == c.blocks[i].base;
    if |c'.blocks| > |c.blocks| {
      assert c'.blocks[|c.blocks|].base == reply;
      assert forall i | 0 <= i < |c'.blocks| :: c'.blocks[i].base in Bases(c) + {reply};
      assert forall i | 0 <= i < |c.blocks| :: c'.blocks[i].base in Bases(c');
      assert Bases(c') == Bases(c) + {reply};
    } else {
      assert Bases(c') == Bases(c);
    }
  }

  /** The memory of a large allocation that is not on the list is as if others had it. */
  lemma LargeOthers(c: Chain, allocs: seq<nat>, live: map<nat, nat>, p: nat, size: nat)
    requires p !in live
    ensures Others(c, allocs, live[p := size]) - {p} == Others(c, allocs, live)
  {
  }

  lemma LargeListed(c: Chain, allocs: seq<nat>, live: map<nat, nat>, p: nat)
    requires p != 0
    ensures Others(c, [p] + allocs, live) == Others(c, allocs, live) - {p}
  {
    LargesWith(allocs, p);
  }

  lemma LargeRemoved(c: Chain, allocs: seq<nat>, live: map<nat, nat>, p: nat)
    ensures Others(c, allocs, live - {p}) == Others(c, allocs, live) - {p}
  {
  }

  lemma LargesWith(allocs: seq<nat>, p: nat)
    requires p != 0
    ensures Larges([p] + allocs) == Larges(allocs) + {p}
  {
    var allocs' := [p] + allocs;
    assert allocs'[0] == p;
    forall q | q in Larges(allocs)
      ensures q in Larges(allocs')
    {
      var k :| 0 <= k < |allocs| && allocs[k] != 0 && allocs[k] == q;
      assert allocs'[k + 1] == q;
    }
  }

  /** The large allocations of the first `k` nodes. */
  ghost function LargesTo(allocs: seq<nat>, k: nat): set<nat>
    requires k <= |allocs|
  {
    if k == 0 then {} else LargesTo(allocs, k - 1) + if allocs[k - 1] == 0 then {} else {allocs[k - 1]}
  }

  lemma {:induction false} LargesToIs(allocs: seq<nat>, k: nat)
    requires k <= |allocs|
    ensures forall p :: p in LargesTo(allocs, k) <==> p != 0 && exists i :: 0 <= i < k && allocs[i] == p
  {
    if k > 0 {
      LargesToIs(allocs, k - 1);
      forall p
        ensures p in LargesTo(allocs, k) <==> p != 0 && exists i :: 0 <= i < k && allocs[i] == p
      {
        if p == allocs[k - 1] != 0 {
          assert allocs[k - 1] == p;
        }
      }
    }
  }

  lemma LargesToAll(allocs: seq<nat>)
    ensures LargesTo(allocs, |allocs|) == Larges(allocs)
  {
    LargesToIs(allocs, |allocs|);
  }

  /** The allocation of node `k` has not been freed with those before it. */
  lemma StillLarge(c: Chain, allocs: seq<nat>, psize: nat, live: map<nat, nat>, k: nat)
    requires Owns(c, allocs, psize, live) && k < |allocs| && allocs[k] != 0
    ensures allocs[k] in live - LargesTo(allocs, k)
  {
    LargesToIs(allocs, k);
  }

  /** The blocks are all there while the large allocations are freed. */
  lemma BlockRemains(c: Chain, allocs: seq<nat>, psize: nat, live: map<nat, nat>, k: nat, j: nat)
    requires Owns(c, allocs, psize, live) && k <= |allocs| && j < |c.blocks|
    ensures c.blocks[j].base in live - LargesTo(allocs, k)
  {
    LargesToIs(allocs, k);
    OwnsBases(c, allocs, psize, live);
    assert c.blocks[j].base in Bases(c);
  }

  /** The bases of the first `k` blocks. */
  ghost function BasesTo(c: Chain, k: nat): set<nat>
    requires k <= |c.blocks|
  {
    set i | 0 <= i < k :: c.blocks[i].base
  }

  lemma BasesDiffer(c: Chain, psize: nat, k: nat)
    requires ChainOk(c, psize) && k < |c.blocks|
    ensures c.blocks[k].base !in BasesTo(c, k)
    ensures BasesTo(c, k + 1) == BasesTo(c, k) + {c.blocks[k].base}
  {
    forall i | 0 <= i < k
      ensures c.blocks[i].base != c.blocks[k].base
    {
      assert Apart(c.blocks[i], c.blocks[k]) && BlockOk(c.blocks[i], psize) && BlockOk(c.blocks[k], psize);
    }
  }

  /** The first `k` blocks are empty again. */
  ghost function ResetTo(blocks: seq<Block>, k: nat): (r: seq<Block>)
    requires k <= |blocks|
    ensures |r| == |blocks|
  {
    if k == 0 then blocks else ResetTo(blocks, k - 1)[k - 1 := Emptied(blocks[k - 1])]
  }

  lemma {:induction false} ResetToIs(blocks: seq<Block>, k: nat)
    requires k <= |blocks|
    ensures forall i | 0 <= i < |blocks| :: ResetTo(blocks, k)[i] == if i < k then Emptied(blocks[i]) else blocks[i]
  {
    if k > 0 {
      ResetToIs(blocks, k - 1);
    }
  }

  lemma ResetOwns(c: Chain, allocs: seq<nat>, psize: nat, live: map<nat, nat>)
    requires Owns(c, allocs, psize, live)
    ensures Owns(Reset(c), [], psize, live - Larges(allocs))
    ensures Reset(c).blocks == ResetTo(c.blocks, |c.blocks|)
  {
    ResetToIs(c.blocks, |c.blocks|);
    SeparateWithout(live, Larges(allocs));
    OwnsBases(c, allocs, psize, live);
    assert forall i | 0 <= i < |c.blocks| :: c.blocks[i].base in Bases(c);
  }

  /** Block `k` has not been freed with those before it, nor with the large allocations. */
  lemma StillBlock(c: Chain, allocs: seq<nat>, psize: nat, live: map<nat, nat>, k: nat, j: nat)
    requires ChainOk(c, psize) && Owns(c, allocs, psize, live) && k <= j < |c.blocks|
    ensures c.blocks[j].base in live - Larges(allocs) - BasesTo(c, k)
  {
    OwnsBases(c, allocs, psize, live);
    assert c.blocks[j].base in Bases(c);
    forall i | 0 <= i < k
      ensures c.blocks[i].base != c.blocks[j].base
    {
      assert Apart(c.blocks[i], c.blocks[j]) && BlockOk(c.blocks[i], psize) && BlockOk(c.blocks[j], psize);
    }
  }

  // ---------- an allocation that grows in place ----------

  /** The first block gives `size` more bytes to the allocation that ends it. */
  function Widened(c: Chain, size: nat): Chain
    requires c.blocks != []
  {
    c.(blocks := c.blocks[0 := c.blocks[0].(last := c.blocks[0].last + size)])
  }

  lemma WidenedNoWaste(c: Chain, rs: seq<Region>, k: nat, size: nat)
    requires NoWaste(c, rs) && c.blocks != [] && k < |rs|
    requires rs[k].block == 0 && rs[k].at + rs[k].size == c.blocks[0].last
    ensures NoWaste(Widened(c, size), rs[k := rs[k].(size := rs[k].size + size)])
  {
    var c', rs' := Widened(c, size), rs[k := rs[k].(size := rs[k].size + size)];
    assert EndsAt(rs', k, 0, c'.blocks[0].last);
    forall j | 0 < j < |c.blocks|
      ensures Filled(c', rs', j)
    {
      assert Filled(c, rs, j);
      if l :| EndsAt(rs, l, j, c.blocks[j].last) {
        assert EndsAt(rs', l, j, c'.blocks[j].last);
      }
    }
  }

  lemma WidenedOk(c: Chain, psize: nat, rs: seq<Region>, allocs: seq<nat>, live: map<nat, nat>, k: nat, size: nat)
    requires ChainOk(c, psize) && RegionsOk(c, rs) && Owns(c, allocs, psize, live) && k < |rs|
    requires rs[k].block == 0 && rs[k].at + rs[k].size == c.blocks[0].last && c.blocks[0].last + size <= c.blocks[0].end
    ensures ChainOk(Widened(c, size), psize) && Owns(Widened(c, size), allocs, psize, live)
    ensures RegionsOk(Widened(c, size), rs[k := rs[k].(size := rs[k].size + size)])
    ensures NoWaste(c, rs) ==> NoWaste(Widened(c, size), rs[k := rs[k].(size := rs[k].size + size)])
    ensures NeverReset(c) ==> NeverReset(Widened(c, size))
  {
    var c', rs' := Widened(c, size), rs[k := rs[k].(size := rs[k].size + size)];
    SameBasesOwn(c, c', allocs, psize, live);
    if NoWaste(c, rs) {
      WidenedNoWaste(c, rs, k, size);
    }
    forall l | 0 <= l < |rs'|
      ensures RegionOk(c', rs'[l]) && (l != k ==> Disjoint(rs'[l], rs'[k]))
    {
      assert RegionOk(c, rs[l]);
      if l < k {
        assert Disjoint(rs[l], rs[k]);
      } else if l > k {
        assert Disjoint(rs[k], rs[l]);
      }
      BehindAllRegions(c, psize, rs[l], 0, c.blocks[0].last, size);
    }
  }

  lemma ResetOthers(c: Chain, allocs: seq<nat>, live: map<nat, nat>)
    ensures Others(Reset(c), [], live - Larges(allocs)) == Others(c, allocs, live)
  {
    assert forall i | 0 <= i < |c.blocks| :: Reset(c).blocks[i].base == c.blocks[i].base;
    assert Bases(Reset(c)) == Bases(c);
  }

  lemma WidenedOthers(c: Chain, allocs: seq<nat>, live: map<nat, nat>, size: nat)
    requires c.blocks != []
    ensures Others(Widened(c, size), allocs, live) == Others(c, allocs, live)
  {
    assert forall i | 0 <= i < |c.blocks| :: Widened(c, size).blocks[i].base == c.blocks[i].base;
    assert Bases(Widened(c, size)) == Bases(c);
  }

  /** An allocation that ends where the first block's next one would begin is in the first block. */
  lemma EndsFirstBlock(c: Chain, psize: nat, r: Region)
    requires ChainOk(c, psize) && RegionOk(c, r) && r.at + r.size == c.blocks[0].last
    ensures r.block == 0
  {
    var first, b := c.blocks[0], c.blocks[r.block];
    assert BlockOk(first, psize) && BlockOk(b, psize) && (b == first || Apart(first, b));
  }

  /** A large allocation that is not empty never ends there. */
  lemma LargeElsewhere(c: Chain, psize: nat, allocs: seq<nat>, live: map<nat, nat>, p: nat)
    requires ChainOk(c, psize) && Owns(c, allocs, psize, live) && p in Larges(allocs) && live[p] > 0
    ensures p + live[p] != c.blocks[0].last
  {
    OwnsBases(c, allocs, psize, live);
    assert c.blocks[0].base in Bases(c);
    assert NoOverlap(live, p, c.blocks[0].base) && BlockOk(c.blocks[0], psize);
  }

  // ---------- who holds what ----------

  /** What was in use is still in use. */
  ghost predicate Extends(live: map<nat, nat>, live': map<nat, nat>) {
    forall a | a in live :: a in live' && live'[a] == live[a]
  }

  /** A client's memory: the `k`-th allocation in the blocks, or a large allocation. */
  datatype Holding = InBlock(k: nat) | OnHeap

  ghost predicate Held(allocs: seq<nat>, rs: seq<Region>, live: map<nat, nat>, h: Holding, at: nat, size: nat) {
    match h
    case InBlock(k) => k < |rs| && !rs[k].node && rs[k].at == at && rs[k].size == size
    case OnHeap => at in Larges(allocs) && at in live && live[at] == size
  }

  /** Two clients' memory never overlaps. */
  lemma HoldingsApart(c: Chain, psize: nat, allocs: seq<nat>, rs: seq<Region>, live: map<nat, nat>,
                      h: Holding, at: nat, size: nat, h': Holding, at': nat, size': nat)
    requires ChainOk(c, psize) && RegionsOk(c, rs) && Owns(c, allocs, psize, live) && size > 0 && size' > 0
    requires Held(allocs, rs, live, h, at, size) && Held(allocs, rs, live, h', at', size')
    requires h != h' || (h.OnHeap? && at != at')
    ensures at + size <= at' || at' + size' <= at
  {
    if h.InBlock? && h'.InBlock? {
      assert if h.k < h'.k then Disjoint(rs[h.k], rs[h'.k]) else Disjoint(rs[h'.k], rs[h.k]);
    } else if h.InBlock? {
      BlockAndHeapApart(c, psize, allocs, live, rs[h.k], at');
    } else if h'.InBlock? {
      BlockAndHeapApart(c, psize, allocs, live, rs[h'.k], at);
    } else {
      assert NoOverlap(live, at, at');
    }
  }

  lemma BlockAndHeapApart(c: Chain, psize: nat, allocs: seq<nat>, live: map<nat, nat>, r: Region, p: nat)
    requires ChainOk(c, psize) && RegionOk(c, r) && Owns(c, allocs, psize, live) && p in Larges(allocs) && p in live
    ensures r.at + r.size <= p || p + live[p] <= r.at
  {
    OwnsBases(c, allocs, psize, live);
    var b := c.blocks[r.block];
    assert BlockOk(b, psize) && b.base in Bases(c) && NoOverlap(live, p, b.base);
  }

  // ---------- what the calls of a client do ----------

  /** An answer that the library can give: the one proposed if there is room, otherwise that there is none. */
  function Answer(live: map<nat, nat>, reply: nat, size: nat, unit: nat): (a: nat)
    requires unit > 0
    ensures a != 0 ==> Room(live, a, size) && a % unit == 0
  {
    if reply != 0 && Room(live, reply, size) && reply % unit == 0 then reply else 0
  }

  /** What a client asks of a pool, with the addresses that the library proposes if it is asked in turn. */
  datatype Call =
    | Take(size: nat, align: bool, reply: nat, blockReply: nat)
    | GiveBack(p: nat)
    | ResetAll

  /** What a pool is, but for the places of its nodes: its blocks, its list of large allocations, and the heap. */
  datatype Books = Books(c: Chain, allocs: seq<nat>, live: map<nat, nat>)

  /** A pool of one empty block. */
  ghost function NewBooks(base: nat, size: nat, live: map<nat, nat>): Books
    requires size >= SIZEOF_POOL
  {
    var room := size - SIZEOF_POOL;
    Books(Chain([Block(base, base + SIZEOF_POOL, base + size, 0)], 0,
                if room < MAX_ALLOC_FROM_POOL then room else MAX_ALLOC_FROM_POOL), [], live[base := size])
  }

  /** `ngx_palloc_small` */
  ghost function Small(a: Books, psize: nat, size: nat, align: bool, reply: nat): (Books, nat) {
    if a.c.current > |a.c.blocks| then (a, 0)
    else
      var j := FirstFit(a.c.blocks, a.c.current, size, align);
      if j < |a.c.blocks| then (a.(c := Taken(a.c, j, size, align)), Place(a.c.blocks[j], align))
      else if reply == 0 then (a, 0)
      else (a.(c := Extended(a.c, reply, psize, size), live := a.live[reply := psize]),
            AlignPtr(reply + SIZEOF_POOL_DATA))
  }

  /** `ngx_palloc_large`: without memory for the node there is none for the client. */
  ghost function Large(a: Books, psize: nat, size: nat, reply: nat, blockReply: nat): (Books, nat) {
    if reply == 0 then (a, 0)
    else
      var (a1, at) := Small(a.(live := a.live[reply := size]), psize, SIZEOF_LARGE, true, blockReply);
      if at == 0 then (a, 0) else (a1.(allocs := [reply] + a.allocs), reply)
  }

  function Zeroed(allocs: seq<nat>, p: nat): (r: seq<nat>)
    ensures |r| == |allocs|
  {
    seq(|allocs|, i requires 0 <= i < |allocs| => if allocs[i] == p then 0 else allocs[i])
  }

  /** What a call does, and the address that it returns. */
  ghost function Called(a: Books, psize: nat, call: Call): (Books, nat) {
    match call
    case Take(size, align, reply, blockReply) =>
      var r := Answer(a.live, reply, size, 1);
      var live := if size <= a.c.max || r == 0 then a.live else a.live[r := size];
      var b := Answer(live, blockReply, psize, POOL_ALIGNMENT);
      if size <= a.c.max then Small(a, psize, size, align, b) else Large(a, psize, size, r, b)
    case GiveBack(p) =>
      (a.(allocs := Zeroed(a.allocs, p), live := if p in Larges(a.allocs) then a.live - {p} else a.live), 0)
    case ResetAll =>
      (Books(Reset(a.c), [], a.live - Larges(a.allocs)), 0)
  }

  ghost function CalledAll(a: Books, psize: nat, calls: seq<Call>): Books
    decreases |calls|
  {
    if calls == [] then a else CalledAll(Called(a, psize, calls[0]).0, psize, calls[1..])
  }

  /** The addresses that the calls return. */
  ghost function Returned(a: Books, psize: nat, calls: seq<Call>): seq<nat>
    decreases |calls|
  {
    if calls == [] then []
    else
      var (a', p) := Called(a, psize, calls[0]);
      [p] + Returned(a', psize, calls[1..])
  }

  lemma SmallIs(c: Chain, c': Chain, allocs: seq<nat>, live: map<nat, nat>, live': map<nat, nat>, psize: nat,
                size: nat, align: bool, reply: nat, m: nat, block: nat)
    requires c.current <= |c.blocks| && Allocated(c, c', live, live', psize, size, align, reply, m, block)
    ensures Small(Books(c, allocs, live), psize, size, align, reply) == (Books(c', allocs, live'), m)
  {
  }

  lemma LargeIs(c: Chain, c': Chain, allocs: seq<nat>, live: map<nat, nat>, live': map<nat, nat>, psize: nat,
                size: nat, reply: nat, blockReply: nat, p: nat, at: nat, block: nat)
    requires c.current <= |c.blocks| && (p != 0 <==> reply != 0 && Served(c, SIZEOF_LARGE, true, blockReply))
    requires p == 0 ==> c' == c && live' == live
    requires p != 0 ==> p == reply && at != 0
    requires p != 0 ==> Allocated(c, c', live[p := size], live', psize, SIZEOF_LARGE, true, blockReply, at, block)
    ensures Large(Books(c, allocs, live), psize, size, reply, blockReply)
         == (Books(c', if p == 0 then allocs else [p] + allocs, live'), p)
  {
    if p != 0 {
      SmallIs(c, c', allocs, live[p := size], live', psize, SIZEOF_LARGE, true, blockReply, at, block);
    }
  }

  lemma ZeroedAt(allocs: seq<nat>, k: nat)
    requires k < |allocs| && forall i, j | 0 <= i < j < |allocs| && allocs[i] != 0 :: allocs[i] != allocs[j]
    ensures Zeroed(allocs, allocs[k]) == allocs[k := 0]
  {
    forall i | 0 <= i < |allocs| && i != k
      ensures Zeroed(allocs, allocs[k])[i] == allocs[i]
    {
      if allocs[i] == allocs[k] {
        assert allocs[if i < k then i else k] == 0;
      }
    }
  }

  lemma TakeIs(a: Books, psize: nat, size: nat, align: bool, reply: nat, blockReply: nat)
    ensures var r := Answer(a.live, reply, size, 1);
            var b := Answer(if size <= a.c.max || r == 0 then a.live else a.live[r := size], blockReply, psize,
                            POOL_ALIGNMENT);
            Called(a, psize, Take(size, align, reply, blockReply))
            == if size <= a.c.max then Small(a, psize, size, align, b) else Large(a, psize, size, r, b)
  {
  }

  lemma ReturnedFirst(a: Books, psize: nat, call: Call, calls: seq<Call>, a': Books, p: nat)
    requires Called(a, psize, call) == (a', p)
    ensures Returned(a, psize, [call] + calls) == [p] + Returned(a', psize, calls)
  {
    assert ([call] + calls)[1..] == calls;
  }

  lemma TakenIn(a: Books, psize: nat, size: nat, j: nat)
    requires a.c.current <= |a.c.blocks| && size <= a.c.max
    requires j < |a.c.blocks| && FirstFit(a.c.blocks, a.c.current, size, true) == j
    ensures Called(a, psize, Take(size, true, 0, 0))
         == (a.(c := Taken(a.c, j, size, true)), AlignPtr(a.c.blocks[j].last))
  {
    hide FirstFit, Taken, AlignPtr, Answer, Large;
    TakeIs(a, psize, size, true, 0, 0);
  }

  lemma TakenBehind(a: Books, psize: nat, size: nat, b: nat)
    requires a.c.current <= |a.c.blocks| && size <= a.c.max
    requires FirstFit(a.c.blocks, a.c.current, size, true) == |a.c.blocks|
    requires b % POOL_ALIGNMENT == 0 && Room(a.live, b, psize)
    ensures Called(a, psize, Take(size, true, 0, b))
         == (a.(c := Extended(a.c, b, psize, size), live := a.live[b := psize]), b + SIZEOF_POOL_DATA)
  {
    hide FirstFit, Extended, AlignPtr, Large;
    TakeIs(a, psize, size, true, 0, b);
    FirstPlace(b);
  }

  /** The pool after one request of 900 bytes. */
  ghost function AfterOne(base: nat): Books {
    Books(Chain([Block(base, base + 964, base + 1024, 0)], 0, 960), [], map[base := 1024])
  }

  ghost function AfterTwo(base: nat, b: nat): Books {
    Books(Chain([Block(base, base + 964, base + 1024, 0), Block(b, b + 232, b + 1024, 0)], 0, 960), [],
          map[base := 1024, b := 1024])
  }

  lemma AlignedPlaces(base: nat)
    requires base % POOL_ALIGNMENT == 0
    ensures AlignPtr(base + 64) == base + 64 && AlignPtr(base + 232) == base + 232
    ensures AlignPtr(base + 964) == base + 968
  {
    AlignIsLeast(base + 64, base + 64);
    AlignIsLeast(base + 232, base + 232);
    AlignIsLeast(base + 964, base + 968);
  }

  lemma OneRequest(base: nat)
    requires base > 0 && base % POOL_ALIGNMENT == 0 && base + 1024 < TWO_TO_64
    ensures Called(NewBooks(base, 1024, map[]), 1024, Take(900, true, 0, 0)) == (AfterOne(base), base + 64)
  {
    hide Called, AlignPtr;
    var a := NewBooks(base, 1024, map[]);
    AlignedPlaces(base);
    assert FirstFit(a.c.blocks, 0, 900, true) == 0;
    TakenIn(a, 1024, 900, 0);
    assert Taken(a.c, 0, 900, true).blocks == [Block(base, base + 964, base + 1024, 0)];
    assert a.live == map[base := 1024];
  }

  lemma TwoRequests(base: nat, b: nat)
    requires base > 0 && base % POOL_ALIGNMENT == 0 && base + 1024 < TWO_TO_64
    requires b % POOL_ALIGNMENT == 0 && Room(map[base := 1024], b, 1024)
    ensures Called(AfterOne(base), 1024, Take(200, true, 0, b)) == (AfterTwo(base, b), b + 32)
  {
    hide Called, AlignPtr;
    AlignedPlaces(base);
    FirstPlace(b);
    var c := AfterOne(base).c;
    assert !Fits(c.blocks[0], 200, true);
    assert FirstFit(c.blocks, 0, 200, true) == 1;
    TakenBehind(AfterOne(base), 1024, 200, b);
    assert Extended(c, b, 1024, 200).blocks == AfterTwo(base, b).c.blocks;
    assert map[base := 1024][b := 1024] == map[base := 1024, b := 1024];
  }

  lemma ThirdRequest(base: nat, b: nat)
    requires base > 0 && base % POOL_ALIGNMENT == 0 && base + 1024 < TWO_TO_64
    requires b % POOL_ALIGNMENT == 0 && Room(map[base := 1024], b, 1024)
    ensures Called(AfterTwo(base, b), 1024, Take(100, true, 0, 0)).1 == b + 232
  {
    hide Called, AlignPtr;
    AlignedPlaces(base);
    AlignedPlaces(b);
    var c := AfterTwo(base, b).c;
    assert !Fits(c.blocks[0], 100, true) && Fits(c.blocks[1], 100, true);
    assert FirstFit(c.blocks, 0, 100, true) == 1;
    TakenIn(AfterTwo(base, b), 1024, 100, 1);
  }

  /** A pool of 1024 bytes: the second request needs a new block at `b`, and the third is served from it. */
  lemma ThreeRequests(base: nat, b: nat)
    requires base > 0 && base % POOL_ALIGNMENT == 0 && base + 1024 < TWO_TO_64
    requires b % POOL_ALIGNMENT == 0 && Room(map[base := 1024], b, 1024)
    ensures Returned(NewBooks(base, 1024, map[]), 1024,
                     [Take(900, true, 0, 0), Take(200, true, 0, b), Take(100, true, 0, 0)])
            == [base + 64, b + 32, b + 232]
  {
    hide Called, Returned, NewBooks, AfterOne, AfterTwo, Room;
    var call1, call2, call3 := Take(900, true, 0, 0), Take(200, true, 0, b), Take(100, true, 0, 0);
    OneRequest(base);
    TwoRequests(base, b);
    ThirdRequest(base, b);
    var a2 := AfterTwo(base, b);
    ReturnedFirst(NewBooks(base, 1024, map[]), 1024, call1, [call2] + ([call3] + []), AfterOne(base), base + 64);
    ReturnedFirst(AfterOne(base), 1024, call2, [call3] + [], a2, b + 32);
    ReturnedFirst(a2, 1024, call3, [], Called(a2, 1024, call3).0, b + 232);
    NothingReturned(Called(a2, 1024, call3).0, 1024);
    assert [call1] + ([call2] + ([call3] + [])) == [call1, call2, call3];
  }

  lemma NothingReturned(a: Books, psize: nat)
    ensures Returned(a, psize, []) == []
  {
  }
}
