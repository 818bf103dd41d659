/** The growable array of `ngx_array.c`, in memory from a pool. */
module PoolArray {
  import opened PoolModel
  import opened Pool

  type Byte = b: nat | b < 256

  /** What every address holds. */
  type Contents = nat -> Byte

  function Bytes(f: Contents, p: nat, n: nat): (s: seq<Byte>)
    ensures |s| == n
  {
    seq(n, i requires 0 <= i < n => f(p + i))
  }

  class Ram {
    var contents: Contents

    /** `ngx_memcpy` */
    method Copy(dst: nat, src: nat, n: nat)
      requires n == 0 || dst + n <= src || src + n <= dst
      modifies this
      ensures Bytes(contents, dst, n) == old(Bytes(contents, src, n))
      ensures forall a: nat | !(dst <= a < dst + n) :: contents(a) == old(contents)(a)
    {
      var f := contents;
      contents := (a: nat) => if dst <= a < dst + n then f(src + (a - dst)) else f(a);
    }
  }

  class Array {
    var elts: nat
    var nelts: nat
    const size: nat
    var nalloc: nat
    const pool: Pool
    ghost var holding: Holding

    /** The whole capacity is one live allocation of the pool. */
    ghost predicate Backed(heap: Heap)
      reads this, pool, pool.chain, pool.nodes, heap
    {
      && size > 0 && elts > 0 && (nalloc == 0 ==> holding.InBlock?)
      && pool.Sound(heap) && Round(pool.psize, true)
      && Held(pool.allocs, pool.regions, heap.live, holding, elts, Total(size, nalloc))
    }

    /** The elements are inside the capacity. */
    ghost predicate Valid(heap: Heap)
      reads this, pool, pool.chain, pool.nodes, heap
    {
      Backed(heap) && nelts <= nalloc
    }

    /** The array ends where the next allocation of the first block would begin, with room for `more` elements. */
    predicate CanGrow(more: nat)
      reads this`elts, this`nalloc, pool.head`last
    {
      elts + Total(size, nalloc) == pool.head.last && pool.head.last + Total(size, more) <= pool.head.end
    }

    /** The bytes of the first `n` elements. */
    ghost function Elements(ram: Ram, n: nat): seq<Byte>
      reads this`elts, ram
    {
      Bytes(ram.contents, elts, Total(size, n))
    }

    /** The fields that `ngx_array_init` sets first. */
    constructor (pool: Pool, n: nat, size: nat)
      ensures this.pool == pool && this.size == size && nelts == 0 && nalloc == n && elts == 0
      ensures holding == OnHeap
    {
      this.pool, this.size := pool, size;
      elts, nelts, nalloc := 0, 0, n;
      holding := OnHeap;
    }

    /** `ngx_palloc` for the elements. */
    method Reserve(heap: Heap, bytes: nat, reply: nat, blockReply: nat) returns (p: nat, ghost h: Holding)
      requires pool.Sound(heap) && Round(pool.psize, true) && Answers(pool, heap, bytes, reply, blockReply)
      modifies pool, pool.chain, heap
      ensures pool.Sound(heap) && forall b | b in pool.chain :: b in old(pool.chain) || fresh(b)
      ensures forall b | b in pool.nodes :: b in old(pool.nodes) || fresh(b)
      ensures p != 0 <==> old(pool.Has(bytes, true, reply, blockReply))
      ensures p == 0 ==> pool.allocs == old(pool.allocs) && pool.regions == old(pool.regions)
      ensures p == 0 ==> heap.live == old(heap.live)
      ensures p != 0 ==> Held(pool.allocs, pool.regions, heap.live, h, p, bytes)
      ensures p != 0 ==> old(pool.regions) <= pool.regions && Extends(old(heap.live), heap.live)
      ensures p != 0 ==> old(Larges(pool.allocs)) <= Larges(pool.allocs)
      ensures p != 0 ==> if h.OnHeap? then p !in old(heap.live) else h.k >= |old(pool.regions)|
      ensures bytes == 0 ==> h.InBlock?
      ensures pool.Foreign(heap) == old(pool.Foreign(heap))
    {
      hide Pool.Sound;
      h := if bytes <= pool.max then InBlock(|pool.regions|) else OnHeap;
      p := pool.Palloc(heap, bytes, reply, blockReply);
      if p != 0 && h.OnHeap? {
        LargesWith(old(pool.allocs), p);
      }
    }

    lemma InFirstBlock(heap: Heap)
      requires Valid(heap) && elts + Total(size, nalloc) == pool.head.last
      ensures holding.InBlock?
    {
      hide ChainOk;
      assert Same(pool.chain[0], pool.state.blocks[0]);
      if nalloc > 0 {
        Positive(size, nalloc);
        EndsInBlock(pool.state, pool.psize, pool.allocs, pool.regions, heap.live, holding, elts, Total(size, nalloc));
      }
    }

    /** The array is the last allocation of the first block, and takes room for `more` more elements. */
    method GrowInPlace(heap: Heap, more: nat)
      requires Valid(heap)
      requires CanGrow(more)
      modifies this`nalloc, pool`state, pool`regions, pool.head`last
      ensures Valid(heap) && nalloc == old(nalloc) + more
      ensures holding.InBlock? && holding.k < |old(pool.regions)|
      ensures pool.regions == old(pool.regions)[holding.k := old(pool.regions[holding.k]).(size := Total(size, nalloc))]
      ensures pool.Foreign(heap) == old(pool.Foreign(heap))
    {
      hide ChainOk, RegionsOk, Owns;
      InFirstBlock(heap);
      pool.Widen(heap, Total(size, more), holding.k);
      Distribute(size, nalloc, more);
      nalloc := nalloc + more;
    }

    /** `ngx_array_init` */
    method Init(heap: Heap, reply: nat, blockReply: nat) returns (ok: bool)
      requires pool.Sound(heap) && Round(pool.psize, true) && size > 0 && nelts == 0
      requires Answers(pool, heap, Total(size, nalloc), reply, blockReply)
      modifies this`elts, this`holding, pool, pool.chain, heap
      ensures pool.Sound(heap) && (ok ==> Valid(heap))
      ensures ok <==> old(pool.Has(Total(size, nalloc), true, reply, blockReply))
      ensures forall b | b in pool.chain :: b in old(pool.chain) || fresh(b)
      ensures forall b | b in pool.nodes :: b in old(pool.nodes) || fresh(b)
      ensures Extends(old(heap.live), heap.live)
      ensures old(pool.regions) <= pool.regions
      ensures pool.Foreign(heap) == old(pool.Foreign(heap))
    {
      hide Pool.Sound;
      elts, holding := Reserve(heap, Total(size, nalloc), reply, blockReply);
      ok := elts != 0;
    }

    /** More memory for the elements, apart from the `have` bytes that the array has. */
    method ReserveMore(heap: Heap, bytes: nat, ghost have: nat, reply: nat, blockReply: nat)
      returns (p: nat, ghost h: Holding)
      requires pool.Sound(heap) && Round(pool.psize, true) && Answers(pool, heap, bytes, reply, blockReply)
      requires Held(pool.allocs, pool.regions, heap.live, holding, elts, have)
      modifies pool, pool.chain, heap
      ensures pool.Sound(heap)
      ensures forall b | b in pool.chain :: b in old(pool.chain) || fresh(b)
      ensures forall b | b in pool.nodes :: b in old(pool.nodes) || fresh(b)
      ensures p != 0 <==> old(pool.Has(bytes, true, reply, blockReply))
      ensures p == 0 ==> pool.allocs == old(pool.allocs) && pool.regions == old(pool.regions)
      ensures p == 0 ==> heap.live == old(heap.live)
      ensures p != 0 ==> Held(pool.allocs, pool.regions, heap.live, h, p, bytes) && (bytes == 0 ==> h.InBlock?)
      ensures p != 0 && bytes > 0 && have > 0 ==> p + bytes <= elts || elts + have <= p
      ensures old(pool.regions) <= pool.regions && Extends(old(heap.live), heap.live)
      ensures pool.Foreign(heap) == old(pool.Foreign(heap))
    {
      p, h := Reserve(heap, bytes, reply, blockReply);
      if p != 0 && bytes > 0 && have > 0 {
        HoldingsApart(pool.state, pool.psize, pool.allocs, pool.regions, heap.live, h, p, bytes, holding, elts, have);
      }
    }

    method MoveTo(ram: Ram, p: nat, ghost h: Holding, wanted: nat, copied: nat)
      requires copied <= nalloc && copied <= wanted
      requires copied > 0 ==> p + Total(size, wanted) <= elts || elts + Total(size, nalloc) <= p
      modifies this`elts, this`nalloc, this`holding, ram
      ensures elts == p && nalloc == wanted && holding == h && Elements(ram, copied) == old(Elements(ram, copied))
      ensures forall a: nat | !(elts <= a < elts + Total(size, nalloc)) :: ram.contents(a) == old(ram.contents)(a)
    {
      Monotone(size, copied, wanted);
      Monotone(size, copied, nalloc);
      ram.Copy(p, elts, Total(size, copied));
      elts, nalloc, holding := p, wanted, h;
    }

    /** The array moves to memory for `wanted` elements, and takes `copied` of them along. */
    method Relocate(heap: Heap, ram: Ram, wanted: nat, copied: nat, reply: nat, blockReply: nat) returns (ok: bool)
      requires Valid(heap) && nelts <= copied <= nalloc && copied <= wanted
      requires Answers(pool, heap, Total(size, wanted), reply, blockReply)
      modifies this`elts, this`nalloc, this`holding, pool, pool.chain, heap, ram
      ensures Valid(heap)
      ensures forall b | b in pool.chain :: b in old(pool.chain) || fresh(b)
      ensures forall b | b in pool.nodes :: b in old(pool.nodes) || fresh(b)
      ensures ok <==> old(pool.Has(Total(size, wanted), true, reply, blockReply))
      ensures !ok ==> elts == old(elts) && nalloc == old(nalloc) && ram.contents == old(ram.contents)
      ensures ok ==> nalloc == wanted && Elements(ram, copied) == old(Elements(ram, copied))
      ensures forall a: nat | !(elts <= a < elts + Total(size, nalloc)) :: ram.contents(a) == old(ram.contents)(a)
      ensures old(pool.regions) <= pool.regions && Extends(old(heap.live), heap.live)
      ensures pool.Foreign(heap) == old(pool.Foreign(heap))
    {
      hide Pool.Sound;
      if copied > 0 {
        Positive(size, wanted);
        Positive(size, nalloc);
      }
      var p, h := ReserveMore(heap, Total(size, wanted), Total(size, nalloc), reply, blockReply);
      if p == 0 {
        return false;
      }
      MoveTo(ram, p, h, wanted, copied);
      return true;
    }

    /** The array is full: room for `more` more elements, at its end or elsewhere. */
    method MakeRoom(heap: Heap, ram: Ram, more: nat, wanted: nat, copied: nat, reply: nat, blockReply: nat)
      returns (ok: bool)
      requires Valid(heap) && nelts <= copied <= nalloc && copied <= wanted
      requires Answers(pool, heap, Total(size, wanted), reply, blockReply)
      modifies this`elts, this`nalloc, this`holding, pool, pool.chain, heap, ram
      ensures Valid(heap)
      ensures forall b | b in pool.chain :: b in old(pool.chain) || fresh(b)
      ensures forall b | b in pool.nodes :: b in old(pool.nodes) || fresh(b)
      ensures ok <==> old(CanGrow(more) || pool.Has(Total(size, wanted), true, reply, blockReply))
      ensures !ok ==> elts == old(elts) && nalloc == old(nalloc) && ram.contents == old(ram.contents)
      ensures ok ==> nalloc == if old(CanGrow(more)) then old(nalloc) + more else wanted
      ensures ok ==> Elements(ram, nelts) == old(Elements(ram, nelts))
      ensures forall a: nat | !(elts <= a < elts + Total(size, nalloc)) :: ram.contents(a) == old(ram.contents)(a)
      ensures OthersKept(old(pool.regions), pool.regions, holding) && Extends(old(heap.live), heap.live)
      ensures pool.Foreign(heap) == old(pool.Foreign(heap))
    {
      hide Held;
      if CanGrow(more) {
        GrowInPlace(heap, more);
        ok := true;
      } else {
        ok := Relocate(heap, ram, wanted, copied, reply, blockReply);
        if ok {
          FewerBytes(old(ram.contents), old(elts), ram.contents, elts, size, nelts, copied);
        }
      }
    }

    method Advance(n: nat) returns (elt: nat)
      modifies this`nelts
      ensures nelts == old(nelts) + n && elt == elts + Total(size, old(nelts))
      ensures nelts <= nalloc ==> elt + Total(size, n) <= elts + Total(size, nalloc)
    {
      elt := elts + Total(size, nelts);
      Distribute(size, nelts, n);
      if nelts + n <= nalloc {
        Monotone(size, nelts + n, nalloc);
      }
      nelts := nelts + n;
    }

    /** `ngx_array_push`; the result is the place of the new element, or 0. An array without capacity can
        take its first element in place alone: doubling its capacity leaves it without any. */
    method Push(heap: Heap, ram: Ram, reply: nat, blockReply: nat) returns (elt: nat)
      requires Valid(heap) && Answers(pool, heap, Total(size, 2 * nalloc), reply, blockReply)
      modifies this, pool, pool.chain, heap, ram
      ensures Backed(heap) && (elt == 0 ==> Valid(heap))
      ensures elt != 0 ==> (Valid(heap) <==> old(nalloc > 0 || CanGrow(1)))
      ensures forall b | b in pool.chain :: b in old(pool.chain) || fresh(b)
      ensures forall b | b in pool.nodes :: b in old(pool.nodes) || fresh(b)
      ensures elt != 0 <==>
        old(nelts < nalloc || CanGrow(1) || pool.Has(Total(size, 2 * nalloc), true, reply, blockReply))
      ensures elt != 0 ==>
        nalloc == if old(nelts < nalloc) then old(nalloc)
                  else if old(CanGrow(1)) then old(nalloc) + 1
                  else 2 * old(nalloc)
      ensures elt == 0 ==> elts == old(elts) && nelts == old(nelts) && nalloc == old(nalloc)
      ensures elt == 0 ==> ram.contents == old(ram.contents)
      ensures elt != 0 ==> nelts == old(nelts) + 1 && elt == elts + Total(size, old(nelts))
      ensures elt != 0 && nelts <= nalloc ==> elt + size <= elts + Total(size, nalloc)
      ensures elt != 0 ==> Elements(ram, old(nelts)) == old(Elements(ram, nelts))
      ensures forall a: nat | !(elts <= a < elts + Total(size, nalloc)) :: ram.contents(a) == old(ram.contents)(a)
      ensures OthersKept(old(pool.regions), pool.regions, holding) && Extends(old(heap.live), heap.live)
      ensures pool.Foreign(heap) == old(pool.Foreign(heap))
    {
      hide Pool.Sound;
      if nelts == nalloc {
        var ok := MakeRoom(heap, ram, 1, 2 * nalloc, nalloc, reply, blockReply);
        if !ok {
          return 0;
        }
      }
      elt := Advance(1);
    }

    /** `ngx_array_push_n` */
    method PushN(heap: Heap, ram: Ram, n: nat, reply: nat, blockReply: nat) returns (elt: nat)
      requires Valid(heap) && Answers(pool, heap, Total(size, Doubled(n, nalloc)), reply, blockReply)
      modifies this, pool, pool.chain, heap, ram
      ensures Valid(heap)
      ensures forall b | b in pool.chain :: b in old(pool.chain) || fresh(b)
      ensures forall b | b in pool.nodes :: b in old(pool.nodes) || fresh(b)
      ensures elt != 0 <==> old(nelts + n <= nalloc || CanGrow(n)
                                || pool.Has(Total(size, Doubled(n, nalloc)), true, reply, blockReply))
      ensures elt != 0 ==>
        nalloc == if old(nelts + n <= nalloc) then old(nalloc)
                  else if old(CanGrow(n)) then old(nalloc) + n
                  else if n >= old(nalloc) then 2 * n else 2 * old(nalloc)
      ensures elt == 0 ==> elts == old(elts) && nelts == old(nelts) && nalloc == old(nalloc)
      ensures elt == 0 ==> ram.contents == old(ram.contents)
      ensures elt != 0 ==> nelts == old(nelts) + n && elt == elts + Total(size, old(nelts))
      ensures elt != 0 ==> elt + Total(size, n) <= elts + Total(size, nalloc)
      ensures elt != 0 ==> Elements(ram, old(nelts)) == old(Elements(ram, nelts))
      ensures forall a: nat | !(elts <= a < elts + Total(size, nalloc)) :: ram.contents(a) == old(ram.contents)(a)
      ensures OthersKept(old(pool.regions), pool.regions, holding) && Extends(old(heap.live), heap.live)
      ensures pool.Foreign(heap) == old(pool.Foreign(heap))
    {
      hide Pool.Sound;
      if nelts + n > nalloc {
        var ok := MakeRoom(heap, ram, n, Doubled(n, nalloc), nelts, reply, blockReply);
        if !ok {
          return 0;
        }
      }
      elt := Advance(n);
    }
  }

  lemma FewerBytes(f: Contents, p: nat, f': Contents, p': nat, size: nat, n: nat, m: nat)
    requires n <= m && Bytes(f', p', Total(size, m)) == Bytes(f, p, Total(size, m))
    ensures Bytes(f', p', Total(size, n)) == Bytes(f, p, Total(size, n))
  {
    Monotone(size, n, m);
    assert Bytes(f', p', Total(size, n)) == Bytes(f', p', Total(size, m))[..Total(size, n)];
    assert Bytes(f, p, Total(size, n)) == Bytes(f, p, Total(size, m))[..Total(size, n)];
  }

  /** What ends where the first block's next allocation would begin is in that block. */
  lemma EndsInBlock(c: Chain, psize: nat, allocs: seq<nat>, rs: seq<Region>, live: map<nat, nat>, h: Holding, at: nat,
                    size: nat)
    requires ChainOk(c, psize) && Owns(c, allocs, psize, live) && size > 0
    requires Held(allocs, rs, live, h, at, size) && at + size == c.blocks[0].last
    ensures h.InBlock?
  {
    if at in Larges(allocs) && at in live && live[at] == size {
      LargeElsewhere(c, psize, allocs, live, at);
    }
  }

  /** The heap's answers to the calls that an allocation of `bytes` may make. */
  ghost predicate Answers(pool: Pool, heap: Heap, bytes: nat, reply: nat, blockReply: nat)
    reads heap
  {
    && (reply != 0 ==> Room(heap.live, reply, bytes))
    && (blockReply != 0 ==> blockReply % POOL_ALIGNMENT == 0)
    && (blockReply != 0 ==>
          Room(if bytes <= pool.max || reply == 0 then heap.live else heap.live[reply := bytes],
               blockReply, pool.psize))
  }

  /** All other allocations in the blocks are as before. */
  ghost predicate OthersKept(rs: seq<Region>, rs': seq<Region>, h: Holding) {
    |rs| <= |rs'| && forall k | 0 <= k < |rs| && h != InBlock(k) :: rs'[k] == rs[k]
  }

  /** The size of `n` elements; the code multiplies. */
  function Total(size: nat, n: nat): nat {
    if n == 0 then 0 else Total(size, n - 1) + size
  }

  lemma {:induction false} TotalIsProduct(size: nat, n: nat)
    ensures Total(size, n) == size * n
  {
    if n > 0 {
      TotalIsProduct(size, n - 1);
    }
  }

  /** The capacity that `ngx_array_push_n` asks for. */
  function Doubled(n: nat, nalloc: nat): nat {
    2 * if n >= nalloc then n else nalloc
  }

  lemma {:induction false} Positive(size: nat, n: nat)
    requires size > 0 && n > 0
    ensures Total(size, n) > 0
  {
    if n > 1 {
      Positive(size, n - 1);
    }
  }

  lemma {:induction false} Monotone(size: nat, n: nat, m: nat)
    requires n <= m
    ensures Total(size, n) <= Total(size, m)
    decreases m
  {
    if n < m {
      Monotone(size, n, m - 1);
    }
  }

  lemma {:induction false} Distribute(size: nat, n: nat, m: nat)
    ensures Total(size, n + m) == Total(size, n) + Total(size, m)
  {
    if m > 0 {
      Distribute(size, n, m - 1);
    }
  }
}
