/** The intrusive circular queue of `ngx_queue.h` and `ngx_queue.c`. */
module Queue {

  /** `ngx_queue_t`: the link that an element embeds, or the head of a queue. */
  class Link {
    var prev: Link?
    var next: Link?

    constructor ()
      ensures prev == null && next == null
    {
      prev, next := null, null;
    }
  }

  ghost predicate NoRepeats(r: seq<Link>) {
    forall i, j | 0 <= i < j < |r| :: r[i] != r[j]
  }

  /** `x` and `y` are neighbours. */
  ghost predicate Joined(x: Link, y: Link)
    reads x`next, y`prev
  {
    x.next == y && y.prev == x
  }

  /** The link at place `i` and the one before it. */
  ghost predicate JoinedAt(r: seq<Link>, i: int)
    reads r`prev, r`next
  {
    0 < i < |r| && Joined(r[i - 1], r[i])
  }

  /** The links of `r` form one circle, in this order; the first is the head of the queue. */
  ghost predicate Ring(r: seq<Link>)
    reads r`prev, r`next
  {
    && r != [] && NoRepeats(r)
    && (forall i {:trigger JoinedAt(r, i)} | 0 < i < |r| :: JoinedAt(r, i))
    && Joined(r[|r| - 1], r[0])
  }

  ghost function After(r: seq<Link>, k: nat): Link
    requires k < |r|
  {
    if k + 1 < |r| then r[k + 1] else r[0]
  }

  ghost function Before(r: seq<Link>, k: nat): Link
    requires k < |r|
  {
    if k == 0 then r[|r| - 1] else r[k - 1]
  }

  /** `ngx_queue_init` */
  method Init(q: Link)
    modifies q
    ensures Ring([q])
  {
    q.prev := q;
    q.next := q;
  }

  ghost function Inserted(r: seq<Link>, k: nat, x: Link): seq<Link>
    requires k < |r|
  {
    r[..k + 1] + [x] + r[k + 1..]
  }

  ghost function Removed(r: seq<Link>, k: nat): seq<Link>
    requires k < |r|
  {
    r[..k] + r[k + 1..]
  }

  /** `ngx_queue_insert_head` and `ngx_queue_insert_after` */
  method InsertAfter(h: Link, x: Link, ghost r: seq<Link>, ghost k: nat)
    requires Ring(r) && k < |r| && r[k] == h && x !in r
    modifies h`next, After(r, k)`prev, x`prev, x`next
    ensures Ring(Inserted(r, k, x))
  {
    assert k + 1 < |r| ==> JoinedAt(r, k + 1);
    assert h.next == After(r, k);
    x.next := h.next;
    x.next.prev := x;
    x.prev := h;
    h.next := x;

    ghost var s := Inserted(r, k, x);
    assert NoRepeats(s);
    forall i | 0 < i < |s|
      ensures JoinedAt(s, i)
    {
      if i <= k {
        assert old(JoinedAt(r, i));
      } else if i > k + 2 {
        assert old(JoinedAt(r, i - 1));
      }
    }
  }

  /** `ngx_queue_remove`: the links of the removed element itself stay as they are. */
  method Remove(x: Link, ghost r: seq<Link>, ghost k: nat)
    requires Ring(r) && 0 < k < |r| && r[k] == x
    modifies Before(r, k)`next, After(r, k)`prev
    ensures Ring(Removed(r, k))
  {
    assert JoinedAt(r, k);
    assert k + 1 < |r| ==> JoinedAt(r, k + 1);
    x.next.prev := x.prev;
    x.prev.next := x.next;

    ghost var s := Removed(r, k);
    assert NoRepeats(s);
    forall i | 0 < i < |s|
      ensures JoinedAt(s, i)
    {
      if i < k {
        assert old(JoinedAt(r, i));
      } else if i > k {
        assert old(JoinedAt(r, i + 1));
      }
    }
  }

  /** `ngx_queue_insert_tail` */
  method InsertTail(h: Link, x: Link, ghost r: seq<Link>)
    requires Ring(r) && r[0] == h && x !in r
    modifies h`prev, Before(r, 0)`next, x`prev, x`next
    ensures Ring(r + [x])
  {
    x.prev := h.prev;
    x.prev.next := x;
    x.next := h;
    h.prev := x;

    ghost var s := r + [x];
    assert NoRepeats(s);
    forall i | 0 < i < |s|
      ensures JoinedAt(s, i)
    {
      if i < |r| {
        assert old(JoinedAt(r, i));
      }
    }
  }

  /** `ngx_queue_split`: the elements from `q`, at place `k`, on move to the new head `n`. */
  method Split(h: Link, q: Link, n: Link, ghost r: seq<Link>, ghost k: nat)
    requires Ring(r) && r[0] == h && 0 < k < |r| && r[k] == q && n !in r
    modifies r, n
    ensures Ring(r[..k]) && Ring([n] + r[k..])
  {
    assert JoinedAt(r, k);
    n.prev := h.prev;
    n.prev.next := n;
    n.next := q;
    h.prev := q.prev;
    h.prev.next := h;
    q.prev := n;

    forall i | 0 < i < k
      ensures JoinedAt(r[..k], i)
    {
      assert old(JoinedAt(r, i));
    }
    ghost var s := [n] + r[k..];
    assert NoRepeats(s);
    forall i | 0 < i < |s|
      ensures JoinedAt(s, i)
    {
      if i > 1 {
        assert old(JoinedAt(r, k + i - 1));
        assert s[i - 1] == r[k + i - 2] && s[i] == r[k + i - 1];
      }
    }
  }

  /** `ngx_queue_add`: the elements of the queue `n` move to the end of `h`. */
  method Add(h: Link, n: Link, ghost r: seq<Link>, ghost r': seq<Link>)
    requires Ring(r) && r[0] == h && Ring(r') && r'[0] == n
    requires forall i, j | 0 <= i < |r| && 0 <= j < |r'| :: r[i] != r'[j]
    modifies r, r'
    ensures Ring(r + r'[1..])
  {
    assert |r'| > 1 ==> JoinedAt(r', 1);
    h.prev.next := n.next;
    n.next.prev := h.prev;
    h.prev := n.prev;
    h.prev.next := h;

    ghost var s := r + r'[1..];
    assert NoRepeats(s);
    forall i | 0 < i < |s|
      ensures JoinedAt(s, i)
    {
      if i < |r| {
        assert old(JoinedAt(r, i));
      } else if i > |r| {
        assert old(JoinedAt(r', i - |r| + 1));
        assert s[i - 1] == r'[i - |r|] && s[i] == r'[i - |r| + 1];
      }
    }
  }

  /** `ngx_queue_middle`: the middle element, or the first of the second half; the head if there is
      no element. */
  method Middle(queue: Link, ghost r: seq<Link>) returns (middle: Link)
    requires Ring(r) && r[0] == queue
    ensures middle == if |r| == 1 then queue else r[1 + (|r| - 1) / 2]
  {
    assert |r| > 1 ==> JoinedAt(r, 1);
    middle := queue.next;

    if middle == queue.prev {
      return;
    }

    var next := queue.next;
    ghost var k := 0;

    while true
      invariant 1 + 2 * k < |r| - 1
      invariant middle == r[1 + k] && next == r[1 + 2 * k]
      decreases |r| - k
    {
      assert JoinedAt(r, 2 + k) && JoinedAt(r, 2 + 2 * k);
      middle := middle.next;

      next := next.next;

      if next == queue.prev {
        return;
      }

      assert JoinedAt(r, 3 + 2 * k);
      next := next.next;

      k := k + 1;
      if next == queue.prev {
        return;
      }
    }
  }
}
