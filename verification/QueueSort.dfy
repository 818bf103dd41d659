/** `ngx_queue_sort` of `ngx_queue.c`: a stable insertion sort on the live links. */
module QueueSort {
  import opened Queue

  type Comparison = (Link, Link) -> int

  ghost function Elements(s: seq<Link>): set<Link> {
    set x | x in s
  }

  // ---------- what the scan computes ----------

  /** `q` goes after the last element of `s` that does not compare above it. */
  ghost function Placed(s: seq<Link>, q: Link, cmp: Comparison): seq<Link> {
    if s == [] || cmp(s[|s| - 1], q) <= 0 then s + [q]
    else Placed(s[..|s| - 1], q, cmp) + [s[|s| - 1]]
  }

  ghost function InsertionSorted(s: seq<Link>, cmp: Comparison): seq<Link> {
    if s == [] then [] else Placed(InsertionSorted(s[..|s| - 1], cmp), s[|s| - 1], cmp)
  }

  lemma {:induction false} PlacedAt(s: seq<Link>, q: Link, cmp: Comparison, j: nat)
    requires j <= |s| && (forall m | j <= m < |s| :: cmp(s[m], q) > 0)
    requires j > 0 ==> cmp(s[j - 1], q) <= 0
    ensures Placed(s, q, cmp) == s[..j] + [q] + s[j..]
    decreases |s|
  {
    if j < |s| {
      var s' := s[..|s| - 1];
      PlacedAt(s', q, cmp, j);
      assert s == s' + [s[|s| - 1]];
      assert s'[..j] == s[..j] && s'[j..] + [s[|s| - 1]] == s[j..];
    }
  }

  // ---------- what makes it a stable sort ----------

  /** Among the elements of `D`, comparing not above is total and transitive. */
  ghost predicate TotalPreorder(D: set<Link>, cmp: Comparison) {
    && (forall x, y | x in D && y in D :: cmp(x, y) <= 0 || cmp(y, x) <= 0)
    && (forall x, y, z | x in D && y in D && z in D && cmp(x, y) <= 0 && cmp(y, z) <= 0 :: cmp(x, z) <= 0)
  }

  ghost predicate Within(s: seq<Link>, D: set<Link>) {
    forall i | 0 <= i < |s| :: s[i] in D
  }

  ghost predicate Sorted(s: seq<Link>, cmp: Comparison) {
    forall i, j | 0 <= i < j < |s| :: cmp(s[i], s[j]) <= 0
  }

  ghost predicate Equal(x: Link, y: Link, cmp: Comparison) {
    cmp(x, y) <= 0 && cmp(y, x) <= 0
  }

  /** The elements of `s` that compare equal to `x`, in their order. */
  ghost function EqualTo(x: Link, s: seq<Link>, cmp: Comparison): seq<Link> {
    if s == [] then []
    else EqualTo(x, s[..|s| - 1], cmp) + if Equal(s[|s| - 1], x, cmp) then [s[|s| - 1]] else []
  }

  lemma {:induction false} PlacedPermutes(s: seq<Link>, q: Link, cmp: Comparison)
    ensures multiset(Placed(s, q, cmp)) == multiset(s) + multiset{q}
    decreases |s|
  {
    if s != [] {
      assert s == s[..|s| - 1] + [s[|s| - 1]];
      PlacedPermutes(s[..|s| - 1], q, cmp);
    }
  }

  ghost predicate NoneAbove(s: seq<Link>, x: Link, cmp: Comparison) {
    forall i | 0 <= i < |s| :: cmp(s[i], x) <= 0
  }

  lemma {:induction false} PlacedNotAbove(s: seq<Link>, q: Link, cmp: Comparison, x: Link)
    requires NoneAbove(s, x, cmp) && cmp(q, x) <= 0
    ensures NoneAbove(Placed(s, q, cmp), x, cmp)
    decreases |s|
  {
    if s != [] {
      PlacedNotAbove(s[..|s| - 1], q, cmp, x);
    }
  }

  lemma {:induction false} PlacedSorted(s: seq<Link>, q: Link, cmp: Comparison, D: set<Link>)
    requires TotalPreorder(D, cmp) && Within(s, D) && q in D && Sorted(s, cmp)
    ensures Sorted(Placed(s, q, cmp), cmp) && Within(Placed(s, q, cmp), D)
    decreases |s|
  {
    if s != [] && cmp(s[|s| - 1], q) > 0 {
      PlacedSorted(s[..|s| - 1], q, cmp, D);
      PlacedNotAbove(s[..|s| - 1], q, cmp, s[|s| - 1]);
    }
  }

  lemma {:induction false} PlacedStable(s: seq<Link>, q: Link, cmp: Comparison, x: Link, D: set<Link>)
    requires TotalPreorder(D, cmp) && Within(s, D) && q in D && x in D
    ensures EqualTo(x, Placed(s, q, cmp), cmp) == EqualTo(x, s, cmp) + if Equal(q, x, cmp) then [q] else []
    decreases |s|
  {
    var r := Placed(s, q, cmp);
    if s == [] || cmp(s[|s| - 1], q) <= 0 {
      assert r[..|r| - 1] == s;
    } else {
      var z := s[|s| - 1];
      assert r[..|r| - 1] == Placed(s[..|s| - 1], q, cmp);
      assert !(Equal(z, x, cmp) && Equal(q, x, cmp));
      PlacedStable(s[..|s| - 1], q, cmp, x, D);
    }
  }

  /** The scan, repeated over the whole queue, gives an ordered, stable permutation. */
  lemma {:induction false} InsertionSortedIsStableSort(s: seq<Link>, cmp: Comparison, D: set<Link>)
    requires TotalPreorder(D, cmp) && Within(s, D)
    ensures var r := InsertionSorted(s, cmp);
      && Sorted(r, cmp) && Within(r, D) && multiset(r) == multiset(s)
      && (forall x | x in D :: EqualTo(x, r, cmp) == EqualTo(x, s, cmp))
    decreases |s|
  {
    if s != [] {
      var s', q := s[..|s| - 1], s[|s| - 1];
      var r := InsertionSorted(s', cmp);
      InsertionSortedIsStableSort(s', cmp, D);
      assert s == s' + [q];
      PlacedPermutes(r, q, cmp);
      PlacedSorted(r, q, cmp, D);
      forall x | x in D
        ensures EqualTo(x, InsertionSorted(s, cmp), cmp) == EqualTo(x, s, cmp)
      {
        PlacedStable(r, q, cmp, x, D);
      }
    }
  }

  // ---------- the sort itself ----------

  /** The inner loop: from `prev0`, the last of the elements `p`, back to the place of `q`. */
  method FindPlace(queue: Link, prev0: Link, q: Link, cmp: Comparison, ghost r: seq<Link>, ghost p: seq<Link>)
    returns (prev: Link, ghost j: nat)
    requires Ring(r) && r[0] == queue && p != [] && |p| < |r| && r[1..|p| + 1] == p && prev0 == p[|p| - 1]
    ensures j <= |p| && prev == r[j] && Placed(p, q, cmp) == p[..j] + [q] + p[j..]
  {
    prev, j := prev0, |p|;
    while true
      invariant 0 < j <= |p| && prev == r[j]
      invariant forall m | j <= m < |p| :: cmp(p[m], q) > 0
      decreases j
    {
      assert r[j] == p[j - 1] && JoinedAt(r, j);
      if cmp(prev, q) <= 0 {
        break;
      }

      prev := prev.prev;
      j := j - 1;

      if prev == queue {
        assert j == 0;
        break;
      }
    }
    PlacedAt(p, q, cmp, j);
  }

  lemma Rearranged(h: Link, p: seq<Link>, q: Link, rest: seq<Link>, j: nat)
    requires j <= |p|
    ensures Removed([h] + p + [q] + rest, |p| + 1) == [h] + p + rest
    ensures Inserted([h] + p + rest, j, q) == [h] + (p[..j] + [q] + p[j..]) + rest
  {
  }

  /** One turn of the outer loop: `q` moves from behind the sorted elements `p` to its place. */
  method MoveToPlace(queue: Link, q: Link, cmp: Comparison, ghost p: seq<Link>, ghost rest: seq<Link>)
    requires p != [] && Ring([queue] + p + [q] + rest)
    modifies Elements([queue] + p + [q] + rest)
    ensures Ring([queue] + Placed(p, q, cmp) + rest)
  {
    ghost var r, k := [queue] + p + [q] + rest, |p| + 1;
    assert r[k] == q && JoinedAt(r, k);
    var prev := q.prev;
    Rearranged(queue, p, q, rest, 0);
    Remove(q, r, k);
    ghost var j;
    prev, j := FindPlace(queue, prev, q, cmp, [queue] + p + rest, p);
    Rearranged(queue, p, q, rest, j);
    InsertAfter(prev, q, [queue] + p + rest, j);
  }

  lemma {:induction false} InsertionSortedPermutes(s: seq<Link>, cmp: Comparison)
    ensures multiset(InsertionSorted(s, cmp)) == multiset(s)
    decreases |s|
  {
    if s != [] {
      assert s == s[..|s| - 1] + [s[|s| - 1]];
      InsertionSortedPermutes(s[..|s| - 1], cmp);
      PlacedPermutes(InsertionSorted(s[..|s| - 1], cmp), s[|s| - 1], cmp);
    }
  }

  /** The queue once the elements before place `i` are sorted. */
  ghost function SortedUpTo(queue: Link, s: seq<Link>, i: nat, cmp: Comparison): seq<Link>
    requires i <= |s|
  {
    [queue] + InsertionSorted(s[..i], cmp) + s[i..]
  }

  lemma NextSorted(queue: Link, s: seq<Link>, i: nat, cmp: Comparison)
    requires i < |s|
    ensures SortedUpTo(queue, s, i, cmp) == [queue] + InsertionSorted(s[..i], cmp) + [s[i]] + s[i + 1..]
    ensures SortedUpTo(queue, s, i + 1, cmp) == [queue] + Placed(InsertionSorted(s[..i], cmp), s[i], cmp) + s[i + 1..]
    ensures |InsertionSorted(s[..i], cmp)| == i
    ensures forall x | x in SortedUpTo(queue, s, i, cmp) :: x in [queue] + s
  {
    assert s[..i + 1][..i] == s[..i];
    InsertionSortedPermutes(s[..i], cmp);
    forall x | x in InsertionSorted(s[..i], cmp)
      ensures x in s
    {
      assert x in multiset(InsertionSorted(s[..i], cmp));
      assert x in multiset(s[..i]);
    }
    assert |multiset(InsertionSorted(s[..i], cmp))| == |multiset(s[..i])|;
  }

  lemma OneSorted(x: Link, cmp: Comparison)
    ensures InsertionSorted([x], cmp) == [x]
  {
    assert [x][..0] == [];
    assert InsertionSorted([], cmp) == [];
  }

  /** A queue whose first element alone is sorted is the queue itself. */
  lemma FirstSorted(queue: Link, s: seq<Link>, cmp: Comparison)
    requires s != []
    ensures SortedUpTo(queue, s, 1, cmp) == [queue] + s
  {
    assert s[..1] == [s[0]];
    OneSorted(s[0], cmp);
    calc {
      SortedUpTo(queue, s, 1, cmp);
      [queue] + [s[0]] + s[1..];
      [queue] + s;
    }
  }

  lemma AllSorted(queue: Link, s: seq<Link>, cmp: Comparison)
    ensures SortedUpTo(queue, s, |s|, cmp) == [queue] + InsertionSorted(s, cmp)
  {
    assert s[..|s|] == s && s[|s|..] == [];
  }

  /** `ngx_queue_sort` */
  method Sort(queue: Link, cmp: Comparison, ghost s: seq<Link>)
    requires Ring([queue] + s)
    modifies Elements([queue] + s)
    ensures Ring([queue] + InsertionSorted(s, cmp))
  {
    ghost var r := [queue] + s;
    assert s != [] ==> r[1] == s[0] && JoinedAt(r, 1);
    var q := queue.next;

    if q == queue.prev {
      if s != [] {
        assert s == [s[0]];
        OneSorted(s[0], cmp);
      }
      return;
    }

    assert r[2] == s[1] && JoinedAt(r, 2);
    FirstSorted(queue, s, cmp);
    assert forall i | 0 <= i < |s| :: s[i] == r[i + 1];
    SortLoop(queue, q.next, cmp, s);
    AllSorted(queue, s, cmp);
  }

  method SortLoop(queue: Link, second: Link, cmp: Comparison, ghost s: seq<Link>)
    requires |s| > 1 && second == s[1] && Ring(SortedUpTo(queue, s, 1, cmp)) && queue !in s
    modifies Elements([queue] + s)
    ensures Ring(SortedUpTo(queue, s, |s|, cmp))
  {
    var q := second;
    ghost var i := 1;
    while q != queue
      invariant 1 <= i <= |s| && Ring(SortedUpTo(queue, s, i, cmp))
      invariant q == if i < |s| then s[i] else queue
      decreases |s| - i
    {
      q := SortStep(queue, q, cmp, s, i);
      i := i + 1;
    }
  }

  /** The body of the outer loop, with the element that was next before `q` moved. */
  method SortStep(queue: Link, q: Link, cmp: Comparison, ghost s: seq<Link>, ghost i: nat) returns (next: Link)
    requires 1 <= i < |s| && s[i] == q && Ring(SortedUpTo(queue, s, i, cmp))
    modifies Elements([queue] + s)
    ensures Ring(SortedUpTo(queue, s, i + 1, cmp))
    ensures next == if i + 1 < |s| then s[i + 1] else queue
  {
    NextSorted(queue, s, i, cmp);
    ghost var p, rest := InsertionSorted(s[..i], cmp), s[i + 1..];
    ghost var r := [queue] + p + [q] + rest;
    assert r == SortedUpTo(queue, s, i, cmp);
    assert forall x | x in r :: x in [queue] + s;
    assert r[i + 1] == q && (i + 1 < |s| ==> r[i + 2] == s[i + 1] && JoinedAt(r, i + 2));
    next := q.next;
    MoveToPlace(queue, q, cmp, p, rest);
  }
}
