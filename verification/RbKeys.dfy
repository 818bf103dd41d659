/** The two ways in which the tree compares keys, and when the wrapping one is an order. */
module RbKeys {
  import opened RbShape

  /** The functions that `tree->insert` may point to. */
  datatype InsertFn = ByValue | ByTimer

  /** Unsigned subtraction of machine words. */
  function Minus(a: Key, b: Key): Key {
    if a >= b then a - b else a - b + TWO_TO_THE_64
  }

  /** The cast of an unsigned machine word to the signed type of the same width. */
  function Signed(a: Key): int {
    if a < TWO_TO_THE_63 then a else a - TWO_TO_THE_64
  }

  /** `node->key < temp->key`, or `(ngx_rbtree_key_int_t) (node->key - temp->key) < 0` */
  predicate Less(fn: InsertFn, a: Key, b: Key) {
    match fn
    case ByValue => a < b
    case ByTimer => Signed(Minus(a, b)) < 0
  }

  /** How far a key lies above `base`, going upwards and around. */
  function Rank(fn: InsertFn, base: Key, k: Key): nat {
    match fn
    case ByValue => k
    case ByTimer => Minus(k, base)
  }

  /** The keys among which wrapping comparison is an order: half of the circle, from `base` on. */
  predicate InWindow(fn: InsertFn, base: Key, k: Key) {
    fn == ByTimer ==> Minus(k, base) < TWO_TO_THE_63
  }

  /** Within a window, even one that crosses the wrap, comparing keys compares ranks. */
  lemma LessIsRank(fn: InsertFn, base: Key, a: Key, b: Key)
    requires InWindow(fn, base, a) && InWindow(fn, base, b)
    ensures Less(fn, a, b) <==> Rank(fn, base, a) < Rank(fn, base, b)
    ensures fn == ByTimer ==> Signed(Minus(a, b)) == Rank(fn, base, a) - Rank(fn, base, b)
  {
  }

  type KeyMap = map<Node, Key>

  /** The nodes come in the order of their keys, all of which lie in the window. */
  ghost predicate Ordered(nodes: seq<Node>, key: KeyMap, fn: InsertFn, base: Key) {
    && (forall i | 0 <= i < |nodes| :: nodes[i] in key && InWindow(fn, base, key[nodes[i]]))
    && (forall i, j | 0 <= i < j < |nodes| ::
          Rank(fn, base, key[nodes[i]]) <= Rank(fn, base, key[nodes[j]]))
  }

  ghost predicate NoneAbove(nodes: seq<Node>, k: Key, key: KeyMap, fn: InsertFn, base: Key) {
    forall x | x in nodes :: x in key && Rank(fn, base, key[x]) <= Rank(fn, base, k)
  }

  ghost predicate AllAbove(nodes: seq<Node>, k: Key, key: KeyMap, fn: InsertFn, base: Key) {
    forall x | x in nodes :: x in key && Rank(fn, base, k) < Rank(fn, base, key[x])
  }

  lemma OrderedAround(a: seq<Node>, n: Node, b: seq<Node>, key: KeyMap, fn: InsertFn, base: Key)
    requires Ordered(a + [n] + b, key, fn, base)
    ensures n in key && InWindow(fn, base, key[n])
    ensures NoneAbove(a, key[n], key, fn, base)
    ensures forall x | x in b :: x in key && Rank(fn, base, key[n]) <= Rank(fn, base, key[x])
  {
    var s, k := a + [n] + b, |a|;
    assert s[k] == n;
    forall i | 0 <= i < |a|
      ensures a[i] in key && Rank(fn, base, key[a[i]]) <= Rank(fn, base, key[n])
    {
      assert s[i] == a[i];
    }
    forall i | 0 <= i < |b|
      ensures b[i] in key && Rank(fn, base, key[n]) <= Rank(fn, base, key[b[i]])
    {
      assert s[k + 1 + i] == b[i];
    }
  }

  /** One comparison with `n` tells `k` from everything on one side of `n`. */
  lemma Parted(a: seq<Node>, n: Node, b: seq<Node>, k: Key, key: KeyMap, fn: InsertFn, base: Key)
    requires Ordered(a + [n] + b, key, fn, base) && InWindow(fn, base, k)
    ensures n in key
    ensures Less(fn, k, key[n]) ==> AllAbove([n] + b, k, key, fn, base)
    ensures !Less(fn, k, key[n]) ==> NoneAbove(a + [n], k, key, fn, base)
  {
    OrderedAround(a, n, b, key, fn, base);
    LessIsRank(fn, base, k, key[n]);
    var r, r' := Rank(fn, base, k), Rank(fn, base, key[n]);
    assert Less(fn, k, key[n]) <==> r < r';
  }

  /** `n` was put between `a` and `b` in the order of keys, after every node whose key is not
      greater; nothing is said if the keys do not lie in the window. */
  ghost predicate PlacedByKey(a: seq<Node>, n: Node, b: seq<Node>, key: KeyMap, fn: InsertFn, base: Key) {
    Ordered(a + b, key, fn, base) && n in key && InWindow(fn, base, key[n]) ==>
      && NoneAbove(a, key[n], key, fn, base)
      && AllAbove(b, key[n], key, fn, base)
      && Ordered(a + [n] + b, key, fn, base)
  }

  lemma PlacedSame(a: seq<Node>, n: Node, b: seq<Node>, key: KeyMap, key': KeyMap, fn: InsertFn, base: Key)
    requires PlacedByKey(a, n, b, key, fn, base)
    requires forall x | x in a + [n] + b :: x in key && x in key' && key'[x] == key[x]
    ensures PlacedByKey(a, n, b, key', fn, base)
  {
    var s := a + [n] + b;
    assert n in s && (forall x | x in a :: x in s) && forall x | x in b :: x in s;
  }

  lemma InsertedIsOrdered(a: seq<Node>, n: Node, b: seq<Node>, key: KeyMap, fn: InsertFn, base: Key)
    requires Ordered(a + b, key, fn, base) && n in key && InWindow(fn, base, key[n]) ==>
      NoneAbove(a, key[n], key, fn, base) && AllAbove(b, key[n], key, fn, base)
    ensures PlacedByKey(a, n, b, key, fn, base)
  {
    if !(Ordered(a + b, key, fn, base) && n in key && InWindow(fn, base, key[n])) {
      return;
    }
    var s, s', k := a + b, a + [n] + b, |a|;
    forall i | 0 <= i < |s'|
      ensures s'[i] in key && InWindow(fn, base, key[s'[i]])
    {
      assert i < k ==> s'[i] == s[i];
      assert i > k ==> s'[i] == s[i - 1];
    }
    forall i, j | 0 <= i < j < |s'|
      ensures Rank(fn, base, key[s'[i]]) <= Rank(fn, base, key[s'[j]])
    {
      assert i < k ==> s'[i] == a[i] && s'[i] == s[i];
      assert j < k ==> s'[j] == s[j];
      assert i > k ==> s'[i] == s[i - 1];
      assert j > k ==> s'[j] == b[j - k - 1] && s'[j] == s[j - 1];
    }
  }

  /** Taking a node out leaves the others in order. */
  lemma TakenOutOrdered(s: seq<Node>, k: nat, n: Node, s': seq<Node>, key: KeyMap, key': KeyMap, fn: InsertFn,
                        base: Key)
    requires TakenOut(s, k, n, s') && Ordered(s, key, fn, base)
    requires forall x | x in s' :: x in key && x in key' && key'[x] == key[x]
    ensures Ordered(s', key', fn, base)
  {
    assert forall i | 0 <= i < |s'| :: s'[i] == s[if i < k then i else i + 1];
  }

  /** A node put in its place leaves the sequence in order, whatever other keys have changed. */
  lemma PlacedIsOrdered(s: seq<Node>, k: nat, n: Node, key: KeyMap, key': KeyMap, fn: InsertFn, base: Key)
    requires k <= |s| && PlacedByKey(s[..k], n, s[k..], key', fn, base)
    requires Ordered(s, key, fn, base) && n in key' && InWindow(fn, base, key'[n])
    requires forall x | x in s :: x in key && x in key' && key'[x] == key[x]
    ensures Ordered(s[..k] + [n] + s[k..], key', fn, base)
  {
    assert s[..k] + s[k..] == s;
  }

  // ---------- equal keys ----------

  /** When each node was inserted. */
  type AgeMap = map<Node, nat>

  /** One node comes before another: its key is smaller, or the same and it was inserted earlier. */
  ghost predicate Earlier(x: Node, y: Node, key: KeyMap, age: AgeMap, fn: InsertFn, base: Key) {
    x in key && y in key && x in age && y in age
    && (Rank(fn, base, key[x]) < Rank(fn, base, key[y])
        || (Rank(fn, base, key[x]) == Rank(fn, base, key[y]) && age[x] < age[y]))
  }

  /** The nodes come in the order of their keys, and those with equal keys in the order of insertion. */
  ghost predicate OrderedByAge(nodes: seq<Node>, key: KeyMap, age: AgeMap, fn: InsertFn, base: Key) {
    && Ordered(nodes, key, fn, base)
    && forall i, j {:trigger Earlier(nodes[i], nodes[j], key, age, fn, base)} | 0 <= i < j < |nodes| ::
         Earlier(nodes[i], nodes[j], key, age, fn, base)
  }

  /** A new node goes behind those with an equal key. */
  lemma PlacedLast(s: seq<Node>, k: nat, n: Node, key: KeyMap, key': KeyMap, age: AgeMap, t: nat, fn: InsertFn,
                   base: Key)
    requires k <= |s| && n !in s && PlacedByKey(s[..k], n, s[k..], key', fn, base)
    requires OrderedByAge(s, key, age, fn, base) && n in key' && InWindow(fn, base, key'[n])
    requires forall x | x in s :: x in key && x in key' && key'[x] == key[x]
    requires forall x | x in s :: x in age && age[x] < t
    ensures OrderedByAge(s[..k] + [n] + s[k..], key', age[n := t], fn, base)
  {
    PlacedIsOrdered(s, k, n, key, key', fn, base);
    PlacedBetween(s, k, n, key, key', fn, base);
    var s', age' := s[..k] + [n] + s[k..], age[n := t];
    forall i, j | 0 <= i < j < |s'|
      ensures Earlier(s'[i], s'[j], key', age', fn, base)
    {
      var i', j' := if i < k then i else i - 1, if j < k then j else j - 1;
      if i != k && j != k {
        assert s'[i] == s[i'] && s'[j] == s[j'] && Earlier(s[i'], s[j'], key, age, fn, base);
      } else if j == k {
        assert s'[i] == s[i] && s[i] in s[..k];
      } else {
        assert s'[j] == s[j'] && s[j'] in s[k..];
      }
    }
  }

  lemma PlacedBetween(s: seq<Node>, k: nat, n: Node, key: KeyMap, key': KeyMap, fn: InsertFn, base: Key)
    requires k <= |s| && PlacedByKey(s[..k], n, s[k..], key', fn, base)
    requires Ordered(s, key, fn, base) && n in key' && InWindow(fn, base, key'[n])
    requires forall x | x in s :: x in key && x in key' && key'[x] == key[x]
    ensures NoneAbove(s[..k], key'[n], key', fn, base) && AllAbove(s[k..], key'[n], key', fn, base)
  {
    assert s[..k] + s[k..] == s;
  }

  /** Taking a node out leaves the others as they are. */
  lemma TakenOutByAge(s: seq<Node>, k: nat, n: Node, s': seq<Node>, key: KeyMap, key': KeyMap, age: AgeMap,
                      fn: InsertFn, base: Key)
    requires TakenOut(s, k, n, s') && OrderedByAge(s, key, age, fn, base)
    requires forall x | x in s' :: x in key && x in key' && key'[x] == key[x]
    ensures OrderedByAge(s', key', age, fn, base)
  {
    hide Ordered;
    TakenOutOrdered(s, k, n, s', key, key', fn, base);
    forall i, j | 0 <= i < j < |s'|
      ensures Earlier(s'[i], s'[j], key', age, fn, base)
    {
      var i', j' := if i < k then i else i + 1, if j < k then j else j + 1;
      assert s'[i] == s[i'] && s'[j] == s[j'] && Earlier(s[i'], s[j'], key, age, fn, base);
    }
  }
}
