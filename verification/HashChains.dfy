/** The bucket chains of `ngx_hash.c`, over a snapshot of the entries' fields. */
module HashChains {
  type Key = nat
  type Value = int

  class Entry {
    var key: Key
    var value: Value
    var next: Entry?

    constructor (key: Key, value: Value, next: Entry?)
      ensures this.key == key && this.value == value && this.next == next
    {
      this.key, this.value, this.next := key, value, next;
    }
  }

  datatype Cell = Cell(key: Key, value: Value, next: Entry?)

  /** What every entry of the table holds. */
  type Memory = map<Entry, Cell>

  ghost function Snapshot(nodes: set<Entry>): (m: Memory)
    reads nodes
    ensures m.Keys == nodes
  {
    map e | e in nodes :: Cell(e.key, e.value, e.next)
  }

  /** The entries of every bucket, in the order of its chain. */
  type Chains = seq<seq<Entry>>

  ghost predicate Chain(m: Memory, head: Entry?, c: seq<Entry>) {
    if c == [] then head == null else head == c[0] && c[0] in m && Chain(m, m[c[0]].next, c[1..])
  }

  /** No entry has two places. */
  ghost predicate Distinct(cs: Chains) {
    forall i, a, j, b |
      0 <= i < |cs| && 0 <= a < |cs[i]| && 0 <= j < |cs| && 0 <= b < |cs[j]| && cs[i][a] == cs[j][b] ::
      i == j && a == b
  }

  ghost predicate ChainedUpTo(m: Memory, heads: seq<Entry?>, cs: Chains, n: nat)
    requires n <= |heads| == |cs|
  {
    n == 0 || (ChainedUpTo(m, heads, cs, n - 1) && Chain(m, heads[n - 1], cs[n - 1]))
  }

  ghost predicate Chained(m: Memory, heads: seq<Entry?>, cs: Chains) {
    |heads| == |cs| && Distinct(cs) && ChainedUpTo(m, heads, cs, |cs|)
  }

  lemma {:induction false} ChainOf(m: Memory, heads: seq<Entry?>, cs: Chains, n: nat, i: nat)
    requires i < n <= |heads| == |cs| && ChainedUpTo(m, heads, cs, n)
    ensures Chain(m, heads[i], cs[i])
  {
    if i < n - 1 {
      ChainOf(m, heads, cs, n - 1, i);
    }
  }

  lemma {:induction false} AllChained(m: Memory, heads: seq<Entry?>, cs: Chains, n: nat)
    requires n <= |heads| == |cs| && forall i | 0 <= i < n :: Chain(m, heads[i], cs[i])
    ensures ChainedUpTo(m, heads, cs, n)
  {
    if n > 0 {
      AllChained(m, heads, cs, n - 1);
    }
  }

  /** A chain does not notice a change to an entry that is not on it. */
  lemma {:induction false} ChainFrame(m: Memory, head: Entry?, c: seq<Entry>, e: Entry, cell: Cell)
    requires Chain(m, head, c) && e !in c
    ensures Chain(m[e := cell], head, c)
  {
    if c != [] {
      ChainFrame(m, m[c[0]].next, c[1..], e, cell);
    }
  }

  /** Nor one to a key or a value. */
  lemma {:induction false} ChainRewritten(m: Memory, head: Entry?, c: seq<Entry>, e: Entry, cell: Cell)
    requires Chain(m, head, c) && e in m && cell.next == m[e].next
    ensures Chain(m[e := cell], head, c)
  {
    if c != [] {
      ChainRewritten(m, m[c[0]].next, c[1..], e, cell);
    }
  }

  lemma {:induction false} ChainInMemory(m: Memory, head: Entry?, c: seq<Entry>)
    requires Chain(m, head, c)
    ensures forall e | e in c :: e in m
  {
    if c != [] {
      ChainInMemory(m, m[c[0]].next, c[1..]);
    }
  }

  ghost predicate OffChains(cs: Chains, e: Entry) {
    forall j | 0 <= j < |cs| :: e !in cs[j]
  }

  lemma OffAllChains(m: Memory, heads: seq<Entry?>, cs: Chains, e: Entry)
    requires Chained(m, heads, cs) && e !in m
    ensures OffChains(cs, e)
  {
    forall j | 0 <= j < |cs|
      ensures e !in cs[j]
    {
      ChainOf(m, heads, cs, |cs|, j);
      ChainInMemory(m, heads[j], cs[j]);
    }
  }

  lemma PoppedChained(m: Memory, heads: seq<Entry?>, cs: Chains, i: nat)
    requires Chained(m, heads, cs) && i < |cs| && cs[i] != [] && cs[i][0] in m
    ensures ChainedUpTo(m, heads[i := m[cs[i][0]].next], cs[i := cs[i][1..]], |cs|)
  {
    var heads', cs' := heads[i := m[cs[i][0]].next], cs[i := cs[i][1..]];
    forall j | 0 <= j < |cs'|
      ensures Chain(m, heads'[j], cs'[j])
    {
      ChainOf(m, heads, cs, |cs|, j);
    }
    AllChained(m, heads', cs', |cs|);
  }

  /** Chain `i` loses its first entry. */
  lemma Popped(m: Memory, heads: seq<Entry?>, cs: Chains, i: nat)
    requires Chained(m, heads, cs) && i < |cs| && cs[i] != []
    ensures cs[i][0] in m && heads[i] == cs[i][0]
    ensures Chained(m, heads[i := m[cs[i][0]].next], cs[i := cs[i][1..]])
    ensures OffChains(cs[i := cs[i][1..]], cs[i][0])
  {
    var cs' := cs[i := cs[i][1..]];
    ChainOf(m, heads, cs, |cs|, i);
    assert forall j, b | 0 <= j < |cs'| && 0 <= b < |cs'[j]| :: cs'[j][b] == cs[j][if j == i then b + 1 else b];
    PoppedChained(m, heads, cs, i);
  }

  lemma PushedDistinct(cs: Chains, i: nat, e: Entry)
    requires Distinct(cs) && i < |cs| && OffChains(cs, e)
    ensures Distinct(cs[i := [e] + cs[i]])
  {
    var cs': Chains := cs[i := [e] + cs[i]];
    assert forall j, b | 0 <= j < |cs'| && 0 <= b < |cs'[j]| ::
      cs'[j][b] == if j == i then (if b == 0 then e else cs[i][b - 1]) else cs[j][b];
  }

  /** An entry that is on no chain becomes the first of chain `i`. */
  lemma Pushed(m: Memory, heads: seq<Entry?>, cs: Chains, i: nat, e: Entry, cell: Cell)
    requires Chained(m, heads, cs) && i < |cs| && cell.next == heads[i]
    requires OffChains(cs, e)
    ensures Chained(m[e := cell], heads[i := e], cs[i := [e] + cs[i]])
  {
    PushedDistinct(cs, i, e);
    var heads', cs' := heads[i := e], cs[i := [e] + cs[i]];
    forall j | 0 <= j < |cs'|
      ensures Chain(m[e := cell], heads'[j], cs'[j])
    {
      ChainOf(m, heads, cs, |cs|, j);
      if j == i {
        ChainFrame(m, heads[i], cs[i], e, cell);
        assert cs'[i][1..] == cs[i];
      } else {
        ChainFrame(m, heads[j], cs[j], e, cell);
      }
    }
    AllChained(m[e := cell], heads', cs', |cs|);
  }

  /** Changing the key or the value of an entry leaves the chains alone. */
  lemma Rewritten(m: Memory, heads: seq<Entry?>, cs: Chains, e: Entry, cell: Cell)
    requires Chained(m, heads, cs) && e in m && cell.next == m[e].next
    ensures Chained(m[e := cell], heads, cs)
  {
    forall i | 0 <= i < |cs|
      ensures Chain(m[e := cell], heads[i], cs[i])
    {
      ChainOf(m, heads, cs, |cs|, i);
      ChainRewritten(m, heads[i], cs[i], e, cell);
    }
    AllChained(m[e := cell], heads, cs, |cs|);
  }

  lemma ChainsSplit(m: Memory, heads: seq<Entry?>, cs: Chains, n: nat)
    requires Chained(m, heads, cs) && n <= |cs|
    ensures Chained(m, heads[n..], cs[n..])
  {
    var cs' := cs[n..];
    assert forall j | 0 <= j < |cs'| :: cs'[j] == cs[n + j];
    forall j | 0 <= j < |cs'|
      ensures Chain(m, heads[n..][j], cs'[j])
    {
      ChainOf(m, heads, cs, |cs|, n + j);
    }
    AllChained(m, heads[n..], cs', |cs'|);
  }

  /** Empty chains beside those of a table. */
  lemma ChainsExtended(m: Memory, heads: seq<Entry?>, cs: Chains, heads': seq<Entry?>, cs': Chains)
    requires Chained(m, heads, cs) && |heads'| == |cs'|
    requires forall j | 0 <= j < |cs'| :: heads'[j] == null && cs'[j] == []
    ensures Chained(m, heads + heads', cs + cs')
  {
    var all := cs + cs';
    assert forall j | 0 <= j < |all| :: all[j] == if j < |cs| then cs[j] else [];
    forall j | 0 <= j < |all|
      ensures Chain(m, (heads + heads')[j], all[j])
    {
      if j < |cs| {
        ChainOf(m, heads, cs, |cs|, j);
      }
    }
    AllChained(m, heads + heads', all, |all|);
  }

  // ---------- keys ----------

  type Hash = Key -> nat
  type Equality = (Key, Key) -> bool

  /** An equality that is an equivalence, and a hash that respects it. */
  ghost predicate Compatible(hash: Hash, equal: Equality) {
    && (forall x :: equal(x, x))
    && (forall x, y :: equal(x, y) ==> equal(y, x) && hash(x) == hash(y))
    && (forall x, y, z :: equal(x, y) && equal(y, z) ==> equal(x, z))
  }

  ghost predicate NoTwoEqual(m: Memory, equal: Equality) {
    forall e, f | e in m && f in m && equal(m[e].key, m[f].key) :: e == f
  }

  function Bucket(hash: Hash, k: Key, size: nat): (i: nat)
    requires size > 0
    ensures i < size
  {
    hash(k) % size
  }

  /** Every entry is on the chain of the bucket of its key. */
  ghost predicate Indexed(m: Memory, cs: Chains, hash: Hash) {
    |cs| > 0 && forall e | e in m :: e in cs[Bucket(hash, m[e].key, |cs|)]
  }

  datatype Option<T> = None | Some(value: T)

  /** The finite map that the entries stand for. */
  ghost function Find(m: Memory, equal: Equality, k: Key): Option<Value> {
    if e :| e in m && equal(k, m[e].key) then Some(m[e].value) else None
  }

  lemma Found(m: Memory, hash: Hash, equal: Equality, k: Key, e: Entry)
    requires Compatible(hash, equal) && NoTwoEqual(m, equal) && e in m && equal(k, m[e].key)
    ensures Find(m, equal, k) == Some(m[e].value)
  {
    forall f | f in m && equal(k, m[f].key)
      ensures f == e
    {
      assert equal(m[e].key, k);
    }
  }

  /** If no entry on the chain of the bucket of `k` has a key equal to `k`, none has. */
  lemma NotFound(m: Memory, cs: Chains, hash: Hash, equal: Equality, k: Key)
    requires Compatible(hash, equal) && Indexed(m, cs, hash)
    requires forall e | e in m && e in cs[Bucket(hash, k, |cs|)] :: !equal(k, m[e].key)
    ensures forall e | e in m :: !equal(k, m[e].key)
    ensures Find(m, equal, k) == None
  {
  }

  /** Links do not matter to the map. */
  lemma Relinked(m: Memory, m': Memory, hash: Hash, equal: Equality, k: Key)
    requires Compatible(hash, equal) && NoTwoEqual(m, equal) && SameContents(m, m')
    ensures Find(m', equal, k) == Find(m, equal, k)
  {
    if e :| e in m && equal(k, m[e].key) {
      Found(m, hash, equal, k, e);
      Found(m', hash, equal, k, e);
    }
  }

  ghost predicate SameContents(m: Memory, m': Memory) {
    m'.Keys == m.Keys && forall e | e in m :: m'[e].key == m[e].key && m'[e].value == m[e].value
  }

  /** A new entry for `key`, when no entry had an equal key. */
  lemma FindAdded(m: Memory, hash: Hash, equal: Equality, e: Entry, cell: Cell, k: Key)
    requires Compatible(hash, equal) && NoTwoEqual(m, equal) && e !in m
    requires forall f | f in m :: !equal(cell.key, m[f].key)
    ensures NoTwoEqual(m[e := cell], equal)
    ensures Find(m[e := cell], equal, k) == if equal(k, cell.key) then Some(cell.value) else Find(m, equal, k)
  {
    var m' := m[e := cell];
    assert NoTwoEqual(m', equal);
    if equal(k, cell.key) {
      Found(m', hash, equal, k, e);
    } else if f :| f in m && equal(k, m[f].key) {
      Found(m, hash, equal, k, f);
      Found(m', hash, equal, k, f);
    }
  }

  /** Overwriting the entry of an equal key. */
  lemma FindOverwritten(m: Memory, hash: Hash, equal: Equality, e: Entry, cell: Cell, k: Key)
    requires Compatible(hash, equal) && NoTwoEqual(m, equal) && e in m && equal(cell.key, m[e].key)
    ensures NoTwoEqual(m[e := cell], equal)
    ensures Find(m[e := cell], equal, k) == if equal(k, cell.key) then Some(cell.value) else Find(m, equal, k)
  {
    var m' := m[e := cell];
    OverwrittenNoTwoEqual(m, hash, equal, e, cell);
    assert equal(m[e].key, cell.key);
    if equal(k, cell.key) {
      Found(m', hash, equal, k, e);
    } else if f :| f in m && equal(k, m[f].key) {
      Found(m, hash, equal, k, f);
      Found(m', hash, equal, k, f);
    }
  }

  lemma OverwrittenNoTwoEqual(m: Memory, hash: Hash, equal: Equality, e: Entry, cell: Cell)
    requires Compatible(hash, equal) && NoTwoEqual(m, equal) && e in m && equal(cell.key, m[e].key)
    ensures NoTwoEqual(m[e := cell], equal)
  {
    var m' := m[e := cell];
    forall f, g | f in m' && g in m' && equal(m'[f].key, m'[g].key)
      ensures f == g
    {
      assert equal(m[e].key, cell.key);
    }
  }

  // ---------- the whole table ----------

  /** The entries are where their keys belong, and no two have equal keys. */
  ghost predicate Sound(m: Memory, heads: seq<Entry?>, cs: Chains, hash: Hash, equal: Equality) {
    && Compatible(hash, equal)
    && Chained(m, heads, cs)
    && Indexed(m, cs, hash)
    && NoTwoEqual(m, equal)
  }

  ghost predicate SameMap(m: Memory, m': Memory, equal: Equality) {
    forall k :: Find(m', equal, k) == Find(m, equal, k)
  }

  /** The map with `value` stored for every key equal to `key`. */
  ghost predicate Updated(m: Memory, m': Memory, equal: Equality, key: Key, value: Value) {
    forall k :: Find(m', equal, k) == if equal(k, key) then Some(value) else Find(m, equal, k)
  }

  lemma Added(m: Memory, heads: seq<Entry?>, cs: Chains, hash: Hash, equal: Equality, e: Entry, cell: Cell, i: nat)
    requires Sound(m, heads, cs, hash, equal) && e !in m
    requires i == Bucket(hash, cell.key, |cs|) && cell.next == heads[i]
    requires forall f | f in m :: !equal(cell.key, m[f].key)
    ensures Sound(m[e := cell], heads[i := e], cs[i := [e] + cs[i]], hash, equal)
    ensures Updated(m, m[e := cell], equal, cell.key, cell.value)
  {
    OffAllChains(m, heads, cs, e);
    Pushed(m, heads, cs, i, e, cell);
    FindAdded(m, hash, equal, e, cell, cell.key);
    forall k
      ensures Find(m[e := cell], equal, k) == if equal(k, cell.key) then Some(cell.value) else Find(m, equal, k)
    {
      FindAdded(m, hash, equal, e, cell, k);
    }
  }

  lemma Overwritten(m: Memory, heads: seq<Entry?>, cs: Chains, hash: Hash, equal: Equality, e: Entry, cell: Cell)
    requires Sound(m, heads, cs, hash, equal) && e in m
    requires equal(cell.key, m[e].key) && cell.next == m[e].next
    ensures Sound(m[e := cell], heads, cs, hash, equal)
    ensures Updated(m, m[e := cell], equal, cell.key, cell.value)
  {
    Rewritten(m, heads, cs, e, cell);
    OverwrittenNoTwoEqual(m, hash, equal, e, cell);
    forall k
      ensures Find(m[e := cell], equal, k) == if equal(k, cell.key) then Some(cell.value) else Find(m, equal, k)
    {
      FindOverwritten(m, hash, equal, e, cell, k);
    }
  }

  lemma Rehashed(m: Memory, heads: seq<Entry?>, cs: Chains, m': Memory, heads': seq<Entry?>, cs': Chains,
                 hash: Hash, equal: Equality)
    requires Sound(m, heads, cs, hash, equal) && SameContents(m, m')
    requires Chained(m', heads', cs') && Indexed(m', cs', hash)
    ensures Sound(m', heads', cs', hash, equal) && SameMap(m, m', equal)
  {
    forall k
      ensures Find(m', equal, k) == Find(m, equal, k)
    {
      Relinked(m, m', hash, equal, k);
    }
  }
}
