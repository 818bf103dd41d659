/** The chained hash table of `ngx_hash.c`, which grows as it fills. */
module HashTable {
  import opened HashChains

  const NULL: Value := 0

  const PRIMES: seq<nat> := [
    193, 389, 769, 1543, 3079, 6151, 12289, 24593, 49157, 98317,
    196613, 393241, 786433, 1572869, 3145739, 6291469,
    12582917, 25165843, 50331653, 100663319, 201326611,
    402653189, 805306457, 1610612741
  ]

  /** `ngx_hash_table_allocate_table`: how large the next table is. */
  function NewSize(primeIndex: nat, entries: nat): nat {
    if primeIndex < |PRIMES| then PRIMES[primeIndex] else entries * 10
  }

  lemma PrimesGrow(i: nat)
    requires i + 1 < |PRIMES|
    ensures PRIMES[i] + 3 <= PRIMES[i + 1]
  {
  }

  /** The next table is large enough for one more entry. */
  lemma SizeGrows(primeIndex: nat, size: nat, entries: nat)
    requires size > 0 && size <= 3 * entries <= size + 2
    requires primeIndex < |PRIMES| ==> size == PRIMES[primeIndex]
    ensures NewSize(primeIndex + 1, entries) > 0 && 3 * (entries + 1) <= NewSize(primeIndex + 1, entries) + 2
  {
    if primeIndex + 1 < |PRIMES| {
      PrimesGrow(primeIndex);
    }
  }

  /** `ngx_hash_table_new`; the two flags say whether the allocations succeed. */
  method New(hash: Hash, equal: Equality, headOk: bool, tableOk: bool) returns (t: Table?)
    requires Compatible(hash, equal)
    ensures t != null <==> headOk && tableOk
    ensures t != null ==> t.Valid() && fresh(t) && fresh(t.table) && t.nodes == {} && t.table.Length == 193
    ensures t != null ==> forall k :: t.Get(k) == None
  {
    if !headOk || !tableOk {
      return null;
    }
    t := new Table(hash, equal);
  }

  lemma DividesOut(a: nat, b: nat)
    requires b > 0
    ensures a / b > 0 <==> a >= b
  {
  }

  /** While a table of `n` buckets is replaced by one of `size`: an entry is still on the chain of its
      old bucket, or already on that of its new one. */
  ghost predicate Between(m: Memory, cs: Chains, hash: Hash, n: nat, size: nat) {
    && n > 0 && size > 0 && |cs| == n + size
    && forall e | e in m :: e in cs[Bucket(hash, m[e].key, n)] || e in cs[n + Bucket(hash, m[e].key, size)]
  }

  lemma StaysBetween(m: Memory, cs: Chains, hash: Hash, n: nat, size: nat, i: nat, j: nat, e: Entry, cell: Cell)
    requires Between(m, cs, hash, n, size) && i < n && cs[i] != [] && e == cs[i][0] && e in m
    requires cell.key == m[e].key && j == n + Bucket(hash, m[e].key, size)
    ensures Between(m[e := cell], cs[i := cs[i][1..]][j := [e] + cs[j]], hash, n, size)
  {
    var cs' := cs[i := cs[i][1..]][j := [e] + cs[j]];
    forall f | f in m
      ensures f in cs'[Bucket(hash, m[f].key, n)] || f in cs'[n + Bucket(hash, m[f].key, size)]
    {
      assert f in cs[i] ==> f == e || f in cs[i][1..];
    }
  }

  /** The body of the inner loop of `ngx_hash_table_enlarge`, on the snapshot. */
  lemma EntryMoved(m: Memory, heads: seq<Entry?>, cs: Chains, i: nat, j: nat)
    requires Chained(m, heads, cs) && i < |cs| && cs[i] != [] && j < |cs| && i != j
    ensures cs[i][0] in m && heads[i] == cs[i][0]
    ensures var e := cs[i][0];
            Chained(m[e := m[e].(next := heads[j])], heads[i := m[e].next][j := e],
                    cs[i := cs[i][1..]][j := [e] + cs[j]])
  {
    Popped(m, heads, cs, i);
    var e := cs[i][0];
    Pushed(m, heads[i := m[e].next], cs[i := cs[i][1..]], j, e, m[e].(next := heads[j]));
  }

  /** The chains of the old table, then those of the new one; `start` is what the entries held at first. */
  ghost predicate MovingAt(start: Memory, m: Memory, heads: seq<Entry?>, cs: Chains, hash: Hash, n: nat, size: nat) {
    Chained(m, heads, cs) && Between(m, cs, hash, n, size) && SameContents(start, m)
  }

  lemma MovingSizes(start: Memory, m: Memory, heads: seq<Entry?>, cs: Chains, hash: Hash, n: nat, size: nat)
    requires MovingAt(start, m, heads, cs, hash, n, size)
    ensures n > 0 && size > 0 && |heads| == |cs| == n + size
  {
  }

  lemma StaysMoving(start: Memory, m: Memory, heads: seq<Entry?>, cs: Chains, hash: Hash, n: nat, size: nat,
                    i: nat, e: Entry, j: nat)
    requires MovingAt(start, m, heads, cs, hash, n, size) && i < n && heads[i] == e
    ensures cs[i] != [] && cs[i][0] == e && e in m
    ensures j == n + Bucket(hash, m[e].key, size) ==>
              MovingAt(start, m[e := m[e].(next := heads[j])], heads[i := m[e].next][j := e],
                       cs[i := cs[i][1..]][j := [e] + cs[j]], hash, n, size)
  {
    ChainOf(m, heads, cs, |cs|, i);
    if j == n + Bucket(hash, m[e].key, size) {
      EntryMoved(m, heads, cs, i, j);
      StaysBetween(m, cs, hash, n, size, i, j, e, m[e].(next := heads[j]));
    }
  }

  /** When the old chains are empty, every entry is where it belongs in the new table. */
  lemma AllMoved(m: Memory, heads: seq<Entry?>, cs: Chains, hash: Hash, n: nat, size: nat)
    requires Chained(m, heads, cs) && Between(m, cs, hash, n, size)
    requires forall i | 0 <= i < n :: cs[i] == []
    ensures Chained(m, heads[n..], cs[n..]) && Indexed(m, cs[n..], hash)
  {
    ChainsSplit(m, heads, cs, n);
    forall e | e in m
      ensures e in cs[n..][Bucket(hash, m[e].key, size)]
    {
      assert cs[Bucket(hash, m[e].key, n)] == [];
    }
  }

  class Table {
    var table: array<Entry?>
    const hash: Hash
    const equal: Equality
    var entries: nat
    var primeIndex: nat
    ghost var nodes: set<Entry>
    ghost var chains: Chains

    ghost function Memory(): (m: Memory)
      reads this`nodes, nodes
      ensures m.Keys == nodes
    {
      Snapshot(nodes)
    }

    ghost predicate Held()
      reads this`table, this`entries, this`nodes, this`chains, table, nodes
    {
      Sound(Memory(), table[..], chains, hash, equal) && |nodes| == entries
    }

    ghost predicate Sized()
      reads this`table, this`entries, this`primeIndex
    {
      && 3 * entries <= table.Length + 2
      && (primeIndex < |PRIMES| ==> table.Length == PRIMES[primeIndex])
    }

    ghost predicate Valid()
      reads this, table, nodes
    {
      Held() && Sized()
    }

    /** The value stored for a key equal to `k`, if any. */
    ghost function Get(k: Key): Option<Value>
      reads this`nodes, nodes
    {
      Find(Memory(), equal, k)
    }

    /** `ngx_hash_table_new`, when both allocations succeed. */
    constructor (hash: Hash, equal: Equality)
      requires Compatible(hash, equal)
      ensures this.hash == hash && this.equal == equal
      ensures Valid() && fresh(table) && nodes == {} && forall k :: Get(k) == None
      ensures table.Length == 193 && primeIndex == 0 && entries == 0
    {
      this.hash, this.equal := hash, equal;
      entries, primeIndex := 0, 0;
      var size := NewSize(0, 0);
      table := new Entry?[size](_ => null);
      chains := seq(size, _ => []);
      nodes := {};
      new;
      AllChained(Memory(), table[..], chains, |chains|);
    }

    /** The loop of `ngx_hash_table_lookup` and of `ngx_hash_table_insert`. */
    method Walk(head: Entry?, k: Key, ghost c: seq<Entry>) returns (rover: Entry?)
      requires Chain(Memory(), head, c)
      ensures if rover != null then rover in nodes && equal(k, rover.key)
              else forall e | e in c && e in nodes :: !equal(k, e.key)
    {
      rover := head;
      ghost var rest := c;
      while rover != null
        invariant Chain(Memory(), rover, rest)
        invariant forall e | e in c && e in nodes :: e in rest || !equal(k, e.key)
        decreases |rest|
      {
        if equal(k, rover.key) {
          return;
        }
        rover := rover.next;
        rest := rest[1..];
      }
    }

    /** The entry whose key equals `k`, or null. */
    method Search(k: Key) returns (rover: Entry?)
      requires Held()
      ensures if rover != null then rover in nodes && equal(k, rover.key) && Get(k) == Some(rover.value)
              else Get(k) == None && forall e | e in nodes :: !equal(k, e.key)
    {
      var i := Bucket(hash, k, table.Length);
      ChainOf(Memory(), table[..], chains, |chains|, i);
      rover := Walk(table[i], k, chains[i]);
      if rover != null {
        Found(Memory(), hash, equal, k, rover);
      } else {
        NotFound(Memory(), chains, hash, equal, k);
      }
    }

    /** `ngx_hash_table_lookup` */
    method Lookup(k: Key) returns (value: Value)
      requires Valid()
      ensures value == match Get(k) case Some(v) => v case None => NULL
    {
      var rover := Search(k);
      if rover != null {
        return rover.value;
      }
      return NULL;
    }

    ghost predicate Moving(oldHeads: seq<Entry?>, newTable: array<Entry?>, cs: Chains, start: Memory)
      reads this`nodes, nodes, newTable
    {
      MovingAt(start, Memory(), oldHeads + newTable[..], cs, hash, |oldHeads|, newTable.Length)
    }

    method Prepend(rover: Entry, newTable: array<Entry?>, index: nat)
      requires rover in nodes && index < newTable.Length
      modifies rover`next, newTable
      ensures Memory() == old(Memory())[rover := old(Memory())[rover].(next := old(newTable[index]))]
      ensures newTable[..] == old(newTable[..])[index := rover]
    {
      rover.next := newTable[index];
      newTable[index] := rover;
    }

    /** The body of the inner loop of `ngx_hash_table_enlarge`. */
    method MoveEntry(rover: Entry, newTable: array<Entry?>, ghost oldHeads: seq<Entry?>, ghost cs: Chains,
                     ghost start: Memory, ghost i: nat)
      returns (next: Entry?, ghost oldHeads': seq<Entry?>, ghost cs': Chains)
      requires Moving(oldHeads, newTable, cs, start)
      requires i < |oldHeads| && oldHeads[i] == rover
      modifies nodes`next, newTable
      ensures oldHeads' == oldHeads[i := next] && Moving(oldHeads', newTable, cs', start)
      ensures |cs'[i]| < |cs[i]| && forall k | 0 <= k < |oldHeads| && k != i :: cs'[k] == cs[k]
    {
      hide MovingAt;
      ghost var m, heads := Memory(), oldHeads + newTable[..];
      MovingSizes(start, m, heads, cs, hash, |oldHeads|, newTable.Length);
      StaysMoving(start, m, heads, cs, hash, |oldHeads|, newTable.Length, i, rover,
                  |oldHeads| + Bucket(hash, rover.key, newTable.Length));
      next := rover.next;

      var index := Bucket(hash, rover.key, newTable.Length);
      Prepend(rover, newTable, index);

      ghost var j := |oldHeads| + index;
      oldHeads', cs' := oldHeads[i := next], cs[i := cs[i][1..]][j := [rover] + cs[j]];
      assert oldHeads' + newTable[..] == heads[i := next][j := rover];
    }

    /** The inner loop of `ngx_hash_table_enlarge`: bucket `i` is emptied. */
    method MoveBucket(newTable: array<Entry?>, ghost oldHeads: seq<Entry?>, ghost cs: Chains, ghost start: Memory,
                      head: Entry?, ghost i: nat)
      returns (ghost oldHeads': seq<Entry?>, ghost cs': Chains)
      requires Moving(oldHeads, newTable, cs, start)
      requires i < |oldHeads| && oldHeads[i] == head
      modifies nodes`next, newTable
      ensures oldHeads' == oldHeads[i := null] && Moving(oldHeads', newTable, cs', start)
      ensures cs'[i] == [] && forall k | 0 <= k < |oldHeads| && k != i :: cs'[k] == cs[k]
    {
      var rover := head;
      oldHeads', cs' := oldHeads, cs;
      while rover != null
        invariant oldHeads' == oldHeads[i := rover] && Moving(oldHeads', newTable, cs', start)
        invariant forall k | 0 <= k < |oldHeads| && k != i :: cs'[k] == cs[k]
        decreases |cs'[i]|
      {
        rover, oldHeads', cs' := MoveEntry(rover, newTable, oldHeads', cs', start, i);
      }
      ChainOf(Memory(), oldHeads' + newTable[..], cs', |cs'|, i);
    }

    /** The loops of `ngx_hash_table_enlarge`: every entry moves to its bucket of the new table. */
    method MoveAll(newTable: array<Entry?>) returns (ghost moved: Chains)
      requires Held() && newTable != table && newTable.Length > 0
      requires forall i | 0 <= i < newTable.Length :: newTable[i] == null
      modifies newTable, nodes`next
      ensures SameContents(old(Memory()), Memory())
      ensures Chained(Memory(), newTable[..], moved) && Indexed(Memory(), moved, hash)
    {
      ghost var oldHeads, m := table[..], Memory();
      ghost var cs: Chains := chains + seq(newTable.Length, _ => []);
      ChainsExtended(Memory(), table[..], chains, newTable[..], seq(newTable.Length, _ => []));
      for i := 0 to table.Length
        invariant |oldHeads| == table.Length && Moving(oldHeads, newTable, cs, m)
        invariant forall j | i <= j < table.Length :: oldHeads[j] == table[j]
        invariant forall j | 0 <= j < i :: cs[j] == []
      {
        oldHeads, cs := MoveBucket(newTable, oldHeads, cs, m, table[i], i);
      }
      AllMoved(Memory(), oldHeads + newTable[..], cs, hash, |oldHeads|, newTable.Length);
      moved := cs[|oldHeads|..];
      assert (oldHeads + newTable[..])[|oldHeads|..] == newTable[..];
    }

    /** The entries move to `newTable`, which takes the place of the old one. */
    method Replace(newTable: array<Entry?>)
      requires Held() && newTable != table && newTable.Length > 0
      requires forall i | 0 <= i < newTable.Length :: newTable[i] == null
      modifies this`table, this`chains, newTable, nodes`next
      ensures Held() && table == newTable && SameMap(old(Memory()), Memory(), equal)
    {
      hide Chained, Indexed;
      ghost var m, heads, cs := Memory(), table[..], chains;
      chains := MoveAll(newTable);
      table := newTable;
      Rehashed(m, heads, cs, Memory(), table[..], chains, hash, equal);
    }

    method Rebuild(size: nat)
      requires Held() && size > 0
      modifies this`table, this`chains, nodes`next
      ensures Held() && fresh(table) && table.Length == size && SameMap(old(Memory()), Memory(), equal)
    {
      var newTable := new Entry?[size](_ => null);
      assert table[..] == old(table[..]) && Memory() == old(Memory());
      Replace(newTable);
    }

    lemma HeldInBuckets()
      requires Held()
      ensures table.Length > 0
    {
    }

    /** `ngx_hash_table_enlarge`; `tableOk` says whether the new table can be allocated. */
    method Enlarge(tableOk: bool) returns (ok: bool)
      requires Valid() && 3 * entries >= table.Length
      modifies this`table, this`chains, this`primeIndex, nodes`next
      ensures ok == tableOk && Valid() && SameMap(old(Memory()), Memory(), equal)
      ensures if ok then fresh(table) && 3 * (entries + 1) <= table.Length + 2
              else table == old(table) && Memory() == old(Memory()) && primeIndex == old(primeIndex)
      ensures ok ==> primeIndex == old(primeIndex) + 1 && table.Length == NewSize(primeIndex, entries)
    {
      hide Sound;
      HeldInBuckets();
      var oldPrimeIndex := primeIndex;

      primeIndex := primeIndex + 1;
      assert Memory() == old(Memory()) && Held();

      if !tableOk {
        primeIndex := oldPrimeIndex;
        return false;
      }

      SizeGrows(oldPrimeIndex, table.Length, entries);
      Rebuild(NewSize(primeIndex, entries));
      return true;
    }

    /** `pair->key = key; pair->value = value;` */
    method Overwrite(rover: Entry, key: Key, value: Value)
      requires Held() && rover in nodes && equal(key, rover.key)
      modifies rover`key, rover`value
      ensures Held() && Updated(old(Memory()), Memory(), equal, key, value)
    {
      ghost var m, cell := Memory(), Cell(key, value, rover.next);
      rover.key := key;
      rover.value := value;
      assert Memory() == m[rover := cell];
      Overwritten(m, table[..], chains, hash, equal, rover, cell);
    }

    /** A new entry becomes the first of its bucket. */
    method Link(key: Key, value: Value, index: nat) returns (newEntry: Entry)
      requires index < table.Length == |chains|
      modifies this`entries, this`nodes, this`chains, table
      ensures fresh(newEntry) && nodes == old(nodes) + {newEntry} && entries == old(entries) + 1
      ensures Memory() == old(Memory())[newEntry := Cell(key, value, old(table[index]))]
      ensures table[..] == old(table[..])[index := newEntry]
      ensures chains == old(chains)[index := [newEntry] + old(chains)[index]]
    {
      newEntry := new Entry(key, value, table[index]);
      table[index] := newEntry;
      entries := entries + 1;
      nodes := nodes + {newEntry};
      chains := chains[index := [newEntry] + chains[index]];
    }

    method AddEntry(key: Key, value: Value)
      requires Held() && forall e | e in Memory() :: !equal(key, Memory()[e].key)
      modifies this`entries, this`nodes, this`chains, table
      ensures Held() && entries == old(entries) + 1 && fresh(nodes - old(nodes))
      ensures Updated(old(Memory()), Memory(), equal, key, value)
    {
      ghost var m, heads, cs := Memory(), table[..], chains;
      var index := Bucket(hash, key, table.Length);
      ghost var cell := Cell(key, value, table[index]);
      var newEntry := Link(key, value, index);
      Added(m, heads, cs, hash, equal, newEntry, cell, index);
    }

    /** `ngx_hash_table_insert` once the table is large enough. */
    method Store(key: Key, value: Value, entryOk: bool) returns (ok: bool)
      requires Valid() && 3 * (entries + 1) <= table.Length + 2
      modifies this`entries, this`nodes, this`chains, table, nodes
      ensures Valid() && fresh(nodes - old(nodes))
      ensures ok <==> old(Get(key)) != None || entryOk
      ensures if ok then Updated(old(Memory()), Memory(), equal, key, value) else Memory() == old(Memory())
    {
      hide Sound;
      var rover := Search(key);
      if rover != null {
        Overwrite(rover, key, value);
        return true;
      }
      if !entryOk {
        return false;
      }
      AddEntry(key, value);
      return true;
    }

    /** The table is enlarged if it is a third full. */
    method MakeRoom(tableOk: bool) returns (ok: bool)
      requires Valid()
      modifies this`table, this`chains, this`primeIndex, nodes`next
      ensures Valid() && (table == old(table) || fresh(table)) && SameMap(old(Memory()), Memory(), equal)
      ensures ok <==> 3 * entries >= old(table.Length) ==> tableOk
      ensures ok ==> 3 * (entries + 1) <= table.Length + 2
      ensures if ok && 3 * entries >= old(table.Length) then
                primeIndex == old(primeIndex) + 1 && table.Length == NewSize(primeIndex, entries)
              else primeIndex == old(primeIndex) && table == old(table)
    {
      HeldInBuckets();
      DividesOut(entries * 3, table.Length);
      if entries * 3 / table.Length > 0 {
        ok := Enlarge(tableOk);
        return;
      }
      return true;
    }

    /** `ngx_hash_table_insert`; `tableOk` and `entryOk` say whether the allocations succeed. */
    method Insert(key: Key, value: Value, tableOk: bool, entryOk: bool) returns (ok: bool)
      requires Valid()
      modifies this, table, nodes
      ensures Valid() && fresh(nodes - old(nodes)) && (table == old(table) || fresh(table))
      ensures ok <==> (3 * old(entries) >= old(table.Length) ==> tableOk) && (old(Get(key)) != None || entryOk)
      ensures if 3 * old(entries) >= old(table.Length) && tableOk then
                primeIndex == old(primeIndex) + 1 && table.Length == NewSize(primeIndex, old(entries))
              else primeIndex == old(primeIndex) && table == old(table)
      ensures forall k :: Get(k) == if ok && equal(k, key) then Some(value) else old(Get(k))
    {
      hide Sound;
      ok := MakeRoom(tableOk);
      if ok {
        ok := Store(key, value, entryOk);
      }
    }
  }
}
