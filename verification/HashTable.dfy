/** The chained hash table of Collection.c and of HashTable.c. The two files are the same code
    over two key types, so the table is generic: `hash` is the identity on the unsigned keys of
    Collection.c, and StringHash.Hash on the strings of HashTable.c. */
module HashTable {
  import opened Wrappers
  import opened Chains
  import opened Primes

  class Table<K(==), V> {
    const hash: K -> nat
    var nNodes: nat
    var buckets: array<seq<Node<K, V>>>
    // The finite map the table stands for.
    ghost var entries: map<K, V>

    ghost predicate Valid()
      reads this, buckets
    {
      && buckets.Length in PRIMES && 19 <= buckets.Length <= INT_MAX
      && Represents(buckets[..], hash, entries)
      && nNodes == |entries|
    }

    // collection_create, hash_table_create
    constructor (hash: K -> nat)
      ensures Valid() && fresh(buckets) && this.hash == hash
      ensures entries == map[] && buckets.Length == PRIMES[0]
    {
      this.hash := hash;
      nNodes := 0;
      buckets := new seq<Node<K, V>>[19](_ => []);
      entries := map[];
    }

    method Rebuild(count: int)
      requires Valid() && count in PRIMES && 19 <= count <= INT_MAX
      modifies this, buckets
      ensures Valid() && fresh(buckets) && buckets.Length == count
      ensures entries == old(entries) && nNodes == old(nNodes)
    {
      var next := new seq<Node<K, V>>[count](_ => []);
      MoveStart(buckets[..], next[..], hash, entries);
      var i := 0;
      while i < buckets.Length
        invariant 0 <= i <= buckets.Length
        invariant buckets == old(buckets) && entries == old(entries) && nNodes == old(nNodes)
        invariant Moving(buckets[..], next[..], hash, entries)
        invariant forall b :: 0 <= b < i ==> buckets[b] == []
      {
        DrainBucket(next, i);
        i := i + 1;
      }
      MoveEnd(buckets[..], next[..], hash, entries);
      buckets := next;
    }

    // The inner loop of hash_table_rebuild.
    method DrainBucket(next: array<seq<Node<K, V>>>, i: nat)
      requires next != buckets && i < buckets.Length
      requires Moving(buckets[..], next[..], hash, entries)
      modifies buckets, next
      ensures Moving(buckets[..], next[..], hash, entries)
      ensures buckets[i] == []
      ensures forall b :: 0 <= b < buckets.Length && b != i ==> buckets[b] == old(buckets[b])
    {
      while buckets[i] != []
        invariant Moving(buckets[..], next[..], hash, entries)
        invariant forall b :: 0 <= b < buckets.Length && b != i ==> buckets[b] == old(buckets[b])
        decreases |buckets[i]|
      {
        MoveHead(next, i);
      }
    }

    // One iteration of that loop.
    method MoveHead(next: array<seq<Node<K, V>>>, i: nat)
      requires next != buckets
      requires i < buckets.Length && buckets[i] != []
      requires Moving(buckets[..], next[..], hash, entries)
      modifies buckets, next
      ensures Moving(buckets[..], next[..], hash, entries)
      ensures buckets[i] == old(buckets[i])[1..]
      ensures forall b :: 0 <= b < buckets.Length && b != i ==> buckets[b] == old(buckets[b])
    {
      MoveOne(buckets[..], next[..], hash, entries, i);
      ghost var from, to := buckets[..], next[..];
      var n := buckets[i][0];
      var j := hash(n.key) % next.Length;
      next[j] := [n] + next[j];
      buckets[i] := buckets[i][1..];
      assert buckets[..] == from[i := from[i][1..]];
      assert next[..] == to[j := [n] + to[j]];
    }

    method Grow()
      requires Valid() && nNodes < INT_MAX
      modifies this, buckets
      ensures Valid() && (buckets == old(buckets) || fresh(buckets))
      ensures entries == old(entries) && nNodes == old(nNodes)
      ensures old(nNodes <= 3 * buckets.Length) ==> buckets == old(buckets)
      ensures old(nNodes > 3 * buckets.Length) ==> Selected(old(buckets.Length) + 1, buckets.Length)
    {
      if nNodes > 3 * buckets.Length {
        var count := NextPrime(buckets.Length + 1);
        Rebuild(count);
      }
    }

    method Shrink()
      requires Valid()
      modifies this, buckets
      ensures Valid() && (buckets == old(buckets) || fresh(buckets))
      ensures entries == old(entries) && nNodes == old(nNodes)
      ensures old(nNodes <= buckets.Length) ==> buckets == old(buckets)
      ensures old(nNodes > buckets.Length) ==> Selected(old(buckets.Length) / 2, buckets.Length)
    {
      if nNodes > buckets.Length {
        var count := NextPrime(buckets.Length / 2);
        Rebuild(count);
      }
    }

    // The scan all three operations make: the first position of `key` in its chain, or the
    // length of the chain when the key is absent.
    method Find(b: nat, key: K) returns (i: nat)
      requires Valid() && b == hash(key) % buckets.Length
      ensures i <= |buckets[b]|
      ensures i < |buckets[b]| <==> key in entries
      ensures i < |buckets[b]| ==> buckets[b][i] == Node(key, entries[key])
    {
      ChainHasKey(buckets[..], hash, entries, key);
      var chain := buckets[b];
      i := 0;
      while i < |chain| && chain[i].key != key
        invariant i <= |chain|
        invariant forall j :: 0 <= j < i ==> chain[j].key != key
      {
        i := i + 1;
      }
      if i < |chain| {
        assert chain[i] in buckets[..][b];
      }
    }

    // collection_insert, hash_table_insert
    method Insert(key: K, data: V) returns (ret: int)
      requires Valid() && nNodes < INT_MAX
      modifies this, buckets
      ensures Valid() && (buckets == old(buckets) || fresh(buckets))
      ensures ret == if key in old(entries) then -1 else 0
      ensures entries == if key in old(entries) then old(entries) else old(entries)[key := data]
      ensures old(nNodes <= 3 * buckets.Length + 1) ==> nNodes <= 3 * buckets.Length + 1
    {
      Grow();
      var b := hash(key) % buckets.Length;
      var i := Find(b, key);
      if i < |buckets[b]| {
        return -1;
      }
      Prepend(b, key, data);
      ret := 0;
    }

    method Prepend(b: nat, key: K, data: V)
      requires Valid() && b == hash(key) % buckets.Length && key !in entries
      modifies this, buckets
      ensures Valid() && buckets == old(buckets)
      ensures entries == old(entries)[key := data]
      ensures nNodes == old(nNodes) + 1
    {
      AddEntry(buckets[..], hash, entries, key, data);
      ghost var before := buckets[..];
      buckets[b] := [Node(key, data)] + buckets[b];
      assert buckets[..] == before[b := [Node(key, data)] + before[b]];
      nNodes := nNodes + 1;
      entries := entries[key := data];
    }

    // collection_remove, hash_table_remove: the null pointer is None.
    method Remove(key: K) returns (ret: Option<V>)
      requires Valid()
      modifies this, buckets
      ensures Valid() && (buckets == old(buckets) || fresh(buckets))
      ensures ret == if key in old(entries) then Some(old(entries)[key]) else None
      ensures entries == old(entries) - {key}
    {
      Shrink();
      var b := hash(key) % buckets.Length;
      var i := Find(b, key);
      if i == |buckets[b]| {
        return None;
      }
      ret := Some(buckets[b][i].data);
      Unlink(b, key, i);
    }

    method Unlink(b: nat, key: K, i: nat)
      requires Valid() && b == hash(key) % buckets.Length
      requires i < |buckets[b]| && buckets[b][i].key == key && key in entries
      modifies this, buckets
      ensures Valid() && buckets == old(buckets)
      ensures entries == old(entries) - {key}
    {
      DropEntry(buckets[..], hash, entries, key, i);
      ghost var before := buckets[..];
      buckets[b] := buckets[b][..i] + buckets[b][i + 1..];
      assert buckets[..] == before[b := before[b][..i] + before[b][i + 1..]];
      RemovalSize(entries, key);
      nNodes := nNodes - 1;
      entries := entries - {key};
    }

    // collection_lookup, hash_table_lookup: a node found past the head moves to the front.
    method Lookup(key: K) returns (ret: Option<V>)
      requires Valid()
      modifies buckets
      ensures Valid()
      ensures ret == if key in entries then Some(entries[key]) else None
    {
      var b := hash(key) % buckets.Length;
      var i := Find(b, key);
      if i == |buckets[b]| {
        return None;
      }
      ret := Some(buckets[b][i].data);
      if i != 0 {
        MoveToFront(b, i);
      }
    }

    method MoveToFront(b: nat, i: nat)
      requires Valid() && b < buckets.Length && i < |buckets[b]|
      modifies buckets
      ensures Valid()
    {
      FrontEntry(buckets[..], hash, entries, b, i);
      ghost var before := buckets[..];
      buckets[b] := [buckets[b][i]] + buckets[b][..i] + buckets[b][i + 1..];
      assert buckets[..] == before[b := [before[b][i]] + before[b][..i] + before[b][i + 1..]];
    }

    // collection_iterate: until it stops, the callback sees every entry of the map once.
    method Iterate<S>(f: (S, K, V) -> (S, bool), start: S) returns (s: S)
      requires Valid()
      ensures exists list :: ListsMap(list, entries) && s == Visit(f, start, list).0
    {
      s := IterateBuckets(f, start);
      FlatListsMap(buckets[..], hash, entries);
    }

    // The two loops of collection_iterate.
    method IterateBuckets<S>(f: (S, K, V) -> (S, bool), start: S) returns (s: S)
      ensures s == Visit(f, start, Flat(buckets[..])).0
    {
      s := start;
      var i := 0;
      while i < buckets.Length
        invariant 0 <= i <= buckets.Length
        invariant Visit(f, start, Flat(buckets[..][..i])) == (s, true)
      {
        var more: bool;
        VisitBucket(f, start, buckets[..], i, s);
        s, more := IterateChain(f, s, buckets[i]);
        if !more {
          return;
        }
        i := i + 1;
      }
      assert buckets[..][..i] == buckets[..];
    }

    // The inner loop of collection_iterate.
    method IterateChain<S>(f: (S, K, V) -> (S, bool), start: S, c: seq<Node<K, V>>) returns (s: S, more: bool)
      ensures (s, more) == Visit(f, start, c)
    {
      s, more := start, true;
      var j := 0;
      while j < |c| && more
        invariant 0 <= j <= |c|
        invariant Visit(f, start, c[..j]) == (s, true)
        invariant more
      {
        assert c[..j + 1][..j] == c[..j];
        var r := f(s, c[j].key, c[j].data);
        if !r.1 {
          assert c == c[..j + 1] + c[j + 1..];
          VisitAppend(f, start, c[..j + 1], c[j + 1..]);
          return r.0, false;
        }
        s := r.0;
        j := j + 1;
      }
      assert c[..j] == c;
    }

    // Runs a list of calls on one table.
    method Run(ops: seq<TableOp<K, V>>) returns (answers: seq<Answer<V>>)
      requires Valid() && nNodes + |ops| <= INT_MAX
      modifies this, buckets
      ensures Valid() && (buckets == old(buckets) || fresh(buckets))
      ensures answers == MapAnswers(old(entries), ops)
      ensures entries == MapAfter(old(entries), ops)
      ensures (forall i :: 0 <= i < |ops| ==> ops[i].Put?) && old(nNodes <= 3 * buckets.Length + 1) ==>
                nNodes <= 3 * buckets.Length + 1
      decreases |ops|
    {
      if ops == [] {
        return [];
      }
      var a := Perform(ops[0]);
      var rest := Run(ops[1..]);
      answers := [a] + rest;
    }

    method Perform(op: TableOp<K, V>) returns (a: Answer<V>)
      requires Valid() && nNodes < INT_MAX
      modifies this, buckets
      ensures Valid() && (buckets == old(buckets) || fresh(buckets))
      ensures (entries, a) == MapStep(old(entries), op)
      ensures nNodes <= old(nNodes) + 1
      ensures op.Put? && old(nNodes <= 3 * buckets.Length + 1) ==> nNodes <= 3 * buckets.Length + 1
    {
      match op
      case Put(k, v) =>
        var r := Insert(k, v);
        a := Code(r);
      case Delete(k) =>
        var r := Remove(k);
        a := Found(r);
      case Get(k) =>
        var r := Lookup(k);
        a := Found(r);
      case Size =>
        a := Code(nNodes);
      case Resize =>
        var count := NextPrime(buckets.Length / 2);
        Rebuild(count);
        a := Code(0);
    }
  }

  // The calls of a table and what they mean on a finite map.
  datatype TableOp<K, V> = Put(key: K, data: V) | Delete(key: K) | Get(key: K) | Size | Resize
  datatype Answer<V> = Code(code: int) | Found(data: Option<V>)

  ghost function MapStep<K, V>(m: map<K, V>, op: TableOp<K, V>): (map<K, V>, Answer<V>) {
    match op
    case Put(k, v) => if k in m then (m, Code(-1)) else (m[k := v], Code(0))
    case Delete(k) => (m - {k}, Found(if k in m then Some(m[k]) else None))
    case Get(k) => (m, Found(if k in m then Some(m[k]) else None))
    case Size => (m, Code(|m|))
    case Resize => (m, Code(0))
  }

  ghost function MapAnswers<K, V>(m: map<K, V>, ops: seq<TableOp<K, V>>): seq<Answer<V>>
    decreases |ops|
  {
    if ops == [] then [] else [MapStep(m, ops[0]).1] + MapAnswers(MapStep(m, ops[0]).0, ops[1..])
  }

  ghost function MapAfter<K, V>(m: map<K, V>, ops: seq<TableOp<K, V>>): map<K, V>
    decreases |ops|
  {
    if ops == [] then m else MapAfter(MapStep(m, ops[0]).0, ops[1..])
  }
}
