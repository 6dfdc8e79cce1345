/** Chained buckets as values: what an array of chains holds, and the two facts the table code
    relies on: moving a node between arrays during a rebuild, and the listing of all chains. */
module Chains {
  datatype Node<+K, +V> = Node(key: K, data: V)

  // Every node sits in the bucket its key selects and carries the map's value for its key.
  ghost predicate Placed<K, V>(bs: seq<seq<Node<K, V>>>, hash: K -> nat, m: map<K, V>) {
    forall b, n :: 0 <= b < |bs| && n in bs[b] ==>
      hash(n.key) % |bs| == b && n.key in m && m[n.key] == n.data
  }

  ghost predicate NoDuplicates<K, V>(chain: seq<Node<K, V>>) {
    forall i, j :: 0 <= i < j < |chain| ==> chain[i].key != chain[j].key
  }

  ghost predicate Listed<K, V>(bs: seq<seq<Node<K, V>>>, hash: K -> nat, k: K, v: V)
    requires |bs| > 0
  {
    Node(k, v) in bs[hash(k) % |bs|]
  }

  // The buckets hold exactly the map.
  ghost predicate Represents<K, V>(bs: seq<seq<Node<K, V>>>, hash: K -> nat, m: map<K, V>) {
    && |bs| > 0
    && Placed(bs, hash, m)
    && (forall b :: 0 <= b < |bs| ==> NoDuplicates(bs[b]))
    && (forall k :: k in m ==> Listed(bs, hash, k, m[k]))
  }

  // Halfway through a rebuild: every entry is in exactly one of the two bucket arrays.
  ghost predicate Moving<K, V>(from: seq<seq<Node<K, V>>>, to: seq<seq<Node<K, V>>>, hash: K -> nat, m: map<K, V>) {
    && |from| > 0 && |to| > 0
    && Placed(from, hash, m) && Placed(to, hash, m)
    && (forall b :: 0 <= b < |from| ==> NoDuplicates(from[b]))
    && (forall b :: 0 <= b < |to| ==> NoDuplicates(to[b]))
    && (forall k :: k in m ==> (Listed(from, hash, k, m[k]) <==> !Listed(to, hash, k, m[k])))
  }

  lemma PrependNode<K, V>(n: Node<K, V>, chain: seq<Node<K, V>>)
    requires NoDuplicates(chain) && forall o :: o in chain ==> o.key != n.key
    ensures NoDuplicates([n] + chain)
  {
  }

  lemma MoveOne<K, V>(from: seq<seq<Node<K, V>>>, to: seq<seq<Node<K, V>>>, hash: K -> nat, m: map<K, V>, b: nat)
    requires Moving(from, to, hash, m) && b < |from| && from[b] != []
    ensures var n := from[b][0];
            var j := hash(n.key) % |to|;
            Moving(from[b := from[b][1..]], to[j := [n] + to[j]], hash, m)
  {
    var n := from[b][0];
    var j := hash(n.key) % |to|;
    var from' := from[b := from[b][1..]];
    var to' := to[j := [n] + to[j]];
    assert n in from[b];
    assert from[b] == [n] + from[b][1..];
    assert Listed(from, hash, n.key, m[n.key]);
    forall o | o in to[j] ensures o.key != n.key {
      assert o.key == n.key ==> o == n;
    }
    PrependNode(n, to[j]);
    assert forall o :: o in from[b][1..] ==> o in from[b] && o.key != n.key;
    forall k | k in m
      ensures Listed(from', hash, k, m[k]) <==> !Listed(to', hash, k, m[k])
    {
      if k == n.key {
        assert !Listed(from', hash, k, m[k]);
      } else {
        assert Node(k, m[k]) != n;
        assert Listed(from', hash, k, m[k]) == Listed(from, hash, k, m[k]);
        assert Listed(to', hash, k, m[k]) == Listed(to, hash, k, m[k]);
      }
    }
  }

  lemma MoveStart<K, V>(from: seq<seq<Node<K, V>>>, to: seq<seq<Node<K, V>>>, hash: K -> nat, m: map<K, V>)
    requires Represents(from, hash, m) && |to| > 0
    requires forall b :: 0 <= b < |to| ==> to[b] == []
    ensures Moving(from, to, hash, m)
  {
  }

  lemma MoveEnd<K, V>(from: seq<seq<Node<K, V>>>, to: seq<seq<Node<K, V>>>, hash: K -> nat, m: map<K, V>)
    requires Moving(from, to, hash, m)
    requires forall b :: 0 <= b < |from| ==> from[b] == []
    ensures Represents(to, hash, m)
  {
    forall k | k in m ensures Listed(to, hash, k, m[k]) {
      assert !Listed(from, hash, k, m[k]);
    }
  }

  // A chain holds a key exactly when the map does.
  lemma ChainHasKey<K, V>(bs: seq<seq<Node<K, V>>>, hash: K -> nat, m: map<K, V>, k: K)
    requires Represents(bs, hash, m)
    ensures k in m <==> exists n :: n in bs[hash(k) % |bs|] && n.key == k
  {
    if k in m {
      assert Listed(bs, hash, k, m[k]);
      assert Node(k, m[k]).key == k;
    }
  }

  lemma AddEntry<K, V>(bs: seq<seq<Node<K, V>>>, hash: K -> nat, m: map<K, V>, k: K, v: V)
    requires Represents(bs, hash, m) && k !in m
    ensures var b := hash(k) % |bs|;
            Represents(bs[b := [Node(k, v)] + bs[b]], hash, m[k := v])
  {
    var b := hash(k) % |bs|;
    var bs' := bs[b := [Node(k, v)] + bs[b]];
    PrependNode(Node(k, v), bs[b]);
    var m' := m[k := v];
    forall x | x in m' ensures Listed(bs', hash, x, m'[x]) {
      if x != k { assert Listed(bs, hash, x, m[x]); }
    }
  }

  lemma RemovalSize<K, V>(m: map<K, V>, k: K)
    requires k in m
    ensures |m - {k}| == |m| - 1
  {
    assert m.Keys == (m - {k}).Keys + {k};
  }

  lemma CutMembers<K, V>(chain: seq<Node<K, V>>, i: nat)
    requires i < |chain| && NoDuplicates(chain)
    ensures var rest := chain[..i] + chain[i + 1..];
            NoDuplicates(rest) && forall n :: n in rest <==> n in chain && n != chain[i]
  {
    var rest := chain[..i] + chain[i + 1..];
    forall n ensures n in rest <==> n in chain && n != chain[i] {
      if n in chain && n != chain[i] {
        var j :| 0 <= j < |chain| && chain[j] == n;
        assert if j < i then rest[j] == n else rest[j - 1] == n;
      }
    }
  }

  lemma DropListed<K, V>(bs: seq<seq<Node<K, V>>>, hash: K -> nat, b: nat, rest: seq<Node<K, V>>, gone: Node<K, V>, k: K, v: V)
    requires b < |bs| && Listed(bs, hash, k, v) && gone.key != k
    requires forall n :: n in rest <==> n in bs[b] && n != gone
    ensures Listed(bs[b := rest], hash, k, v)
  {
  }

  lemma DropPlaced<K, V>(bs: seq<seq<Node<K, V>>>, hash: K -> nat, m: map<K, V>, b: nat, rest: seq<Node<K, V>>, k: K)
    requires b < |bs| && Placed(bs, hash, m)
    requires forall n :: n in rest ==> n in bs[b] && n.key != k
    requires k in m && hash(k) % |bs| == b
    ensures Placed(bs[b := rest], hash, m - {k})
  {
  }

  lemma DropEntry<K, V>(bs: seq<seq<Node<K, V>>>, hash: K -> nat, m: map<K, V>, k: K, i: nat)
    requires Represents(bs, hash, m)
    requires var chain := bs[hash(k) % |bs|]; i < |chain| && chain[i].key == k
    ensures var b := hash(k) % |bs|;
            Represents(bs[b := bs[b][..i] + bs[b][i + 1..]], hash, m - {k})
  {
    hide Listed;
    var b := hash(k) % |bs|;
    var chain := bs[b];
    var rest := chain[..i] + chain[i + 1..];
    CutMembers(chain, i);
    assert chain[i] in bs[b];
    assert forall n :: n in rest ==> n.key != k by { KeyGone(chain, i); }
    DropPlaced(bs, hash, m, b, rest, k);
    hide Placed, NoDuplicates;
    forall x | x in m && x != k ensures Listed(bs[b := rest], hash, x, m[x]) {
      DropListed(bs, hash, b, rest, chain[i], x, m[x]);
    }
  }

  lemma KeyGone<K, V>(chain: seq<Node<K, V>>, i: nat)
    requires i < |chain| && NoDuplicates(chain)
    ensures forall n :: n in chain[..i] + chain[i + 1..] ==> n.key != chain[i].key
  {
  }

  lemma FrontOfChain<K, V>(chain: seq<Node<K, V>>, i: nat)
    requires i < |chain| && NoDuplicates(chain)
    ensures var moved := [chain[i]] + chain[..i] + chain[i + 1..];
            NoDuplicates(moved) && forall n :: n in moved <==> n in chain
  {
    var moved := [chain[i]] + chain[..i] + chain[i + 1..];
    forall n ensures n in moved <==> n in chain {
      if n in chain {
        var j :| 0 <= j < |chain| && chain[j] == n;
        assert if j == i then moved[0] == n else if j < i then moved[j + 1] == n else moved[j] == n;
      }
    }
  }

  // Moving a node to the front of its chain leaves what the buckets hold unchanged.
  lemma FrontEntry<K, V>(bs: seq<seq<Node<K, V>>>, hash: K -> nat, m: map<K, V>, b: nat, i: nat)
    requires Represents(bs, hash, m) && b < |bs| && i < |bs[b]|
    ensures Represents(bs[b := [bs[b][i]] + bs[b][..i] + bs[b][i + 1..]], hash, m)
  {
    var bs' := bs[b := [bs[b][i]] + bs[b][..i] + bs[b][i + 1..]];
    FrontOfChain(bs[b], i);
    forall x | x in m ensures Listed(bs', hash, x, m[x]) {
      assert Listed(bs, hash, x, m[x]);
    }
  }

  // All nodes, bucket after bucket, in the order collection_iterate visits them.
  ghost function Flat<K, V>(bs: seq<seq<Node<K, V>>>): seq<Node<K, V>> {
    if bs == [] then [] else Flat(bs[..|bs| - 1]) + bs[|bs| - 1]
  }

  lemma {:induction false} FlatPrefix<K, V>(bs: seq<seq<Node<K, V>>>, c: nat)
    requires c <= |bs|
    ensures exists rest :: Flat(bs) == Flat(bs[..c]) + rest
    decreases |bs|
  {
    if c == |bs| {
      assert bs[..c] == bs;
      assert Flat(bs) == Flat(bs[..c]) + [];
    } else {
      var front, last := bs[..|bs| - 1], bs[|bs| - 1];
      FlatPrefix(front, c);
      assert front[..c] == bs[..c];
      var rest :| Flat(front) == Flat(front[..c]) + rest;
      assert Flat(bs) == Flat(bs[..c]) + (rest + last);
    }
  }

  lemma {:induction false} FlatMember<K, V>(bs: seq<seq<Node<K, V>>>, n: Node<K, V>)
    ensures n in Flat(bs) <==> exists b :: 0 <= b < |bs| && n in bs[b]
  {
    if bs != [] {
      FlatMember(bs[..|bs| - 1], n);
      if n in Flat(bs[..|bs| - 1]) {
        var b :| 0 <= b < |bs| - 1 && n in bs[..|bs| - 1][b];
        assert n in bs[b];
      } else if b :| 0 <= b < |bs| && n in bs[b] {
        if b < |bs| - 1 { assert n in bs[..|bs| - 1][b]; }
      }
    }
  }

  lemma {:induction false} FlatPrefixNoDuplicates<K, V>(bs: seq<seq<Node<K, V>>>, hash: K -> nat, m: map<K, V>, c: nat)
    requires Represents(bs, hash, m) && c <= |bs|
    ensures NoDuplicates(Flat(bs[..c]))
  {
    if c > 0 {
      FlatPrefixNoDuplicates(bs, hash, m, c - 1);
      assert bs[..c][..c - 1] == bs[..c - 1];
      var front, chain := Flat(bs[..c - 1]), bs[c - 1];
      forall x, y | x in front && y in chain ensures x.key != y.key {
        FlatMember(bs[..c - 1], x);
        var b :| 0 <= b < c - 1 && x in bs[..c - 1][b];
        assert x in bs[b];
      }
      assert forall i :: 0 <= i < |front| ==> front[i] in front;
      assert forall i :: 0 <= i < |chain| ==> chain[i] in chain;
      assert NoDuplicates(chain);
    }
  }

  // A list that shows every entry of the map once and nothing else.
  ghost predicate ListsMap<K, V>(list: seq<Node<K, V>>, m: map<K, V>) {
    && NoDuplicates(list) && |list| == |m|
    && (forall n :: n in list ==> n.key in m && m[n.key] == n.data)
    && (forall k :: k in m ==> Node(k, m[k]) in list)
  }

  // The listing visits every entry of the map once and nothing else.
  lemma FlatListsMap<K, V>(bs: seq<seq<Node<K, V>>>, hash: K -> nat, m: map<K, V>)
    requires Represents(bs, hash, m)
    ensures ListsMap(Flat(bs), m)
  {
    var list := Flat(bs);
    assert bs[..|bs|] == bs;
    FlatPrefixNoDuplicates(bs, hash, m, |bs|);
    forall n | n in list ensures n.key in m && m[n.key] == n.data {
      FlatMember(bs, n);
    }
    forall k | k in m ensures Node(k, m[k]) in list {
      assert Listed(bs, hash, k, m[k]);
      FlatMember(bs, Node(k, m[k]));
    }
    forall k | k in m.Keys ensures exists n :: n in list && n.key == k {
      assert Node(k, m[k]).key == k;
    }
    ListingSize(list, m.Keys);
  }

  lemma {:induction false} ListingSize<K, V>(list: seq<Node<K, V>>, keys: set<K>)
    requires NoDuplicates(list)
    requires forall n :: n in list ==> n.key in keys
    requires forall k :: k in keys ==> exists n :: n in list && n.key == k
    ensures |list| == |keys|
  {
    if list == [] {
      assert keys == {};
    } else {
      var rest, k0 := list[1..], list[0].key;
      assert list == [list[0]] + rest;
      assert list[0] in list;
      forall k | k in keys - {k0} ensures exists n :: n in rest && n.key == k {
        var n :| n in list && n.key == k;
        assert n in rest;
      }
      forall n | n in rest ensures n.key in keys - {k0} {
        assert n in list;
        var i :| 0 <= i < |rest| && rest[i] == n;
        assert list[i + 1] == n;
      }
      ListingSize(rest, keys - {k0});
    }
  }

  // A callback run over a list of nodes: it threads a state and says whether to go on.
  ghost function Visit<K, V, S>(f: (S, K, V) -> (S, bool), s: S, list: seq<Node<K, V>>): (S, bool) {
    if list == [] then (s, true)
    else
      var (before, more) := Visit(f, s, list[..|list| - 1]);
      if more then f(before, list[|list| - 1].key, list[|list| - 1].data) else (before, false)
  }

  lemma {:induction false} VisitAppend<K, V, S>(f: (S, K, V) -> (S, bool), s: S, a: seq<Node<K, V>>, b: seq<Node<K, V>>)
    ensures Visit(f, s, a + b) ==
            var (mid, more) := Visit(f, s, a);
            if more then Visit(f, mid, b) else (mid, false)
  {
    if b == [] {
      assert a + b == a;
    } else {
      assert (a + b)[..|a + b| - 1] == a + b[..|b| - 1];
      VisitAppend(f, s, a, b[..|b| - 1]);
    }
  }

  // One more bucket of the listing, and what a stop there means for the whole listing.
  lemma VisitBucket<K, V, S>(f: (S, K, V) -> (S, bool), s: S, bs: seq<seq<Node<K, V>>>, i: nat, mid: S)
    requires i < |bs| && Visit(f, s, Flat(bs[..i])) == (mid, true)
    ensures Visit(f, s, Flat(bs[..i + 1])) == Visit(f, mid, bs[i])
    ensures !Visit(f, mid, bs[i]).1 ==> Visit(f, s, Flat(bs)) == Visit(f, mid, bs[i])
  {
    assert bs[..i + 1][..i] == bs[..i];
    VisitAppend(f, s, Flat(bs[..i]), bs[i]);
    FlatPrefix(bs, i + 1);
    var rest :| Flat(bs) == Flat(bs[..i + 1]) + rest;
    VisitAppend(f, s, Flat(bs[..i + 1]), rest);
  }

  // A callback that stops at the first entry satisfying p, and so finds out whether there is one.
  lemma {:induction false} VisitSearch<K, V>(f: (bool, K, V) -> (bool, bool), p: (K, V) -> bool, list: seq<Node<K, V>>)
    requires forall found, k, v :: f(found, k, v) == if p(k, v) then (true, false) else (found, true)
    ensures Visit(f, false, list).0 <==> exists n :: n in list && p(n.key, n.data)
    ensures Visit(f, false, list).0 <==> !Visit(f, false, list).1
  {
    if list != [] {
      var front, last := list[..|list| - 1], list[|list| - 1];
      VisitSearch(f, p, front);
      assert list == front + [last];
      assert last in list;
    }
  }
}
