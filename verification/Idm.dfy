/** The id allocator of IDM.c: a linked list of inclusive intervals of free ids.
    The list is kept in the field `list`; each branch of idm_return is one branch of `Return`. */
module Idm {
  datatype Interval = Interval(start: nat, end: nat)

  // Sorted, disjoint and non-adjacent.
  ghost predicate Canonical(l: seq<Interval>) {
    && (forall k :: 0 <= k < |l| ==> l[k].start <= l[k].end)
    && (forall j, k :: 0 <= j < k < |l| ==> l[j].end + 1 < l[k].start)
  }

  // The ids from lo to hi, both included.
  ghost function Ids(lo: nat, hi: nat): (s: set<nat>)
    ensures forall x :: x in s <==> lo <= x <= hi
    decreases hi - lo
  {
    if lo > hi then {} else {lo} + Ids(lo + 1, hi)
  }

  ghost function Range(i: Interval): set<nat> {
    Ids(i.start, i.end)
  }

  // The ids a list of intervals holds.
  ghost function FreeSet(l: seq<Interval>): set<nat> {
    if l == [] then {} else Range(l[0]) + FreeSet(l[1..])
  }

  ghost predicate IsLeast(id: nat, s: set<nat>) {
    id in s && forall x :: x in s ==> id <= x
  }

  // The one family of ids that idm_return drops: the free ids below `id` form one block that
  // ends right before it, `id + 1` is taken, and some larger id is free.
  ghost predicate Dropped(free: set<nat>, id: nat) {
    && id - 1 in free && id !in free && id + 1 !in free
    && (exists y :: y in free && id < y)
    && (forall x, y :: x in free && x <= y < id ==> y in free)
  }

  // What idm_return does to the set of free ids.
  ghost function Returned(free: set<nat>, id: nat): set<nat> {
    if Dropped(free, id) then free else free + {id}
  }

  lemma {:induction false} FreeSetAppend(a: seq<Interval>, b: seq<Interval>)
    ensures FreeSet(a + b) == FreeSet(a) + FreeSet(b)
  {
    if a == [] {
      assert a + b == b;
    } else {
      assert (a + b)[1..] == a[1..] + b;
      FreeSetAppend(a[1..], b);
    }
  }

  lemma FreeSetSingle(i: Interval)
    ensures FreeSet([i]) == Range(i)
  {
    assert FreeSet([i]) == Range(i) + FreeSet([]);
  }

  // Replacing l[c..d] by `mid` replaces the ids of that stretch.
  lemma Splice(l: seq<Interval>, c: nat, d: nat, mid: seq<Interval>)
    requires c <= d <= |l|
    ensures FreeSet(l) == FreeSet(l[..c]) + FreeSet(l[c..d]) + FreeSet(l[d..])
    ensures FreeSet(l[..c] + mid + l[d..]) == FreeSet(l[..c]) + FreeSet(mid) + FreeSet(l[d..])
  {
    assert l == l[..c] + l[c..d] + l[d..];
    FreeSetAppend(l[..c], l[c..d]);
    FreeSetAppend(l[..c] + l[c..d], l[d..]);
    FreeSetAppend(l[..c], mid);
    FreeSetAppend(l[..c] + mid, l[d..]);
  }

  // The edits idm_return makes: a new interval, a raised end, a lowered start, and a merge of
  // two neighbours. Each one before the merge leaves the list sorted and disjoint.
  lemma InsertInterval(l: seq<Interval>, c: nat, id: nat)
    requires Canonical(l) && c <= |l|
    requires c > 0 ==> l[c - 1].end + 1 < id
    requires c < |l| ==> id + 1 < l[c].start
    ensures var r := l[..c] + [Interval(id, id)] + l[c..];
            Canonical(r) && FreeSet(r) == FreeSet(l) + {id}
  {
    Splice(l, c, c, [Interval(id, id)]);
    FreeSetSingle(Interval(id, id));
    assert l[c..c] == [];
    var r := l[..c] + [Interval(id, id)] + l[c..];
    CanonicalInsert(l, c, Interval(id, id));
  }

  lemma CanonicalInsert(l: seq<Interval>, c: nat, i: Interval)
    requires Canonical(l) && c <= |l| && i.start <= i.end
    requires c > 0 ==> l[c - 1].end + 1 < i.start
    requires c < |l| ==> i.end + 1 < l[c].start
    ensures Canonical(l[..c] + [i] + l[c..])
  {
    var r := l[..c] + [i] + l[c..];
    InsertedAt(l, c, i);
    forall j, k | 0 <= j < k < |r| ensures r[j].end + 1 < r[k].start {
      InsertedApart(l, c, i, j, k);
    }
  }

  lemma InsertedAt(l: seq<Interval>, c: nat, i: Interval)
    requires c <= |l|
    ensures var r := l[..c] + [i] + l[c..];
            forall k :: 0 <= k < |r| ==> r[k] == if k < c then l[k] else if k == c then i else l[k - 1]
  {
  }

  lemma InsertedApart(l: seq<Interval>, c: nat, i: Interval, j: nat, k: nat)
    requires Canonical(l) && c <= |l| && i.start <= i.end && j < k <= |l|
    requires c > 0 ==> l[c - 1].end + 1 < i.start
    requires c < |l| ==> i.end + 1 < l[c].start
    ensures var r := l[..c] + [i] + l[c..]; r[j].end + 1 < r[k].start
  {
    InsertedAt(l, c, i);
    if j < c && k == c && j < c - 1 { assert l[j].end + 1 < l[c - 1].start; }
    if j == c && k > c + 1 { assert l[c].end + 1 < l[k - 1].start; }
  }

  lemma RaiseEnd(l: seq<Interval>, c: nat)
    requires Canonical(l) && c < |l|
    ensures var r := l[c := Interval(l[c].start, l[c].end + 1)];
            MergePending(r, c) && FreeSet(r) == FreeSet(l) + {l[c].end + 1}
  {
    ReplaceInterval(l, c, Interval(l[c].start, l[c].end + 1), l[c].end + 1);
    forall k | c + 1 < k < |l| ensures l[c].end + 2 < l[k].start {
      assert l[c + 1].end + 1 < l[k].start;
    }
  }

  lemma LowerStart(l: seq<Interval>, c: nat)
    requires Canonical(l) && c < |l| && l[c].start > 0
    ensures var r := l[c := Interval(l[c].start - 1, l[c].end)];
            MergePending(r, c - 1) && FreeSet(r) == FreeSet(l) + {l[c].start - 1}
  {
    ReplaceInterval(l, c, Interval(l[c].start - 1, l[c].end), l[c].start - 1);
    forall k | 0 <= k < c - 1 ensures l[k].end + 2 < l[c].start {
      assert l[k].end + 1 < l[c - 1].start;
    }
  }

  lemma ReplaceInterval(l: seq<Interval>, c: nat, i: Interval, id: nat)
    requires c < |l| && Range(i) == Range(l[c]) + {id}
    ensures FreeSet(l[c := i]) == FreeSet(l) + {id}
  {
    Splice(l, c, c + 1, [i]);
    FreeSetSingle(i);
    FreeSetSingle(l[c]);
    assert l[c..c + 1] == [l[c]];
    assert l[c := i] == l[..c] + [i] + l[c + 1..];
  }

  lemma MergeIntervals(l: seq<Interval>, c: nat)
    requires c + 1 < |l| && l[c].end == l[c + 1].start - 1
    requires l[c].start <= l[c].end && l[c + 1].start <= l[c + 1].end
    ensures FreeSet(l[..c] + [Interval(l[c].start, l[c + 1].end)] + l[c + 2..]) == FreeSet(l)
  {
    var i := Interval(l[c].start, l[c + 1].end);
    Splice(l, c, c + 2, [i]);
    FreeSetSingle(i);
    assert l[c..c + 2] == [l[c]] + [l[c + 1]];
    FreeSetSingle(l[c]);
    FreeSetSingle(l[c + 1]);
    FreeSetAppend([l[c]], [l[c + 1]]);
  }

  lemma MergedCanonical(l: seq<Interval>, c: nat)
    requires c + 1 < |l| && MergePending(l, c)
    ensures Canonical(l[..c] + [Interval(l[c].start, l[c + 1].end)] + l[c + 2..])
  {
    var r := l[..c] + [Interval(l[c].start, l[c + 1].end)] + l[c + 2..];
    assert forall k :: 0 <= k < |r| ==>
      r[k] == if k < c then l[k] else if k == c then Interval(l[c].start, l[c + 1].end) else l[k + 1];
  }

  // An id inside an interval of the list is already free.
  lemma AlreadyFree(l: seq<Interval>, c: nat, id: nat)
    requires c < |l| && l[c].start <= id <= l[c].end
    ensures FreeSet(l) + {id} == FreeSet(l)
  {
    FreeSetMember(l, id);
  }

  // The list that takes one more id, with its last merge still to do: sorted and disjoint, and
  // non-adjacent except perhaps between c and c + 1.
  ghost predicate MergePending(l: seq<Interval>, c: int) {
    && (forall k :: 0 <= k < |l| ==> l[k].start <= l[k].end)
    && (forall j, k :: 0 <= j < k < |l| ==> l[j].end < l[k].start)
    && (forall j, k :: 0 <= j < k < |l| && !(j == c && k == c + 1) ==> l[j].end + 1 < l[k].start)
  }

  lemma {:induction false} FreeSetMember(l: seq<Interval>, id: nat)
    ensures id in FreeSet(l) <==> exists k :: 0 <= k < |l| && l[k].start <= id <= l[k].end
  {
    if l != [] {
      FreeSetMember(l[1..], id);
      if id in FreeSet(l[1..]) {
        var k :| 0 <= k < |l[1..]| && l[1..][k].start <= id <= l[1..][k].end;
        assert l[k + 1].start <= id <= l[k + 1].end;
      }
      if k :| 0 <= k < |l| && l[k].start <= id <= l[k].end {
        if k > 0 {
          assert l[1..][k - 1] == l[k];
        }
      }
    }
  }

  // Everything held by the tail of a canonical list lies beyond everything held by its front.
  lemma FreeSetBounds(l: seq<Interval>, id: nat)
    requires Canonical(l)
    ensures id in FreeSet(l) && l != [] ==> l[0].start <= id <= l[|l| - 1].end
  {
    FreeSetMember(l, id);
  }

  // A set of ids has one representation only: equal contents means equal lists.
  lemma {:induction false} CanonicalUnique(a: seq<Interval>, b: seq<Interval>)
    requires Canonical(a) && Canonical(b) && FreeSet(a) == FreeSet(b)
    ensures a == b
  {
    if a != [] && b != [] {
      HeadDetermined(a, b);
      HeadDetermined(b, a);
      assert a[0] == b[0];
      TailDisjoint(a);
      TailDisjoint(b);
      assert FreeSet(a[1..]) == FreeSet(a) - Range(a[0]);
      assert FreeSet(b[1..]) == FreeSet(b) - Range(b[0]);
      CanonicalUnique(a[1..], b[1..]);
      assert a == [a[0]] + a[1..] && b == [b[0]] + b[1..];
    }
  }

  lemma TailDisjoint(l: seq<Interval>)
    requires Canonical(l) && l != []
    ensures Canonical(l[1..]) && FreeSet(l[1..]) !! Range(l[0])
    ensures l[0].end + 1 !in FreeSet(l)
  {
    forall x | x in FreeSet(l[1..]) ensures x > l[0].end + 1 {
      FreeSetMember(l[1..], x);
    }
  }

  lemma HeadDetermined(a: seq<Interval>, b: seq<Interval>)
    requires Canonical(a) && Canonical(b) && FreeSet(a) == FreeSet(b) && a != [] && b != []
    ensures a[0].start <= b[0].start && (a[0].start == b[0].start ==> a[0].end <= b[0].end)
  {
    assert b[0].start in FreeSet(b);
    FreeSetBounds(a, b[0].start);
    if a[0].start == b[0].start && b[0].end < a[0].end {
      assert b[0].end + 1 in FreeSet(a);
      TailDisjoint(b);
    }
  }

  // The dropping condition, on the list itself: the id follows the first interval and the
  // second interval starts beyond the next id.
  predicate AfterHead(l: seq<Interval>, id: nat) {
    |l| >= 2 && id == l[0].end + 1 && id + 1 < l[1].start
  }

  lemma DroppedIff(l: seq<Interval>, id: nat)
    requires Canonical(l)
    ensures Dropped(FreeSet(l), id) <==> AfterHead(l, id)
  {
    var free := FreeSet(l);
    forall x: nat ensures x in free <==> exists k :: 0 <= k < |l| && l[k].start <= x <= l[k].end {
      FreeSetMember(l, x);
    }
    if AfterHead(l, id) {
      assert l[1].start in free;
      assert Dropped(free, id);
    }
    if Dropped(free, id) {
      var k :| 0 <= k < |l| && l[k].start <= id - 1 <= l[k].end;
      assert k == 0 by {
        assert l[0].start in free;
        TailDisjoint(l);
      }
      var y :| y in free && id < y;
      var j :| 0 <= j < |l| && l[j].start <= y <= l[j].end;
      assert l[1].start in free;
    }
  }

  // A history of the allocator as its callers see it: free ids, ids handed out and not yet given
  // back, and ids that were given back on the dropped family.
  datatype Ledger = Ledger(free: set<nat>, out: set<nat>, lost: set<nat>)

  datatype IdOp = Take(id: nat) | Give(id: nat)

  // A caller takes whatever idm_get returns and gives back only ids it holds.
  ghost predicate Allowed(s: Ledger, op: IdOp) {
    match op
    case Take(id) => IsLeast(id, s.free)
    case Give(id) => id in s.out
  }

  ghost function Apply(s: Ledger, op: IdOp): Ledger {
    match op
    case Take(id) => Ledger(s.free - {id}, s.out + {id}, s.lost)
    case Give(id) =>
      Ledger(Returned(s.free, id), s.out - {id},
             if Dropped(s.free, id) then s.lost + {id} else s.lost)
  }

  ghost predicate AllowedRun(s: Ledger, ops: seq<IdOp>)
    decreases |ops|
  {
    ops == [] || (Allowed(s, ops[0]) && AllowedRun(Apply(s, ops[0]), ops[1..]))
  }

  ghost function ApplyAll(s: Ledger, ops: seq<IdOp>): Ledger
    decreases |ops|
  {
    if ops == [] then s else ApplyAll(Apply(s, ops[0]), ops[1..])
  }

  ghost predicate Partition(s: Ledger, all: set<nat>) {
    && s.free !! s.out && s.free !! s.lost && s.out !! s.lost
    && s.free + s.out + s.lost == all
  }

  // Over every run no id is handed out twice at once, and none is made up or duplicated.
  lemma {:induction false} Conservation(s: Ledger, ops: seq<IdOp>, all: set<nat>)
    requires Partition(s, all) && AllowedRun(s, ops)
    ensures Partition(ApplyAll(s, ops), all)
    ensures s.lost <= ApplyAll(s, ops).lost
    decreases |ops|
  {
    if ops != [] {
      Conservation(Apply(s, ops[0]), ops[1..], all);
    }
  }

  // A loss on a run of the allocator from its start: with 1 and 5.. free, giving back 2 changes nothing.
  lemma DroppedWitness()
    ensures var s := Ledger(Ids(1, 4097), {}, {});
            var ops := [Take(1), Take(2), Take(3), Take(4), Give(1), Give(2)];
            AllowedRun(s, ops) && ApplyAll(s, ops).lost == {2} && 2 !in ApplyAll(s, ops).free
  {
  }

  class IdManager {
    var list: seq<Interval>

    ghost predicate Valid()
      reads this
    {
      Canonical(list)
    }

    ghost function Free(): set<nat>
      reads this
    {
      FreeSet(list)
    }

    // idm_create: `size` counts from `base`, both ends included.
    constructor (base: nat, size: nat)
      ensures Valid() && Free() == Ids(base, base + size)
    {
      list := [Interval(base, base + size)];
      FreeSetSingle(Interval(base, base + size));
    }

    // idm_get
    method Get() returns (ret: int, index: nat)
      requires Valid()
      modifies this
      ensures Valid()
      ensures ret == 0 || ret == -1
      ensures ret == -1 <==> old(Free()) == {}
      ensures ret == -1 ==> Free() == {}
      ensures ret == 0 ==> IsLeast(index, old(Free())) && Free() == old(Free()) - {index}
    {
      if list == [] {
        return -1, 0;
      }
      ghost var before := list;
      index := list[0].start;
      assert index in FreeSet(list);
      forall x | x in FreeSet(list) ensures index <= x { FreeSetBounds(list, x); }
      TailDisjoint(list);
      list := [Interval(index + 1, list[0].end)] + list[1..];
      assert list[1..] == before[1..];
      if list[0].start > list[0].end {
        list := list[1..];
      }
      assert Range(before[0]) - {index} == Range(Interval(index + 1, before[0].end));
      ret := 0;
    }

    // idm_return: the id becomes free, unless it follows the first interval and the second starts
    // beyond the next id.
    method Return(index: nat)
      requires Valid()
      modifies this
      ensures Valid()
      ensures Free() == if AfterHead(old(list), index) then old(Free()) else old(Free()) + {index}
      ensures Free() == Returned(old(Free()), index)
    {
      DroppedIff(list, index);
      if list == [] {
        Insert(0, index);
      } else if index < list[0].start - 1 {
        Insert(0, index);
        Merge(0);
      } else if index == list[0].start - 1 {
        Lower(0);
      } else if |list| == 1 {
        if index > list[0].end + 1 {
          Insert(1, index);
        } else if index == list[0].end + 1 {
          Raise(0);
        } else {
          AlreadyFree(list, 0, index);
        }
      } else {
        ReturnPastHead(index);
      }
    }

    // The last branch of idm_return: a search along the list for the place of `index`.
    method ReturnPastHead(index: nat)
      requires Valid() && |list| >= 2 && list[0].start <= index
      modifies this
      ensures Valid()
      ensures Free() == if AfterHead(old(list), index) then old(Free()) else old(Free()) + {index}
    {
      var c := 0;
      while c + 1 < |list| && index > list[c + 1].end + 1
        invariant 0 <= c < |list|
        invariant c > 0 ==> index > list[c].end + 1
      {
        c := c + 1;
      }
      if c + 1 == |list| {
        Insert(|list|, index);
        return;
      }
      c := Attach(c, index);
      Merge(c);
    }

    // The three-way branch after the search, just before the merge.
    method Attach(at: nat, index: nat) returns (c: nat)
      requires Valid() && at + 1 < |list|
      requires list[at].start <= index <= list[at + 1].end + 1
      requires at > 0 ==> index > list[at].end + 1
      modifies this
      ensures c < |list| && MergePending(list, c)
      ensures Free() == if AfterHead(old(list), index) then old(Free()) else old(Free()) + {index}
    {
      if index == list[at + 1].end + 1 {
        c := at + 1;
        Raise(c);
      } else {
        c := at;
        if index == list[at + 1].start - 1 {
          Lower(at + 1);
        } else if index < list[at + 1].start - 1 && index > list[at].end + 1 {
          Insert(at + 1, index);
        } else if index >= list[at + 1].start {
          AlreadyFree(list, at + 1, index);
        } else if index <= list[at].end {
          AlreadyFree(list, at, index);
        }
      }
    }

    method Raise(c: nat)
      requires Valid() && c < |list|
      modifies this
      ensures |list| == old(|list|) && MergePending(list, c)
      ensures Free() == old(Free()) + {old(list[c].end) + 1}
    {
      RaiseEnd(list, c);
      list := list[c := Interval(list[c].start, list[c].end + 1)];
    }

    method Lower(c: nat)
      requires Valid() && c < |list| && list[c].start > 0
      modifies this
      ensures |list| == old(|list|) && MergePending(list, c - 1)
      ensures Free() == old(Free()) + {old(list[c].start) - 1}
    {
      LowerStart(list, c);
      list := list[c := Interval(list[c].start - 1, list[c].end)];
    }

    method Insert(c: nat, index: nat)
      requires Valid() && c <= |list|
      requires c > 0 ==> list[c - 1].end + 1 < index
      requires c < |list| ==> index + 1 < list[c].start
      modifies this
      ensures |list| == old(|list|) + 1 && Canonical(list)
      ensures Free() == old(Free()) + {index}
    {
      InsertInterval(list, c, index);
      list := list[..c] + [Interval(index, index)] + list[c..];
    }

    // The merge at the end of idm_return.
    method Merge(c: nat)
      requires c < |list| && MergePending(list, c)
      modifies this
      ensures Valid()
      ensures Free() == old(Free())
    {
      hide FreeSet;
      if c + 1 < |list| && list[c].end == list[c + 1].start - 1 {
        MergeIntervals(list, c);
        MergedCanonical(list, c);
        list := list[..c] + [Interval(list[c].start, list[c + 1].end)] + list[c + 2..];
      }
    }
  }
}
