/** The poll table of Multiplexer.poll.c on values: a list cut at the cursor of the current round.
    While a round is open, `before` has been scanned and `after` has not. Between rounds the
    whole table is in `after`. */
module PollRound {
  import opened Wrappers
  import opened Subsequences

  const POLLIN := 1
  const POLLOUT := 4
  const UNSIGNED := 0x1_0000_0000

  datatype Entry = Entry(fd: int, events: int, revents: int)

  // `left` is retfds, an unsigned int.
  datatype Round = Round(before: seq<Entry>, after: seq<Entry>, open: bool, left: int)

  datatype Interest = Readable | Writable

  function Table(r: Round): seq<Entry> {
    r.before + r.after
  }

  // multiplexer_add
  function Add(r: Round, fd: int, events: int): Round {
    r.(after := r.after + [Entry(fd, events, 0)])
  }

  function Find(table: seq<Entry>, fd: int): (i: nat)
    ensures i <= |table|
    ensures forall j :: 0 <= j < i ==> table[j].fd != fd
    ensures i < |table| ==> table[i].fd == fd
  {
    if table == [] || table[0].fd == fd then 0 else 1 + Find(table[1..], fd)
  }

  function Cut(table: seq<Entry>, i: nat): seq<Entry>
    requires i < |table|
  {
    table[..i] + table[i + 1..]
  }

  // multiplexer_remove: a removed entry with pending events is taken off the round's count,
  // whether or not it was already delivered.
  function Remove(r: Round, fd: int): Round {
    var i := Find(Table(r), fd);
    if i == |Table(r)| then r else Deleted(r, i)
  }

  function Deleted(r: Round, i: nat): Round
    requires i < |Table(r)|
  {
    var left := if r.open && Table(r)[i].revents != 0 then (r.left - 1) % UNSIGNED else r.left;
    if i < |r.before| then r.(before := Cut(r.before, i), left := left)
    else r.(after := Cut(r.after, i - |r.before|), left := left)
  }

  // What poll() reports: the events of each entry, or an interruption by a signal. The count of
  // an interrupted call is -1, the largest unsigned number, and all events are zero.
  datatype Report = Report(revents: seq<int>) | Interrupted

  function Marked(table: seq<Entry>, p: Report): seq<Entry>
    requires p.Report? ==> |p.revents| == |table|
  {
    if p.Interrupted? then seq(|table|, i requires 0 <= i < |table| => table[i].(revents := 0))
    else seq(|table|, i requires 0 <= i < |table| => table[i].(revents := p.revents[i]))
  }

  // The entries with pending events, in table order.
  function Ready(es: seq<Entry>): seq<Entry> {
    if es == [] then [] else (if es[0].revents != 0 then [es[0]] else []) + Ready(es[1..])
  }

  function StartRound(r: Round, p: Report): Round
    requires p.Report? ==> |p.revents| == |Table(r)|
  {
    var table := Marked(Table(r), p);
    Round([], table, true, if p.Interrupted? then UNSIGNED - 1 else |Ready(table)| % UNSIGNED)
  }

  datatype Delivery = Delivery(round: Round, entry: Option<Entry>)

  // The scan of multiplexer_poll: the cursor passes entries without events and stops behind the
  // first one with.
  function Scan(r: Round): Delivery
    decreases |r.after|
  {
    if r.after == [] || r.left == 0 then Delivery(r.(open := false), None)
    else if r.after[0].revents == 0 then Scan(r.(before := r.before + [r.after[0]], after := r.after[1..]))
    else
      Delivery(r.(before := r.before + [r.after[0]], after := r.after[1..],
                  left := r.left - 1, open := r.left - 1 != 0),
               Some(r.after[0]))
  }

  // multiplexer_poll
  function Poll(r: Round, p: Report): Delivery
    requires !r.open && p.Report? ==> |p.revents| == |Table(r)|
  {
    Scan(if r.open then r else StartRound(r, p))
  }

  // ---- one round under any interleaving of adds and removes ----

  datatype RoundOp = DoAdd(fd: int, events: int) | DoRemove(fd: int) | DoPoll

  // A poll belongs to this round only while it is open.
  ghost predicate IsRound(r: Round, ops: seq<RoundOp>)
    decreases |ops|
  {
    ops == [] || (r.open && IsRound(Apply(r, ops[0]).round, ops[1..]))
  }

  ghost function Apply(r: Round, op: RoundOp): Delivery {
    match op
    case DoAdd(fd, events) => Delivery(Add(r, fd, events), None)
    case DoRemove(fd) => Delivery(Remove(r, fd), None)
    case DoPoll => Scan(r)
  }

  ghost function Delivered(r: Round, ops: seq<RoundOp>): seq<Entry>
    decreases |ops|
  {
    if ops == [] then []
    else
      var d := Apply(r, ops[0]);
      (if d.entry.Some? then [d.entry.value] else []) + Delivered(d.round, ops[1..])
  }

  ghost function After(r: Round, ops: seq<RoundOp>): Round
    decreases |ops|
  {
    if ops == [] then r else After(Apply(r, ops[0]).round, ops[1..])
  }

  lemma {:induction false} ReadyConcat(a: seq<Entry>, b: seq<Entry>)
    ensures Ready(a + b) == Ready(a) + Ready(b)
  {
    if a == [] {
      assert a + b == b;
    } else {
      assert (a + b)[1..] == a[1..] + b;
      ReadyConcat(a[1..], b);
    }
  }

  lemma {:induction false} ReadySubseq(a: seq<Entry>, b: seq<Entry>)
    requires Subseq(a, b)
    ensures Subseq(Ready(a), Ready(b))
  {
    if a != [] {
      if a[0] == b[0] && Subseq(a[1..], b[1..]) {
        ReadySubseq(a[1..], b[1..]);
        var first := if a[0].revents != 0 then [a[0]] else [];
        SubseqRefl(first);
        SubseqConcat(first, first, Ready(a[1..]), Ready(b[1..]));
      } else {
        ReadySubseq(a, b[1..]);
        var first := if b[0].revents != 0 then [b[0]] else [];
        assert Subseq([], first);
        SubseqConcat([], first, Ready(a), Ready(b[1..]));
        assert [] + Ready(a) == Ready(a);
      }
    }
  }

  // A scan delivers the first ready entry, if it delivers at all, and passes only idle ones.
  lemma {:induction false} ScanTakesFirst(r: Round)
    ensures var d := Scan(r);
            && (d.entry.Some? ==> Ready(r.after) == [d.entry.value] + Ready(d.round.after))
            && (d.entry.None? ==> Ready(r.after) == Ready(d.round.after) && !d.round.open)
            && Table(d.round) == Table(r)
    decreases |r.after|
  {
    if r.after != [] && r.left != 0 {
      var next := r.(before := r.before + [r.after[0]], after := r.after[1..]);
      assert r.after == [r.after[0]] + r.after[1..];
      assert Table(next) == Table(r);
      if r.after[0].revents == 0 {
        ScanTakesFirst(next);
        assert [] + Ready(r.after[1..]) == Ready(r.after[1..]);
      }
    }
  }

  lemma RemoveReady(r: Round, fd: int)
    ensures Subseq(Ready(Remove(r, fd).after), Ready(r.after))
  {
    var i := Find(Table(r), fd);
    if |r.before| <= i < |Table(r)| {
      SubseqCut(r.after, i - |r.before|);
      ReadySubseq(Cut(r.after, i - |r.before|), r.after);
    } else {
      SubseqRefl(Ready(r.after));
    }
  }

  // Over one round, whatever is added and removed meanwhile: what is delivered, followed by what
  // is still to be scanned, is a subsequence of the entries that were ready when the round
  // began. So only ready entries are delivered, each at most once, and in table order; an entry
  // added during the round is not.
  lemma {:induction false} RoundDelivers(r: Round, ops: seq<RoundOp>)
    requires IsRound(r, ops)
    ensures Subseq(Delivered(r, ops) + Ready(After(r, ops).after), Ready(r.after))
    decreases |ops|
  {
    if ops == [] {
      assert [] + Ready(r.after) == Ready(r.after);
      SubseqRefl(Ready(r.after));
    } else {
      var d := Apply(r, ops[0]);
      RoundDelivers(d.round, ops[1..]);
      var rest := Delivered(d.round, ops[1..]);
      var last := Ready(After(d.round, ops[1..]).after);
      match ops[0]
      case DoAdd(fd, events) =>
        ReadyConcat(r.after, [Entry(fd, events, 0)]);
        assert Ready(r.after) + [] == Ready(r.after);
        assert [] + rest == rest;
      case DoRemove(fd) =>
        RemoveReady(r, fd);
        SubseqTrans(rest + last, Ready(d.round.after), Ready(r.after));
        assert [] + rest == rest;
      case DoPoll =>
        ScanTakesFirst(r);
        var first := if d.entry.Some? then [d.entry.value] else [];
        SubseqRefl(first);
        SubseqConcat(first, first, rest + last, Ready(d.round.after));
        Regroup(first, rest, last);
        assert first + Ready(d.round.after) == Ready(r.after);
    }
  }

  // ---- what poll() reported ----

  // The events of a round are those of the call that opened it, entry by entry, and its count is the
  // number of entries that have any; an interrupted call leaves none.
  lemma StartReports(r: Round, p: Report)
    requires p.Report? ==> |p.revents| == |Table(r)| < UNSIGNED
    ensures var q := StartRound(r, p);
            && q.open && q.before == [] && |q.after| == |Table(r)|
            && (forall i :: 0 <= i < |q.after| ==>
                  q.after[i] == Entry(Table(r)[i].fd, Table(r)[i].events, if p.Report? then p.revents[i] else 0))
            && (p.Report? ==> q.left == |Ready(q.after)|)
            && (p.Interrupted? ==> Ready(q.after) == [] && q.left == 0xffff_ffff)
  {
    hide Ready;
    var q := StartRound(r, p);
    ReadyBound(q.after);
    if p.Interrupted? { NoneReady(q.after); }
  }

  lemma {:induction false} NoneReady(es: seq<Entry>)
    requires forall i :: 0 <= i < |es| ==> es[i].revents == 0
    ensures Ready(es) == []
  {
    if es != [] { NoneReady(es[1..]); }
  }

  lemma {:induction false} ReadyMember(es: seq<Entry>, e: Entry) returns (i: nat)
    requires e in Ready(es)
    ensures i < |es| && es[i] == e && e.revents != 0
  {
    if es[0].revents != 0 && e == es[0] {
      i := 0;
    } else {
      i := ReadyMember(es[1..], e);
      i := i + 1;
    }
  }

  // Whatever is added and removed during a round, a delivered descriptor was in the table when the
  // round began, and poll() reported events for it then.
  lemma DeliveredReported(r: Round, p: Report, ops: seq<RoundOp>, k: nat) returns (i: nat)
    requires p.Report? ==> |p.revents| == |Table(r)| < UNSIGNED
    requires IsRound(StartRound(r, p), ops) && k < |Delivered(StartRound(r, p), ops)|
    ensures p.Report? && i < |Table(r)| && p.revents[i] != 0
    ensures Delivered(StartRound(r, p), ops)[k] == Entry(Table(r)[i].fd, Table(r)[i].events, p.revents[i])
  {
    hide Ready, Subseq, IsRound, Delivered, After, StartRound;
    var q := StartRound(r, p);
    StartReports(r, p);
    RoundDelivers(q, ops);
    var e := Delivered(q, ops)[k];
    var all := Delivered(q, ops) + Ready(After(q, ops).after);
    assert all[k] == e;
    SubseqMember(all, Ready(q.after), e);
    i := ReadyMember(q.after, e);
  }

  lemma {:induction false} ReadyBound(es: seq<Entry>)
    ensures |Ready(es)| <= |es|
  {
    if es != [] { ReadyBound(es[1..]); }
  }

  // ---- the round's count ----

  ghost predicate Counted(r: Round) {
    r.open ==> r.left == |Ready(r.after)|
  }

  // An entry that was delivered in this round and still carries its events.
  predicate DeliveredStill(r: Round, fd: int) {
    var i := Find(Table(r), fd);
    i < |r.before| && r.before[i].revents != 0
  }

  lemma {:induction false} ReadyCut(es: seq<Entry>, k: nat)
    requires k < |es|
    ensures |Ready(Cut(es, k))| == |Ready(es)| - (if es[k].revents != 0 then 1 else 0)
  {
    if k == 0 {
      assert Cut(es, 0) == es[1..];
    } else {
      ReadyCut(es[1..], k - 1);
      assert Cut(es, k) == [es[0]] + Cut(es[1..], k - 1);
    }
  }

  lemma RemoveAhead(r: Round, fd: int)
    requires r.open && Counted(r) && |r.after| < UNSIGNED
    requires |r.before| <= Find(Table(r), fd) < |Table(r)|
    ensures Counted(Remove(r, fd))
  {
    var k := Find(Table(r), fd) - |r.before|;
    assert Table(r)[Find(Table(r), fd)] == r.after[k];
    ReadyBound(r.after);
    ReadyCut(r.after, k);
    hide Ready, Find, Cut;
    if r.after[k].revents != 0 {
      assert 0 <= r.left - 1 < UNSIGNED;
    }
  }

  lemma RemoveBehind(r: Round, fd: int)
    requires r.open && Counted(r) && |r.after| < UNSIGNED
    requires Find(Table(r), fd) < |r.before|
    ensures Counted(Remove(r, fd)) <==> !DeliveredStill(r, fd)
  {
    assert Table(r)[Find(Table(r), fd)] == r.before[Find(Table(r), fd)];
    ReadyBound(r.after);
    hide Ready, Find, Cut;
    assert r.left >= 1 ==> (r.left - 1) % UNSIGNED == r.left - 1;
    assert (0 - 1) % UNSIGNED != 0;
  }

  // Removing keeps the count right exactly when it does not hit an entry that this round already
  // delivered: that entry is counted twice.
  lemma RemoveCountExact(r: Round, fd: int)
    requires r.open && Counted(r) && |Table(r)| < UNSIGNED
    ensures Counted(Remove(r, fd)) <==> !DeliveredStill(r, fd)
  {
    hide Counted, DeliveredStill, Remove;
    if Find(Table(r), fd) < |r.before| {
      RemoveBehind(r, fd);
    } else {
      assert Counted(Remove(r, fd)) by {
        if Find(Table(r), fd) < |Table(r)| { RemoveAhead(r, fd); } else { RemoveAbsent(r, fd); }
      }
      NotBehind(r, fd);
    }
  }

  lemma RemoveAbsent(r: Round, fd: int)
    requires Counted(r) && Find(Table(r), fd) == |Table(r)|
    ensures Counted(Remove(r, fd))
  {
    hide Find, Ready;
  }

  lemma NotBehind(r: Round, fd: int)
    requires |r.before| <= Find(Table(r), fd)
    ensures !DeliveredStill(r, fd)
  {
    hide Find;
  }

  // While the count is right, a round closes only when nothing ready is left.
  lemma CountedCloses(r: Round)
    requires r.open && Counted(r)
    ensures var d := Scan(r); Counted(d.round) && (!d.round.open ==> Ready(d.round.after) == [])
  {
    ScanCounts(r);
  }

  lemma {:induction false} ScanCounts(r: Round)
    requires r.open && r.left == |Ready(r.after)|
    ensures var d := Scan(r); d.round.left == |Ready(d.round.after)| && (!d.round.open ==> d.round.left == 0)
    decreases |r.after|
  {
    if r.after != [] && r.left != 0 {
      assert r.after == [r.after[0]] + r.after[1..];
      if r.after[0].revents == 0 {
        ScanCounts(r.(before := r.before + [r.after[0]], after := r.after[1..]));
      }
    }
  }

  // A round cut short: of two ready entries the first is delivered and removed, as the main loop
  // does with every control connection, and the second has to wait for the next round.
  lemma CutShortWitness()
    ensures var r := Round([], [Entry(5, POLLIN, 1), Entry(6, POLLIN, 1)], true, 2);
            var d := Scan(r);
            && d.entry == Some(Entry(5, POLLIN, 1))
            && Scan(Remove(d.round, 5)).entry == None && !Scan(Remove(d.round, 5)).round.open
  {
    var r := Round([], [Entry(5, POLLIN, 1), Entry(6, POLLIN, 1)], true, 2);
    var d := Scan(r);
    assert d.round == Round([Entry(5, POLLIN, 1)], [Entry(6, POLLIN, 1)], true, 1);
    assert Table(d.round)[0].fd == 5;
    assert Find(Table(d.round), 5) == 0;
  }

  // ---- the main loop's round: every delivered control connection is removed at once ----

  lemma {:induction false} ScanShrinks(r: Round)
    ensures Scan(r).entry.Some? ==> |Scan(r).round.after| < |r.after|
    decreases |r.after|
  {
    if r.after != [] && r.left != 0 && r.after[0].revents == 0 {
      ScanShrinks(r.(before := r.before + [r.after[0]], after := r.after[1..]));
    }
  }

  function Drain(r: Round): seq<Entry>
    decreases |r.after|
  {
    ScanShrinks(r);
    var d := Scan(r);
    if d.entry.None? then []
    else [d.entry.value] + if d.round.open then Drain(Remove(d.round, d.entry.value.fd)) else []
  }

  ghost predicate DistinctFds(t: seq<Entry>) {
    forall i, j :: 0 <= i < j < |t| ==> t[i].fd != t[j].fd
  }

  lemma {:induction false} ScanDelivers(r: Round)
    requires r.open && 0 < r.left <= |Ready(r.after)|
    ensures var d := Scan(r);
            && d.entry.Some? && d.entry.value.revents != 0
            && d.round.before != [] && d.round.before[|d.round.before| - 1] == d.entry.value
            && d.round.left == r.left - 1 && d.round.open == (r.left != 1)
    decreases |r.after|
  {
    assert r.after == [r.after[0]] + r.after[1..];
    if r.after[0].revents == 0 {
      ScanDelivers(r.(before := r.before + [r.after[0]], after := r.after[1..]));
    }
  }

  lemma RemoveLast(r: Round, e: Entry)
    requires DistinctFds(Table(r)) && r.open && r.left >= 1
    requires r.before != [] && r.before[|r.before| - 1] == e && e.revents != 0
    ensures var q := Remove(r, e.fd);
            && q.open && q.after == r.after && DistinctFds(Table(q)) && q.left == (r.left - 1) % UNSIGNED
  {
    var i := |r.before| - 1;
    assert Table(r)[i] == e;
    assert Find(Table(r), e.fd) == i;
    var q := Remove(r, e.fd);
    assert q.before == r.before[..i];
    assert forall j :: 0 <= j < |Table(q)| ==> Table(q)[j] == Table(r)[if j < i then j else j + 1];
  }

  // One delivery and the removal that follows it.
  lemma DrainStep(r: Round)
    requires r.open && DistinctFds(Table(r)) && 2 <= r.left <= |Ready(r.after)| && r.left < UNSIGNED
    ensures var d := Scan(r);
            d.entry.Some? && d.round.open &&
            var q := Remove(d.round, d.entry.value.fd);
            && Drain(r) == [d.entry.value] + Drain(q)
            && Ready(r.after) == [d.entry.value] + Ready(q.after)
            && q.open && q.left == r.left - 2 && DistinctFds(Table(q)) && |q.after| < |r.after|
  {
    hide Ready, Scan, Remove, Drain;
    ScanDelivers(r);
    ScanTakesFirst(r);
    ScanShrinks(r);
    RemoveLast(Scan(r).round, Scan(r).entry.value);
    DrainOne(r);
  }

  lemma DrainOne(r: Round)
    requires Scan(r).entry.Some? && Scan(r).round.open
    ensures Drain(r) == [Scan(r).entry.value] + Drain(Remove(Scan(r).round, Scan(r).entry.value.fd))
  {
    hide Scan, Remove;
  }

  // Of n ready control connections a round hands over the first half, rounded up: each of them
  // takes two off the count. The others wait for the next call of poll().
  lemma {:induction false} DrainHalf(r: Round)
    requires r.open && DistinctFds(Table(r)) && 0 <= r.left <= |Ready(r.after)| && r.left < UNSIGNED
    ensures Drain(r) == Ready(r.after)[..(r.left + 1) / 2]
    decreases |r.after|
  {
    if r.left == 0 {
    } else if r.left == 1 {
      ScanDelivers(r);
      ScanTakesFirst(r);
      hide Ready, Scan;
      assert Ready(r.after)[..1] == [Scan(r).entry.value];
    } else {
      DrainStep(r);
      var e := Scan(r).entry.value;
      var q := Remove(Scan(r).round, e.fd);
      hide Ready, Scan, Remove, Drain;
      DrainHalf(q);
      assert ([e] + Ready(q.after))[..(q.left + 1) / 2 + 1] == [e] + Ready(q.after)[..(q.left + 1) / 2];
    }
  }
}
