/** Queued downloads are served in arrival order: over every run, the downloads that left the
    queue for a slot, followed by those still waiting, form a subsequence of the arrivals. Ids are
    handed out again, so an arrival is told by its id and the call that let it in. */
module TransferFifo {
  import opened Wrappers
  import opened TransferSpec
  import opened TransferInvariant
  import opened TransferSteps
  import opened TransferRuns
  import opened Subsequences

  // ---- what a step does to the queue ----

  // The entries of q that are not in q' but are still alive: they were given a slot.
  ghost function Taken(q: seq<nat>, q': seq<nat>, live: set<nat>): seq<nat> {
    if q == [] then []
    else (if q[0] !in q' && q[0] in live then [q[0]] else []) + Taken(q[1..], q', live)
  }

  ghost function Served(s: State, s': State): seq<nat> {
    Taken(s.queue, s'.queue, s'.live.Keys)
  }

  // The entries of the new queue that were not in the old one.
  ghost function Arrived(s: State, s': State): seq<nat> {
    Taken(s'.queue, s.queue, s'.live.Keys)
  }

  lemma {:induction false} TakenSubseq(q: seq<nat>, q': seq<nat>, live: set<nat>)
    ensures Subseq(Taken(q, q', live), q)
  {
    if q != [] {
      TakenSubseq(q[1..], q', live);
      var rest := Taken(q[1..], q', live);
      assert ([q[0]] + rest)[1..] == rest && [] + rest == rest;
    }
  }

  lemma {:induction false} TakenNone(q: seq<nat>, q': seq<nat>, live: set<nat>)
    requires forall id :: id in q ==> id in q' || id !in live
    ensures Taken(q, q', live) == []
  {
    if q != [] {
      assert q[0] in q && forall id :: id in q[1..] ==> id in q;
      TakenNone(q[1..], q', live);
    }
  }

  lemma {:induction false} TakenConcat(a: seq<nat>, b: seq<nat>, q': seq<nat>, live: set<nat>)
    ensures Taken(a + b, q', live) == Taken(a, q', live) + Taken(b, q', live)
  {
    if a == [] {
      assert a + b == b;
    } else {
      assert (a + b)[1..] == a[1..] + b;
      TakenConcat(a[1..], b, q', live);
    }
  }

  // The three ways the queue changes.
  ghost predicate LeavesInFront(q: seq<nat>, q': seq<nat>) {
    exists k: nat :: k <= |q| && q' == q[k..]
  }

  ghost predicate JoinsAtEnd(q: seq<nat>, q': seq<nat>) {
    |q'| == |q| + 1 && q' == q + [q'[|q|]]
  }

  ghost predicate DropsDead(q: seq<nat>, q': seq<nat>, live: set<nat>) {
    exists i: nat :: i < |q| && q' == q[..i] + q[i + 1..] && q[i] !in live
  }

  ghost predicate FifoStep(q: seq<nat>, q': seq<nat>, live: set<nat>) {
    Subseq(Taken(q, q', live) + q', q + Taken(q', q, live))
  }

  lemma FrontIsFifo(q: seq<nat>, q': seq<nat>, live: set<nat>)
    requires LeavesInFront(q, q')
    ensures FifoStep(q, q', live) && Taken(q', q, live) == []
  {
    var k: nat :| k <= |q| && q' == q[k..];
    assert q == q[..k] + q[k..];
    TakenConcat(q[..k], q', q', live);
    TakenNone(q', q', live);
    TakenSubseq(q[..k], q', live);
    SubseqRefl(q');
    SubseqConcat(Taken(q[..k], q', live), q[..k], q', q');
    assert Taken(q, q', live) == Taken(q[..k], q', live);
    TakenNone(q', q, live);
    assert q + [] == q;
  }

  lemma EndIsFifo(q: seq<nat>, q': seq<nat>, live: set<nat>)
    requires JoinsAtEnd(q, q') && NoRepeat(q') && q'[|q|] in live
    ensures FifoStep(q, q', live) && |Taken(q', q, live)| == 1
  {
    var x := q'[|q|];
    assert forall id :: id in q ==> id in q';
    TakenNone(q, q', live);
    TakenConcat(q, [x], q, live);
    TakenNone(q, q, live);
    assert forall i :: 0 <= i < |q| ==> q[i] == q'[i] && q'[i] != x;
    assert q' == q + [x];
    assert Taken([x], q, live) == [x] + Taken([], q, live);
    assert Taken(q', q, live) == [x];
    assert Taken(q, q', live) + q' == q';
    SubseqRefl(q');
  }

  lemma DropIsFifo(q: seq<nat>, q': seq<nat>, live: set<nat>)
    requires DropsDead(q, q', live)
    ensures FifoStep(q, q', live) && Taken(q', q, live) == []
  {
    var i: nat :| i < |q| && q' == q[..i] + q[i + 1..] && q[i] !in live;
    SubseqCut(q, i);
    TakenNone(q, q', live);
    TakenNone(q', q, live);
    assert [] + q' == q' && q + [] == q;
  }

  lemma {:induction false} FillSlotsFront(s: State, now: int)
    requires Linked(s)
    ensures LeavesInFront(s.queue, FillSlots(s, now).queue)
    decreases |s.queue|
  {
    hide Promote;
    if s.activeDown < s.maxDown && s.queue != [] {
      var s1 := Promote(s, now);
      PromoteLinks(s, now);
      var s2 := s1.(activeDown := s1.activeDown + 1);
      FillSlotsFront(s2, now);
      var k: nat :| k <= |s2.queue| && FillSlots(s2, now).queue == s2.queue[k..];
      assert s.queue[1..][k..] == s.queue[k + 1..];
    } else {
      assert s.queue == s.queue[0..];
    }
  }

  lemma PromoteLinks(s: State, now: int)
    requires Linked(s) && s.queue != []
    ensures var s1 := Promote(s, now);
            s1.queue == s.queue[1..] && Linked(s1.(activeDown := s1.activeDown + 1)) && Linked(s1)
  {
    PromoteFacts(s, now);
  }

  lemma ReleaseFront(s: State, kind: Kind, now: int)
    requires forall id :: id in s.queue ==> id in s.live
    ensures LeavesInFront(s.queue, ReleaseSlot(s, kind, now).queue)
  {
    assert s.queue == s.queue[0..];
  }

  lemma RemoveFifo(s: State, tid: nat, now: int)
    requires Linked(s) && Inv(s)
    ensures var s' := Remove(s, tid, now); FifoStep(s.queue, s'.queue, s'.live.Keys) && Arrived(s, s') == []
  {
    var s' := Remove(s, tid, now);
    if tid in s.table && s.live[tid].thread == None && Queued(s.live[tid]) {
      assert tid in s.queue;
      WithoutSplit(s.queue, tid);
      DropIsFifo(s.queue, s'.queue, s'.live.Keys);
    } else {
      assert s.queue == s.queue[0..];
      if tid in s.table {
        var s0 := s.(table := s.table - {tid});
        ReleaseFront(s0, s.live[tid].kind, now);
        ReleaseFront(s0.(sequester := Without(s.sequester, tid)), s.live[tid].kind, now);
      }
      FrontIsFifo(s.queue, s'.queue, s'.live.Keys);
    }
  }

  lemma AddDownloadFifo(s: State, uid: int, filename: string, mode: int, offset: int, now: int)
    requires Inv(s)
    ensures var s' := AddDownload(s, uid, filename, mode, offset, now).state;
            FifoStep(s.queue, s'.queue, s'.live.Keys) && |Arrived(s, s')| <= 1
  {
    var s' := AddDownload(s, uid, filename, mode, offset, now).state;
    if s'.queue == s.queue {
      assert s.queue == s.queue[0..];
      FrontIsFifo(s.queue, s'.queue, s'.live.Keys);
    } else {
      AddDownloadKeeps(s, uid, filename, mode, offset, now);
      EndIsFifo(s.queue, s'.queue, s'.live.Keys);
    }
  }

  lemma StepFifo(s: State, c: Call)
    requires Inv(s) && Enabled(s, c)
    ensures Subseq(Served(s, Step(s, c)) + Step(s, c).queue, s.queue + Arrived(s, Step(s, c)))
    ensures |Arrived(s, Step(s, c))| <= if c.op.DoAddDownload? then 1 else 0
  {
    hide Subseq, Taken, Base, Slots, QueueJustified, UploadsDistinct, CancelledIdle;
    var s' := Step(s, c);
    assert s.queue == s.queue[0..];
    match c.op
    case DoInit(enable, down, up) =>
      FillSlotsFront(s.(queueEnable := enable,
                        maxDown := if down >= 0 then down else s.maxDown,
                        maxUp := if up >= 0 then up else s.maxUp), c.now);
      FrontIsFifo(s.queue, s'.queue, s'.live.Keys);
    case DoAddDownload(uid, filename, mode, offset) => AddDownloadFifo(s, uid, filename, mode, offset, c.now);
    case DoRemove(tid) => RemoveFifo(s, tid, c.now);
    case DoTimeout =>
      ReleaseFront(s.(table := s.table - {s.sequester[0]}), s.live[s.sequester[0]].kind, c.now);
      FrontIsFifo(s.queue, s'.queue, s'.live.Keys);
    case _ => FrontIsFifo(s.queue, s'.queue, s'.live.Keys);
  }

  // ---- tickets ----

  // A download that was let into the queue by the call of that number.
  datatype Ticket = Ticket(tid: nat, call: nat)

  ghost function Tag(ids: seq<nat>, since: map<nat, nat>): seq<Ticket> {
    if ids == [] then []
    else [Ticket(ids[0], if ids[0] in since then since[ids[0]] else 0)] + Tag(ids[1..], since)
  }

  ghost predicate Covers(since: map<nat, nat>, ids: seq<nat>) {
    forall id :: id in ids ==> id in since
  }

  // Who waits keeps the ticket, who joins gets one from call n.
  ghost function SinceNext(since: map<nat, nat>, q: seq<nat>, q': seq<nat>, n: nat): map<nat, nat> {
    map id | id in q' :: if id in q && id in since then since[id] else n
  }

  lemma {:induction false} TagConcat(a: seq<nat>, b: seq<nat>, since: map<nat, nat>)
    ensures Tag(a + b, since) == Tag(a, since) + Tag(b, since)
  {
    if a == [] {
      assert a + b == b;
    } else {
      assert (a + b)[1..] == a[1..] + b;
      TagConcat(a[1..], b, since);
    }
  }

  lemma {:induction false} TagSame(ids: seq<nat>, m: map<nat, nat>, m': map<nat, nat>)
    requires forall id :: id in ids ==> id in m && id in m' && m[id] == m'[id]
    ensures Tag(ids, m) == Tag(ids, m')
  {
    if ids != [] {
      assert ids == [ids[0]] + ids[1..];
      TagSame(ids[1..], m, m');
    }
  }

  lemma {:induction false} TagSubseq(a: seq<nat>, b: seq<nat>, since: map<nat, nat>)
    requires Subseq(a, b)
    ensures Subseq(Tag(a, since), Tag(b, since))
  {
    if a != [] {
      if a[0] == b[0] && Subseq(a[1..], b[1..]) {
        TagSubseq(a[1..], b[1..], since);
        assert Tag(a, since)[1..] == Tag(a[1..], since);
      } else {
        TagSubseq(a, b[1..], since);
      }
      assert Tag(b, since)[1..] == Tag(b[1..], since);
    }
  }

  lemma {:induction false} TakenMember(q: seq<nat>, q': seq<nat>, live: set<nat>, id: nat)
    requires id in Taken(q, q', live)
    ensures id in q && id !in q'
  {
    if !(q[0] !in q' && q[0] in live && id == q[0]) {
      TakenMember(q[1..], q', live, id);
    }
  }

  // One step, ticket by ticket.
  lemma StepTickets(s: State, c: Call, since: map<nat, nat>, n: nat)
    requires Inv(s) && Enabled(s, c) && Covers(since, s.queue)
    ensures var s' := Step(s, c);
            var since' := SinceNext(since, s.queue, s'.queue, n);
            && Covers(since', s'.queue)
            && Subseq(Tag(Served(s, s'), since) + Tag(s'.queue, since'),
                      Tag(s.queue, since) + Tag(Arrived(s, s'), since'))
  {
    StepFifo(s, c);
    TicketsOf(s, Step(s, c), since, n);
  }

  lemma TicketsOf(s: State, s': State, since: map<nat, nat>, n: nat)
    requires Covers(since, s.queue)
    requires Subseq(Served(s, s') + s'.queue, s.queue + Arrived(s, s'))
    ensures var since' := SinceNext(since, s.queue, s'.queue, n);
            && Covers(since', s'.queue)
            && Subseq(Tag(Served(s, s'), since) + Tag(s'.queue, since'),
                      Tag(s.queue, since) + Tag(Arrived(s, s'), since'))
  {
    hide Subseq, Taken, Tag;
    var since' := SinceNext(since, s.queue, s'.queue, n);
    // Both queues under one map.
    var both := map id | id in s.queue + s'.queue :: if id in s.queue then since[id] else n;
    var out, inn := Served(s, s'), Arrived(s, s');
    forall id | id in out ensures id in s.queue { TakenMember(s.queue, s'.queue, s'.live.Keys, id); }
    forall id | id in inn ensures id in s'.queue { TakenMember(s'.queue, s.queue, s'.live.Keys, id); }
    TagSame(out, since, both);
    TagSame(s'.queue, since', both);
    TagSame(s.queue, since, both);
    TagSame(inn, since', both);
    TagConcat(out, s'.queue, both);
    TagConcat(s.queue, inn, both);
    TagSubseq(out + s'.queue, s.queue + inn, both);
  }

  // ---- whole runs ----

  // The downloads given a slot along a run whose first call has number n.
  ghost function ServedTickets(since: map<nat, nat>, n: nat, s: State, clock: int, calls: seq<Call>): seq<Ticket>
    requires IsRun(s, clock, calls)
    decreases |calls|
  {
    if calls == [] then []
    else
      var s' := Step(s, calls[0]);
      Tag(Served(s, s'), since)
      + ServedTickets(SinceNext(since, s.queue, s'.queue, n), n + 1, s', calls[0].now, calls[1..])
  }

  ghost function ArrivedTickets(since: map<nat, nat>, n: nat, s: State, clock: int, calls: seq<Call>): seq<Ticket>
    requires IsRun(s, clock, calls)
    decreases |calls|
  {
    if calls == [] then []
    else
      var s' := Step(s, calls[0]);
      var since' := SinceNext(since, s.queue, s'.queue, n);
      Tag(Arrived(s, s'), since') + ArrivedTickets(since', n + 1, s', calls[0].now, calls[1..])
  }

  // The downloads still waiting at its end.
  ghost function WaitingTickets(since: map<nat, nat>, n: nat, s: State, clock: int, calls: seq<Call>): seq<Ticket>
    requires IsRun(s, clock, calls)
    decreases |calls|
  {
    if calls == [] then Tag(s.queue, since)
    else
      var s' := Step(s, calls[0]);
      WaitingTickets(SinceNext(since, s.queue, s'.queue, n), n + 1, s', calls[0].now, calls[1..])
  }

  lemma {:induction false} RunFifo(since: map<nat, nat>, n: nat, s: State, clock: int, calls: seq<Call>)
    requires Inv(s) && IsRun(s, clock, calls) && Covers(since, s.queue)
    ensures Subseq(ServedTickets(since, n, s, clock, calls) + WaitingTickets(since, n, s, clock, calls),
                   Tag(s.queue, since) + ArrivedTickets(since, n, s, clock, calls))
    decreases |calls|
  {
    hide Inv, Enabled, Step, Subseq, Served, Arrived, Tag, SinceNext, Covers;
    if calls == [] {
      assert [] + Tag(s.queue, since) == Tag(s.queue, since) == Tag(s.queue, since) + [];
      SubseqRefl(Tag(s.queue, since));
    } else {
      var c, s' := calls[0], Step(s, calls[0]);
      var since' := SinceNext(since, s.queue, s'.queue, n);
      StepKeeps(s, c);
      StepTickets(s, c, since, n);
      RunFifo(since', n + 1, s', c.now, calls[1..]);
      Relay(Tag(Served(s, s'), since), ServedTickets(since', n + 1, s', c.now, calls[1..]),
            WaitingTickets(since', n + 1, s', c.now, calls[1..]), Tag(s'.queue, since'), Tag(s.queue, since),
            Tag(Arrived(s, s'), since'), ArrivedTickets(since', n + 1, s', c.now, calls[1..]));
    }
  }

  // The tickets name the transfers that wait.
  lemma {:induction false} TagNames(ids: seq<nat>, since: map<nat, nat>)
    ensures |Tag(ids, since)| == |ids|
    ensures forall i :: 0 <= i < |ids| ==> Tag(ids, since)[i].tid == ids[i]
    ensures forall i :: 0 <= i < |ids| && ids[i] in since ==> Tag(ids, since)[i].call == since[ids[i]]
  {
    if ids != [] {
      TagNames(ids[1..], since);
      assert forall i :: 0 < i < |ids| ==> Tag(ids, since)[i] == Tag(ids[1..], since)[i - 1];
    }
  }

  lemma {:induction false} WaitingNames(since: map<nat, nat>, n: nat, s: State, clock: int, calls: seq<Call>)
    requires IsRun(s, clock, calls)
    ensures var w, q := WaitingTickets(since, n, s, clock, calls), After(s, clock, calls).queue;
            |w| == |q| && forall i :: 0 <= i < |q| ==> w[i].tid == q[i]
    decreases |calls|
  {
    hide Enabled, Step, Tag, SinceNext;
    if calls == [] {
      TagNames(s.queue, since);
    } else {
      var s' := Step(s, calls[0]);
      WaitingNames(SinceNext(since, s.queue, s'.queue, n), n + 1, s', calls[0].now, calls[1..]);
    }
  }

  ghost predicate Rising(ts: seq<Ticket>) {
    forall i, j :: 0 <= i < j < |ts| ==> ts[i].call < ts[j].call
  }

  // Every ticket of a run is from a call of tfm_add_download, and no call issues two.
  ghost predicate Issued(ts: seq<Ticket>, n: nat, calls: seq<Call>) {
    forall i :: 0 <= i < |ts| ==> n <= ts[i].call < n + |calls| && calls[ts[i].call - n].op.DoAddDownload?
  }

  lemma ArrivedNow(s: State, s': State, since: map<nat, nat>, n: nat)
    requires |Arrived(s, s')| <= 1
    ensures var ts := Tag(Arrived(s, s'), SinceNext(since, s.queue, s'.queue, n));
            |ts| == |Arrived(s, s')| && (ts != [] ==> ts[0].call == n)
  {
    hide Taken, Tag;
    var inn := Arrived(s, s');
    TagNames(inn, SinceNext(since, s.queue, s'.queue, n));
    if inn != [] { TakenMember(s'.queue, s.queue, s'.live.Keys, inn[0]); }
  }

  lemma {:induction false} ArrivalsRise(since: map<nat, nat>, n: nat, s: State, clock: int, calls: seq<Call>)
    requires Inv(s) && IsRun(s, clock, calls)
    ensures var ts := ArrivedTickets(since, n, s, clock, calls); Rising(ts) && Issued(ts, n, calls)
    decreases |calls|
  {
    hide Inv, Enabled, Step, Arrived, Tag, SinceNext;
    if calls != [] {
      var s' := Step(s, calls[0]);
      var since' := SinceNext(since, s.queue, s'.queue, n);
      StepKeeps(s, calls[0]);
      StepFifo(s, calls[0]);
      ArrivedNow(s, s', since, n);
      ArrivalsRise(since', n + 1, s', calls[0].now, calls[1..]);
      FirstIssued(Tag(Arrived(s, s'), since'), ArrivedTickets(since', n + 1, s', calls[0].now, calls[1..]), n, calls);
    }
  }

  lemma FirstIssued(first: seq<Ticket>, rest: seq<Ticket>, n: nat, calls: seq<Call>)
    requires calls != [] && Rising(rest) && Issued(rest, n + 1, calls[1..])
    requires |first| <= if calls[0].op.DoAddDownload? then 1 else 0
    requires first != [] ==> first[0].call == n
    ensures Rising(first + rest) && Issued(first + rest, n, calls)
  {
    assert forall i :: 0 <= i < |rest| ==> calls[1..][rest[i].call - n - 1] == calls[rest[i].call - n];
  }

  lemma {:induction false} SubseqRises(a: seq<Ticket>, b: seq<Ticket>)
    requires Subseq(a, b) && Rising(b)
    ensures Rising(a)
  {
    if a != [] {
      assert forall i, j :: 0 <= i < j < |b| - 1 ==> b[1..][i] == b[i + 1] && b[1..][j] == b[j + 1];
      if a[0] == b[0] && Subseq(a[1..], b[1..]) {
        SubseqRises(a[1..], b[1..]);
        forall j | 0 < j < |a| ensures a[0].call < a[j].call {
          assert a[j] == a[1..][j - 1];
          SubseqMember(a[1..], b[1..], a[j]);
        }
        assert forall i :: 0 < i < |a| ==> a[i] == a[1..][i - 1];
      } else {
        SubseqRises(a, b[1..]);
      }
    }
  }

  // From the start of the server: whoever was given a slot, in that order, and then whoever waits, in
  // the order of the queue, came in in that order. Each came in by a call of its own.
  lemma ServedInArrivalOrder(clock: int, calls: seq<Call>)
    requires IsRun(Boot(), clock, calls)
    ensures var served := ServedTickets(map[], 0, Boot(), clock, calls);
            var waiting := WaitingTickets(map[], 0, Boot(), clock, calls);
            var arrived := ArrivedTickets(map[], 0, Boot(), clock, calls);
            && Subseq(served + waiting, arrived)
            && Rising(served + waiting) && Rising(arrived) && Issued(arrived, 0, calls)
            && |waiting| == |After(Boot(), clock, calls).queue|
            && (forall i :: 0 <= i < |waiting| ==> waiting[i].tid == After(Boot(), clock, calls).queue[i])
  {
    BootInv();
    assert Boot().queue == [] && Tag([], map[]) == [];
    hide Inv, Subseq, Rising, Issued, IsRun, ServedTickets, WaitingTickets, ArrivedTickets, After, Tag;
    var arrived := ArrivedTickets(map[], 0, Boot(), clock, calls);
    RunFifo(map[], 0, Boot(), clock, calls);
    assert [] + arrived == arrived;
    ArrivalsRise(map[], 0, Boot(), clock, calls);
    WaitingNames(map[], 0, Boot(), clock, calls);
    SubseqRises(ServedTickets(map[], 0, Boot(), clock, calls) + WaitingTickets(map[], 0, Boot(), clock, calls), arrived);
  }
}
