/** When transfers are started: the messages to the helper threads against the state. */
module TransferStarts {
  import opened Wrappers
  import opened TransferSpec
  import opened TransferInvariant
  import opened TransferSteps
  import opened TransferRuns
  import Idm

  // Registered and on neither list: a running transfer.
  ghost predicate Started(s: State, id: nat) {
    id in s.live && s.live[id].thread.Some? && id !in s.queue && id !in s.sequester
  }

  ghost function Level(s: State, id: nat): int {
    if Started(s, id) then 1 else 0
  }

  // The start messages made from one record.
  function StartsOf(log: seq<Event>, id: nat): nat {
    if log == [] then 0 else (if log[0].Start? && log[0].tid == id then 1 else 0) + StartsOf(log[1..], id)
  }

  // A start message for a transfer that is live, to the thread it is registered with.
  ghost predicate Rightful(e: Event, live: map<nat, Xfer>) {
    e.Start? ==> e.tid in live && live[e.tid].thread.Some? && e == StartEvent(live[e.tid])
  }

  // A step that starts what it sets running, once, and nothing else.
  ghost predicate StartsAgree(s: State, s': State) {
    && s.log <= s'.log
    && (forall i :: |s.log| <= i < |s'.log| ==> Rightful(s'.log[i], s'.live))
    && (forall id :: id in s'.live ==> StartsOf(s'.log[|s.log|..], id) == Level(s', id) - Level(s, id))
  }

  ghost predicate SameRecords(s: State, s': State) {
    (forall id :: id in s.live <==> id in s'.live)
    && (forall id :: id in s.live ==> SameButPlace(s.live[id], s'.live[id]))
  }

  // ---- counting starts ----

  lemma {:induction false} StartsConcat(a: seq<Event>, b: seq<Event>, id: nat)
    ensures StartsOf(a + b, id) == StartsOf(a, id) + StartsOf(b, id)
  {
    if a == [] {
      assert a + b == b;
    } else {
      assert (a + b)[1..] == a[1..] + b;
      StartsConcat(a[1..], b, id);
    }
  }

  lemma {:induction false} NoticesStartNothing(live: map<nat, Xfer>, ids: seq<nat>, id: nat)
    requires forall x :: x in ids ==> x in live
    ensures StartsOf(Notices(live, ids), id) == 0
    ensures forall i :: 0 <= i < |Notices(live, ids)| ==> !Notices(live, ids)[i].Start?
  {
    if ids != [] {
      assert ids == [ids[0]] + ids[1..];
      NoticesStartNothing(live, ids[1..], id);
      assert Notices(live, ids)[1..] == Notices(live, ids[1..]);
    }
  }

  lemma {:induction false} NoStart(log: seq<Event>, id: nat)
    requires StartsOf(log, id) == 0
    ensures forall i :: 0 <= i < |log| && log[i].Start? ==> log[i].tid != id
  {
    if log != [] {
      NoStart(log[1..], id);
      assert forall i :: 0 < i < |log| ==> log[i] == log[1..][i - 1];
    }
  }

  // Two edits that keep the records, one after the other.
  lemma AgreeTrans(s: State, s1: State, s2: State)
    requires StartsAgree(s, s1) && StartsAgree(s1, s2) && SameRecords(s1, s2)
    ensures StartsAgree(s, s2)
  {
    var a, b := s1.log[|s.log|..], s2.log[|s1.log|..];
    assert s2.log[|s.log|..] == a + b;
    forall id | id in s2.live ensures StartsOf(s2.log[|s.log|..], id) == Level(s2, id) - Level(s, id) {
      StartsConcat(a, b, id);
    }
    forall i | |s.log| <= i < |s2.log| ensures Rightful(s2.log[i], s2.live) {
      if i < |s1.log| { assert s2.log[i] == s1.log[i] && Rightful(s1.log[i], s1.live); }
    }
  }

  lemma RecordsTrans(s: State, s1: State, s2: State)
    requires SameRecords(s, s1) && SameRecords(s1, s2)
    ensures SameRecords(s, s2)
  {
  }

  // An edit that logs nothing and sets nothing running.
  lemma QuietAgrees(s: State, s1: State)
    requires s1.log == s.log
    requires forall id :: id in s1.live ==> Level(s1, id) == Level(s, id)
    ensures StartsAgree(s, s1)
  {
    assert s1.log[|s.log|..] == [];
  }

  // transfer_destroy, for a record that this step has not started.
  lemma DestroyAgrees(s: State, s1: State, tid: nat)
    requires StartsAgree(s, s1) && tid in s1.live && Level(s1, tid) == Level(s, tid)
    ensures StartsAgree(s, Destroy(s1, tid))
  {
    var s2 := Destroy(s1, tid);
    var a, b := s1.log[|s.log|..], s2.log[|s1.log|..];
    assert s2.log[|s.log|..] == a + b;
    assert b == [] || b == [Close(s1.live[tid].fd)];
    NoStart(a, tid);
    forall id | id in s2.live ensures StartsOf(s2.log[|s.log|..], id) == Level(s2, id) - Level(s, id) {
      StartsConcat(a, b, id);
      assert [Close(s1.live[tid].fd)][1..] == [];
      assert StartsOf(b, id) == 0;
    }
    forall i | |s.log| <= i < |s2.log| ensures Rightful(s2.log[i], s2.live) {
      if i < |s1.log| {
        assert s2.log[i] == s1.log[i] == a[i - |s.log|] && Rightful(s1.log[i], s1.live);
      }
    }
  }

  // ---- the shared edits ----

  lemma PromoteLog(s: State, now: int)
    requires s.queue != [] && forall id :: id in s.queue ==> id in s.live
    ensures var head := s.queue[0];
            head in s.live
            && Promote(s, now).log == s.log + (Notices(s.live, s.queue)
                 + if s.live[head].thread.Some? then [StartEvent(s.live[head])] else [])
  {
    assert s.queue[0] in s.queue;
  }

  lemma PromoteStarts(s: State, limbo: set<nat>, now: int)
    requires Base(s, limbo) && s.queue != []
    ensures StartsAgree(s, Promote(s, now)) && SameRecords(s, Promote(s, now))
  {
    hide Promote, RestAgrees;
    var s', head := Promote(s, now), s.queue[0];
    PromoteFacts(s, now);
    PromoteLog(s, now);
    TailOfQueue(s.queue);
    var told := Notices(s.live, s.queue);
    var start := if s.live[head].thread.Some? then [StartEvent(s.live[head])] else [];
    assert s'.log[|s.log|..] == told + start;
    assert head in s.queue && head !in s.sequester;
    forall id | id in s'.live ensures StartsOf(told + start, id) == Level(s', id) - Level(s, id) {
      StartsConcat(told, start, id);
      NoticesStartNothing(s.live, s.queue, id);
      PromoteLevel(s, s', id);
      if start != [] { StartsSingle(s.live[head], id); }
    }
    forall i | |s.log| <= i < |s'.log| ensures Rightful(s'.log[i], s'.live) {
      NoticesStartNothing(s.live, s.queue, head);
      assert s'.log[i] == (told + start)[i - |s.log|];
      assert SameButPlace(s.live[head], s'.live[head]);
    }
  }

  lemma StartsSingle(x: Xfer, id: nat)
    requires x.thread.Some?
    ensures StartsOf([StartEvent(x)], id) == if x.tid == id then 1 else 0
  {
    assert [StartEvent(x)][1..] == [];
  }

  lemma PromoteLevel(s: State, s': State, id: nat)
    requires s.queue != [] && PromotedTo(s, s') && id in s.live
    requires NoRepeat(s.queue) && s.queue[0] !in s.sequester
    ensures Level(s', id) - Level(s, id) == if id == s.queue[0] && s.live[id].thread.Some? then 1 else 0
  {
    TailOfQueue(s.queue);
    assert SameButPlace(s.live[id], s'.live[id]);
  }

  lemma ReleaseStarts(s: State, limbo: set<nat>, kind: Kind, now: int)
    requires Base(s, limbo)
    ensures StartsAgree(s, ReleaseSlot(s, kind, now)) && SameRecords(s, ReleaseSlot(s, kind, now))
  {
    if kind.Download? && s.queue != [] {
      PromoteStarts(s, limbo, now);
    } else {
      QuietAgrees(s, ReleaseSlot(s, kind, now));
    }
  }

  lemma {:induction false} FillSlotsStarts(s: State, now: int)
    requires Linked(s) && Base(s, {}) && Slots(s, 0, 0) && UploadsDistinct(s) && CancelledIdle(s)
    ensures StartsAgree(s, FillSlots(s, now)) && SameRecords(s, FillSlots(s, now))
    decreases |s.queue|
  {
    hide Base, CancelledIdle, UploadsDistinct, Slots, Promote, StartsAgree, SameRecords;
    if s.activeDown < s.maxDown && s.queue != [] {
      var s1 := Promote(s, now);
      var s2 := s1.(activeDown := s.activeDown + 1);
      PromoteStarts(s, {}, now);
      FillOneKeeps(s, now);
      FillSlotsStarts(s2, now);
      CountersAside(s, s1, s2);
      AgreeTrans(s, s2, FillSlots(s2, now));
      RecordsTrans(s, s2, FillSlots(s2, now));
    } else {
      NothingDone(s);
    }
  }

  lemma CountersAside(s: State, s1: State, s2: State)
    requires StartsAgree(s, s1) && SameRecords(s, s1)
    requires s2.live == s1.live && s2.log == s1.log && s2.queue == s1.queue && s2.sequester == s1.sequester
    ensures StartsAgree(s, s2) && SameRecords(s, s2)
  {
    assert forall id :: Level(s2, id) == Level(s1, id);
  }

  lemma NothingDone(s: State)
    ensures StartsAgree(s, s) && SameRecords(s, s)
  {
    QuietAgrees(s, s);
  }

  // ---- every step ----

  lemma InitStarts(s: State, enable: bool, down: int, up: int, now: int)
    requires Linked(s) && Inv(s)
    ensures StartsAgree(s, Init(s, enable, down, up, now))
  {
    var s1 := s.(queueEnable := enable,
                 maxDown := if down >= 0 then down else s.maxDown,
                 maxUp := if up >= 0 then up else s.maxUp);
    OnlyStructureMatters(s, s1, {});
    hide Base, CancelledIdle, UploadsDistinct, FillSlots, StartsAgree, Level;
    FillSlotsStarts(s1, now);
    FromCounters(s, s1, FillSlots(s1, now));
  }

  lemma FromCounters(s: State, s1: State, s2: State)
    requires StartsAgree(s1, s2)
    requires s1.live == s.live && s1.log == s.log && s1.queue == s.queue && s1.sequester == s.sequester
    ensures StartsAgree(s, s2)
  {
    assert forall id :: Level(s1, id) == Level(s, id);
  }

  lemma AddStarts(s: State, c: Call)
    requires Linked(s) && Inv(s) && Enabled(s, c) && (c.op.DoAddDownload? || c.op.DoAddUpload?)
    ensures StartsAgree(s, Step(s, c))
  {
    hide SequesterAgrees, RestAgrees, Slots, QueueJustified, UploadsDistinct, CancelledIdle, StartsAgree;
    var s' := Step(s, c);
    assert s.free != {} ==> Idm.IsLeast(LeastId(s.free), s.free);
    QuietAgrees(s, s');
  }

  // A step whose only message to a helper thread starts the transfer it sets running.
  lemma OneStart(s: State, s': State, tid: nat)
    requires tid in s'.live && s'.live[tid].tid == tid && Started(s', tid) && !Started(s, tid)
    requires s'.log == s.log + [StartEvent(s'.live[tid])]
    requires forall id :: id in s'.live && id != tid ==> Level(s', id) == Level(s, id)
    ensures StartsAgree(s, s')
  {
    assert s'.log[|s.log|..] == [StartEvent(s'.live[tid])];
    forall id | id in s'.live ensures StartsOf(s'.log[|s.log|..], id) == Level(s', id) - Level(s, id) {
      StartsSingle(s'.live[tid], id);
    }
  }

  lemma SignalAgrees(s: State, s': State)
    requires s'.log == s.log + [Signal]
    requires forall id :: id in s'.live ==> Level(s', id) == Level(s, id)
    ensures StartsAgree(s, s')
  {
    assert s'.log[|s.log|..] == [Signal] && [Signal][1..] == [];
    assert forall id :: StartsOf([Signal], id) == 0;
  }

  lemma RegisterHeadStarts(s: State, tid: nat, fd: int, thread: int)
    requires tid in s.live && (tid in s.queue || tid in s.sequester)
    ensures var s1 := Attach(s, tid, fd, thread);
            StartsAgree(s, s1) && StartsAgree(s, s1.(log := s.log + [Signal]))
  {
    var s1 := Attach(s, tid, fd, thread);
    QuietAgrees(s, s1);
    SignalAgrees(s, s1.(log := s.log + [Signal]));
  }

  lemma RegisterBehindStarts(s: State, tid: nat, fd: int, thread: int)
    requires tid in s.live && tid in s.sequester && NoRepeat(s.sequester) && tid !in s.queue
    requires s.live[tid].tid == tid
    ensures var s1 := Attach(s, tid, fd, thread);
            StartsAgree(s, s1.(sequester := Without(s.sequester, tid), log := s.log + [StartEvent(s1.live[tid])]))
  {
    hide Without;
    WithoutMember(s.sequester, tid);
    var s1 := Attach(s, tid, fd, thread);
    OneStart(s, s1.(sequester := Without(s.sequester, tid), log := s.log + [StartEvent(s1.live[tid])]), tid);
  }

  // Registering starts the transfer behind the head that leaves the list, and no other.
  lemma RegisterStarts(s: State, tid: nat, fd: int, ip: int, thread: int, ips: map<int, int>)
    requires Linked(s) && Inv(s)
    ensures StartsAgree(s, Register(s, tid, fd, ip, thread, ips).state)
  {
    hide StartsAgree, Without, UploadsDistinct, CancelledIdle, Slots;
    NothingDone(s);
    if Admitted(s, tid, ip, ips) {
      assert tid in s.queue || tid in s.sequester;
      RegisterHeadStarts(s, tid, fd, thread);
      if tid in s.sequester { RegisterBehindStarts(s, tid, fd, thread); }
    }
  }

  // ---- removals ----

  // Messages that start nothing, and no transfer set running.
  lemma ToldAgrees(s: State, s1: State, told: seq<Event>)
    requires s1.log == s.log + told && (forall i :: 0 <= i < |told| ==> !told[i].Start?)
    requires forall id :: id in s1.live ==> StartsOf(told, id) == 0 && Level(s1, id) == Level(s, id)
    ensures StartsAgree(s, s1)
  {
    assert s1.log[|s.log|..] == told;
    assert forall i :: |s.log| <= i < |s1.log| ==> s1.log[i] == told[i - |s.log|];
  }

  lemma DequeuedLevels(s: State, tid: nat)
    requires Linked(s) && NoRepeat(s.queue) && tid in s.queue && s.live[tid].thread == None
    ensures forall id :: Level(Dequeued(s, tid), id) == Level(s, id)
  {
    WithoutMember(s.queue, tid);
    hide Without;
  }

  lemma DequeuedStarts(s: State, tid: nat)
    requires Linked(s) && NoRepeat(s.queue) && tid in s.queue && s.live[tid].thread == None
    ensures StartsAgree(s, Destroy(Dequeued(s, tid), tid))
  {
    hide StartsAgree, Without, Level, NoRepeat;
    var behind := s.queue[IndexOf(s.queue, tid) + 1..];
    assert forall x :: x in behind ==> x in s.queue;
    DequeuedLevels(s, tid);
    NoticesStartNothing(s.live, behind, tid);
    forall id ensures StartsOf(Notices(s.live, behind), id) == 0 { NoticesStartNothing(s.live, behind, id); }
    ToldAgrees(s, Dequeued(s, tid), Notices(s.live, behind));
    DestroyAgrees(s, Dequeued(s, tid), tid);
  }

  // A transfer leaves the lists that hold it, its slot goes on, and it is destroyed.
  lemma ReleasedStarts(s: State, s1: State, tid: nat, now: int)
    requires tid in s.live && Base(s1, {tid}) && tid !in s1.queue
    requires s1.live == s.live && s1.log == s.log && s1.queue == s.queue
    requires forall id :: id in s.live ==> Level(s1, id) == Level(s, id)
    ensures Linked(s1) && StartsAgree(s, Destroy(ReleaseSlot(s1, s.live[tid].kind, now), tid))
  {
    hide StartsAgree, ReleaseSlot, QueueAgrees, RestAgrees;
    var s2 := ReleaseSlot(s1, s.live[tid].kind, now);
    QuietAgrees(s, s1);
    ReleaseStarts(s1, {tid}, s.live[tid].kind, now);
    AgreeTrans(s, s1, s2);
    assert InLimbo(s1, tid) by { LimboOf(s1, tid); }
    ReleasedLevel(s1, tid, now);
    DestroyAgrees(s, s2, tid);
  }

  lemma LimboOf(s: State, tid: nat)
    requires Base(s, {tid})
    ensures InLimbo(s, tid)
  {
  }

  // Passing a slot on does not touch a transfer that is not in the queue.
  lemma ReleasedLevel(s: State, tid: nat, now: int)
    requires Linked(s) && tid in s.live && tid !in s.queue && tid !in s.sequester
    ensures Level(ReleaseSlot(s, s.live[tid].kind, now), tid) == Level(s, tid)
  {
    if s.live[tid].kind.Download? && s.queue != [] {
      hide Promote;
      PromoteFacts(s, now);
      assert s.queue[0] in s.queue;
      assert SameButPlace(s.live[tid], Promote(s, now).live[tid]);
    }
  }

  lemma RemoveStarts(s: State, tid: nat, now: int)
    requires Linked(s) && Inv(s) && !CancelRace(s, tid)
    ensures StartsAgree(s, Remove(s, tid, now))
  {
    hide StartsAgree, Without, ReleaseSlot, UploadsDistinct, Slots, Level;
    NothingDone(s);
    if tid in s.table {
      var x, s0 := s.live[tid], s.(table := s.table - {tid});
      if x.thread == None && Queued(x) {
        assert tid in s.queue;
        DequeuedStarts(s, tid);
      } else if x.thread == None && IsHead(s, tid) {
        TableAside(s, s0);
      } else if x.thread == None {
        assert tid in s.sequester;
        var s1 := s0.(sequester := Without(s.sequester, tid));
        UnlinkBehindHead(s, s1, tid);
        IdleLevels(s, s1, tid);
        ReleasedStarts(s, s1, tid, now);
      } else {
        UnlistRegistered(s, s0, tid);
        TableAside(s, s0);
        ReleasedStarts(s, s0, tid, now);
      }
    }
  }

  lemma TableAside(s: State, s0: State)
    requires s0.live == s.live && s0.log == s.log && s0.queue == s.queue && s0.sequester == s.sequester
    ensures StartsAgree(s, s0) && forall id :: Level(s0, id) == Level(s, id)
  {
    assert forall id :: Level(s0, id) == Level(s, id);
    QuietAgrees(s, s0);
  }

  lemma IdleLevels(s: State, s1: State, tid: nat)
    requires NoRepeat(s.sequester) && tid in s.live && s.live[tid].thread == None
    requires s1.live == s.live && s1.queue == s.queue && s1.sequester == Without(s.sequester, tid)
    ensures forall id :: Level(s1, id) == Level(s, id)
  {
    WithoutMember(s.sequester, tid);
  }

  // ---- the monitor thread ----

  lemma TimeoutStarts(s: State, now: int)
    requires Linked(s) && Inv(s) && s.sequester != []
    ensures StartsAgree(s, Timeout(s, now))
  {
    var head := s.sequester[0];
    var s0 := s.(table := s.table - {head});
    assert head in s.sequester;
    CancelHead(s);
    hide StartsAgree, ReleaseSlot, Base, UploadsDistinct, CancelledIdle, Slots, Level;
    var s1 := ReleaseSlot(s0, s.live[head].kind, now);
    TableAside(s, s0);
    ReleaseStarts(s0, {}, s.live[head].kind, now);
    AgreeTrans(s, s0, s1);
    ReleaseSlotKeeps(s0, {}, s.live[head].kind, now);
    assert head in s1.sequester;
    ListedLevel(s, head);
    ListedLevel(s1, head);
    DestroyAgrees(s, s1, head);
    HeadGone(s, Destroy(s1, head));
  }

  lemma ListedLevel(s: State, id: nat)
    requires id in s.sequester
    ensures Level(s, id) == 0
  {
  }

  // The dropped head is not live, so taking it off the list sets nothing running.
  lemma HeadGone(s: State, s1: State)
    requires StartsAgree(s, s1) && s1.sequester != [] && s1.sequester[0] !in s1.live
    ensures StartsAgree(s, NextHead(s1))
  {
    var s2 := NextHead(s1);
    assert s1.sequester == [s1.sequester[0]] + s1.sequester[1..];
    assert forall id :: id in s2.live ==> Level(s2, id) == Level(s1, id);
  }

  lemma WakeStarts(s: State)
    requires Linked(s) && Inv(s) && s.sequester != [] && s.live[s.sequester[0]].thread.Some?
    ensures StartsAgree(s, Wake(s))
  {
    var head := s.sequester[0];
    assert s.sequester == [head] + s.sequester[1..];
    assert head in s.sequester;
    OneStart(s, Wake(s), head);
  }

  // ---- every step, every run ----

  // A step starts exactly the transfers it sets running: registered, and off both lists.
  lemma StepStarts(s: State, c: Call)
    requires Enabled(s, c) && Inv(s)
    ensures StartsAgree(s, Step(s, c))
  {
    hide Inv, StartsAgree, Init, Register, Remove, Timeout, Wake;
    match c.op
    case DoInit(enable, down, up) => InitStarts(s, enable, down, up, c.now);
    case DoAddDownload(_, _, _, _) => AddStarts(s, c);
    case DoAddUpload(_, _, _, _) => AddStarts(s, c);
    case DoRegister(tid, fd, ip, thread, ips) => RegisterStarts(s, tid, fd, ip, thread, ips);
    case DoRemove(tid) => RemoveStarts(s, tid, c.now);
    case DoTimeout => TimeoutStarts(s, c.now);
    case DoWake => WakeStarts(s);
  }

  // For each live transfer, the starts made since its id was taken.
  ghost function Counted(count: map<nat, nat>, s: State, s': State): map<nat, nat>
    requires s.log <= s'.log
  {
    map id | id in s'.live ::
      (if id in s.live && id in count then count[id] else 0) + StartsOf(s'.log[|s.log|..], id)
  }

  ghost function CountAfter(count: map<nat, nat>, s: State, clock: int, calls: seq<Call>): map<nat, nat>
    requires Inv(s) && IsRun(s, clock, calls)
    decreases |calls|
  {
    if calls == [] then count
    else
      StepStarts(s, calls[0]);
      StepKeeps(s, calls[0]);
      var s' := Step(s, calls[0]);
      CountAfter(Counted(count, s, s'), s', calls[0].now, calls[1..])
  }

  // Started once: exactly those that are registered and off both lists.
  ghost predicate OnceEach(count: map<nat, nat>, s: State) {
    forall id :: id in s.live ==> id in count && count[id] == Level(s, id)
  }

  lemma CountedOnce(count: map<nat, nat>, s: State, s': State)
    requires OnceEach(count, s) && StartsAgree(s, s')
    ensures OnceEach(Counted(count, s, s'), s')
  {
  }

  lemma {:induction false} RunStarts(count: map<nat, nat>, s: State, clock: int, calls: seq<Call>)
    requires Inv(s) && IsRun(s, clock, calls) && OnceEach(count, s)
    ensures OnceEach(CountAfter(count, s, clock, calls), After(s, clock, calls))
    decreases |calls|
  {
    hide Inv, Enabled, Step, OnceEach, Counted;
    if calls != [] {
      StepStarts(s, calls[0]);
      StepKeeps(s, calls[0]);
      CountedOnce(count, s, Step(s, calls[0]));
      RunStarts(Counted(count, s, Step(s, calls[0])), Step(s, calls[0]), calls[0].now, calls[1..]);
    }
  }

  // Over every run: a live transfer that is registered and on neither list has been started exactly
  // once since its id was taken, and one that waits, or is sequestered, has not.
  lemma StartedOnce(clock: int, calls: seq<Call>, id: nat)
    requires IsRun(Boot(), clock, calls)
    ensures Inv(Boot())
    ensures var s, count := After(Boot(), clock, calls), CountAfter(map[], Boot(), clock, calls);
            id in s.live ==>
              && id in count
              && count[id] == (if s.live[id].thread.Some? && id !in s.queue && id !in s.sequester then 1 else 0)
  {
    BootInv();
    hide Inv, Enabled, Step, IsRun;
    RunStarts(map[], Boot(), clock, calls);
  }
}
