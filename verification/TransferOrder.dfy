/** What runs of the transfer manager keep beyond the invariant: the limits, and the order of
    deadlines on the sequester list. */
module TransferOrder {
  import opened Wrappers
  import opened TransferSpec
  import opened TransferInvariant
  import opened TransferSteps
  import opened TransferRuns

  // ---- limits ----

  ghost predicate WithinLimits(s: State) {
    && (s.maxDown != -1 ==> s.activeDown <= s.maxDown)
    && (s.maxUp != -1 ==> s.activeUp <= s.maxUp)
  }

  // A reconfiguration that puts a limit below what is already active.
  ghost predicate Cuts(s: State, c: Call) {
    c.op.DoInit? && (0 <= c.op.down < s.activeDown || 0 <= c.op.up < s.activeUp)
  }

  lemma {:induction false} FillSlotsCounts(s: State, now: int)
    requires Linked(s)
    ensures var s' := FillSlots(s, now);
            && s'.maxDown == s.maxDown && s'.maxUp == s.maxUp && s'.activeUp == s.activeUp
            && s.activeDown <= s'.activeDown
            && (s'.activeDown == s.activeDown || s'.activeDown <= s.maxDown)
    decreases |s.queue|
  {
    hide Promote;
    if s.activeDown < s.maxDown && s.queue != [] {
      var s1 := Promote(s, now);
      PromoteFacts(s, now);
      PromoteLinked(s, s1);
      FillSlotsCounts(s1.(activeDown := s1.activeDown + 1), now);
    }
  }

  lemma InitLimitsExact(s: State, enable: bool, down: int, up: int, now: int)
    requires Linked(s) && WithinLimits(s)
    ensures WithinLimits(Init(s, enable, down, up, now)) <==> !(0 <= down < s.activeDown || 0 <= up < s.activeUp)
  {
    hide Linked;
    var s1 := s.(queueEnable := enable,
                 maxDown := if down >= 0 then down else s.maxDown,
                 maxUp := if up >= 0 then up else s.maxUp);
    assert Linked(s1) by { LinkedSame(s, s1); }
    FillSlotsCounts(s1, now);
    hide FillSlots;
  }

  lemma LinkedSame(s: State, s1: State)
    requires Linked(s) && s1.live == s.live && s1.table == s.table && s1.queue == s.queue && s1.sequester == s.sequester
    ensures Linked(s1)
  {
  }

  // No slot is taken without a check against its limit.
  lemma ReleaseTakesNoSlot(s: State, kind: Kind, now: int)
    requires forall id :: id in s.queue ==> id in s.live
    ensures var s' := ReleaseSlot(s, kind, now);
            && s'.maxDown == s.maxDown && s'.maxUp == s.maxUp
            && s'.activeDown <= s.activeDown && s'.activeUp <= s.activeUp
            && forall id :: id in s.live ==> id in s'.live
  {
  }

  lemma RemoveTakesNoSlot(s: State, tid: nat, now: int)
    requires Linked(s)
    ensures var s' := Remove(s, tid, now);
            && s'.maxDown == s.maxDown && s'.maxUp == s.maxUp
            && s'.activeDown <= s.activeDown && s'.activeUp <= s.activeUp
  {
    if tid in s.table {
      var s0 := s.(table := s.table - {tid});
      ReleaseTakesNoSlot(s0, s.live[tid].kind, now);
      ReleaseTakesNoSlot(s0.(sequester := Without(s.sequester, tid)), s.live[tid].kind, now);
      hide ReleaseSlot;
    }
  }

  lemma LimitsExact(s: State, c: Call)
    requires Enabled(s, c) && WithinLimits(s)
    ensures WithinLimits(Step(s, c)) <==> !Cuts(s, c)
  {
    match c.op
    case DoInit(enable, down, up) => InitLimitsExact(s, enable, down, up, c.now);
    case DoRemove(tid) =>
      RemoveTakesNoSlot(s, tid, c.now);
      hide Remove;
    case DoTimeout =>
      ReleaseTakesNoSlot(s.(table := s.table - {s.sequester[0]}), s.live[s.sequester[0]].kind, c.now);
      hide ReleaseSlot;
    case _ =>
  }

  ghost predicate NeverCuts(s: State, clock: int, calls: seq<Call>)
    requires IsRun(s, clock, calls)
    decreases |calls|
  {
    calls == [] || (!Cuts(s, calls[0]) && NeverCuts(Step(s, calls[0]), calls[0].now, calls[1..]))
  }

  lemma {:induction false} RunWithinLimits(s: State, clock: int, calls: seq<Call>)
    requires WithinLimits(s) && IsRun(s, clock, calls) && NeverCuts(s, clock, calls)
    ensures WithinLimits(After(s, clock, calls))
    decreases |calls|
  {
    hide Enabled, Step, WithinLimits, Cuts;
    if calls != [] {
      LimitsExact(s, calls[0]);
      RunWithinLimits(Step(s, calls[0]), calls[0].now, calls[1..]);
    }
  }

  // ---- deadlines ----

  // Deadlines do not decrease along the sequester list, and none was set in the future.
  ghost predicate DeadlinesOrdered(s: State, clock: int) {
    && (forall id :: id in s.sequester ==> id in s.live && s.live[id].deadline <= clock + DATA_CONNECT_TIMEOUT)
    && (forall i, j :: 0 <= i < j < |s.sequester| && s.sequester[i] in s.live && s.sequester[j] in s.live ==>
          s.live[s.sequester[i]].deadline <= s.live[s.sequester[j]].deadline)
  }

  // The three ways the list changes: an entry leaves, an entry whose time starts now comes last,
  // or nothing changes.
  lemma CutOrdered(s: State, s': State, i: nat, now: int)
    requires DeadlinesOrdered(s, now) && i < |s.sequester| && s'.sequester == s.sequester[..i] + s.sequester[i + 1..]
    requires forall id :: id in s'.sequester ==> id in s'.live && id in s.live && s'.live[id].deadline == s.live[id].deadline
    ensures DeadlinesOrdered(s', now)
  {
    forall k | 0 <= k < |s'.sequester|
      ensures s'.sequester[k] == s.sequester[if k < i then k else k + 1]
      ensures s'.sequester[k] in s'.sequester && s'.sequester[k] in s.sequester
    {
    }
  }

  lemma AppendOrdered(s: State, s': State, id: nat, now: int)
    requires DeadlinesOrdered(s, now) && s'.sequester == s.sequester + [id]
    requires id in s'.live && s'.live[id].deadline == now + DATA_CONNECT_TIMEOUT
    requires forall x :: x in s.sequester ==> x in s'.live && x in s.live && s'.live[x].deadline == s.live[x].deadline
    ensures DeadlinesOrdered(s', now)
  {
    forall k | 0 <= k < |s.sequester|
      ensures s'.sequester[k] == s.sequester[k] && s.sequester[k] in s.sequester
    {
    }
  }

  lemma SameOrdered(s: State, s': State, now: int)
    requires DeadlinesOrdered(s, now) && s'.sequester == s.sequester
    requires forall x :: x in s.sequester ==> x in s'.live && x in s.live && s'.live[x].deadline == s.live[x].deadline
    ensures DeadlinesOrdered(s', now)
  {
    forall k | 0 <= k < |s.sequester| ensures s.sequester[k] in s.sequester {
    }
  }

  lemma OrderedStructure(s: State, s': State, now: int)
    requires DeadlinesOrdered(s, now) && s'.sequester == s.sequester && s'.live == s.live
    ensures DeadlinesOrdered(s', now)
  {
  }

  lemma PromoteOrdered(s: State, limbo: set<nat>, now: int)
    requires Base(s, limbo) && DeadlinesOrdered(s, now) && s.queue != []
    ensures DeadlinesOrdered(Promote(s, now), now)
  {
    var s' := Promote(s, now);
    assert s.queue[0] in s.queue;
    if s.live[s.queue[0]].thread.Some? {
      SameOrdered(s, s', now);
    } else {
      AppendOrdered(s, s', s.queue[0], now);
    }
  }

  lemma ReleaseOrdered(s: State, limbo: set<nat>, kind: Kind, now: int)
    requires Base(s, limbo) && DeadlinesOrdered(s, now)
    ensures DeadlinesOrdered(ReleaseSlot(s, kind, now), now)
  {
    if kind.Download? && s.queue != [] {
      PromoteOrdered(s, limbo, now);
    } else {
      SameOrdered(s, ReleaseSlot(s, kind, now), now);
    }
  }

  lemma {:induction false} FillSlotsOrdered(s: State, now: int)
    requires Linked(s) && Base(s, {}) && DeadlinesOrdered(s, now)
    ensures DeadlinesOrdered(FillSlots(s, now), now)
    decreases |s.queue|
  {
    hide Base, DeadlinesOrdered, Promote;
    if s.activeDown < s.maxDown && s.queue != [] {
      PromoteKeeps(s, {}, now);
      PromoteOrdered(s, {}, now);
      var s1 := Promote(s, now);
      var s2 := s1.(activeDown := s1.activeDown + 1);
      OnlyStructureMatters(s1, s2, {});
      OrderedStructure(s1, s2, now);
      FillSlotsOrdered(s2, now);
    }
  }

  lemma RemoveOrdered(s: State, tid: nat, now: int)
    requires Linked(s) && Inv(s) && DeadlinesOrdered(s, now) && !CancelRace(s, tid)
    ensures DeadlinesOrdered(Remove(s, tid, now), now)
  {
    if tid in s.table {
      var x := s.live[tid];
      if x.thread == None && Queued(x) {
        assert tid in s.queue;
        DequeuedOrdered(s, tid, now);
      } else if x.thread == None && IsHead(s, tid) {
        OrderedStructure(s, Remove(s, tid, now), now);
      } else if x.thread == None {
        assert tid in s.sequester;
        BehindHeadOrdered(s, tid, now);
      } else {
        RegisteredOrdered(s, tid, now);
      }
    }
  }

  lemma DequeuedOrdered(s: State, tid: nat, now: int)
    requires Linked(s) && Base(s, {}) && DeadlinesOrdered(s, now) && tid in s.live && tid in s.queue
    ensures DeadlinesOrdered(Destroy(Dequeued(s, tid), tid), now)
  {
    hide Dequeued;
    DequeuedFacts(s, tid);
    SameOrdered(s, Destroy(Dequeued(s, tid), tid), now);
  }

  lemma BehindHeadOrdered(s: State, tid: nat, now: int)
    requires tid in s.live && Linked(s) && Inv(s) && DeadlinesOrdered(s, now)
    requires tid in s.table && tid in s.sequester && !IsHead(s, tid)
    ensures var s1 := s.(table := s.table - {tid}, sequester := Without(s.sequester, tid));
            Linked(s1) && DeadlinesOrdered(Destroy(ReleaseSlot(s1, s.live[tid].kind, now), tid), now)
  {
    hide Base, CancelledIdle, UploadsDistinct, ActiveDownloads, ActiveUploads;
    var s1 := s.(table := s.table - {tid}, sequester := Without(s.sequester, tid));
    UnlinkBehindHead(s, s1, tid);
    WithoutSplit(s.sequester, tid);
    CutOrdered(s, s1, IndexOf(s.sequester, tid), now);
    TableShrinks(s, s1);
    ReleasedOrdered(s1, tid, now);
  }

  lemma RegisteredOrdered(s: State, tid: nat, now: int)
    requires tid in s.live && Linked(s) && Inv(s) && DeadlinesOrdered(s, now)
    requires tid in s.table && s.live[tid].thread.Some? && !CancelRace(s, tid)
    ensures var s1 := s.(table := s.table - {tid});
            DeadlinesOrdered(Destroy(ReleaseSlot(s1, s.live[tid].kind, now), tid), now)
  {
    hide Base, CancelledIdle, UploadsDistinct, ActiveDownloads, ActiveUploads;
    var s1 := s.(table := s.table - {tid});
    UnlistRegistered(s, s1, tid);
    OrderedStructure(s, s1, now);
    TableShrinks(s, s1);
    ReleasedOrdered(s1, tid, now);
  }

  lemma ReleasedOrdered(s: State, tid: nat, now: int)
    requires Linked(s) && Base(s, {tid}) && DeadlinesOrdered(s, now) && tid in s.live
    requires QueueJustified(s) && Slots(s, 0, 0)
    ensures var s1 := ReleaseSlot(s, s.live[tid].kind, now); tid in s1.live && DeadlinesOrdered(Destroy(s1, tid), now)
  {
    var s1 := ReleaseSlot(s, s.live[tid].kind, now);
    ReleaseSlotKeeps(s, {tid}, s.live[tid].kind, now);
    ReleaseOrdered(s, {tid}, s.live[tid].kind, now);
    assert InLimbo(s1, tid);
    SameOrdered(s1, Destroy(s1, tid), now);
  }

  lemma TimeoutOrdered(s: State, now: int)
    requires Linked(s) && Inv(s) && DeadlinesOrdered(s, now) && s.sequester != []
    ensures DeadlinesOrdered(Timeout(s, now), now)
  {
    var head := s.sequester[0];
    var s0 := s.(table := s.table - {head});
    CancelHead(s);
    SameOrdered(s, s0, now);
    ReleaseSlotKeeps(s0, {}, s.live[head].kind, now);
    ReleaseOrdered(s0, {}, s.live[head].kind, now);
    DropOrdered(ReleaseSlot(s0, s.live[head].kind, now), now);
  }

  lemma DropOrdered(s: State, now: int)
    requires SequesterAgrees(s) && Linked(s) && DeadlinesOrdered(s, now) && s.sequester != [] && s.sequester[0] in s.live
    ensures DeadlinesOrdered(NextHead(Destroy(s, s.sequester[0])), now) && DeadlinesOrdered(NextHead(s), now)
  {
    hide DeadlinesOrdered;
    HeadDiffers(s.sequester);
    KnownDeadlines(s, now);
    assert s.sequester[..0] + s.sequester[1..] == s.sequester[1..];
    CutOrdered(s, NextHead(s), 0, now);
    CutOrdered(s, NextHead(Destroy(s, s.sequester[0])), 0, now);
  }

  lemma HeadDiffers(ids: seq<nat>)
    requires NoRepeat(ids) && ids != []
    ensures forall id :: id in ids[1..] ==> id in ids && id != ids[0]
  {
    TailOfQueue(ids);
  }

  lemma KnownDeadlines(s: State, now: int)
    requires DeadlinesOrdered(s, now)
    ensures forall id :: id in s.sequester ==> id in s.live
  {
  }

  lemma AddOrdered(s: State, c: Call)
    requires Inv(s) && Enabled(s, c) && DeadlinesOrdered(s, c.now) && (c.op.DoAddDownload? || c.op.DoAddUpload?)
    ensures DeadlinesOrdered(Step(s, c), c.now)
  {
    var s' := Step(s, c);
    if s'.sequester == s.sequester {
      SameOrdered(s, s', c.now);
    } else {
      assert LeastId(s.free) !in s.live;
      AppendOrdered(s, s', LeastId(s.free), c.now);
    }
  }

  lemma RegisterOrdered(s: State, c: Call)
    requires Inv(s) && Enabled(s, c) && DeadlinesOrdered(s, c.now) && c.op.DoRegister?
    ensures DeadlinesOrdered(Step(s, c), c.now)
  {
    hide DeadlinesOrdered, Without;
    var s' := Step(s, c);
    RegisterEffect(s, c);
    if s'.sequester == s.sequester {
      SameOrdered(s, s', c.now);
    } else {
      hide Step, Inv;
      WithoutSplit(s.sequester, c.op.tid);
      CutOrdered(s, s', IndexOf(s.sequester, c.op.tid), c.now);
    }
  }

  // Registering changes no deadline, and takes at most the transfer itself off the list.
  lemma RegisterEffect(s: State, c: Call)
    requires Linked(s) && Enabled(s, c) && c.op.DoRegister? && SequesterAgrees(s)
    ensures var s' := Step(s, c);
            && (s'.sequester == s.sequester
                || (c.op.tid in s.sequester && s'.sequester == Without(s.sequester, c.op.tid)))
            && (forall id :: id in s.sequester ==>
                  id in s.live && id in s'.live && s'.live[id].deadline == s.live[id].deadline)
            && (forall id :: id in s'.sequester ==> id in s.sequester)
  {
    WithoutMember(s.sequester, c.op.tid);
    hide Without, NoRepeat, Inv;
  }

  lemma StepOrdered(s: State, clock: int, c: Call)
    requires Linked(s) && Inv(s) && Enabled(s, c) && clock <= c.now && DeadlinesOrdered(s, clock)
    ensures DeadlinesOrdered(Step(s, c), c.now)
  {
    assert DeadlinesOrdered(s, c.now);
    hide DeadlinesOrdered;
    match c.op
    case DoInit(enable, down, up) =>
      var s1 := s.(queueEnable := enable,
                   maxDown := if down >= 0 then down else s.maxDown,
                   maxUp := if up >= 0 then up else s.maxUp);
      OnlyStructureMatters(s, s1, {});
      SameOrdered(s, s1, c.now);
      FillSlotsOrdered(s1, c.now);
    case DoAddDownload(uid, filename, mode, offset) => AddOrdered(s, c);
    case DoAddUpload(uid, filename, mode, offset) => AddOrdered(s, c);
    case DoRegister(tid, fd, ip, thread, ips) => RegisterOrdered(s, c);
    case DoRemove(tid) => RemoveOrdered(s, tid, c.now);
    case DoTimeout => TimeoutOrdered(s, c.now);
    case DoWake =>
      DropOrdered(s, c.now);
      SameOrdered(NextHead(s), Wake(s), c.now);
  }

  ghost function ClockAfter(clock: int, calls: seq<Call>): int {
    if calls == [] then clock else calls[|calls| - 1].now
  }

  lemma {:induction false} RunOrdered(s: State, clock: int, calls: seq<Call>)
    requires Inv(s) && DeadlinesOrdered(s, clock) && IsRun(s, clock, calls)
    ensures DeadlinesOrdered(After(s, clock, calls), ClockAfter(clock, calls))
    decreases |calls|
  {
    hide Enabled, Step, DeadlinesOrdered, Base, UploadsDistinct, CancelledIdle, Slots, QueueJustified;
    if calls != [] {
      StepKeeps(s, calls[0]);
      StepOrdered(s, clock, calls[0]);
      RunOrdered(Step(s, calls[0]), calls[0].now, calls[1..]);
    }
  }

  // Waiting on the head alone is enough: while its time is not up, nobody's is.
  lemma HeadExpiresFirst(clock: int, calls: seq<Call>, now: int)
    requires IsRun(Boot(), clock, calls)
    ensures var s := After(Boot(), clock, calls);
            && DeadlinesOrdered(s, ClockAfter(clock, calls))
            && (forall id :: id in s.sequester ==> id in s.live)
            && (s.sequester != [] && now < s.live[s.sequester[0]].deadline ==>
                  forall id :: id in s.sequester ==> now < s.live[id].deadline)
  {
    BootInv();
    RunOrdered(Boot(), clock, calls);
    var s := After(Boot(), clock, calls);
    if s.sequester != [] && now < s.live[s.sequester[0]].deadline {
      forall id | id in s.sequester ensures now < s.live[id].deadline {
        var i :| 0 <= i < |s.sequester| && s.sequester[i] == id;
      }
    }
  }
}
