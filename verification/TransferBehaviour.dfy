/** The eight cases of the table at TransferManager.c:54-92: in each state, what the action leads to.
    And the other half of every step: what it leaves alone. */
module TransferBehaviour {
  import opened Wrappers
  import opened TransferSpec
  import opened TransferInvariant
  import opened TransferSteps
  import opened TransferRuns
  import opened TransferStarts
  import Idm

  // ---- the documented cases ----

  // Lines 54-57: a free slot. The download goes directly to the sequester list.
  lemma NewDownloadSequestered(s: State, uid: int, filename: string, mode: int, offset: int, now: int)
    requires Inv(s) && !DownloadsFull(s) && s.free != {}
    ensures var r := AddDownload(s, uid, filename, mode, offset, now);
            var s', tid := r.state, r.ret;
            && tid >= 0 && tid !in s.live && tid in s'.live && tid in s'.table && tid !in s'.free
            && s'.queue == [] && s'.sequester == s.sequester + [tid]
            && s'.live[tid].deadline == now + DATA_CONNECT_TIMEOUT
            && s'.live[tid].uid == uid && s'.live[tid].filename == filename
            && s'.activeDown == s.activeDown + 1 && s'.activeUp == s.activeUp
  {
    hide SequesterAgrees, RestAgrees, UploadsDistinct, CancelledIdle, Slots;
    assert Idm.IsLeast(LeastId(s.free), s.free);
  }

  // Lines 59-62: every slot taken. The download waits at the end of the queue, or is refused
  // when queueing is off.
  lemma NewDownloadQueued(s: State, uid: int, filename: string, mode: int, offset: int, now: int)
    requires Inv(s) && DownloadsFull(s) && s.free != {}
    ensures var r := AddDownload(s, uid, filename, mode, offset, now);
            if !s.queueEnable then r == Reply(s, -1)
            else
              var s', tid := r.state, r.ret;
              && tid >= 0 && tid !in s.live && tid in s'.live && tid in s'.table
              && s'.queue == s.queue + [tid] && s'.live[tid].position == |s.queue| + 1
              && s'.sequester == s.sequester && s'.activeDown == s.activeDown
  {
    hide SequesterAgrees, RestAgrees, UploadsDistinct, CancelledIdle, Slots;
    assert Idm.IsLeast(LeastId(s.free), s.free);
  }

  // Lines 64-67: the head registers in time and the monitor thread wakes. It leaves the list, keeps
  // its slot, and starts on the thread it registered with.
  lemma HeadRegisters(s: State, tid: nat, fd: int, ip: int, thread: int, ips: map<int, int>)
    requires Inv(s) && Admitted(s, tid, ip, ips) && IsHead(s, tid)
    ensures var r := Register(s, tid, fd, ip, thread, ips);
            && r.ret == 0 && Inv(r.state) && Enabled(r.state, Call(DoWake, 0))
            && var w := Wake(r.state);
               && w.sequester == s.sequester[1..] && w.queue == s.queue
               && w.activeDown == s.activeDown && w.activeUp == s.activeUp
               && tid in w.live && w.live[tid] == s.live[tid].(fd := fd, thread := Some(thread))
               && w.log == s.log + [Signal] + [StartEvent(w.live[tid])]
  {
    RegisterKeeps(s, tid, fd, ip, thread, ips);
    assert tid in s.sequester;
  }

  // Lines 69-72: the head's time runs out. It is purged, and the rest of the list moves on.
  lemma HeadTimesOut(s: State, now: int)
    requires Inv(s) && s.sequester != []
    ensures var s', tid := Timeout(s, now), s.sequester[0];
            && tid !in s'.live && tid !in s'.table && s'.free == Idm.Returned(s.free, tid)
            && s.sequester[1..] <= s'.sequester
            && (s.live[tid].kind.Upload? ==> s'.activeUp == s.activeUp - 1 && s'.activeDown == s.activeDown)
            && (s.live[tid].kind.Download? && s.queue == [] ==>
                  s'.activeDown == s.activeDown - 1 && s'.activeUp == s.activeUp)
            && (s.live[tid].kind.Upload? || s.queue == [] ==>
                  s'.log == s.log + if s.live[tid].fd == -1 then [] else [Close(s.live[tid].fd)])
  {
    hide Base, Slots, QueueJustified, UploadsDistinct, CancelledIdle;
    var tid := s.sequester[0];
    assert tid in s.sequester;
    var s0 := s.(table := s.table - {tid});
    ReleaseKeepsList(s0, s.live[tid].kind, now);
    ReleaseSparesIds(s0, s.live[tid].kind, now);
    ReleaseSpares(s0, s.live[tid].kind, now, tid);
    hide ReleaseSlot;
  }

  lemma ReleaseSparesIds(s: State, kind: Kind, now: int)
    requires Linked(s)
    ensures ReleaseSlot(s, kind, now).free == s.free && ReleaseSlot(s, kind, now).table == s.table
  {
    if kind.Download? && s.queue != [] {
      PromoteFacts(s, now);
      hide Promote;
    }
  }

  // Lines 74-77: a sequestered transfer behind the head registers, as intended. It leaves the list and
  // starts; the others keep their order.
  lemma BehindHeadRegisters(s: State, tid: nat, fd: int, ip: int, thread: int, ips: map<int, int>)
    requires Inv(s) && Admitted(s, tid, ip, ips) && tid in s.sequester && s.sequester[0] != tid
    ensures var r := Register(s, tid, fd, ip, thread, ips);
            && r.ret == 0
            && tid !in r.state.sequester && r.state.sequester == Without(s.sequester, tid)
            && tid in r.state.live && r.state.live[tid] == s.live[tid].(fd := fd, thread := Some(thread))
            && r.state.log == s.log + [StartEvent(r.state.live[tid])]
            && r.state.activeDown == s.activeDown && r.state.activeUp == s.activeUp
  {
    hide QueueAgrees, RestAgrees, UploadsDistinct, CancelledIdle, Slots, Without;
    WithoutMember(s.sequester, tid);
  }

  // Lines 79-82: a queued download registers. It is recorded and goes on waiting.
  lemma QueuedRegisters(s: State, tid: nat, fd: int, ip: int, thread: int, ips: map<int, int>)
    requires Inv(s) && Admitted(s, tid, ip, ips) && tid in s.queue
    ensures Register(s, tid, fd, ip, thread, ips) ==
            Reply(s.(live := s.live[tid := s.live[tid].(fd := fd, thread := Some(thread))]), 0)
  {
    var i :| 0 <= i < |s.queue| && s.queue[i] == tid;
    assert s.live[s.queue[i]].position == i + 1;
  }

  // A running download, neither waiting nor sequestered.
  ghost predicate Running(s: State, tid: nat) {
    tid in s.table && tid in s.live && s.live[tid].kind.Download? && s.live[tid].thread.Some?
    && tid !in s.queue && tid !in s.sequester
  }

  // Lines 84-87: a running download ends while the first in the queue is not registered. The first in
  // the queue moves to the sequester list, the others one place up, and the slot stays taken.
  lemma SlotToUnregistered(s: State, tid: nat, now: int)
    requires Inv(s) && Running(s, tid) && s.queue != [] && s.live[s.queue[0]].thread.None?
    ensures var s', first := Remove(s, tid, now), s.queue[0];
            && tid !in s'.live && tid !in s'.table
            && s'.queue == s.queue[1..] && s'.sequester == s.sequester + [first]
            && first in s'.live && s'.live[first].position == 0
            && s'.live[first].deadline == now + DATA_CONNECT_TIMEOUT
            && s'.activeDown == s.activeDown
            && (forall id :: id in s'.queue ==>
                  id in s'.live && id in s.live && s'.live[id].position == s.live[id].position - 1)
  {
    hide UploadsDistinct, CancelledIdle, Slots, RestAgrees, IdsAgree;
    assert s.queue[0] in s.queue && s.live[s.queue[0]].position == 1;
    TailOfQueue(s.queue);
  }

  // Lines 89-92: the same when the first in the queue is registered. It starts.
  lemma SlotToRegistered(s: State, tid: nat, now: int)
    requires Inv(s) && Running(s, tid) && s.queue != [] && s.live[s.queue[0]].thread.Some?
    ensures var s', first := Remove(s, tid, now), s.queue[0];
            && tid !in s'.live && tid !in s'.table
            && s'.queue == s.queue[1..] && s'.sequester == s.sequester
            && first in s'.live && s'.live[first].position == 0
            && s.log <= s'.log && StartEvent(s.live[first]) in s'.log[|s.log|..]
            && s'.activeDown == s.activeDown
  {
    hide UploadsDistinct, CancelledIdle, Slots, RestAgrees, IdsAgree;
    assert s.queue[0] in s.queue && s.live[s.queue[0]].position == 1;
    TailOfQueue(s.queue);
    var s', s1 := Remove(s, tid, now), ReleaseSlot(s.(table := s.table - {tid}), Download, now);
    var at := |s1.log| - 1;
    assert s1.log[at] == StartEvent(s.live[s.queue[0]]) && s1.log <= s'.log && at >= |s.log|;
    assert s'.log[at] == s1.log[at] && s'.log[|s.log|..][at - |s.log|] == s'.log[at];
  }

  // A cancelled download that waits: it is gone, those behind it are one place further on, and
  // those before it and every slot stay as they are.
  lemma WaitingCancelled(s: State, i: nat, now: int)
    requires Inv(s) && i < |s.queue|
    requires s.queue[i] in s.table && s.queue[i] in s.live && s.live[s.queue[i]].thread.None?
    ensures var s', tid := Remove(s, s.queue[i], now), s.queue[i];
            && tid !in s'.live && tid !in s'.table
            && s'.queue == s.queue[..i] + s.queue[i + 1..]
            && s'.sequester == s.sequester && s'.activeDown == s.activeDown && s'.activeUp == s.activeUp
            && (forall k :: 0 <= k < |s'.queue| ==> s'.queue[k] in s'.live && s'.live[s'.queue[k]].position == k + 1)
  {
    var tid := s.queue[i];
    RemoveKeeps(s, tid, now);
    WithoutSplit(s.queue, tid);
    assert IndexOf(s.queue, tid) == i;
  }

  // ---- outcomes ----

  // A registration succeeds exactly when the id is known, its user has a control connection, the data
  // connection comes from the same address, and no thread is registered yet. Otherwise it returns -1
  // and changes nothing, in the code as in its intent.
  lemma RegisterOutcome(s: State, tid: nat, fd: int, ip: int, thread: int, ips: map<int, int>)
    requires Inv(s)
    ensures var r, w := Register(s, tid, fd, ip, thread, ips), RegisterAsWritten(s, tid, fd, ip, thread, ips);
            if tid in s.table && tid in s.live && s.live[tid].thread == None
               && s.live[tid].uid in ips && ips[s.live[tid].uid] == ip
            then
              && r.ret == 0 && tid in r.state.live
              && r.state.live[tid] == s.live[tid].(fd := fd, thread := Some(thread))
            else r == Reply(s, -1) && w == Reply(s, -1)
  {
    hide Slots, UploadsDistinct, CancelledIdle;
    if tid in s.table && tid in s.live && s.live[tid].thread == None {
      assert tid in s.queue || tid in s.sequester;
    }
  }

  // A configuration value that is missing leaves the old limit; queueing is set either way.
  lemma InitSettings(s: State, enable: bool, down: int, up: int, now: int)
    requires Linked(s)
    ensures var s' := Init(s, enable, down, up, now);
            && s'.queueEnable == enable
            && s'.maxDown == (if down >= 0 then down else s.maxDown)
            && s'.maxUp == (if up >= 0 then up else s.maxUp)
            && s'.activeUp == s.activeUp && s'.table == s.table && s'.free == s.free
  {
    FillSlotsSettings(s.(queueEnable := enable,
                         maxDown := if down >= 0 then down else s.maxDown,
                         maxUp := if up >= 0 then up else s.maxUp), now);
    hide FillSlots;
  }

  lemma {:induction false} FillSlotsSettings(s: State, now: int)
    requires Linked(s)
    ensures var s' := FillSlots(s, now);
            && s'.queueEnable == s.queueEnable && s'.maxDown == s.maxDown && s'.maxUp == s.maxUp
            && s'.activeUp == s.activeUp && s'.table == s.table && s'.free == s.free
    decreases |s.queue|
  {
    hide Promote;
    if s.activeDown < s.maxDown && s.queue != [] {
      PromoteFacts(s, now);
      PromotedStillLinked(s, now);
      FillSlotsSettings(Promote(s, now).(activeDown := s.activeDown + 1), now);
    }
  }

  // A running transfer that is removed: its descriptor is closed last, its id is given back, and
  // without anyone waiting its slot is free again.
  lemma RunningRemoved(s: State, tid: nat, now: int)
    requires Inv(s) && tid in s.table && tid in s.live && s.live[tid].thread.Some?
    requires tid !in s.queue && tid !in s.sequester
    ensures var s', x := Remove(s, tid, now), s.live[tid];
            && tid !in s'.live && tid !in s'.table && s'.free == Idm.Returned(s.free, tid)
            && s.log <= s'.log
            && (x.fd != -1 ==> |s'.log| > |s.log| && s'.log[|s'.log| - 1] == Close(x.fd))
            && (x.kind.Upload? ==> s'.activeUp == s.activeUp - 1 && s'.activeDown == s.activeDown)
            && (x.kind.Download? && s.queue == [] ==> s'.activeDown == s.activeDown - 1 && s'.activeUp == s.activeUp)
  {
    hide Slots, UploadsDistinct, CancelledIdle, QueueAgrees, SequesterAgrees, RestAgrees;
    var s0 := s.(table := s.table - {tid});
    ReleaseSpares(s0, s.live[tid].kind, now, tid);
    ReleaseSparesIds(s0, s.live[tid].kind, now);
    ReleaseLog(s0, s.live[tid].kind, now);
  }

  lemma ReleaseLog(s: State, kind: Kind, now: int)
    requires Linked(s)
    ensures s.log <= ReleaseSlot(s, kind, now).log
  {
    if kind.Download? && s.queue != [] { PromoteLog(s, now); }
  }

  // An id that is not in the table is not removed, in the code as in its intent.
  lemma UnknownRemoved(s: State, tid: nat, now: int)
    requires Linked(s) && tid !in s.table
    ensures Remove(s, tid, now) == s && RemoveAsWritten(s, tid, now) == Done(s)
  {
  }

  // When the queue moves up, each download in it is told its new place, in order: the first that it
  // has none any more.
  lemma PromotionTells(s: State, now: int, k: nat)
    requires Inv(s) && k < |s.queue|
    ensures s.queue[k] in s.live && s.queue[0] in s.live
    ensures |Promote(s, now).log| == |s.log| + |s.queue| + if s.live[s.queue[0]].thread.Some? then 1 else 0
    ensures s.log <= Promote(s, now).log
    ensures Promote(s, now).log[|s.log| + k] == Notify(s.live[s.queue[k]].uid, s.queue[k], k)
  {
    hide Slots, UploadsDistinct, CancelledIdle, SequesterAgrees, RestAgrees, IdsAgree;
    PromoteLog(s, now);
    NoticeCount(s.live, s.queue);
    NoticeAt(s.live, s.queue, k);
    assert s.live[s.queue[k]].position == k + 1;
    hide Promote;
  }

  lemma {:induction false} NoticeCount(live: map<nat, Xfer>, ids: seq<nat>)
    requires forall id :: id in ids ==> id in live
    ensures |Notices(live, ids)| == |ids|
  {
    if ids != [] {
      assert forall id :: id in ids[1..] ==> id in ids;
      NoticeCount(live, ids[1..]);
    }
  }

  lemma {:induction false} NoticeAt(live: map<nat, Xfer>, ids: seq<nat>, k: nat)
    requires k < |ids| && forall id :: id in ids ==> id in live
    ensures ids[k] in live && k < |Notices(live, ids)|
    ensures Notices(live, ids)[k] == Notify(live[ids[k]].uid, ids[k], live[ids[k]].position - 1)
  {
    assert ids[0] in ids && forall id :: id in ids[1..] ==> id in ids;
    if k > 0 { NoticeAt(live, ids[1..], k - 1); }
  }

  // When a waiting download is cancelled, those behind it, and nobody else, are told their new places.
  lemma CancelTells(s: State, i: nat, k: nat, now: int)
    requires Inv(s) && i < k < |s.queue|
    requires s.queue[i] in s.table && s.queue[i] in s.live && s.live[s.queue[i]].thread.None?
    ensures var s' := Remove(s, s.queue[i], now);
            && |s'.log| >= |s.log| + |s.queue| - i - 1 && s.log <= s'.log
            && (s.live[s.queue[i]].fd == -1 ==> |s'.log| == |s.log| + |s.queue| - i - 1)
            && s.queue[k] in s.live
            && s'.log[|s.log| + k - i - 1] == Notify(s.live[s.queue[k]].uid, s.queue[k], k)
  {
    hide Inv, Remove, Notices;
    var behind := s.queue[i + 1..];
    PlaceOf(s, k);
    WaitingCancelLog(s, i, now);
    assert forall id :: id in behind ==> id in s.queue;
    NoticeCount(s.live, behind);
    NoticeAt(s.live, behind, k - i - 1);
    assert behind[k - i - 1] == s.queue[k];
  }

  lemma PlaceOf(s: State, k: nat)
    requires Inv(s) && k < |s.queue|
    ensures s.queue[k] in s.live && s.live[s.queue[k]].position == k + 1
  {
  }

  lemma WaitingCancelLog(s: State, i: nat, now: int)
    requires Inv(s) && i < |s.queue|
    requires s.queue[i] in s.table && s.queue[i] in s.live && s.live[s.queue[i]].thread.None?
    ensures forall id :: id in s.queue[i + 1..] ==> id in s.live
    ensures var x := s.live[s.queue[i]];
            Remove(s, s.queue[i], now).log == s.log + Notices(s.live, s.queue[i + 1..]) + if x.fd == -1 then [] else [Close(x.fd)]
  {
    hide Slots, UploadsDistinct, CancelledIdle, SequesterAgrees, RestAgrees, IdsAgree, Notices, MoveUp;
    var tid := s.queue[i];
    assert IndexOf(s.queue, tid) == i;
    assert s.live[s.queue[i]].position == i + 1;
    assert forall id :: id in s.queue[i + 1..] ==> id in s.queue;
    QueuedCancelLog(s, tid, s.queue[i + 1..], now);
  }

  lemma QueuedCancelLog(s: State, tid: nat, behind: seq<nat>, now: int)
    requires Linked(s) && tid in s.table && tid in s.live && s.live[tid].thread.None? && Queued(s.live[tid])
    requires tid in s.queue && behind == s.queue[IndexOf(s.queue, tid) + 1..] && forall id :: id in behind ==> id in s.live
    ensures var x := s.live[tid];
            Remove(s, tid, now).log == s.log + Notices(s.live, behind) + if x.fd == -1 then [] else [Close(x.fd)]
  {
    hide Notices, MoveUp, ReleaseSlot;
    MovedLive(s.live, behind, tid);
  }

  lemma MovedLive(live: map<nat, Xfer>, ids: seq<nat>, tid: nat)
    requires tid in live
    ensures tid in MoveUp(live, ids) && MoveUp(live, ids)[tid].fd == live[tid].fd
  {
  }

  // ---- what a step leaves alone ----

  // The transfer a step is about.
  ghost function Subject(s: State, c: Call): Option<nat>
    requires Enabled(s, c)
  {
    match c.op
    case DoRegister(tid, _, _, _, _) => Some(tid)
    case DoRemove(tid) => Some(tid)
    case DoTimeout => Some(s.sequester[0])
    case _ => None
  }

  // A transfer survives with its owner, file, offset, descriptor and thread; only its place in the
  // queue and its deadline may change.
  ghost predicate Survives(s: State, s': State, id: nat) {
    && id in s.live && id in s'.live && SameButPlace(s.live[id], s'.live[id])
    && (id in s.table <==> id in s'.table)
  }

  lemma PromoteSpares(s: State, now: int, id: nat)
    requires Linked(s) && s.queue != [] && id in s.live
    ensures Survives(s, Promote(s, now), id)
  {
    PromoteFacts(s, now);
    hide Promote;
  }

  lemma {:induction false} FillSlotsSpares(s: State, now: int, id: nat)
    requires Linked(s) && id in s.live
    ensures Survives(s, FillSlots(s, now), id)
    decreases |s.queue|
  {
    hide Promote;
    if s.activeDown < s.maxDown && s.queue != [] {
      PromoteSpares(s, now, id);
      PromotedStillLinked(s, now);
      FillSlotsSpares(Promote(s, now).(activeDown := s.activeDown + 1), now, id);
    }
  }

  lemma PromotedStillLinked(s: State, now: int)
    requires Linked(s) && s.queue != []
    ensures Promote(s, now).activeDown == s.activeDown && |Promote(s, now).queue| < |s.queue|
    ensures Linked(Promote(s, now).(activeDown := s.activeDown + 1))
  {
    PromoteFacts(s, now);
    PromoteLinked(s, Promote(s, now));
  }

  lemma ReleaseSpares(s: State, kind: Kind, now: int, id: nat)
    requires Linked(s) && id in s.live
    ensures Survives(s, ReleaseSlot(s, kind, now), id)
  {
    if kind.Download? && s.queue != [] { PromoteSpares(s, now, id); }
  }

  lemma RemoveSpares(s: State, tid: nat, now: int, id: nat)
    requires Linked(s) && Inv(s) && id in s.live && id != tid
    ensures Survives(s, Remove(s, tid, now), id)
  {
    hide Inv;
    if tid in s.table {
      var s0 := s.(table := s.table - {tid});
      ReleaseSpares(s0, s.live[tid].kind, now, id);
      RemovedLinked(s0, tid);
      ReleaseSpares(s0.(sequester := Without(s.sequester, tid)), s.live[tid].kind, now, id);
      hide ReleaseSlot;
    }
  }

  lemma RemovedLinked(s: State, tid: nat)
    requires Linked(s)
    ensures Linked(s.(sequester := Without(s.sequester, tid)))
  {
    WithoutSubset(s.sequester, tid);
  }

  lemma {:induction false} WithoutSubset(ids: seq<nat>, tid: nat)
    ensures forall id :: id in Without(ids, tid) ==> id in ids
  {
    if ids != [] {
      WithoutSubset(ids[1..], tid);
      assert ids == [ids[0]] + ids[1..];
    }
  }

  lemma StepKeepsRecord(s: State, c: Call, id: nat)
    requires Enabled(s, c) && Inv(s) && id in s.live && Subject(s, c) != Some(id)
    ensures Survives(s, Step(s, c), id)
  {
    hide Base, Slots, QueueJustified, UploadsDistinct, CancelledIdle;
    match c.op
    case DoInit(enable, down, up) =>
      FillSlotsSpares(s.(queueEnable := enable,
                         maxDown := if down >= 0 then down else s.maxDown,
                         maxUp := if up >= 0 then up else s.maxUp), c.now, id);
      hide FillSlots;
    case DoAddDownload(_, _, _, _) => AddSpares(s, c, id);
    case DoAddUpload(_, _, _, _) => AddSpares(s, c, id);
    case DoRegister(_, _, _, _, _) =>
    case DoRemove(tid) =>
      RemoveSpares(s, tid, c.now, id);
      hide Remove;
    case DoTimeout =>
      ReleaseSpares(s.(table := s.table - {s.sequester[0]}), s.live[s.sequester[0]].kind, c.now, id);
      hide ReleaseSlot;
    case DoWake =>
  }

  lemma AddSpares(s: State, c: Call, id: nat)
    requires Enabled(s, c) && Inv(s) && id in s.live && (c.op.DoAddDownload? || c.op.DoAddUpload?)
    ensures Survives(s, Step(s, c), id)
  {
    hide QueueAgrees, SequesterAgrees, RestAgrees, Slots, QueueJustified, UploadsDistinct, CancelledIdle;
    assert s.free != {} ==> Idm.IsLeast(LeastId(s.free), s.free);
  }

  // ---- only the monitor thread takes the head off the sequester list ----

  lemma {:induction false} FillSlotsAppends(s: State, now: int)
    requires Linked(s)
    ensures s.sequester <= FillSlots(s, now).sequester
    decreases |s.queue|
  {
    hide Promote;
    if s.activeDown < s.maxDown && s.queue != [] {
      PromoteFacts(s, now);
      PromotedStillLinked(s, now);
      FillSlotsAppends(Promote(s, now).(activeDown := s.activeDown + 1), now);
    }
  }

  lemma ReleaseKeepsList(s: State, kind: Kind, now: int)
    requires Linked(s)
    ensures s.sequester <= ReleaseSlot(s, kind, now).sequester
  {
    if kind.Download? && s.queue != [] {
      PromoteFacts(s, now);
      hide Promote;
    }
  }

  lemma RemoveKeepsHead(s: State, tid: nat, now: int)
    requires Linked(s) && s.sequester != []
    ensures var s' := Remove(s, tid, now); s'.sequester != [] && s'.sequester[0] == s.sequester[0]
  {
    if tid in s.table {
      var s0 := s.(table := s.table - {tid});
      RemovedLinked(s0, tid);
      ReleaseKeepsList(s0, s.live[tid].kind, now);
      ReleaseKeepsList(s0.(sequester := Without(s.sequester, tid)), s.live[tid].kind, now);
      hide ReleaseSlot;
    }
  }

  lemma OnlyMonitorTakesHead(s: State, c: Call)
    requires Enabled(s, c) && Inv(s) && s.sequester != [] && !c.op.DoTimeout? && !c.op.DoWake?
    ensures Step(s, c).sequester != [] && Step(s, c).sequester[0] == s.sequester[0]
  {
    hide Inv;
    match c.op
    case DoInit(enable, down, up) =>
      FillSlotsAppends(s.(queueEnable := enable,
                          maxDown := if down >= 0 then down else s.maxDown,
                          maxUp := if up >= 0 then up else s.maxUp), c.now);
      hide FillSlots;
    case DoAddDownload(_, _, _, _) =>
    case DoAddUpload(_, _, _, _) =>
    case DoRegister(_, _, _, _, _) =>
    case DoRemove(tid) =>
      RemoveKeepsHead(s, tid, c.now);
      hide Remove;
  }

  // No step ends, restarts or changes a transfer it is not about: its record survives, and it is
  // started at most once, when a slot comes to it in the queue or the monitor thread is woken for it.
  lemma StepSpares(s: State, c: Call, id: nat)
    requires Enabled(s, c) && Inv(s) && id in s.live && Subject(s, c) != Some(id)
    ensures var s' := Step(s, c);
            && Survives(s, s', id) && s.log <= s'.log
            && var starts := StartsOf(s'.log[|s.log|..], id);
               && starts == (if Started(s', id) && !Started(s, id) then 1 else 0)
               && (starts > 0 ==>
                     (id in s.queue && id !in s'.queue) || (c.op.DoWake? && s.sequester != [] && s.sequester[0] == id))
  {
    hide Step, Inv;
    StepKeepsRecord(s, c, id);
    StepStarts(s, c);
    if Started(Step(s, c), id) && !Started(s, id) && id !in s.queue {
      RegisteredIsHead(s, id);
      if !c.op.DoTimeout? && !c.op.DoWake? { OnlyMonitorTakesHead(s, c); }
    }
  }

  lemma RegisteredIsHead(s: State, id: nat)
    requires Inv(s) && id in s.sequester && id in s.live && s.live[id].thread.Some?
    ensures s.sequester[0] == id
  {
    var i :| 0 <= i < |s.sequester| && s.sequester[i] == id;
  }
}
