/** Every operation of the transfer manager keeps the invariant. */
module TransferSteps {
  import opened Wrappers
  import opened TransferSpec
  import opened TransferInvariant

  lemma {:induction false} FillSlotsKeeps(s: State, now: int)
    requires Linked(s) && Base(s, {}) && Slots(s, 0, 0) && UploadsDistinct(s) && CancelledIdle(s)
    requires s.maxDown >= -1 && s.maxUp >= -1 && (s.queue != [] ==> s.maxDown != -1)
    ensures Inv(FillSlots(s, now))
    decreases |s.queue|
  {
    hide Base, CancelledIdle, UploadsDistinct, Slots, Promote;
    if s.activeDown < s.maxDown && s.queue != [] {
      FillOneKeeps(s, now);
      FillSlotsKeeps(Promote(s, now).(activeDown := s.activeDown + 1), now);
    }
  }

  lemma FillOneKeeps(s: State, now: int)
    requires Linked(s) && Base(s, {}) && Slots(s, 0, 0) && UploadsDistinct(s) && CancelledIdle(s)
    requires s.queue != []
    ensures var s2 := Promote(s, now).(activeDown := s.activeDown + 1);
            && Linked(s2) && Base(s2, {}) && Slots(s2, 0, 0) && UploadsDistinct(s2) && CancelledIdle(s2)
            && s2.queue == s.queue[1..] && s2.maxDown == s.maxDown && s2.maxUp == s.maxUp
            && Promote(s, now).activeDown == s.activeDown
  {
    hide Base, CancelledIdle, UploadsDistinct, Promote;
    PromoteKeeps(s, {}, now);
    var s1 := Promote(s, now);
    PromoteIdle(s, s1);
    OnlyStructureMatters(s1, s1.(activeDown := s.activeDown + 1), {});
  }

  lemma PromoteIdle(s: State, s1: State)
    requires Base(s, {}) && CancelledIdle(s) && UploadsDistinct(s)
    requires s.queue != [] && PromotedTo(s, s1)
    ensures CancelledIdle(s1) && UploadsDistinct(s1)
  {
    PromoteKeepsIdle(s, s1);
    hide Base, CancelledIdle;
    assert forall id :: id in s.live ==> SameButPlace(s.live[id], s1.live[id]);
    UploadsStayDistinct(s, s1);
  }

  lemma PromoteKeepsIdle(s: State, s1: State)
    requires Base(s, {}) && CancelledIdle(s)
    requires s.queue != [] && PromotedTo(s, s1)
    ensures CancelledIdle(s1)
  {
    hide SequesterAgrees, RestAgrees, IdsAgree;
    assert s.queue[0] in s.queue;
    assert forall id :: id in s.live ==> SameButPlace(s.live[id], s1.live[id]);
  }

  lemma InitKeeps(s: State, enable: bool, down: int, up: int, now: int)
    requires Inv(s)
    ensures Inv(Init(s, enable, down, up, now))
  {
    var s1 := s.(queueEnable := enable,
                 maxDown := if down >= 0 then down else s.maxDown,
                 maxUp := if up >= 0 then up else s.maxUp);
    OnlyStructureMatters(s, s1, {});
    hide Base, CancelledIdle, UploadsDistinct;
    FillSlotsKeeps(s1, now);
  }

  lemma TimeoutKeeps(s: State, now: int)
    requires Inv(s) && s.sequester != []
    ensures Inv(Timeout(s, now))
  {
    hide Base, CancelledIdle, UploadsDistinct, ReleaseSlot, ActiveDownloads, ActiveUploads, Slots;
    HeadRegistered(s);
    var head := s.sequester[0];
    var s0 := s.(table := s.table - {head});
    CancelHead(s);
    var s1 := ReleaseSlot(s0, s.live[head].kind, now);
    ReleaseSlotKeeps(s0, {}, s.live[head].kind, now);
    assert s1.sequester[0] == head && SameButPlace(s.live[head], s1.live[head]);
    DropHeadKeeps(s1);
    TimeoutQueue(s, now);
    BaseLinked(Timeout(s, now), {});
    UploadsStayDistinct(s, Timeout(s, now));
  }

  lemma BaseLinked(s: State, limbo: set<nat>)
    requires Base(s, limbo)
    ensures Linked(s)
  {
  }

  lemma TimeoutQueue(s: State, now: int)
    requires Linked(s) && s.sequester != []
    ensures var s1 := ReleaseSlot(s.(table := s.table - {s.sequester[0]}), s.live[s.sequester[0]].kind, now);
            && s1.sequester != [] && s1.sequester[0] == s.sequester[0] && s1.sequester[0] in s1.live
            && Timeout(s, now) == NextHead(Destroy(s1, s.sequester[0]))
  {
    assert s.sequester[0] in s.sequester;
  }

  // The head may leave the table: it stays live and counted until the monitor thread drops it.
  lemma CancelHead(s: State)
    requires Inv(s) && s.sequester != []
    ensures var s0 := s.(table := s.table - {s.sequester[0]});
            Base(s0, {}) && Slots(s0, 0, 0) && QueueJustified(s0)
  {
    var s0 := s.(table := s.table - {s.sequester[0]});
    assert s.sequester[0] in s.sequester;
    assert ActiveDownloads(s0) == ActiveDownloads(s) && ActiveUploads(s0) == ActiveUploads(s);
  }

  lemma WakeKeeps(s: State)
    requires s.sequester != [] && s.sequester[0] in s.live && Inv(s)
    requires s.live[s.sequester[0]].thread.Some?
    ensures Inv(Wake(s))
  {
    hide Base, UploadsDistinct, CancelledIdle, ActiveDownloads, ActiveUploads;
    var s1 := NextHead(s);
    HeadRegistered(s);
    UnlinkHead(s);
    TableShrinks(s, s1);
    OnlyStructureMatters(s1, Wake(s), {});
  }

  lemma HeadRegistered(s: State)
    requires Inv(s) && s.sequester != []
    ensures s.sequester[0] in s.live && s.sequester[0] !in s.queue
    ensures s.live[s.sequester[0]].thread.Some? ==> s.sequester[0] in s.table
  {
    assert s.sequester[0] in s.sequester;
  }

  // ---- new transfers ----

  // A fresh transfer takes an id from the free set and goes to the end of one of the lists.
  ghost predicate Fresh(s: State, tid: nat, x: Xfer) {
    && tid in s.free && x.tid == tid && x.thread == None
    && x.fd == -1 && (x.kind.Upload? ==> x.position == 0)
  }

  ghost function Enter(s: State, tid: nat, x: Xfer): State {
    s.(free := s.free - {tid}, table := s.table + {tid}, live := s.live[tid := x])
  }

  lemma AppendNoRepeat(ids: seq<nat>, tid: nat)
    requires NoRepeat(ids) && tid !in ids
    ensures NoRepeat(ids + [tid]) && forall id :: id in ids + [tid] <==> id in ids || id == tid
  {
  }

  lemma EnqueueKeeps(s: State, tid: nat, x: Xfer)
    requires Base(s, {}) && Fresh(s, tid, x) && x.kind.Download? && x.position == s.queueSize + 1
    ensures var s' := Enter(s, tid, x).(queue := s.queue + [tid], queueSize := s.queueSize + 1);
            && Base(s', {}) && ActiveDownloads(s') == ActiveDownloads(s) && ActiveUploads(s') == ActiveUploads(s)
            && (CancelledIdle(s) ==> CancelledIdle(s'))
  {
    hide Base, Fresh, ActiveDownloads, ActiveUploads, CancelledIdle, QueueAgrees, SequesterAgrees, RestAgrees, IdsAgree;
    EnqueueQueue(s, tid, x);
    EnqueueRest(s, tid, x);
    EnqueueSlots(s, tid, x);
    BaseOf(Enter(s, tid, x).(queue := s.queue + [tid], queueSize := s.queueSize + 1), {});
  }

  lemma BaseOf(s: State, limbo: set<nat>)
    requires Linked(s) && IdsAgree(s) && QueueAgrees(s, limbo) && SequesterAgrees(s) && RestAgrees(s, limbo)
    ensures Base(s, limbo)
  {
    hide IdsAgree, QueueAgrees, SequesterAgrees, RestAgrees;
  }

  lemma EnqueueQueue(s: State, tid: nat, x: Xfer)
    requires Base(s, {}) && Fresh(s, tid, x) && x.kind.Download? && x.position == s.queueSize + 1
    ensures QueueAgrees(Enter(s, tid, x).(queue := s.queue + [tid], queueSize := s.queueSize + 1), {})
  {
    hide SequesterAgrees, RestAgrees;
    assert tid !in s.live;
    AppendNoRepeat(s.queue, tid);
  }

  lemma EnqueueRest(s: State, tid: nat, x: Xfer)
    requires Base(s, {}) && Fresh(s, tid, x)
    ensures var s' := Enter(s, tid, x).(queue := s.queue + [tid], queueSize := s.queueSize + 1);
            Linked(s') && IdsAgree(s') && SequesterAgrees(s') && RestAgrees(s', {})
  {
    hide QueueAgrees, NoRepeat;
    assert tid !in s.live;
  }

  lemma EnqueueSlots(s: State, tid: nat, x: Xfer)
    requires Base(s, {}) && Fresh(s, tid, x) && x.kind.Download?
    ensures var s' := Enter(s, tid, x).(queue := s.queue + [tid], queueSize := s.queueSize + 1);
            && ActiveDownloads(s') == ActiveDownloads(s) && ActiveUploads(s') == ActiveUploads(s)
            && (CancelledIdle(s) ==> CancelledIdle(s'))
  {
    hide QueueAgrees, SequesterAgrees, RestAgrees;
    assert tid !in s.live;
  }

  lemma SequesterKeeps(s: State, tid: nat, x: Xfer, now: int)
    requires Base(s, {}) && Fresh(s, tid, x) && x.position == 0
    ensures var s' := Sequester(Enter(s, tid, x), tid, now);
            && Linked(s') && Base(s', {}) && (CancelledIdle(s) ==> CancelledIdle(s'))
  {
    hide Base, Fresh, CancelledIdle, QueueAgrees, SequesterAgrees, RestAgrees, IdsAgree, Sequester;
    SequesterList(s, tid, x, now);
    SequesterRest(s, tid, x, now);
    BaseOf(Sequester(Enter(s, tid, x), tid, now), {});
  }

  lemma SequesterList(s: State, tid: nat, x: Xfer, now: int)
    requires Base(s, {}) && Fresh(s, tid, x) && x.position == 0
    ensures SequesterAgrees(Sequester(Enter(s, tid, x), tid, now))
  {
    hide RestAgrees;
    assert tid !in s.live;
    AppendNoRepeat(s.sequester, tid);
  }

  lemma SequesterRest(s: State, tid: nat, x: Xfer, now: int)
    requires Base(s, {}) && Fresh(s, tid, x) && x.position == 0
    ensures var s' := Sequester(Enter(s, tid, x), tid, now);
            && Linked(s') && IdsAgree(s') && QueueAgrees(s', {}) && RestAgrees(s', {})
            && (CancelledIdle(s) ==> CancelledIdle(s'))
  {
    hide SequesterAgrees, NoRepeat;
    assert tid !in s.live;
  }

  // A transfer that enters the heap without entering the queue holds a slot of its kind.
  ghost predicate Grown(s: State, s': State, tid: nat) {
    && tid !in s.live && tid !in s.queue && tid in s'.live
    && (forall id :: id in s'.live <==> id in s.live || id == tid)
    && s'.queue == s.queue
    && (forall id :: id in s.live ==> s.live[id].kind == s'.live[id].kind)
  }

  lemma EnterGrows(s: State, tid: nat, x: Xfer, now: int)
    requires Base(s, {}) && Fresh(s, tid, x)
    ensures Grown(s, Sequester(Enter(s, tid, x), tid, now), tid)
  {
  }

  lemma DownloadGrows(s: State, s': State, tid: nat)
    requires Grown(s, s', tid) && s'.live[tid].kind.Download?
    ensures |ActiveDownloads(s')| == |ActiveDownloads(s)| + 1 && |ActiveUploads(s')| == |ActiveUploads(s)|
  {
    assert ActiveDownloads(s') == ActiveDownloads(s) + {tid};
    assert ActiveUploads(s') == ActiveUploads(s);
  }

  lemma UploadGrows(s: State, s': State, tid: nat)
    requires Grown(s, s', tid) && s'.live[tid].kind.Upload?
    ensures |ActiveDownloads(s')| == |ActiveDownloads(s)| && |ActiveUploads(s')| == |ActiveUploads(s)| + 1
  {
    assert ActiveUploads(s') == ActiveUploads(s) + {tid};
    assert ActiveDownloads(s') == ActiveDownloads(s);
  }

  lemma AddDownloadKeeps(s: State, uid: int, filename: string, mode: int, offset: int, now: int)
    requires Inv(s)
    ensures Inv(AddDownload(s, uid, filename, mode, offset, now).state)
  {
    if !(DownloadsFull(s) && !s.queueEnable) && s.free != {} {
      var tid := LeastId(s.free);
      if DownloadsFull(s) {
        AddQueued(s, tid, NewDownload(tid, uid, filename, mode, offset, s.queueSize + 1));
      } else {
        AddSequestered(s, tid, NewDownload(tid, uid, filename, mode, offset, 0), now);
      }
    }
  }

  lemma AddQueued(s: State, tid: nat, x: Xfer)
    requires Inv(s) && DownloadsFull(s) && Fresh(s, tid, x) && x.kind.Download? && x.position == s.queueSize + 1
    ensures Inv(Enter(s, tid, x).(queue := s.queue + [tid], queueSize := s.queueSize + 1))
  {
    EnqueueKeeps(s, tid, x);
    NewDownloadDistinct(s, Enter(s, tid, x).(queue := s.queue + [tid], queueSize := s.queueSize + 1), tid);
  }

  lemma AddSequestered(s: State, tid: nat, x: Xfer, now: int)
    requires Inv(s) && !DownloadsFull(s) && Fresh(s, tid, x) && x.kind.Download? && x.position == 0
    ensures Inv(Sequester(Enter(s, tid, x), tid, now).(activeDown := s.activeDown + 1))
  {
    hide Base, UploadsDistinct, CancelledIdle, ActiveDownloads, ActiveUploads, Linked;
    var s1 := Sequester(Enter(s, tid, x), tid, now);
    EnterGrows(s, tid, x, now);
    DownloadGrows(s, s1, tid);
    NewDownloadDistinct(s, s1, tid);
    SequesterKeeps(s, tid, x, now);
    OnlyStructureMatters(s1, s1.(activeDown := s.activeDown + 1), {});
  }

  lemma NewDownloadDistinct(s: State, s': State, tid: nat)
    requires Base(s, {}) && UploadsDistinct(s) && tid in s.free && tid in s'.live
    requires s'.table == s.table + {tid} && s'.live == s.live[tid := s'.live[tid]] && s'.live[tid].kind.Download?
    ensures UploadsDistinct(s')
  {
    assert forall id :: IsUpload(s', id) ==> IsUpload(s, id);
  }

  lemma AddUploadKeeps(s: State, uid: int, filename: string, mode: int, offset: int, now: int)
    requires Inv(s)
    ensures Inv(AddUpload(s, uid, filename, mode, offset, now).state)
  {
    if !UploadConflict(s, filename) && (s.maxUp == -1 || s.activeUp < s.maxUp) && s.free != {} {
      var tid := LeastId(s.free);
      AddUploadSequestered(s, tid, Xfer(tid, uid, Upload, filename, mode, offset, 0, -1, None, 0), now);
    }
  }

  lemma AddUploadSequestered(s: State, tid: nat, x: Xfer, now: int)
    requires Inv(s) && Fresh(s, tid, x) && x.kind.Upload? && x.position == 0 && !UploadConflict(s, x.filename)
    ensures Inv(Sequester(Enter(s, tid, x), tid, now).(activeUp := s.activeUp + 1))
  {
    hide Base, UploadsDistinct, CancelledIdle, ActiveDownloads, ActiveUploads, Linked, UploadConflict;
    var s1 := Sequester(Enter(s, tid, x), tid, now);
    EnterGrows(s, tid, x, now);
    UploadGrows(s, s1, tid);
    NewUploadDistinct(s, s1, tid, x.filename);
    SequesterKeeps(s, tid, x, now);
    OnlyStructureMatters(s1, s1.(activeUp := s.activeUp + 1), {});
  }

  lemma NewUploadDistinct(s: State, s': State, tid: nat, filename: string)
    requires Linked(s) && UploadsDistinct(s) && !UploadConflict(s, filename) && tid !in s.live
    requires s'.table == s.table + {tid} && forall id :: id in s'.live <==> id in s.live || id == tid
    requires s'.live[tid].filename == filename
    requires forall id :: id in s.live ==> s'.live[id] == s.live[id]
    ensures UploadsDistinct(s')
  {
    forall a, b | IsUpload(s', a) && IsUpload(s', b) && a != b
      ensures !SameNoCase(s'.live[a].filename, s'.live[b].filename)
    {
      if a != tid {
        assert IsUpload(s, a);
        assert !SameNoCase(filename, s.live[a].filename);
      }
      if b != tid {
        assert IsUpload(s, b);
        assert !SameNoCase(filename, s.live[b].filename);
      }
    }
  }

  // ---- registration ----

  lemma RegisterKeeps(s: State, tid: nat, fd: int, ip: int, thread: int, ips: map<int, int>)
    requires Inv(s)
    ensures Inv(Register(s, tid, fd, ip, thread, ips).state)
  {
    if Admitted(s, tid, ip, ips) {
      if Queued(s.live[tid]) || IsHead(s, tid) {
        RegisterInPlace(s, tid, fd, thread, if Queued(s.live[tid]) then s.log else s.log + [Signal]);
      } else {
        assert tid in s.sequester;
        RegisterBehindHead(s, tid, fd, thread);
      }
    }
  }

  lemma RegisterInPlace(s: State, tid: nat, fd: int, thread: int, log: seq<Event>)
    requires tid in s.live && Inv(s) && tid in s.table && (tid in s.sequester ==> IsHead(s, tid))
    ensures Inv(Attach(s, tid, fd, thread).(log := log))
  {
    hide Base, CancelledIdle, UploadsDistinct, ActiveDownloads, ActiveUploads, Linked;
    var s1 := Attach(s, tid, fd, thread);
    RegisterFrame(s, s1, tid);
    AttachKeeps(s, tid, fd, thread);
    OnlyStructureMatters(s1, s1.(log := log), {});
  }

  lemma RegisterBehindHead(s: State, tid: nat, fd: int, thread: int)
    requires tid in s.live && Inv(s) && tid in s.table && tid in s.sequester && !IsHead(s, tid)
    ensures var s1 := Attach(s, tid, fd, thread);
            Inv(s1.(sequester := Without(s.sequester, tid), log := s.log + [StartEvent(s1.live[tid])]))
  {
    hide Base, CancelledIdle, UploadsDistinct, ActiveDownloads, ActiveUploads, Linked;
    var s1 := Attach(s, tid, fd, thread);
    var s2 := s1.(sequester := Without(s.sequester, tid));
    RegisterFrame(s, s2, tid);
    StartSequestered(s, tid, fd, thread);
    OnlyStructureMatters(s2, s2.(log := s.log + [StartEvent(s1.live[tid])]), {});
  }

  lemma RegisterFrame(s: State, s': State, tid: nat)
    requires UploadsDistinct(s) && tid in s.live && s'.table == s.table && s'.queue == s.queue
    requires (forall id :: id in s'.live <==> id in s.live) && forall id :: id in s.live ==> SameFile(s.live[id], s'.live[id])
    ensures UploadsDistinct(s')
    ensures ActiveDownloads(s') == ActiveDownloads(s) && ActiveUploads(s') == ActiveUploads(s)
  {
    UploadsStayDistinct(s, s');
    assert forall id :: id in s.live ==> SameFile(s.live[id], s'.live[id]);
  }

  // Registering a queued transfer or the head of the sequester list changes no list.
  lemma AttachKeeps(s: State, tid: nat, fd: int, thread: int)
    requires tid in s.live && Base(s, {}) && CancelledIdle(s) && tid in s.table && (tid in s.sequester ==> s.sequester[0] == tid)
    ensures Linked(Attach(s, tid, fd, thread)) && Base(Attach(s, tid, fd, thread), {}) && CancelledIdle(Attach(s, tid, fd, thread))
  {
    hide Base, CancelledIdle, QueueAgrees, SequesterAgrees, RestAgrees, IdsAgree;
    AttachLists(s, tid, fd, thread);
    AttachRest(s, tid, fd, thread);
    BaseOf(Attach(s, tid, fd, thread), {});
  }

  lemma AttachLists(s: State, tid: nat, fd: int, thread: int)
    requires tid in s.live && Base(s, {}) && (tid in s.sequester ==> s.sequester[0] == tid)
    ensures QueueAgrees(Attach(s, tid, fd, thread), {}) && SequesterAgrees(Attach(s, tid, fd, thread))
  {
    hide RestAgrees, IdsAgree;
    assert forall i :: 0 < i < |s.sequester| ==> s.sequester[i] != s.sequester[0];
  }

  lemma AttachRest(s: State, tid: nat, fd: int, thread: int)
    requires tid in s.live && Base(s, {}) && CancelledIdle(s) && tid in s.table
    ensures var s' := Attach(s, tid, fd, thread);
            Linked(s') && IdsAgree(s') && RestAgrees(s', {}) && CancelledIdle(s')
  {
    hide QueueAgrees, SequesterAgrees;
  }

  lemma StartSequestered(s: State, tid: nat, fd: int, thread: int)
    requires tid in s.live && Base(s, {}) && CancelledIdle(s) && tid in s.table && tid in s.sequester && s.sequester[0] != tid
    ensures var s' := Attach(s, tid, fd, thread).(sequester := Without(s.sequester, tid));
            Linked(s') && Base(s', {}) && CancelledIdle(s')
  {
    hide QueueAgrees, RestAgrees, SequesterAgrees, CancelledIdle;
    LeaveSequester(s, tid);
    StartQueue(s, tid, fd, thread);
    StartRest(s, tid, fd, thread);
    StartList(s, tid, fd, thread);
  }

  lemma StartQueue(s: State, tid: nat, fd: int, thread: int)
    requires tid in s.live && Base(s, {}) && tid in s.sequester
    ensures QueueAgrees(Attach(s, tid, fd, thread).(sequester := Without(s.sequester, tid)), {})
  {
    hide RestAgrees, Without;
  }

  lemma StartRest(s: State, tid: nat, fd: int, thread: int)
    requires tid in s.live && Base(s, {}) && tid in s.table && tid in s.sequester && s.sequester[0] != tid
    requires Without(s.sequester, tid) != [] && Without(s.sequester, tid)[0] == s.sequester[0]
    requires forall id :: id in Without(s.sequester, tid) <==> id in s.sequester && id != tid
    ensures RestAgrees(Attach(s, tid, fd, thread).(sequester := Without(s.sequester, tid)), {})
  {
    hide QueueAgrees, Without;
  }

  lemma StartList(s: State, tid: nat, fd: int, thread: int)
    requires tid in s.live && Base(s, {}) && CancelledIdle(s) && tid in s.table && tid in s.sequester && s.sequester[0] != tid
    requires var q := Without(s.sequester, tid);
             && NoRepeat(q) && q != [] && q[0] == s.sequester[0]
             && (forall id :: id in q <==> id in s.sequester && id != tid)
             && (forall i :: 0 < i < |q| ==> q[i] in s.table && q[i] in s.live && s.live[q[i]].thread == None)
    ensures var s' := Attach(s, tid, fd, thread).(sequester := Without(s.sequester, tid));
            Linked(s') && IdsAgree(s') && SequesterAgrees(s') && CancelledIdle(s')
  {
    hide QueueAgrees, RestAgrees, Without;
  }

  // Unlinking an entry behind the head: the head stays, and the others keep their order.
  lemma LeaveSequester(s: State, tid: nat)
    requires Base(s, {}) && tid in s.sequester && s.sequester[0] != tid
    ensures var q := Without(s.sequester, tid);
            && NoRepeat(q) && q != [] && q[0] == s.sequester[0]
            && (forall id :: id in q <==> id in s.sequester && id != tid)
            && (forall i :: 0 < i < |q| ==> q[i] in s.table && q[i] in s.live && s.live[q[i]].thread == None)
  {
    WithoutMember(s.sequester, tid);
    var q := Without(s.sequester, tid);
    forall i | 0 < i < |q| ensures q[i] in s.table && q[i] in s.live && s.live[q[i]].thread == None {
      assert q[i] in q && q[i] != q[0];
      var j :| 0 <= j < |s.sequester| && s.sequester[j] == q[i];
    }
  }

  // ---- removal ----

  // Cancelling a transfer that has been registered but is still on a list: anywhere in the queue, or
  // at the head of the sequester list. The code has no branch for it.
  ghost predicate CancelRace(s: State, tid: nat) {
    && tid in s.table && tid in s.live && s.live[tid].thread.Some?
    && (IsHead(s, tid) || tid in s.queue)
  }

  lemma RemoveKeeps(s: State, tid: nat, now: int)
    requires Inv(s) && !CancelRace(s, tid)
    ensures Inv(Remove(s, tid, now))
  {
    if tid in s.table {
      var x := s.live[tid];
      if x.thread == None && Queued(x) {
        assert tid in s.queue;
        RemoveQueued(s, tid);
      } else if x.thread == None && IsHead(s, tid) {
        RemoveHead(s, tid);
      } else if x.thread == None {
        assert tid in s.sequester;
        RemoveBehindHead(s, tid, now);
      } else {
        RemoveRegistered(s, tid, now);
      }
    }
  }

  lemma RemoveHead(s: State, tid: nat)
    requires Inv(s) && IsHead(s, tid) && tid in s.live && s.live[tid].thread == None
    ensures Inv(s.(table := s.table - {tid}))
  {
    CancelHead(s);
    UploadsStayDistinct(s, s.(table := s.table - {tid}));
    hide Base, UploadsDistinct, ActiveDownloads, ActiveUploads;
  }

  // A removed transfer that no list refers to passes its slot on and is destroyed.
  lemma FinishRemove(s: State, tid: nat, now: int)
    requires tid in s.live && Linked(s)
    requires Base(s, {tid}) && Slots(s, 0, 0) && QueueJustified(s) && CancelledIdle(s) && UploadsDistinct(s)
    requires s.maxDown >= -1 && s.maxUp >= -1
    requires tid !in s.queue
    ensures Inv(Destroy(ReleaseSlot(s, s.live[tid].kind, now), tid))
  {
    hide Base, UploadsDistinct, CancelledIdle, ActiveDownloads, ActiveUploads, ReleaseSlot;
    var kind := s.live[tid].kind;
    var s1 := ReleaseSlot(s, kind, now);
    ReleaseSlotKeeps(s, {tid}, kind, now);
    ReleasedLeavesQueue(s, tid, now);
    ReleaseIdle(s, s1, tid);
    assert SameButPlace(s.live[tid], s1.live[tid]);
    DestroyKeeps(s1, {tid}, tid);
    DestroySettles(s1, tid);
    assert {tid} - {tid} == {};
    UploadsStayDistinct(s, Destroy(s1, tid));
  }

  lemma ReleasedLeavesQueue(s: State, tid: nat, now: int)
    requires Linked(s) && Base(s, {tid}) && tid in s.live && tid !in s.queue
    ensures tid !in ReleaseSlot(s, s.live[tid].kind, now).queue
  {
    if s.queue != [] {
      TailOfQueue(s.queue);
    }
  }

  lemma ReleaseIdle(s: State, s1: State, tid: nat)
    requires Base(s, {tid}) && Base(s1, {tid}) && CancelledIdle(s)
    requires s1.table == s.table && forall id :: id in s1.live <==> id in s.live
    requires forall id :: id in s1.sequester ==> id in s.sequester || id in s.table || id in {tid}
    requires forall id :: id in s.live ==> SameButPlace(s.live[id], s1.live[id])
    ensures CancelledIdle(s1)
  {
    assert InLimbo(s1, tid);
    forall id | id in s1.sequester && id in s1.live && id !in s1.table ensures s1.live[id].thread == None {
      assert SameButPlace(s.live[id], s1.live[id]);
    }
  }

  lemma RemoveBehindHead(s: State, tid: nat, now: int)
    requires tid in s.live && Linked(s) && Inv(s) && tid in s.table && tid in s.sequester && !IsHead(s, tid)
    ensures var s1 := s.(table := s.table - {tid}, sequester := Without(s.sequester, tid));
            Linked(s1) && Inv(Destroy(ReleaseSlot(s1, s.live[tid].kind, now), tid))
  {
    hide Base, UploadsDistinct, CancelledIdle, ActiveDownloads, ActiveUploads;
    var s1 := s.(table := s.table - {tid}, sequester := Without(s.sequester, tid));
    UnlinkBehindHead(s, s1, tid);
    TableShrinks(s, s1);
    FinishRemove(s1, tid, now);
  }

  lemma TableShrinks(s: State, s1: State)
    requires s1.table <= s.table && s1.queue == s.queue && s1.live == s.live && UploadsDistinct(s)
    ensures UploadsDistinct(s1)
    ensures ActiveDownloads(s1) == ActiveDownloads(s) && ActiveUploads(s1) == ActiveUploads(s)
  {
    UploadsStayDistinct(s, s1);
  }

  lemma UnlinkBehindHead(s: State, s1: State, tid: nat)
    requires Base(s, {}) && CancelledIdle(s) && tid in s.table && tid in s.sequester && !IsHead(s, tid)
    requires s1 == s.(table := s.table - {tid}, sequester := Without(s.sequester, tid))
    ensures Linked(s1) && Base(s1, {tid}) && CancelledIdle(s1) && tid !in s1.queue
  {
    LeaveSequester(s, tid);
    assert InLimbo(s1, tid);
    assert QueueAgrees(s1, {tid});
    assert RestAgrees(s1, {tid});
  }

  lemma RemoveRegistered(s: State, tid: nat, now: int)
    requires tid in s.live && Linked(s) && Inv(s) && tid in s.table
    requires s.live[tid].thread.Some? && !CancelRace(s, tid)
    ensures var s1 := s.(table := s.table - {tid});
            Inv(Destroy(ReleaseSlot(s1, s.live[tid].kind, now), tid))
  {
    hide Base, UploadsDistinct, CancelledIdle, ActiveDownloads, ActiveUploads;
    var s1 := s.(table := s.table - {tid});
    UnlistRegistered(s, s1, tid);
    TableShrinks(s, s1);
    FinishRemove(s1, tid, now);
  }

  lemma UnlistRegistered(s: State, s1: State, tid: nat)
    requires tid in s.live && Base(s, {}) && CancelledIdle(s) && tid in s.table
    requires s.live[tid].thread.Some? && !CancelRace(s, tid)
    requires s1 == s.(table := s.table - {tid})
    ensures Linked(s1) && Base(s1, {tid}) && CancelledIdle(s1) && tid !in s1.queue
  {
    assert tid !in s.sequester;
    assert InLimbo(s1, tid);
    assert QueueAgrees(s1, {tid});
    assert RestAgrees(s1, {tid});
  }

  // ---- cancelling a queued download ----

  // The state just before transfer_destroy.
  ghost function Dequeued(s: State, tid: nat): State
    requires Linked(s) && tid in s.queue
  {
    var behind := s.queue[IndexOf(s.queue, tid) + 1..];
    s.(table := s.table - {tid}, queue := Without(s.queue, tid), queueSize := s.queueSize - 1,
       live := MoveUp(s.live, behind), log := s.log + Notices(s.live, behind))
  }

  // What it does, entry by entry: the entry at i leaves, and everybody behind it moves up one.
  ghost predicate DequeuedTo(s: State, s1: State, i: nat)
    requires i < |s.queue|
  {
    && s1.table == s.table - {s.queue[i]} && s1.free == s.free
    && s1.queue == s.queue[..i] + s.queue[i + 1..] && s1.queueSize == s.queueSize - 1
    && s1.sequester == s.sequester && s1.monitors == s.monitors
    && (forall id :: id in s1.live <==> id in s.live)
    && (forall id :: id in s.live ==>
          s1.live[id] == s.live[id].(position := s.live[id].position - if id in s.queue[i + 1..] then 1 else 0))
  }

  lemma DequeuedFacts(s: State, tid: nat)
    requires Linked(s) && tid in s.queue
    ensures DequeuedTo(s, Dequeued(s, tid), IndexOf(s.queue, tid))
  {
    WithoutSplit(s.queue, tid);
  }

  lemma CutMember(ids: seq<nat>, i: nat)
    requires NoRepeat(ids) && i < |ids|
    ensures NoRepeat(ids[..i] + ids[i + 1..])
    ensures forall id :: id in ids[..i] + ids[i + 1..] <==> id in ids && id != ids[i]
    ensures forall id :: id in ids[i + 1..] ==> id in ids && id != ids[i]
  {
    assert ids == ids[..i] + [ids[i]] + ids[i + 1..];
  }

  lemma DequeuedQueue(s: State, s1: State, i: nat)
    requires Base(s, {}) && i < |s.queue| && DequeuedTo(s, s1, i)
    ensures QueueAgrees(s1, {s.queue[i]})
  {
    CutMember(s.queue, i);
    forall k | 0 <= k < |s1.queue|
      ensures s1.queue[k] in s1.live && s1.live[s1.queue[k]].kind.Download?
      ensures s1.live[s1.queue[k]].position == k + 1
    {
      var from := if k < i then k else k + 1;
      assert s1.queue[k] == s.queue[from] && s.queue[from] in s.queue;
      assert SameButPlace(s.live[s.queue[from]], s1.live[s.queue[from]]);
      if k < i {
        assert s.queue[k] !in s.queue[i + 1..];
      } else {
        assert s.queue[i + 1..][k - i] == s.queue[k + 1];
      }
    }
  }

  lemma DequeuedRest(s: State, s1: State, i: nat)
    requires Base(s, {}) && i < |s.queue| && DequeuedTo(s, s1, i)
    ensures SequesterAgrees(s1) && IdsAgree(s1) && RestAgrees(s1, {s.queue[i]}) && Linked(s1)
  {
    CutMember(s.queue, i);
    assert s.queue[i] in s.queue;
    assert forall id :: id in s.live ==> SameButPlace(s.live[id], s1.live[id]);
    assert InLimbo(s1, s.queue[i]);
  }

  lemma DequeuedKeeps(s: State, s1: State, i: nat)
    requires Base(s, {}) && i < |s.queue| && DequeuedTo(s, s1, i)
    ensures Base(s1, {s.queue[i]}) && s.queue[i] !in s1.queue
  {
    DequeuedQueue(s, s1, i);
    DequeuedRest(s, s1, i);
    CutMember(s.queue, i);
  }

  lemma RemoveQueued(s: State, tid: nat)
    requires Linked(s) && Inv(s) && tid in s.table && tid in s.live && tid in s.queue
    ensures Inv(Destroy(Dequeued(s, tid), tid))
  {
    hide Base, UploadsDistinct, CancelledIdle, ActiveDownloads, ActiveUploads;
    var i := IndexOf(s.queue, tid);
    var s1 := Dequeued(s, tid);
    DequeuedFacts(s, tid);
    DequeuedKeeps(s, s1, i);
    QueuedHoldsNoSlot(s, s1, i);
    DestroyKeeps(s1, {tid}, tid);
    assert {tid} - {tid} == {};
    DequeuedIdle(s, s1, i);
    UploadsStayDistinct(s, Destroy(s1, tid));
  }

  lemma DequeuedIdle(s: State, s1: State, i: nat)
    requires Base(s, {}) && CancelledIdle(s) && i < |s.queue| && DequeuedTo(s, s1, i)
    ensures CancelledIdle(s1)
  {
    assert s.queue[i] in s.queue;
    assert forall id :: id in s.live ==> SameButPlace(s.live[id], s1.live[id]);
  }

  lemma QueuedHoldsNoSlot(s: State, s1: State, i: nat)
    requires Base(s, {}) && i < |s.queue| && s.queue[i] in s1.live && DequeuedTo(s, s1, i)
    ensures var s' := Destroy(s1, s.queue[i]);
            ActiveDownloads(s') == ActiveDownloads(s) && ActiveUploads(s') == ActiveUploads(s)
  {
    hide SequesterAgrees, RestAgrees, IdsAgree;
    CutMember(s.queue, i);
    hide NoRepeat;
    assert s.queue[i] in s.queue;
    assert forall id :: id in s.live ==> SameButPlace(s.live[id], s1.live[id]);
  }
}
