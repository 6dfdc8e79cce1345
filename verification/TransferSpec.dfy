/** The transfer manager of TransferManager.c as a state machine on values. Every critical
    section under tfm_lock is one function. Lists hold transfer ids; `live` is the heap of
    transfers that have been allocated and not yet destroyed. */
module TransferSpec {
  import opened Wrappers
  import Idm

  const DATA_CONNECT_TIMEOUT := 30_000_000  // microseconds

  datatype Kind = Upload | Download

  // `position` is neither set nor read for an upload; it is kept at 0 there.
  datatype Xfer = Xfer(tid: nat, uid: int, kind: Kind, filename: string, mode: int, offset: int,
                       position: int, fd: int, thread: Option<int>, deadline: int)

  // What a critical section sends to the outside, in order. The `tid` of a start names the record
  // the message is made from; the helper thread gets the rest.
  datatype Event =
    | Notify(uid: int, tid: nat, position: int)
    | Start(tid: nat, thread: int, kind: Kind, filename: string, mode: int, offset: int)
    | Signal
    | Close(fd: int)

  datatype State = State(
    live: map<nat, Xfer>,   // allocated transfers
    table: set<nat>,        // keys of ttbl
    queue: seq<nat>,        // q_head .. q_tail
    sequester: seq<nat>,    // seq_head .. seq_tail
    queueSize: int, activeDown: int, activeUp: int,
    free: set<nat>,         // tfm_idm
    queueEnable: bool, maxDown: int, maxUp: int,
    monitors: int,          // monitor threads started and not exited
    log: seq<Event>)

  // A critical section with a return value.
  datatype Reply = Reply(state: State, ret: int)

  // ---- small edits shared by the operations ----

  function StartEvent(x: Xfer): Event
    requires x.thread.Some?
  {
    Start(x.tid, x.thread.value, x.kind, x.filename, x.mode, x.offset)
  }

  // The loop at TransferManager.c:203-207: everybody on the list moves up one and is told.
  function MoveUp(live: map<nat, Xfer>, ids: seq<nat>): map<nat, Xfer> {
    map id | id in live :: if id in ids then live[id].(position := live[id].position - 1) else live[id]
  }

  function Notices(live: map<nat, Xfer>, ids: seq<nat>): seq<Event>
    requires forall id :: id in ids ==> id in live
  {
    if ids == [] then []
    else
      assert ids[0] in ids;
      [Notify(live[ids[0]].uid, ids[0], live[ids[0]].position - 1)] + Notices(live, ids[1..])
  }

  // transfer_destroy
  ghost function Destroy(s: State, tid: nat): State
    requires tid in s.live
  {
    s.(live := s.live - {tid}, free := Idm.Returned(s.free, tid),
       log := if s.live[tid].fd != -1 then s.log + [Close(s.live[tid].fd)] else s.log)
  }

  // Appending to the sequester list, as both monitor_add and monitor_add_from_queue do it: the
  // monitor thread is started when the list was empty.
  function Sequester(s: State, tid: nat, now: int): State
    requires tid in s.live
  {
    s.(sequester := s.sequester + [tid],
       monitors := if s.sequester == [] then s.monitors + 1 else s.monitors,
       live := s.live[tid := s.live[tid].(deadline := now + DATA_CONNECT_TIMEOUT)])
  }

  // The first half of monitor_add_from_queue: everybody moves up and the head leaves the queue.
  function Advance(s: State): State
    requires forall id :: id in s.queue ==> id in s.live
    requires s.queue != []
  {
    s.(live := MoveUp(s.live, s.queue), log := s.log + Notices(s.live, s.queue),
       queue := s.queue[1..], queueSize := s.queueSize - 1)
  }

  // monitor_add_from_queue, when the queue is not empty
  function Promote(s: State, now: int): State
    requires s.queue != [] && forall id :: id in s.queue ==> id in s.live
  {
    var head := s.queue[0];
    var s1 := Advance(s);
    if s.live[head].thread.Some? then s1.(log := s1.log + [StartEvent(s.live[head])])
    else Sequester(s1, head, now)
  }

  // A slot of a finished or dropped transfer goes to the queue, or is given up.
  function ReleaseSlot(s: State, kind: Kind, now: int): State
    requires forall id :: id in s.queue ==> id in s.live
  {
    if kind.Upload? then s.(activeUp := s.activeUp - 1)
    else if s.queue == [] then s.(activeDown := s.activeDown - 1)
    else Promote(s, now)
  }

  function Without(ids: seq<nat>, tid: nat): seq<nat> {
    if ids == [] then [] else if ids[0] == tid then ids[1..] else [ids[0]] + Without(ids[1..], tid)
  }

  function IndexOf(ids: seq<nat>, tid: nat): (i: nat)
    ensures i <= |ids| && (i < |ids| <==> tid in ids)
    ensures i < |ids| ==> ids[i] == tid
    ensures forall j :: 0 <= j < i ==> ids[j] != tid
  {
    if ids == [] || ids[0] == tid then 0 else 1 + IndexOf(ids[1..], tid)
  }

  function Lower(c: char): char {
    if 'A' <= c <= 'Z' then (c as int + 32) as char else c
  }

  // strcasecmp(a, b) == 0
  predicate SameNoCase(a: string, b: string) {
    |a| == |b| && forall i :: 0 <= i < |a| ==> Lower(a[i]) == Lower(b[i])
  }

  // ---- the invariant's least part, needed for the operations to make sense ----

  ghost predicate Linked(s: State) {
    && (forall id :: id in s.table ==> id in s.live)
    && (forall id :: id in s.queue ==> id in s.live)
    && (forall id :: id in s.sequester ==> id in s.live)
  }

  // ---- operations ----

  // The loop of tfm_init: queued downloads take the slots a raised limit gives.
  ghost function FillSlots(s: State, now: int): State
    requires Linked(s)
    decreases |s.queue|
  {
    if s.activeDown < s.maxDown && s.queue != [] then
      var s1 := Promote(s, now);
      FillSlots(s1.(activeDown := s1.activeDown + 1), now)
    else s
  }

  // tfm_init: a limit missing from the configuration (negative here) keeps its old value.
  ghost function Init(s: State, enable: bool, down: int, up: int, now: int): State
    requires Linked(s)
  {
    FillSlots(s.(queueEnable := enable,
                 maxDown := if down >= 0 then down else s.maxDown,
                 maxUp := if up >= 0 then up else s.maxUp), now)
  }

  ghost function LeastId(free: set<nat>): (id: nat)
    requires free != {}
    ensures Idm.IsLeast(id, free)
  {
    LeastExists(free);
    var id :| Idm.IsLeast(id, free);
    id
  }

  lemma {:induction false} LeastExists(free: set<nat>)
    requires free != {}
    ensures exists id :: Idm.IsLeast(id, free)
  {
    var x :| x in free;
    if free != {x} {
      LeastExists(free - {x});
      var y :| Idm.IsLeast(y, free - {x});
      assert forall z :: z in free ==> z == x || z in free - {x};
      if x < y { assert Idm.IsLeast(x, free); } else { assert Idm.IsLeast(y, free); }
    } else {
      assert Idm.IsLeast(x, free);
    }
  }

  ghost predicate DownloadsFull(s: State) {
    s.maxDown != -1 && s.activeDown >= s.maxDown
  }

  ghost function NewDownload(tid: nat, uid: int, filename: string, mode: int, offset: int, position: int): Xfer {
    Xfer(tid, uid, Download, filename, mode, offset, position, -1, None, 0)
  }

  // tfm_add_download
  ghost function AddDownload(s: State, uid: int, filename: string, mode: int, offset: int, now: int): Reply {
    if DownloadsFull(s) && !s.queueEnable then Reply(s, -1)
    else if s.free == {} then Reply(s, -1)
    else
      var tid := LeastId(s.free);
      var place := if DownloadsFull(s) then s.queueSize + 1 else 0;
      var s1 := s.(free := s.free - {tid}, table := s.table + {tid},
                   live := s.live[tid := NewDownload(tid, uid, filename, mode, offset, place)]);
      if DownloadsFull(s) then Reply(s1.(queueSize := s.queueSize + 1, queue := s.queue + [tid]), tid)
      else
        var s2 := Sequester(s1, tid, now);
        Reply(s2.(activeDown := s.activeDown + 1), tid)
  }

  ghost predicate UploadConflict(s: State, filename: string)
    requires Linked(s)
  {
    exists id :: id in s.table && s.live[id].kind.Upload? && SameNoCase(filename, s.live[id].filename)
  }

  // tfm_add_upload
  ghost function AddUpload(s: State, uid: int, filename: string, mode: int, offset: int, now: int): Reply
    requires Linked(s)
  {
    if UploadConflict(s, filename) then Reply(s, -2)
    else if s.maxUp != -1 && s.activeUp >= s.maxUp then Reply(s, -1)
    else if s.free == {} then Reply(s, -1)
    else
      var tid := LeastId(s.free);
      var s1 := s.(free := s.free - {tid}, table := s.table + {tid},
                   live := s.live[tid := Xfer(tid, uid, Upload, filename, mode, offset, 0, -1, None, 0)]);
      var s2 := Sequester(s1, tid, now);
      Reply(s2.(activeUp := s.activeUp + 1), tid)
  }

  // The checks at the top of tfm_register. `ips` answers cm_getval(uid, CONN_IP, ..).
  ghost predicate Admitted(s: State, tid: nat, ip: int, ips: map<int, int>)
    requires Linked(s)
  {
    && tid in s.table
    && s.live[tid].uid in ips && ips[s.live[tid].uid] == ip
    && s.live[tid].thread == None
  }

  predicate Queued(x: Xfer) {
    x.kind.Download? && x.position != 0
  }

  function Attach(s: State, tid: nat, fd: int, thread: int): State
    requires tid in s.live
  {
    s.(live := s.live[tid := s.live[tid].(fd := fd, thread := Some(thread))])
  }

  // tfm_register, as its comments intend: a sequestered transfer that is not at the head leaves
  // the list and starts; the head is left to the monitor thread, which is signalled.
  ghost function Register(s: State, tid: nat, fd: int, ip: int, thread: int, ips: map<int, int>): Reply
    requires Linked(s)
  {
    if !Admitted(s, tid, ip, ips) then Reply(s, -1)
    else
      var s1 := Attach(s, tid, fd, thread);
      if Queued(s.live[tid]) then Reply(s1, 0)
      else if s.sequester == [] then Reply(s1, -1)
      else if s.sequester[0] == tid then Reply(s1.(log := s.log + [Signal]), 0)
      else if tid !in s.sequester then Reply(s1, -1)
      else Reply(s1.(sequester := Without(s.sequester, tid), log := s.log + [StartEvent(s1.live[tid])]), 0)
  }

  // The search at TransferManager.c:517 and :615 as the code has it: it stops on the entry
  // itself, or on the last one.
  function StopOn(ids: seq<nat>, tid: nat): (i: nat)
    requires ids != []
    ensures i < |ids|
    ensures i < |ids| - 1 ==> ids[i] == tid
    ensures forall j :: 0 <= j < i ==> ids[j] != tid
  {
    if |ids| == 1 || ids[0] == tid then 0 else 1 + StopOn(ids[1..], tid)
  }

  function CutAfter(ids: seq<nat>, i: nat): seq<nat>
    requires i + 1 < |ids|
  {
    ids[..i + 1] + ids[i + 2..]
  }

  // tfm_register as written.
  ghost function RegisterAsWritten(s: State, tid: nat, fd: int, ip: int, thread: int, ips: map<int, int>): Reply
    requires Linked(s)
  {
    if !Admitted(s, tid, ip, ips) then Reply(s, -1)
    else
      var s1 := Attach(s, tid, fd, thread);
      if Queued(s.live[tid]) then Reply(s1, 0)
      else if s.sequester == [] then Reply(s1, -1)
      else if s.sequester[0] == tid then Reply(s1.(log := s.log + [Signal]), 0)
      else
        var c := StopOn(s.sequester, tid);
        if c + 1 == |s.sequester| then Reply(s1, -1)
        else Reply(s1.(sequester := CutAfter(s.sequester, c), log := s.log + [StartEvent(s1.live[tid])]), 0)
  }

  // tfm_remove, as its comments intend.
  ghost function Remove(s: State, tid: nat, now: int): State
    requires Linked(s)
  {
    if tid !in s.table then s
    else
      var x := s.live[tid];
      var s0 := s.(table := s.table - {tid});
      if x.thread == None && Queued(x) then
        var behind := s.queue[if tid in s.queue then IndexOf(s.queue, tid) + 1 else |s.queue|..];
        Destroy(s0.(queue := Without(s.queue, tid), queueSize := s.queueSize - 1,
                    live := MoveUp(s.live, behind), log := s.log + Notices(s.live, behind)), tid)
      else if x.thread == None && s.sequester != [] && s.sequester[0] == tid then s0
      else if x.thread == None then
        Destroy(ReleaseSlot(s0.(sequester := Without(s.sequester, tid)), x.kind, now), tid)
      else
        Destroy(ReleaseSlot(s0, x.kind, now), tid)
  }

  // A critical section ends in a state, or never: the renumbering loop at
  // TransferManager.c:600-604 never advances `c` and follows a freed node.
  datatype Outcome = Done(state: State) | Stuck

  // tfm_remove as written, for a transfer that has left the table and was never registered.
  ghost function RemoveIdleAsWritten(s: State, tid: nat, now: int): Outcome
    requires tid in s.live && forall id :: id in s.queue ==> id in s.live
  {
    if Queued(s.live[tid]) then
      if tid !in s.queue then Done(Destroy(s, tid))
      else if s.queue == [tid] then Done(Destroy(s.(queue := [], queueSize := s.queueSize - 1), tid))
      else Stuck
    else if s.sequester == [] then Done(Destroy(s, tid))
    else if s.sequester[0] == tid then Done(s)
    else
      var c := StopOn(s.sequester, tid);
      if c + 1 == |s.sequester| then Done(Destroy(s, tid))
      else Done(Destroy(ReleaseSlot(s.(sequester := CutAfter(s.sequester, c)), s.live[tid].kind, now), tid))
  }

  // tfm_remove as written.
  ghost function RemoveAsWritten(s: State, tid: nat, now: int): Outcome
    requires Linked(s)
  {
    if tid !in s.table then Done(s)
    else
      var s0 := s.(table := s.table - {tid});
      if s.live[tid].thread == None then RemoveIdleAsWritten(s0, tid, now)
      else Done(Destroy(ReleaseSlot(s0, s.live[tid].kind, now), tid))
  }

  // The monitor thread's bookkeeping after either outcome of its wait.
  function NextHead(s: State): State
    requires s.sequester != []
  {
    s.(sequester := s.sequester[1..], monitors := if |s.sequester| == 1 then s.monitors - 1 else s.monitors)
  }

  // The wait on the head ran out: the head is dropped and its slot passed on.
  ghost function Timeout(s: State, now: int): State
    requires Linked(s) && s.sequester != []
  {
    var head := s.sequester[0];
    NextHead(Destroy(ReleaseSlot(s.(table := s.table - {head}), s.live[head].kind, now), head))
  }

  // The monitor thread was signalled: the registered head starts.
  function Wake(s: State): State
    requires s.sequester != [] && s.sequester[0] in s.live && s.live[s.sequester[0]].thread.Some?
  {
    NextHead(s.(log := s.log + [StartEvent(s.live[s.sequester[0]])]))
  }
}
