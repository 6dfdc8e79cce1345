/** What every critical section of the transfer manager keeps: the agreement of its redundant
    state. `limbo` names transfers in the middle of being removed: out of the table, and on
    their way to transfer_destroy. Between critical sections it is empty. */
module TransferInvariant {
  import opened Wrappers
  import opened TransferSpec

  ghost predicate NoRepeat(ids: seq<nat>) {
    forall i, j :: 0 <= i < j < |ids| ==> ids[i] != ids[j]
  }

  // Live transfers sit under their own id, apart from the free ids, all within idm_create(1, 4096).
  ghost predicate IdsAgree(s: State) {
    && (forall id :: id in s.live ==> s.live[id].tid == id && 1 <= id <= 4097)
    && (forall id :: id in s.free ==> 1 <= id <= 4097 && id !in s.live)
    && (forall id :: id in s.table ==> id in s.live)
  }

  // The k-th queued download has position k, and queue_size counts the queue.
  ghost predicate QueueAgrees(s: State, limbo: set<nat>) {
    && NoRepeat(s.queue) && s.queueSize == |s.queue|
    && (forall id :: id in s.queue ==> id in s.live && (id in s.table || id in limbo))
    && (forall i :: 0 <= i < |s.queue| ==>
         s.queue[i] in s.live && s.live[s.queue[i]].kind.Download? && s.live[s.queue[i]].position == i + 1)
  }

  // Only the head of the sequester list can be registered or cancelled, and one monitor thread
  // is alive exactly when the list is not empty.
  ghost predicate SequesterAgrees(s: State) {
    && NoRepeat(s.sequester)
    && (forall id :: id in s.sequester ==> id in s.live && id !in s.queue && !Queued(s.live[id]))
    && (forall i :: 0 < i < |s.sequester| ==>
         s.sequester[i] in s.live && s.sequester[i] in s.table && s.live[s.sequester[i]].thread == None)
    && s.monitors == (if s.sequester == [] then 0 else 1)
  }

  ghost predicate IsHead(s: State, id: nat) {
    s.sequester != [] && s.sequester[0] == id
  }

  ghost predicate InLimbo(s: State, id: nat) {
    && id in s.live && id !in s.table && id !in s.sequester
    && (id in s.queue ==> s.live[id].thread.Some?)
  }

  // Everything else is running.
  ghost predicate RestAgrees(s: State, limbo: set<nat>) {
    && (forall id :: id in s.live ==> id in s.table || id in limbo || IsHead(s, id))
    && (forall id :: id in s.live && id !in s.queue && id !in limbo ==> !Queued(s.live[id]))
    && (forall id :: id in s.live && id !in s.queue && id !in s.sequester && id !in limbo ==>
         s.live[id].thread.Some?)
    && (forall id :: id in limbo ==> InLimbo(s, id))
  }

  ghost predicate Base(s: State, limbo: set<nat>) {
    Linked(s) && IdsAgree(s) && QueueAgrees(s, limbo) && SequesterAgrees(s) && RestAgrees(s, limbo)
  }

  // Downloads and uploads holding a slot: sequestered (a cancelled head included) or running.
  ghost function ActiveDownloads(s: State): set<nat> {
    set id | id in s.live && s.live[id].kind.Download? && id !in s.queue
  }

  ghost function ActiveUploads(s: State): set<nat> {
    set id | id in s.live && s.live[id].kind.Upload?
  }

  // The counters lag behind by `down` and `up` slots.
  ghost predicate Slots(s: State, down: int, up: int) {
    && |ActiveDownloads(s)| == s.activeDown + down
    && |ActiveUploads(s)| == s.activeUp + up
  }

  // Downloads wait only while every slot is taken.
  ghost predicate QueueJustified(s: State) {
    s.queue != [] ==> DownloadsFull(s)
  }

  ghost predicate IsUpload(s: State, id: nat) {
    id in s.table && id in s.live && s.live[id].kind.Upload?
  }

  ghost predicate UploadsDistinct(s: State) {
    forall a, b :: IsUpload(s, a) && IsUpload(s, b) && a != b ==>
      !SameNoCase(s.live[a].filename, s.live[b].filename)
  }

  // A cancelled head was never registered.
  ghost predicate CancelledIdle(s: State) {
    forall id :: id in s.sequester && id in s.live && id !in s.table ==> s.live[id].thread == None
  }

  ghost predicate Inv(s: State) {
    && Linked(s)
    && Base(s, {}) && Slots(s, 0, 0) && QueueJustified(s) && UploadsDistinct(s) && CancelledIdle(s)
    && s.maxDown >= -1 && s.maxUp >= -1
  }

  // The counters, the limits and the log play no part in how the lists, the table and the heap
  // of transfers agree.
  lemma OnlyStructureMatters(s: State, s': State, limbo: set<nat>)
    requires s.live == s'.live && s.table == s'.table && s.queue == s'.queue && s.sequester == s'.sequester
    requires s.queueSize == s'.queueSize && s.free == s'.free && s.monitors == s'.monitors
    ensures Base(s, limbo) == Base(s', limbo) && Linked(s) == Linked(s')
    ensures UploadsDistinct(s) == UploadsDistinct(s') && CancelledIdle(s) == CancelledIdle(s')
    ensures ActiveDownloads(s) == ActiveDownloads(s') && ActiveUploads(s) == ActiveUploads(s')
  {
  }

  // A table that only shrinks keeps its uploads apart.
  lemma UploadsStayDistinct(s: State, s': State)
    requires UploadsDistinct(s) && s'.table <= s.table
    requires forall id :: id in s'.table && id in s'.live ==> id in s.live && SameFile(s.live[id], s'.live[id])
    ensures UploadsDistinct(s')
  {
    assert forall id :: IsUpload(s', id) ==> IsUpload(s, id);
  }

  ghost predicate SameFile(x: Xfer, y: Xfer) {
    x.kind == y.kind && x.filename == y.filename
  }

  // ---- list edits ----

  lemma {:induction false} WithoutMember(ids: seq<nat>, tid: nat)
    requires NoRepeat(ids)
    ensures forall id :: id in Without(ids, tid) <==> id in ids && id != tid
    ensures NoRepeat(Without(ids, tid))
    ensures tid !in ids ==> Without(ids, tid) == ids
  {
    if ids != [] {
      assert ids == [ids[0]] + ids[1..];
      WithoutMember(ids[1..], tid);
      assert forall j :: 0 < j < |ids| ==> ids[j] == ids[1..][j - 1];
      assert ids[0] !in ids[1..];
    }
  }

  lemma {:induction false} WithoutSplit(ids: seq<nat>, tid: nat)
    requires tid in ids
    ensures var i := IndexOf(ids, tid); Without(ids, tid) == ids[..i] + ids[i + 1..]
  {
    if ids[0] != tid {
      WithoutSplit(ids[1..], tid);
      SplitTail(ids, IndexOf(ids, tid));
    }
  }

  lemma SplitTail(ids: seq<nat>, i: nat)
    requires 0 < i < |ids|
    ensures ids[..i] + ids[i + 1..] == [ids[0]] + (ids[1..][..i - 1] + ids[1..][i..])
  {
  }

  // ---- the shared edits keep the invariant ----

  // Moving the queue up changes positions and deadlines of live transfers, and nothing else.
  ghost predicate SameButPlace(x: Xfer, y: Xfer) {
    y == x.(position := y.position, deadline := y.deadline)
  }

  // What Promote does, entry by entry.
  ghost predicate PromotedTo(s: State, s': State)
    requires s.queue != []
  {
    && (forall id :: id in s'.live <==> id in s.live) && s'.table == s.table && s'.free == s.free
    && (forall id :: id in s.live ==> SameButPlace(s.live[id], s'.live[id]))
    && (forall id :: id in s.live ==>
          s'.live[id].position == s.live[id].position - if id in s.queue then 1 else 0)
    && s'.queue == s.queue[1..] && s'.queueSize == s.queueSize - 1
    && s.queue[0] in s.live
    && (if s.live[s.queue[0]].thread.Some? then s'.sequester == s.sequester && s'.monitors == s.monitors
        else s'.sequester == s.sequester + [s.queue[0]]
             && s'.monitors == if s.sequester == [] then s.monitors + 1 else s.monitors)
    && s'.activeDown == s.activeDown && s'.activeUp == s.activeUp
    && s'.maxDown == s.maxDown && s'.maxUp == s.maxUp && s'.queueEnable == s.queueEnable
  }

  lemma PromoteFacts(s: State, now: int)
    requires s.queue != [] && forall id :: id in s.queue ==> id in s.live
    ensures PromotedTo(s, Promote(s, now))
  {
    assert s.queue[0] in s.queue;
  }

  lemma TailOfQueue(ids: seq<nat>)
    requires NoRepeat(ids) && ids != []
    ensures NoRepeat(ids[1..]) && forall id :: id in ids[1..] <==> id in ids && id != ids[0]
  {
    assert ids == [ids[0]] + ids[1..];
  }

  lemma PromoteIds(s: State, s': State, limbo: set<nat>)
    requires Base(s, limbo) && s.queue != [] && PromotedTo(s, s')
    ensures IdsAgree(s') && Linked(s')
  {
    hide QueueAgrees, SequesterAgrees, RestAgrees;
  }

  lemma PromoteQueue(s: State, s': State, limbo: set<nat>)
    requires Base(s, limbo) && s.queue != [] && PromotedTo(s, s')
    ensures QueueAgrees(s', limbo)
  {
    TailOfQueue(s.queue);
    forall i | 0 <= i < |s'.queue|
      ensures s'.queue[i] in s'.live && s'.live[s'.queue[i]].kind.Download?
      ensures s'.live[s'.queue[i]].position == i + 1
    {
      assert s'.queue[i] == s.queue[i + 1];
      assert s.queue[i + 1] in s.queue;
      assert SameButPlace(s.live[s.queue[i + 1]], s'.live[s.queue[i + 1]]);
    }
  }

  lemma PromoteSequester(s: State, s': State, limbo: set<nat>)
    requires Base(s, limbo) && s.queue != [] && PromotedTo(s, s')
    ensures SequesterAgrees(s')
  {
    TailOfQueue(s.queue);
    var head := s.queue[0];
    assert head in s.queue;
    forall id | id in s'.sequester ensures id in s'.live && id !in s'.queue && !Queued(s'.live[id]) {
      assert id in s.sequester || id == head;
      assert SameButPlace(s.live[id], s'.live[id]);
    }
    forall i | 0 < i < |s'.sequester|
      ensures s'.sequester[i] in s'.live && s'.sequester[i] in s'.table && s'.live[s'.sequester[i]].thread == None
    {
      assert SameButPlace(s.live[s'.sequester[i]], s'.live[s'.sequester[i]]);
    }
    assert head !in s.sequester;
  }

  lemma PromoteRest(s: State, s': State, limbo: set<nat>)
    requires Base(s, limbo) && s.queue != [] && PromotedTo(s, s')
    ensures RestAgrees(s', limbo)
  {
    TailOfQueue(s.queue);
    var head := s.queue[0];
    assert head in s.queue;
    assert forall id :: id in s'.sequester <==> id in s.sequester || (id == head && s.live[head].thread == None);
    forall id | id in s'.live
      ensures id in s'.table || id in limbo || IsHead(s', id)
      ensures id !in s'.queue && id !in limbo ==> !Queued(s'.live[id])
      ensures id !in s'.queue && id !in s'.sequester && id !in limbo ==> s'.live[id].thread.Some?
    {
      assert SameButPlace(s.live[id], s'.live[id]);
    }
    forall id | id in limbo ensures InLimbo(s', id) {
      assert InLimbo(s, id);
      assert SameButPlace(s.live[id], s'.live[id]);
    }
  }

  lemma PromoteActive(s: State, s': State, limbo: set<nat>)
    requires Base(s, limbo) && s.queue != [] && PromotedTo(s, s')
    ensures ActiveDownloads(s') == ActiveDownloads(s) + {s.queue[0]}
    ensures s.queue[0] !in ActiveDownloads(s)
    ensures ActiveUploads(s') == ActiveUploads(s)
  {
    TailOfQueue(s.queue);
    assert s.queue[0] in s.queue;
    assert forall id :: id in s.live ==> SameButPlace(s.live[id], s'.live[id]);
  }

  lemma PromoteLinked(s: State, s1: State)
    requires Linked(s) && s.queue != [] && PromotedTo(s, s1)
    ensures Linked(s1) && Linked(s1.(activeDown := s1.activeDown + 1))
  {
  }

  lemma PromoteKeeps(s: State, limbo: set<nat>, now: int)
    requires Base(s, limbo) && s.queue != []
    ensures var s' := Promote(s, now);
            && PromotedTo(s, s') && Linked(s') && Base(s', limbo)
            && ActiveDownloads(s') == ActiveDownloads(s) + {s.queue[0]} && s.queue[0] !in ActiveDownloads(s)
            && ActiveUploads(s') == ActiveUploads(s)
  {
    hide Promote, IdsAgree, QueueAgrees, SequesterAgrees, RestAgrees, ActiveDownloads, ActiveUploads;
    var s' := Promote(s, now);
    PromoteFacts(s, now);
    PromoteIds(s, s', limbo);
    PromoteQueue(s, s', limbo);
    PromoteSequester(s, s', limbo);
    PromoteRest(s, s', limbo);
    PromoteActive(s, s', limbo);
  }

  // ReleaseSlot leaves one slot of that kind uncounted, for the transfer about to be destroyed.
  lemma ReleaseSlotKeeps(s: State, limbo: set<nat>, kind: Kind, now: int)
    requires Base(s, limbo) && Slots(s, 0, 0) && QueueJustified(s)
    ensures var s' := ReleaseSlot(s, kind, now);
            && Base(s', limbo) && QueueJustified(s')
            && Slots(s', if kind.Download? then 1 else 0, if kind.Upload? then 1 else 0)
            && (forall id :: id in s'.live <==> id in s.live) && s'.table == s.table && s'.free == s.free
            && (forall id :: id in s.live ==> SameButPlace(s.live[id], s'.live[id]))
            && s'.maxDown == s.maxDown && s'.maxUp == s.maxUp
            && s.sequester <= s'.sequester
            && (forall id :: id in s'.sequester ==> id in s.sequester || id in s.table || id in limbo)
            && (forall id :: id in s'.queue ==> id in s.queue)
  {
    if kind.Download? && s.queue != [] {
      PromoteKeeps(s, limbo, now);
      TailOfQueue(s.queue);
      assert s.queue[0] in s.queue;
    }
  }

  lemma DestroyKeeps(s: State, limbo: set<nat>, tid: nat)
    requires Base(s, limbo) && tid in limbo && tid !in s.queue
    ensures Base(Destroy(s, tid), limbo - {tid})
    ensures CancelledIdle(s) ==> CancelledIdle(Destroy(s, tid))
  {
    var s' := Destroy(s, tid);
    assert InLimbo(s, tid);
    assert forall id :: id in limbo - {tid} ==> InLimbo(s, id);
    assert RestAgrees(s', limbo - {tid});
  }

  // Destroying a transfer that holds a slot settles the counters.
  lemma DestroySettles(s: State, tid: nat)
    requires tid in s.live && tid !in s.queue
    requires var kind := s.live[tid].kind; Slots(s, if kind.Download? then 1 else 0, if kind.Upload? then 1 else 0)
    ensures Slots(Destroy(s, tid), 0, 0)
  {
    var s' := Destroy(s, tid);
    assert ActiveDownloads(s') == ActiveDownloads(s) - {tid};
    assert ActiveUploads(s') == ActiveUploads(s) - {tid};
    assert if s.live[tid].kind.Download? then tid in ActiveDownloads(s) && tid !in ActiveUploads(s)
           else tid in ActiveUploads(s) && tid !in ActiveDownloads(s);
  }

  // The monitor thread unlinks its head; a head that has left the table is then in limbo.
  lemma UnlinkHead(s: State)
    requires Base(s, {}) && s.sequester != []
    ensures CancelledIdle(NextHead(s))
    ensures s.sequester[0] !in s.table ==> Base(NextHead(s), {s.sequester[0]})
    ensures s.sequester[0] in s.table && s.live[s.sequester[0]].thread.Some? ==> Base(NextHead(s), {})
    ensures forall id :: id in NextHead(s).sequester <==> id in s.sequester && id != s.sequester[0]
  {
    hide Base, CancelledIdle, NextHead, IdsAgree, QueueAgrees, SequesterAgrees, RestAgrees;
    UnlinkList(s);
    if s.sequester[0] !in s.table { UnlinkCancelled(s); }
    if s.sequester[0] in s.table && s.live[s.sequester[0]].thread.Some? { UnlinkStarted(s); }
  }

  // The list without its head.
  lemma UnlinkList(s: State)
    requires Base(s, {}) && s.sequester != []
    ensures var s' := NextHead(s);
            && CancelledIdle(s') && SequesterAgrees(s')
            && (forall id :: id in s'.sequester <==> id in s.sequester && id != s.sequester[0])
            && s.sequester[0] in s.live && s.sequester[0] !in s.queue
  {
    hide QueueAgrees, RestAgrees, IdsAgree;
    TailOfQueue(s.sequester);
    assert s.sequester[0] in s.sequester;
    var s' := NextHead(s);
    assert forall i :: 0 <= i < |s'.sequester| ==> s'.sequester[i] == s.sequester[i + 1];
    assert s'.sequester != [] ==> s'.sequester[0] == s.sequester[1];
  }

  lemma UnlinkCancelled(s: State)
    requires Base(s, {}) && s.sequester != [] && s.sequester[0] !in s.table
    ensures Base(NextHead(s), {s.sequester[0]})
  {
    UnlinkList(s);
    hide SequesterAgrees, CancelledIdle;
    assert InLimbo(NextHead(s), s.sequester[0]);
  }

  lemma UnlinkStarted(s: State)
    requires Base(s, {}) && s.sequester != [] && s.sequester[0] in s.table && s.sequester[0] in s.live
    requires s.live[s.sequester[0]].thread.Some?
    ensures Base(NextHead(s), {})
  {
    UnlinkList(s);
    hide SequesterAgrees, CancelledIdle;
  }

  lemma SameActive(s: State, s1: State)
    requires s1.live == s.live && s1.queue == s.queue
    ensures ActiveDownloads(s1) == ActiveDownloads(s) && ActiveUploads(s1) == ActiveUploads(s)
  {
  }

  // The monitor thread drops a head that has left the table.
  lemma DropHeadKeeps(s: State)
    requires Base(s, {}) && s.sequester != [] && s.sequester[0] !in s.table
    requires var kind := s.live[s.sequester[0]].kind;
             Slots(s, if kind.Download? then 1 else 0, if kind.Upload? then 1 else 0)
    ensures var s' := NextHead(Destroy(s, s.sequester[0]));
            && Base(s', {}) && Slots(s', 0, 0)
            && CancelledIdle(s')
  {
    hide UploadsDistinct, QueueAgrees, SequesterAgrees, RestAgrees, IdsAgree, CancelledIdle, ActiveDownloads, ActiveUploads;
    var head := s.sequester[0];
    // Unlinking first and destroying second gives the same state.
    var s1 := NextHead(s);
    UnlinkList(s);
    UnlinkHead(s);
    SameActive(s, s1);
    DestroyKeeps(s1, {head}, head);
    DestroySettles(s1, head);
    assert {head} - {head} == {};
    assert NextHead(Destroy(s, head)) == Destroy(s1, head);
  }
}
