/** TransferManager.c itself: static lists, counters and a table, updated in place under tfm_lock,
    over the hash table of Collection.c and the id allocator of IDM.c. Every method is one
    critical section, written branch by branch as the C code has it, and ends in exactly the
    state that TransferSpec gives for it. A transfer is reached through its id: `heap` holds the
    records, and the lists and the table hold ids. */
module TransferManager {
  import opened Wrappers
  import opened TransferSpec
  import opened TransferInvariant
  import opened TransferSteps
  import opened TransferRuns
  import opened TransferStarts
  import opened TransferWrittenRuns
  import opened Chains
  import opened HashTable
  import Idm

  class Manager {
    const idm: Idm.IdManager
    const ttbl: Table<nat, nat>
    var heap: map<nat, Xfer>
    var queue: seq<nat>
    var sequester: seq<nat>
    var queueSize: int
    var activeDown: int
    var activeUp: int
    var queueEnable: bool
    var maxDown: int
    var maxUp: int
    // Monitor threads started and not exited.
    var monitors: int
    // Messages sent to clients and helper threads, and descriptors closed.
    var log: seq<Event>

    ghost function View(): State
      reads this, idm, ttbl
    {
      State(heap, ttbl.entries.Keys, queue, sequester, queueSize, activeDown, activeUp,
            idm.Free(), queueEnable, maxDown, maxUp, monitors, log)
    }

    // The parts are sound, and the table maps every id to the transfer of that id.
    ghost predicate Sound()
      reads idm, ttbl, ttbl.buckets
    {
      && idm.Valid() && ttbl.Valid()
      && forall id :: id in ttbl.entries ==> ttbl.entries[id] == id
    }

    // What the code relies on, a small part of the invariant.
    ghost predicate Ready()
      reads this, idm, ttbl, ttbl.buckets
    {
      Sound() && ReadyState(View())
    }

    ghost predicate Valid()
      reads this, idm, ttbl, ttbl.buckets
    {
      Sound() && Inv(View())
    }

    // The static initialisers, with the id manager and the table tfm_init creates first. The
    // state is valid by BootInv.
    constructor ()
      ensures Sound() && View() == Boot()
      ensures fresh(idm) && fresh(ttbl) && fresh(ttbl.buckets)
    {
      idm := new Idm.IdManager(1, 4096);
      ttbl := new Table((k: nat) => k);
      heap, queue, sequester := map[], [], [];
      queueSize, activeDown, activeUp := 0, 0, 0;
      queueEnable, maxDown, maxUp := true, -1, -1;
      monitors, log := 0, [];
      new;
      assert ttbl.entries.Keys == {};
    }

    // transfer_destroy
    method Destroy(t: nat)
      requires idm.Valid() && t in heap
      modifies this`heap, this`log, idm
      ensures idm.Valid() && View() == TransferSpec.Destroy(old(View()), t)
    {
      idm.Return(t);
      if heap[t].fd != -1 {
        log := log + [Close(heap[t].fd)];
      }
      heap := heap - {t};
    }

    // activate_download, activate_upload
    method Activate(t: nat)
      requires t in heap && heap[t].thread.Some?
      modifies this`log
      ensures log == old(log) + [StartEvent(heap[t])]
    {
      var x := heap[t];
      log := log + [Start(x.tid, x.thread.value, x.kind, x.filename, x.mode, x.offset)];
    }

    // The end of monitor_add and of monitor_add_from_queue: the list grows, a first entry starts
    // the monitor thread, and the entry's time starts.
    method Append(t: nat, now: int)
      requires t in heap
      modifies this`sequester, this`monitors, this`heap
      ensures View() == TransferSpec.Sequester(old(View()), t, now)
    {
      if sequester == [] {
        monitors := monitors + 1;
      }
      sequester := sequester + [t];
      heap := heap[t := heap[t].(deadline := now + DATA_CONNECT_TIMEOUT)];
    }

    // monitor_add_from_queue
    method AddFromQueue(now: int) returns (ret: int)
      requires NoRepeat(queue) && forall t :: t in queue ==> t in heap
      modifies this`heap, this`log, this`queue, this`queueSize, this`sequester, this`monitors
      ensures ret == if old(queue) == [] then -1 else 0
      ensures View() == if old(queue) == [] then old(View()) else Promote(old(View()), now)
    {
      if queue == [] {
        return -1;
      }
      AdvanceQueue();
      var n := queue[0];
      assert n in queue;
      queue := queue[1..];
      queueSize := queueSize - 1;
      if heap[n].thread.Some? {
        Activate(n);
      } else {
        Append(n, now);
      }
      ret := 0;
    }

    // Its first loop.
    method AdvanceQueue()
      requires NoRepeat(queue) && forall t :: t in queue ==> t in heap
      modifies this`heap, this`log
      ensures heap == MoveUp(old(heap), queue)
      ensures log == old(log) + Notices(old(heap), queue)
    {
      ghost var live := heap;
      var i := 0;
      while i < |queue|
        invariant 0 <= i <= |queue|
        invariant forall t :: t in queue[..i] ==> t in live
        invariant heap == MoveUp(live, queue[..i])
        invariant log == old(log) + Notices(live, queue[..i])
      {
        var t := queue[i];
        assert t in queue && t !in queue[..i];
        heap := heap[t := heap[t].(position := heap[t].position - 1)];
        log := log + [Notify(heap[t].uid, t, heap[t].position)];
        NoticesAppend(live, queue[..i], t);
        assert queue[..i + 1] == queue[..i] + [t];
        i := i + 1;
      }
      assert queue[..i] == queue;
    }

    // The three-way slot handling shared by the removals and the timeout.
    method ReleaseSlot(kind: Kind, now: int)
      requires NoRepeat(queue) && forall t :: t in queue ==> t in heap
      modifies this`heap, this`log, this`queue, this`queueSize, this`sequester, this`monitors,
               this`activeDown, this`activeUp
      ensures View() == TransferSpec.ReleaseSlot(old(View()), kind, now)
      ensures old(heap).Keys <= heap.Keys && old(sequester) <= sequester
    {
      ReleaseGrows(View(), kind, now);
      hide Promote;
      if kind.Download? {
        var r := AddFromQueue(now);
        if r < 0 {
          activeDown := activeDown - 1;
        }
      } else {
        activeUp := activeUp - 1;
      }
    }

    // tfm_init, after its first two branches: a negative argument is a missing setting.
    method Configure(enable: bool, down: int, up: int, now: int)
      requires Ready()
      modifies this
      ensures Sound() && View() == Init(old(View()), enable, down, up, now)
    {
      queueEnable := enable;
      if down >= 0 {
        maxDown := down;
      }
      if up >= 0 {
        maxUp := up;
      }
      hide FillSlots;
      FillSlotsLoop(now);
    }

    method FillSlotsLoop(now: int)
      requires Linked(View()) && NoRepeat(queue)
      modifies this`heap, this`log, this`queue, this`queueSize, this`sequester, this`monitors, this`activeDown
      ensures View() == FillSlots(old(View()), now)
    {
      hide Promote, FillSlots, NoRepeat;
      ghost var start := View();
      while activeDown < maxDown
        invariant Linked(View()) && NoRepeat(queue)
        invariant FillSlots(View(), now) == FillSlots(start, now)
        decreases |queue|
      {
        ghost var before := View();
        var r := AddFromQueue(now);
        if r < 0 {
          break;
        }
        activeDown := activeDown + 1;
        FillStep(before, now);
      }
      FillEnd(View(), now);
    }

    // A new transfer: an id, a record and a table entry.
    method Enroll(uid: int, kind: Kind, filename: string, mode: int, offset: int, position: int) returns (r: int, tid: nat)
      requires Ready()
      modifies this`heap, idm, ttbl, ttbl.buckets
      ensures Sound() && (ttbl.buckets == old(ttbl.buckets) || fresh(ttbl.buckets))
      ensures r == if old(View()).free == {} then -1 else 0
      ensures r == -1 ==> View() == old(View())
      ensures r == 0 ==>
                && tid == LeastId(old(View()).free) && tid in heap
                && View() == Enter(old(View()), tid, Xfer(tid, uid, kind, filename, mode, offset, position, -1, None, 0))
    {
      hide Table.Valid, TransferSpec.DownloadsFull, LeastId, Idm.FreeSet;
      var id: nat;
      r, id := idm.Get();
      tid := id;
      if r < 0 {
        return;
      }
      LeastTaken(old(View()).free, tid);
      Place(tid, Xfer(tid, uid, kind, filename, mode, offset, position, -1, None, 0));
    }

    // The record and its table entry.
    method Place(tid: nat, x: Xfer)
      requires Sound() && tid !in ttbl.entries && |ttbl.entries.Keys| <= 4097
      modifies this`heap, ttbl, ttbl.buckets
      ensures Sound() && (ttbl.buckets == old(ttbl.buckets) || fresh(ttbl.buckets))
      ensures View() == old(View()).(live := old(heap)[tid := x], table := old(ttbl.entries).Keys + {tid})
    {
      hide Table.Valid, Idm.FreeSet;
      heap := heap[tid := x];
      Tabulate(tid);
    }

    method Tabulate(tid: nat)
      requires ttbl.Valid() && tid !in ttbl.entries && |ttbl.entries.Keys| <= 4097
      requires forall id :: id in ttbl.entries ==> ttbl.entries[id] == id
      modifies ttbl, ttbl.buckets
      ensures ttbl.Valid() && (ttbl.buckets == old(ttbl.buckets) || fresh(ttbl.buckets))
      ensures ttbl.entries.Keys == old(ttbl.entries).Keys + {tid}
      ensures forall id :: id in ttbl.entries ==> ttbl.entries[id] == id
    {
      hide Table.Valid;
      TableSize(ttbl);
      var _ := ttbl.Insert(tid, tid);
    }

    // tfm_add_download
    method AddDownload(uid: int, filename: string, mode: int, offset: int, now: int) returns (ret: int)
      requires Ready()
      modifies this, idm, ttbl, ttbl.buckets
      ensures Sound() && (ttbl.buckets == old(ttbl.buckets) || fresh(ttbl.buckets))
      ensures Reply(View(), ret) == TransferSpec.AddDownload(old(View()), uid, filename, mode, offset, now)
    {
      AddDownloadIs(View(), uid, filename, mode, offset, now);
      hide Table.Valid, Sound, TransferSpec.AddDownload, TransferSpec.Sequester, Enter, LeastId, DownloadsFull, ReadyState;
      var enqueue := false;
      if maxDown != -1 && activeDown >= maxDown {
        if !queueEnable {
          return -1;
        }
        enqueue := true;
      }
      var r, tid := Enroll(uid, Download, filename, mode, offset, if enqueue then queueSize + 1 else 0);
      if r < 0 {
        return -1;
      }
      ghost var s1 := View();
      if enqueue {
        queueSize := queueSize + 1;
        queue := queue + [tid];
        assert View() == s1.(queueSize := old(View()).queueSize + 1, queue := old(View()).queue + [tid]);
      } else {
        Append(tid, now);
        ghost var s2 := View();
        activeDown := activeDown + 1;
        assert View() == s2.(activeDown := old(View()).activeDown + 1);
      }
      ret := tid;
    }

    // The scan of the table at the top of tfm_add_upload.
    method FindConflict(filename: string) returns (found: bool)
      requires Linked(View()) && Ready()
      ensures found == UploadConflict(View(), filename)
    {
      var transfers := heap;
      var f := (seen: bool, k: nat, t: nat) =>
        if t in transfers && transfers[t].kind.Upload? && SameNoCase(filename, transfers[t].filename) then (true, false)
        else (seen, true);
      found := ttbl.Iterate(f, false);
      ghost var p := (k: nat, t: nat) =>
        t in transfers && transfers[t].kind.Upload? && SameNoCase(filename, transfers[t].filename);
      ghost var list :| ListsMap(list, ttbl.entries) && found == Visit(f, false, list).0;
      ConflictListed(ttbl.entries, View(), filename, list, p);
      VisitSearch(f, p, list);
    }

    // tfm_add_upload
    method AddUpload(uid: int, filename: string, mode: int, offset: int, now: int) returns (ret: int)
      requires Linked(View()) && Ready()
      modifies this, idm, ttbl, ttbl.buckets
      ensures Sound() && (ttbl.buckets == old(ttbl.buckets) || fresh(ttbl.buckets))
      ensures Reply(View(), ret) == TransferSpec.AddUpload(old(View()), uid, filename, mode, offset, now)
    {
      AddUploadIs(View(), uid, filename, mode, offset, now);
      hide Table.Valid, Sound, TransferSpec.AddUpload, NewUpload, UploadConflict, ReadyState, Linked;
      var conflict := FindConflict(filename);
      if conflict {
        return -2;
      }
      if maxUp != -1 && activeUp >= maxUp {
        return -1;
      }
      ret := EnrollUpload(uid, filename, mode, offset, now);
    }

    method EnrollUpload(uid: int, filename: string, mode: int, offset: int, now: int) returns (ret: int)
      requires Linked(View()) && Ready()
      modifies this, idm, ttbl, ttbl.buckets
      ensures Sound() && (ttbl.buckets == old(ttbl.buckets) || fresh(ttbl.buckets))
      ensures Reply(View(), ret) == NewUpload(old(View()), uid, filename, mode, offset, now)
    {
      hide Table.Valid, Sound, TransferSpec.Sequester, Enter, LeastId, ReadyState, Linked;
      var r, tid := Enroll(uid, Upload, filename, mode, offset, 0);
      if r < 0 {
        return -1;
      }
      Append(tid, now);
      ghost var s2 := View();
      activeUp := activeUp + 1;
      assert View() == s2.(activeUp := old(View()).activeUp + 1);
      ret := tid;
    }

    // The checks at the top of tfm_register.
    method Admit(tid: nat, ip: int, ips: map<int, int>) returns (ok: bool)
      requires Linked(View()) && Ready()
      modifies ttbl.buckets
      ensures Sound() && ok == Admitted(View(), tid, ip, ips)
      ensures ok ==> tid in heap
    {
      hide ReadyState;
      var found := ttbl.Lookup(tid);
      if found.None? {
        return false;
      }
      var t := found.value;
      if heap[t].uid !in ips || ips[heap[t].uid] != ip {
        return false;
      }
      return heap[t].thread == None;
    }

    // tfm_register, with the search of TransferManager.c:517 as it stands.
    method Register(t: nat, fd: int, ip: int, thread: int, ips: map<int, int>) returns (ret: int)
      requires Linked(View()) && Ready()
      modifies this`heap, this`log, this`sequester, ttbl.buckets
      ensures Sound()
      ensures Reply(View(), ret) == RegisterAsWritten(old(View()), t, fd, ip, thread, ips)
    {
      hide Table.Valid, Sound, ReadyState, Linked, StopOn;
      var admitted := Admit(t, ip, ips);
      if !admitted {
        return -1;
      }
      heap := heap[t := heap[t].(fd := fd, thread := Some(thread))];
      if heap[t].kind.Download? && heap[t].position != 0 {
        return 0;
      }
      if sequester == [] {
        return -1;
      }
      ghost var s1 := View();
      if sequester[0] != t {
        var c := FindStop(t);
        if c + 1 == |sequester| {
          return -1;
        }
        sequester := sequester[..c + 1] + sequester[c + 2..];
        Activate(t);
      } else {
        log := log + [Signal];
      }
      ret := 0;
    }

    // The search itself: it stops on the entry or on the last one.
    method FindStop(t: nat) returns (c: nat)
      requires sequester != []
      ensures c == StopOn(sequester, t)
    {
      c := 0;
      while c + 1 < |sequester| && sequester[c] != t
        invariant c < |sequester|
        invariant forall j :: 0 <= j < c ==> sequester[j] != t
      {
        c := c + 1;
      }
    }

    // collection_remove on ttbl
    method Delist(t: nat) returns (found: bool)
      requires Sound()
      modifies ttbl, ttbl.buckets
      ensures Sound() && (ttbl.buckets == old(ttbl.buckets) || fresh(ttbl.buckets))
      ensures found == (t in old(View()).table)
      ensures View() == old(View()).(table := old(View()).table - {t})
    {
      hide Table.Valid;
      var r := ttbl.Remove(t);
      assert ttbl.entries.Keys == old(ttbl.entries).Keys - {t};
      found := r.Some?;
    }

    // The queued branch of tfm_remove. The renumbering loop of TransferManager.c:600-604 starts
    // from `c` and never leaves it: once entered, it does not end.
    method RemoveQueued(t: nat) returns (stuck: bool)
      modifies this`queue, this`queueSize
      ensures stuck <==> t in old(queue) && old(queue) != [t]
      ensures !stuck && t in old(queue) ==> queue == [] && queueSize == old(queueSize) - 1
      ensures !stuck && t !in old(queue) ==> queue == old(queue) && queueSize == old(queueSize)
    {
      var c: Option<nat> := None;
      if queue == [] {
        return false;
      } else if queue[0] == t {
        queue := queue[1..];
        c := if queue == [] then None else Some(queue[0]);
      } else {
        var i := 0;
        while i + 1 < |queue| && queue[i + 1] != t
          invariant i < |queue|
          invariant forall j :: 0 <= j <= i ==> queue[j] != t
        {
          i := i + 1;
        }
        if i + 1 == |queue| {
          return false;
        }
        c := Some(queue[i]);
        queue := queue[..i + 1] + queue[i + 2..];
      }
      queueSize := queueSize - 1;
      stuck := c.Some?;
    }

    // tfm_remove as it stands; `stuck` means it never returns.
    method Remove(t: nat, now: int) returns (stuck: bool)
      requires Linked(View()) && Ready()
      modifies this, idm, ttbl, ttbl.buckets
      ensures ttbl.buckets == old(ttbl.buckets) || fresh(ttbl.buckets)
      ensures stuck <==> RemoveAsWritten(old(View()), t, now).Stuck?
      ensures !stuck ==> Sound() && View() == RemoveAsWritten(old(View()), t, now).state
    {
      hide Table.Valid, TransferSpec.ReleaseSlot, TransferSpec.Destroy, RemoveIdleAsWritten;
      var found := Delist(t);
      if !found {
        return false;
      }
      if heap[t].thread.Some? {
        ReleaseSlot(heap[t].kind, now);
        Destroy(t);
        return false;
      }
      stuck := RemoveIdle(t, now);
    }

    // The part for a transfer that was never registered.
    method RemoveIdle(t: nat, now: int) returns (stuck: bool)
      requires idm.Valid() && t in heap
      requires NoRepeat(queue) && forall x :: x in queue ==> x in heap
      modifies this, idm
      ensures idm.Valid()
      ensures stuck <==> RemoveIdleAsWritten(old(View()), t, now).Stuck?
      ensures !stuck ==> View() == RemoveIdleAsWritten(old(View()), t, now).state
    {
      hide TransferSpec.ReleaseSlot, TransferSpec.Destroy, StopOn;
      if heap[t].kind.Download? && heap[t].position != 0 {
        stuck := RemoveQueued(t);
        if !stuck {
          Destroy(t);
        }
      } else if sequester == [] {
        Destroy(t);
        return false;
      } else if sequester[0] == t {
        return false;
      } else {
        RemoveSequestered(t, now);
        return false;
      }
    }

    // The last branch: the search of TransferManager.c:615 as it stands.
    method RemoveSequestered(t: nat, now: int)
      requires idm.Valid() && t in heap && sequester != []
      requires NoRepeat(queue) && forall x :: x in queue ==> x in heap
      modifies this, idm
      ensures idm.Valid()
      ensures var s0 := old(View());
              var c := StopOn(s0.sequester, t);
              if c + 1 == |s0.sequester| then View() == TransferSpec.Destroy(s0, t)
              else
                var s1 := s0.(sequester := CutAfter(s0.sequester, c));
                && t in TransferSpec.ReleaseSlot(s1, s0.live[t].kind, now).live
                && View() == TransferSpec.Destroy(TransferSpec.ReleaseSlot(s1, s0.live[t].kind, now), t)
    {
      hide TransferSpec.ReleaseSlot, TransferSpec.Destroy, StopOn;
      var c := FindStop(t);
      if c + 1 < |sequester| {
        sequester := sequester[..c + 1] + sequester[c + 2..];
        ReleaseSlot(heap[t].kind, now);
      }
      Destroy(t);
    }

    // The monitor thread, when its wait on the head runs out.
    method Timeout(now: int)
      requires Linked(View()) && Ready() && sequester != []
      modifies this, idm, ttbl, ttbl.buckets
      ensures Sound() && (ttbl.buckets == old(ttbl.buckets) || fresh(ttbl.buckets))
      ensures View() == TransferSpec.Timeout(old(View()), now)
    {
      hide Table.Valid, TransferSpec.ReleaseSlot, TransferSpec.Destroy;
      var head := sequester[0];
      assert head in sequester;
      var _ := Delist(head);
      ReleaseSlot(heap[head].kind, now);
      Destroy(head);
      Unlink();
    }

    // The monitor thread, when it was signalled.
    method Wake()
      requires sequester != [] && sequester[0] in heap && heap[sequester[0]].thread.Some?
      modifies this`log, this`sequester, this`monitors
      ensures View() == TransferSpec.Wake(old(View()))
    {
      Activate(sequester[0]);
      Unlink();
    }

    // The end of the monitor thread's loop body: the thread exits with the last entry.
    method Unlink()
      requires sequester != []
      modifies this`sequester, this`monitors
      ensures View() == NextHead(old(View()))
    {
      sequester := sequester[1..];
      if sequester == [] {
        monitors := monitors - 1;
      }
    }

    // One critical section, as coded: the branch each call takes, misled calls included.
    method Attempt(c: Call) returns (stuck: bool)
      requires Ready() && Possible(View(), c)
      modifies this, idm, ttbl, ttbl.buckets
      ensures ttbl.buckets == old(ttbl.buckets) || fresh(ttbl.buckets)
      ensures stuck <==> StepAsWritten(old(View()), c).Stuck?
      ensures !stuck ==> Sound() && View() == StepAsWritten(old(View()), c).state
    {
      hide Table.Valid, Linked, Init, TransferSpec.AddDownload, TransferSpec.AddUpload,
           RegisterAsWritten, RemoveAsWritten, TransferSpec.Timeout, TransferSpec.Wake, CancelRace;
      stuck := false;
      match c.op
      case DoInit(enable, down, up) => Configure(enable, down, up, c.now);
      case DoAddDownload(uid, filename, mode, offset) => var _ := AddDownload(uid, filename, mode, offset, c.now);
      case DoAddUpload(uid, filename, mode, offset) => var _ := AddUpload(uid, filename, mode, offset, c.now);
      case DoRegister(tid, fd, ip, thread, ips) => var _ := Register(tid, fd, ip, thread, ips);
      case DoRemove(tid) => stuck := Remove(tid, c.now);
      case DoTimeout => Timeout(c.now);
      case DoWake => Wake();
    }

    // From a consistent state: the call leaves a consistent state and starts what it sets running,
    // and nothing else, exactly off the misled calls.
    method Perform(c: Call) returns (stuck: bool)
      requires Valid() && Possible(View(), c)
      modifies this, idm, ttbl, ttbl.buckets
      ensures ttbl.buckets == old(ttbl.buckets) || fresh(ttbl.buckets)
      ensures stuck <==> StepAsWritten(old(View()), c).Stuck?
      ensures !stuck ==> Sound() && View() == StepAsWritten(old(View()), c).state
      ensures !stuck && Valid() && StartsAgree(old(View()), View()) <==> !Misled(old(View()), c)
    {
      hide Inv, StartsAgree, Possible, Misled, StepAsWritten, ReadyState, Table.Valid, Step, Enabled;
      StepExact(View(), c);
      InvReady(View());
      stuck := Attempt(c);
    }

    // A whole run of critical sections none of which is misled ends in the state of the run.
    method Drive(clock: int, calls: seq<Call>)
      requires Valid() && IsWrittenRun(View(), clock, calls) && NeverMisled(View(), clock, calls)
      modifies this, idm, ttbl, ttbl.buckets
      ensures Valid() && (ttbl.buckets == old(ttbl.buckets) || fresh(ttbl.buckets))
      ensures EndOf(old(View()), clock, calls) == Done(View())
      ensures IsRun(old(View()), clock, calls) && View() == After(old(View()), clock, calls)
      decreases |calls|
    {
      hide Inv, StartsAgree, Possible, Misled, StepAsWritten, Table.Valid, Step, Enabled;
      WrittenRunExact(View(), clock, calls);
      if calls != [] {
        var _ := Perform(calls[0]);
        Drive(calls[0].now, calls[1..]);
      }
    }
  }

  lemma TableSize(t: Table<nat, nat>)
    requires t.Valid()
    ensures t.nNodes == |t.entries.Keys|
  {
    assert |t.entries| == |t.entries.Keys|;
  }

  lemma LeastTaken(free: set<nat>, id: nat)
    requires Idm.IsLeast(id, free)
    ensures free != {} && id == LeastId(free)
  {
  }

  ghost predicate ReadyState(s: State) {
    && Linked(s) && NoRepeat(s.queue)
    && s.free !! s.table && |s.table| <= 4097
  }

  lemma InvReady(s: State)
    requires Inv(s)
    ensures ReadyState(s)
  {
    TableFits(s);
  }

  // tfm_add_download in terms of the two edits it makes.
  lemma AddDownloadIs(s: State, uid: int, filename: string, mode: int, offset: int, now: int)
    ensures var full := s.maxDown != -1 && s.activeDown >= s.maxDown;
            TransferSpec.AddDownload(s, uid, filename, mode, offset, now) ==
            if (full && !s.queueEnable) || s.free == {} then Reply(s, -1)
            else
              var tid := LeastId(s.free);
              if full then
                Reply(Enter(s, tid, NewDownload(tid, uid, filename, mode, offset, s.queueSize + 1))
                        .(queueSize := s.queueSize + 1, queue := s.queue + [tid]), tid)
              else
                Reply(TransferSpec.Sequester(Enter(s, tid, NewDownload(tid, uid, filename, mode, offset, 0)), tid, now)
                        .(activeDown := s.activeDown + 1), tid)
  {
  }

  ghost function NewUpload(s: State, uid: int, filename: string, mode: int, offset: int, now: int): Reply {
    if s.free == {} then Reply(s, -1)
    else
      var tid := LeastId(s.free);
      var x := Xfer(tid, uid, Upload, filename, mode, offset, 0, -1, None, 0);
      Reply(TransferSpec.Sequester(Enter(s, tid, x), tid, now).(activeUp := s.activeUp + 1), tid)
  }

  lemma AddUploadIs(s: State, uid: int, filename: string, mode: int, offset: int, now: int)
    requires Linked(s)
    ensures TransferSpec.AddUpload(s, uid, filename, mode, offset, now) ==
            if UploadConflict(s, filename) then Reply(s, -2)
            else if s.maxUp != -1 && s.activeUp >= s.maxUp then Reply(s, -1)
            else NewUpload(s, uid, filename, mode, offset, now)
  {
  }

  // The listing of the table shows a conflict exactly when there is one.
  lemma ConflictListed(entries: map<nat, nat>, s: State, filename: string, list: seq<Node<nat, nat>>, p: (nat, nat) -> bool)
    requires Linked(s) && s.table == entries.Keys && ListsMap(list, entries)
    requires forall id :: id in entries ==> entries[id] == id
    requires forall k, t :: p(k, t) == (t in s.live && s.live[t].kind.Upload? && SameNoCase(filename, s.live[t].filename))
    ensures UploadConflict(s, filename) <==> exists n :: n in list && p(n.key, n.data)
  {
    if id :| id in s.table && s.live[id].kind.Upload? && SameNoCase(filename, s.live[id].filename) {
      assert Node(id, entries[id]) in list;
      assert p(Node(id, entries[id]).key, Node(id, entries[id]).data);
    }
  }

  lemma ReleaseGrows(s: State, kind: Kind, now: int)
    requires forall id :: id in s.queue ==> id in s.live
    ensures var s' := TransferSpec.ReleaseSlot(s, kind, now);
            s.live.Keys <= s'.live.Keys && s.sequester <= s'.sequester
  {
  }

  lemma FillEnd(s: State, now: int)
    requires Linked(s) && (s.queue == [] || s.activeDown >= s.maxDown)
    ensures FillSlots(s, now) == s
  {
  }

  lemma FillStep(s: State, now: int)
    requires Linked(s) && NoRepeat(s.queue) && s.queue != [] && s.activeDown < s.maxDown
    ensures var s1 := Promote(s, now);
            var s2 := s1.(activeDown := s1.activeDown + 1);
            Linked(s2) && NoRepeat(s2.queue) && FillSlots(s, now) == FillSlots(s2, now)
    ensures |Promote(s, now).queue| < |s.queue| && Promote(s, now).activeDown == s.activeDown
  {
    hide Promote;
    PromoteFacts(s, now);
    TailOfQueue(s.queue);
    PromoteLinked(s, Promote(s, now));
  }

  // The table never holds more than the 4097 ids there are.
  lemma TableFits(s: State)
    requires Inv(s)
    ensures |s.table| <= 4097
  {
    IdsSize(1, 4097);
    assert s.table <= Idm.Ids(1, 4097);
    SubsetSize(s.table, Idm.Ids(1, 4097));
  }

  lemma {:induction false} IdsSize(lo: nat, hi: nat)
    requires lo <= hi + 1
    ensures |Idm.Ids(lo, hi)| == hi + 1 - lo
    decreases hi + 1 - lo
  {
    if lo <= hi {
      IdsSize(lo + 1, hi);
    }
  }

  lemma {:induction false} SubsetSize(a: set<nat>, b: set<nat>)
    requires a <= b
    ensures |a| <= |b|
  {
    if x :| x in a {
      SubsetSize(a - {x}, b - {x});
    }
  }

  lemma {:induction false} NoticesAppend(live: map<nat, Xfer>, ids: seq<nat>, id: nat)
    requires id in live && forall x :: x in ids ==> x in live
    ensures (forall x :: x in ids + [id] ==> x in live)
    ensures Notices(live, ids + [id]) == Notices(live, ids) + [Notify(live[id].uid, id, live[id].position - 1)]
  {
    if ids == [] {
      assert ids + [id] == [id];
    } else {
      assert ids[0] in ids;
      assert (ids + [id])[1..] == ids[1..] + [id];
      NoticesAppend(live, ids[1..], id);
    }
  }
}
