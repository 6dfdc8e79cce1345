/** What the clients asked for against what the helper threads are told: the add call that took an
    id and the registration that brought a thread, followed along a run. */
module TransferRequests {
  import opened Wrappers
  import opened TransferSpec
  import opened TransferInvariant
  import opened TransferRuns
  import opened TransferStarts
  import opened TransferBehaviour
  import Idm

  // ---- new records ----

  // A new download is entered as it was asked for, unregistered and unconnected.
  lemma DownloadRecord(s: State, uid: int, filename: string, mode: int, offset: int, now: int)
    ensures var r := AddDownload(s, uid, filename, mode, offset, now);
            if s.free == {} || (s.maxDown != -1 && s.activeDown >= s.maxDown && !s.queueEnable) then r == Reply(s, -1)
            else
              && r.ret >= 0 && Idm.IsLeast(r.ret, s.free) && r.ret in r.state.live && r.ret in r.state.table
              && var x := r.state.live[r.ret];
                 && x.tid == r.ret && x.uid == uid && x.kind == Download
                 && x.filename == filename && x.mode == mode && x.offset == offset
                 && x.fd == -1 && x.thread == None && r.state.log == s.log
  {
  }

  // So is a new upload; it is refused with -2 exactly when an upload of that name, in either case, is
  // under way, and with -1 when every slot or every id is taken.
  lemma UploadRecord(s: State, uid: int, filename: string, mode: int, offset: int, now: int)
    requires Linked(s)
    ensures var r := AddUpload(s, uid, filename, mode, offset, now);
            if exists id :: id in s.table && s.live[id].kind == Upload && SameNoCase(filename, s.live[id].filename) then
              r == Reply(s, -2)
            else if s.free == {} || (s.maxUp != -1 && s.activeUp >= s.maxUp) then r == Reply(s, -1)
            else
              && r.ret >= 0 && Idm.IsLeast(r.ret, s.free) && r.ret in r.state.live && r.ret in r.state.table
              && r.state.sequester == s.sequester + [r.ret] && r.state.activeUp == s.activeUp + 1
              && var x := r.state.live[r.ret];
                 && x.tid == r.ret && x.uid == uid && x.kind == Upload
                 && x.filename == filename && x.mode == mode && x.offset == offset
                 && x.fd == -1 && x.thread == None && x.deadline == now + 30_000_000 && r.state.log == s.log
  {
  }

  function Upper(c: char): char {
    if 'a' <= c <= 'z' then (c as int - 32) as char else c
  }

  // The comparison ignores the case of letters, whichever way they are folded, and nothing else.
  lemma FoldedAlike(a: string, b: string)
    ensures SameNoCase(a, b) <==> |a| == |b| && forall i :: 0 <= i < |a| ==> Upper(a[i]) == Upper(b[i])
  {
  }

  // ---- requests along a run ----

  // What a live transfer was asked for, and the descriptor and thread of its registration.
  datatype Request = Request(uid: int, kind: Kind, filename: string, mode: int, offset: int, fd: int, thread: Option<int>)

  ghost function NextRequest(asked: map<nat, Request>, s: State, c: Call, id: nat): Request {
    if id !in asked || id !in s.live then
      (match c.op
       case DoAddDownload(uid, filename, mode, offset) => Request(uid, Download, filename, mode, offset, -1, None)
       case DoAddUpload(uid, filename, mode, offset) => Request(uid, Upload, filename, mode, offset, -1, None)
       case _ => Request(0, Upload, "", 0, 0, -1, None))
    else
      match c.op
      case DoRegister(tid, fd, ip, thread, ips) =>
        if tid == id && id in s.table && asked[id].thread == None && asked[id].uid in ips && ips[asked[id].uid] == ip
        then asked[id].(fd := fd, thread := Some(thread)) else asked[id]
      case _ => asked[id]
  }

  ghost function NextRequests(asked: map<nat, Request>, s: State, c: Call): map<nat, Request>
    requires Enabled(s, c)
  {
    map id | id in Step(s, c).live :: NextRequest(asked, s, c, id)
  }

  ghost predicate Matches(asked: map<nat, Request>, s: State) {
    forall id :: id in s.live ==>
      id in asked && var x, r := s.live[id], asked[id];
      x.uid == r.uid && x.kind == r.kind && x.filename == r.filename && x.mode == r.mode && x.offset == r.offset
      && x.fd == r.fd && x.thread == r.thread
  }

  // A start message carries the request, field by field, to the registered thread.
  ghost predicate Honours(e: Event, asked: map<nat, Request>) {
    e.Start? ==>
      && e.tid in asked && asked[e.tid].thread == Some(e.thread)
      && e.kind == asked[e.tid].kind && e.filename == asked[e.tid].filename
      && e.mode == asked[e.tid].mode && e.offset == asked[e.tid].offset
  }

  lemma StepMatches(asked: map<nat, Request>, s: State, c: Call)
    requires Enabled(s, c) && Inv(s) && Matches(asked, s)
    ensures Matches(NextRequests(asked, s, c), Step(s, c))
  {
    hide Inv, Step, Matches;
    forall id | id in Step(s, c).live ensures RecordMatches(NextRequest(asked, s, c, id), Step(s, c).live[id]) {
      MatchesAt(asked, s, id);
      if id !in s.live {
        EnteredMatches(asked, s, c, id);
      } else if c.op.DoRegister? && c.op.tid == id {
        RegisteredMatches(asked, s, c, id);
      } else {
        KeptMatches(asked, s, c, id);
      }
    }
    FromRecords(NextRequests(asked, s, c), Step(s, c));
  }

  ghost predicate RecordMatches(r: Request, x: Xfer) {
    x.uid == r.uid && x.kind == r.kind && x.filename == r.filename && x.mode == r.mode && x.offset == r.offset
    && x.fd == r.fd && x.thread == r.thread
  }

  lemma MatchesAt(asked: map<nat, Request>, s: State, id: nat)
    requires Matches(asked, s)
    ensures id in s.live ==> id in asked && RecordMatches(asked[id], s.live[id])
  {
  }

  lemma FromRecords(asked: map<nat, Request>, s: State)
    requires forall id :: id in s.live ==> id in asked && RecordMatches(asked[id], s.live[id])
    ensures Matches(asked, s)
  {
  }

  lemma ReleaseLive(s: State, kind: Kind, now: int)
    requires Linked(s)
    ensures forall id :: id in ReleaseSlot(s, kind, now).live <==> id in s.live
  {
    if kind.Download? && s.queue != [] {
      PromoteFacts(s, now);
      hide Promote;
    }
  }

  lemma {:induction false} FillSlotsLive(s: State, now: int)
    requires Linked(s)
    ensures forall id :: id in FillSlots(s, now).live <==> id in s.live
    decreases |s.queue|
  {
    hide Promote;
    if s.activeDown < s.maxDown && s.queue != [] {
      PromoteFacts(s, now);
      PromotedStillLinked(s, now);
      FillSlotsLive(Promote(s, now).(activeDown := s.activeDown + 1), now);
    }
  }

  lemma RemoveLive(s: State, tid: nat, now: int)
    requires Linked(s)
    ensures forall id :: id in Remove(s, tid, now).live ==> id in s.live
    ensures tid in s.live && tid in Remove(s, tid, now).live ==> Remove(s, tid, now).live[tid] == s.live[tid]
  {
    if tid in s.table {
      var s0 := s.(table := s.table - {tid});
      RemovedLinked(s0, tid);
      ReleaseLive(s0, s.live[tid].kind, now);
      ReleaseLive(s0.(sequester := Without(s.sequester, tid)), s.live[tid].kind, now);
      hide ReleaseSlot;
    }
  }

  // No step but an add call makes a record.
  lemma NoneEnters(s: State, c: Call, id: nat)
    requires Enabled(s, c) && id in Step(s, c).live && !c.op.DoAddDownload? && !c.op.DoAddUpload?
    ensures id in s.live
  {
    match c.op
    case DoInit(enable, down, up) =>
      FillSlotsLive(s.(queueEnable := enable,
                       maxDown := if down >= 0 then down else s.maxDown,
                       maxUp := if up >= 0 then up else s.maxUp), c.now);
      hide FillSlots;
    case DoRegister(_, _, _, _, _) =>
    case DoRemove(tid) =>
      RemoveLive(s, tid, c.now);
      hide Remove;
    case DoTimeout =>
      ReleaseLive(s.(table := s.table - {s.sequester[0]}), s.live[s.sequester[0]].kind, c.now);
      hide ReleaseSlot;
    case DoWake =>
  }

  // An add call makes one, of what it was called with.
  lemma EnteredMatches(asked: map<nat, Request>, s: State, c: Call, id: nat)
    requires Enabled(s, c) && id !in s.live && id in Step(s, c).live
    ensures RecordMatches(NextRequest(asked, s, c, id), Step(s, c).live[id])
  {
    if c.op.DoAddDownload? {
      DownloadRecord(s, c.op.uid, c.op.filename, c.op.mode, c.op.offset, c.now);
    } else if c.op.DoAddUpload? {
      UploadRecord(s, c.op.uid, c.op.filename, c.op.mode, c.op.offset, c.now);
    } else {
      hide Step;
      NoneEnters(s, c, id);
    }
  }

  lemma KeptMatches(asked: map<nat, Request>, s: State, c: Call, id: nat)
    requires Enabled(s, c) && Inv(s) && id in s.live && id in Step(s, c).live && !(c.op.DoRegister? && c.op.tid == id)
    requires id in asked && RecordMatches(asked[id], s.live[id])
    ensures RecordMatches(NextRequest(asked, s, c, id), Step(s, c).live[id])
  {
    hide Inv, Timeout, Remove;
    if Subject(s, c) != Some(id) {
      StepKeepsRecord(s, c, id);
      hide Step;
    } else if c.op.DoRemove? {
      RemoveLive(s, id, c.now);
    } else {
      HeadTimesOut(s, c.now);
    }
  }

  lemma RegisteredMatches(asked: map<nat, Request>, s: State, c: Call, id: nat)
    requires Enabled(s, c) && Inv(s) && id in s.live && id in Step(s, c).live && c.op.DoRegister? && c.op.tid == id
    requires id in asked && RecordMatches(asked[id], s.live[id])
    ensures RecordMatches(NextRequest(asked, s, c, id), Step(s, c).live[id])
  {
    hide Inv;
  }

  lemma StepHonours(asked: map<nat, Request>, s: State, c: Call)
    requires Enabled(s, c) && Inv(s) && Matches(asked, s)
    ensures var s' := Step(s, c);
            s.log <= s'.log && forall i :: |s.log| <= i < |s'.log| ==> Honours(s'.log[i], NextRequests(asked, s, c))
  {
    hide Inv, Step, Matches;
    StepStarts(s, c);
    StepMatches(asked, s, c);
    var s' := Step(s, c);
    forall i | |s.log| <= i < |s'.log| ensures Honours(s'.log[i], NextRequests(asked, s, c)) {
      assert Rightful(s'.log[i], s'.live);
      if s'.log[i].Start? { MatchesAt(NextRequests(asked, s, c), s', s'.log[i].tid); }
    }
  }

  // Every start message of the run, against the requests at its step.
  ghost predicate AllHonoured(asked: map<nat, Request>, s: State, clock: int, calls: seq<Call>)
    requires IsRun(s, clock, calls)
    decreases |calls|
  {
    calls == []
    || (var s', asked' := Step(s, calls[0]), NextRequests(asked, s, calls[0]);
        && s.log <= s'.log && (forall i :: |s.log| <= i < |s'.log| ==> Honours(s'.log[i], asked'))
        && AllHonoured(asked', s', calls[0].now, calls[1..]))
  }

  lemma {:induction false} RunHonours(asked: map<nat, Request>, s: State, clock: int, calls: seq<Call>)
    requires Inv(s) && Matches(asked, s) && IsRun(s, clock, calls)
    ensures AllHonoured(asked, s, clock, calls)
    decreases |calls|
  {
    hide Inv, Enabled, Step, Matches, NextRequests, Honours;
    if calls != [] {
      StepKeeps(s, calls[0]);
      StepMatches(asked, s, calls[0]);
      StepHonours(asked, s, calls[0]);
      RunHonours(NextRequests(asked, s, calls[0]), Step(s, calls[0]), calls[0].now, calls[1..]);
    }
  }

  // Over every run from the start of the server: each start message carries the kind, file name, mode
  // and offset of the add call that took its id, and goes to the thread that registered it.
  lemma StartsAsAsked(clock: int, calls: seq<Call>)
    requires IsRun(Boot(), clock, calls)
    ensures AllHonoured(map[], Boot(), clock, calls)
  {
    BootInv();
    hide Inv, IsRun;
    RunHonours(map[], Boot(), clock, calls);
  }
}
