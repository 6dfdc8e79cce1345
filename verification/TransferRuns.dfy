/** Runs of the transfer manager: any sequence of critical sections, in any order, by any thread. */
module TransferRuns {
  import opened TransferSpec
  import opened TransferInvariant
  import opened TransferSteps
  import Idm

  datatype Op =
    | DoInit(enable: bool, down: int, up: int)
    | DoAddDownload(uid: int, filename: string, mode: int, offset: int)
    | DoAddUpload(uid: int, filename: string, mode: int, offset: int)
    | DoRegister(tid: nat, fd: int, ip: int, thread: int, ips: map<int, int>)
    | DoRemove(tid: nat)
    | DoTimeout
    | DoWake

  // A critical section entered at time `now`.
  datatype Call = Call(op: Op, now: int)

  // The monitor thread times out when the head's deadline has passed, registered or not, and is
  // woken only by the signal of a registered head. Cancels do not race a registration.
  ghost predicate Enabled(s: State, c: Call) {
    && Linked(s)
    && match c.op
       case DoRemove(tid) => !CancelRace(s, tid)
       case DoTimeout =>
         s.sequester != [] && s.sequester[0] in s.live && s.live[s.sequester[0]].deadline <= c.now
       case DoWake =>
         s.sequester != [] && s.sequester[0] in s.live && s.live[s.sequester[0]].thread.Some?
       case _ => true
  }

  ghost function Step(s: State, c: Call): State
    requires Enabled(s, c)
  {
    match c.op
    case DoInit(enable, down, up) => Init(s, enable, down, up, c.now)
    case DoAddDownload(uid, filename, mode, offset) => AddDownload(s, uid, filename, mode, offset, c.now).state
    case DoAddUpload(uid, filename, mode, offset) => AddUpload(s, uid, filename, mode, offset, c.now).state
    case DoRegister(tid, fd, ip, thread, ips) => Register(s, tid, fd, ip, thread, ips).state
    case DoRemove(tid) => Remove(s, tid, c.now)
    case DoTimeout => Timeout(s, c.now)
    case DoWake => Wake(s)
  }

  lemma StepKeeps(s: State, c: Call)
    requires Inv(s) && Enabled(s, c)
    ensures Inv(Step(s, c))
  {
    hide Inv;
    match c.op
    case DoInit(enable, down, up) => InitKeeps(s, enable, down, up, c.now);
    case DoAddDownload(uid, filename, mode, offset) => AddDownloadKeeps(s, uid, filename, mode, offset, c.now);
    case DoAddUpload(uid, filename, mode, offset) => AddUploadKeeps(s, uid, filename, mode, offset, c.now);
    case DoRegister(tid, fd, ip, thread, ips) => RegisterKeeps(s, tid, fd, ip, thread, ips);
    case DoRemove(tid) => RemoveKeeps(s, tid, c.now);
    case DoTimeout => TimeoutKeeps(s, c.now);
    case DoWake => WakeKeeps(s);
  }

  // A run with a clock that never goes back.
  ghost predicate IsRun(s: State, clock: int, calls: seq<Call>)
    decreases |calls|
  {
    calls == [] || (clock <= calls[0].now && Enabled(s, calls[0]) && IsRun(Step(s, calls[0]), calls[0].now, calls[1..]))
  }

  ghost function After(s: State, clock: int, calls: seq<Call>): State
    requires IsRun(s, clock, calls)
    decreases |calls|
  {
    if calls == [] then s else After(Step(s, calls[0]), calls[0].now, calls[1..])
  }

  // The static initialisers, with the id manager and the table tfm_init creates.
  ghost function Boot(): State {
    State(map[], {}, [], [], 0, 0, 0, Idm.Ids(1, 4097), true, -1, -1, 0, [])
  }

  lemma BootInv()
    ensures Inv(Boot())
  {
    assert ActiveDownloads(Boot()) == {} && ActiveUploads(Boot()) == {};
  }

  lemma {:induction false} RunKeepsInv(s: State, clock: int, calls: seq<Call>)
    requires Inv(s) && IsRun(s, clock, calls)
    ensures Inv(After(s, clock, calls))
    decreases |calls|
  {
    hide Inv, Enabled, Step;
    if calls != [] {
      StepKeeps(s, calls[0]);
      RunKeepsInv(Step(s, calls[0]), calls[0].now, calls[1..]);
    }
  }

  // The properties the invariant stands for, over every run from the initial state.
  lemma EveryRun(clock: int, calls: seq<Call>)
    requires IsRun(Boot(), clock, calls)
    ensures var s := After(Boot(), clock, calls);
            // slot accounting
            && s.activeDown == |ActiveDownloads(s)| && s.activeUp == |ActiveUploads(s)|
            // queue discipline
            && s.queueSize == |s.queue|
            && (forall k :: 0 <= k < |s.queue| ==> s.queue[k] in s.live && s.live[s.queue[k]].position == k + 1)
            && (s.queue != [] ==> s.maxDown != -1 && s.activeDown >= s.maxDown)
            // fresh ids: live transfers and free ids never meet, so an insertion never finds a duplicate
            && (forall id :: id in s.live ==> s.live[id].tid == id && id !in s.free)
            && (s.free != {} ==> LeastId(s.free) !in s.table && LeastId(s.free) !in s.live)
            // one monitor thread, exactly while something is sequestered
            && s.monitors == (if s.sequester == [] then 0 else 1)
            // upload exclusivity
            && UploadsDistinct(s)
  {
    BootInv();
    RunKeepsInv(Boot(), clock, calls);
    var s := After(Boot(), clock, calls);
    assert s.free != {} ==> LeastId(s.free) in s.free;
  }
}
