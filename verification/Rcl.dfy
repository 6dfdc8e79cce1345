/** The reader/writer lock of RCL.c as a transition system: any number of threads, each mutex or
    condition operation one step. A waiter is woken only by a signal. */
module Rcl {
  import opened Wrappers

  // Where a thread stands. A reader: Idle, RWantEntry (rcl_read_lock entered), RHasEntry, RHasBoth,
  // RCounted (rc raised), RLeftRc (rc_lock released), Reading; then RExit (rcl_read_unlock entered),
  // RExitHas, RLast (rc fell to zero, signal pending), RExitDone.
  // A writer: WWantEntry, WReserved (between the two halves), WWantRc, WHasRc, WWaiting (inside
  // pthread_cond_wait), WWoken (signalled, regaining rc_lock), Writing, WLeftRc.
  datatype Pc =
    | Idle
    | RWantEntry | RHasEntry | RHasBoth | RCounted | RLeftRc | Reading | RExit | RExitHas | RLast | RExitDone
    | WWantEntry | WReserved | WWantRc | WHasRc | WWaiting | WWoken | Writing | WLeftRc

  type Owner = Option<nat>

  datatype State = State(entry: Owner, rcLock: Owner, rc: int, pcs: seq<Pc>)

  predicate HoldsEntry(p: Pc) {
    p.RHasEntry? || p.RHasBoth? || p.RCounted? || p.RLeftRc?
    || p.WReserved? || p.WWantRc? || p.WHasRc? || p.WWaiting? || p.WWoken? || p.Writing? || p.WLeftRc?
  }

  predicate HoldsRc(p: Pc) {
    p.RHasBoth? || p.RCounted? || p.RExitHas? || p.RLast? || p.RExitDone? || p.WHasRc? || p.Writing?
  }

  // Between rc++ and --rc.
  predicate Inside(p: Pc) {
    p.RCounted? || p.RLeftRc? || p.Reading? || p.RExit? || p.RExitHas?
  }

  // A thread's next step, with a choice where the program has one: an idle thread may start to
  // read or to write.
  datatype Choice = Read | Write

  predicate Enabled(s: State, t: nat)
    requires t < |s.pcs|
  {
    match s.pcs[t]
    case RWantEntry => s.entry == None
    case WWantEntry => s.entry == None
    case RHasEntry => s.rcLock == None
    case RExit => s.rcLock == None
    case WWantRc => s.rcLock == None
    case WWoken => s.rcLock == None
    case WWaiting => false
    case _ => true
  }

  function Goto(s: State, t: nat, p: Pc): State
    requires t < |s.pcs|
  {
    s.(pcs := s.pcs[t := p])
  }

  function Waiter(pcs: seq<Pc>): (i: nat)
    ensures i <= |pcs|
    ensures i < |pcs| ==> pcs[i].WWaiting?
    ensures i == |pcs| ==> forall j :: 0 <= j < |pcs| ==> !pcs[j].WWaiting?
  {
    if pcs == [] || pcs[0].WWaiting? then 0 else 1 + Waiter(pcs[1..])
  }

  function Step(s: State, t: nat, c: Choice): State
    requires t < |s.pcs| && Enabled(s, t)
  {
    match s.pcs[t]
    case Idle => Goto(s, t, if c.Read? then RWantEntry else WWantEntry)
    // rcl_read_lock
    case RWantEntry => Goto(s, t, RHasEntry).(entry := Some(t))
    case RHasEntry => Goto(s, t, RHasBoth).(rcLock := Some(t))
    case RHasBoth => Goto(s, t, RCounted).(rc := s.rc + 1)
    case RCounted => Goto(s, t, RLeftRc).(rcLock := None)
    case RLeftRc => Goto(s, t, Reading).(entry := None)
    // rcl_read_unlock
    case Reading => Goto(s, t, RExit)
    case RExit => Goto(s, t, RExitHas).(rcLock := Some(t))
    case RExitHas => Goto(s, t, if s.rc - 1 == 0 then RLast else RExitDone).(rc := s.rc - 1)
    case RLast =>
      // pthread_cond_signal wakes a waiter if there is one
      var w := Waiter(s.pcs);
      var s1 := if w < |s.pcs| then Goto(s, w, WWoken) else s;
      Goto(s1, t, RExitDone)
    case RExitDone => Goto(s, t, Idle).(rcLock := None)
    // rcl_write_reserve_lock, rcl_write_complete_lock
    case WWantEntry => Goto(s, t, WReserved).(entry := Some(t))
    case WReserved => Goto(s, t, WWantRc)
    case WWantRc => Goto(s, t, WHasRc).(rcLock := Some(t))
    case WHasRc => if s.rc > 0 then Goto(s, t, WWaiting).(rcLock := None) else Goto(s, t, Writing)
    case WWoken => Goto(s, t, Writing).(rcLock := Some(t))
    // rcl_write_unlock
    case Writing => Goto(s, t, WLeftRc).(rcLock := None)
    case WLeftRc => Goto(s, t, Idle).(entry := None)
  }

  // ---- sums over threads ----

  function Count(pcs: seq<Pc>): nat {
    if pcs == [] then 0 else (if Inside(pcs[0]) then 1 else 0) + Count(pcs[1..])
  }

  lemma {:induction false} CountUpdate(pcs: seq<Pc>, t: nat, p: Pc)
    requires t < |pcs|
    ensures Count(pcs[t := p]) == Count(pcs) - (if Inside(pcs[t]) then 1 else 0) + (if Inside(p) then 1 else 0)
  {
    if t == 0 {
      assert pcs[t := p][1..] == pcs[1..];
    } else {
      assert pcs[t := p][1..] == pcs[1..][t - 1 := p];
      CountUpdate(pcs[1..], t - 1, p);
    }
  }

  lemma {:induction false} CountPositive(pcs: seq<Pc>)
    ensures Count(pcs) > 0 <==> exists t :: 0 <= t < |pcs| && Inside(pcs[t])
  {
    if pcs != [] {
      CountPositive(pcs[1..]);
      if t :| 0 <= t < |pcs[1..]| && Inside(pcs[1..][t]) {
        assert Inside(pcs[t + 1]);
      }
      if t :| 0 <= t < |pcs| && Inside(pcs[t]) {
        if t > 0 { assert Inside(pcs[1..][t - 1]); }
      }
    }
  }

  lemma {:induction false} CountBounded(pcs: seq<Pc>)
    ensures Count(pcs) <= |pcs|
  {
    if pcs != [] { CountBounded(pcs[1..]); }
  }

  // ---- the invariant ----

  // Each mutex has the one owner its owner field names.
  ghost predicate EntryAgrees(s: State) {
    && (forall t :: 0 <= t < |s.pcs| ==> (s.entry == Some(t) <==> HoldsEntry(s.pcs[t])))
    && (s.entry.Some? ==> s.entry.value < |s.pcs|)
  }

  ghost predicate RcAgrees(s: State) {
    && (forall t :: 0 <= t < |s.pcs| ==> (s.rcLock == Some(t) <==> HoldsRc(s.pcs[t])))
    && (s.rcLock.Some? ==> s.rcLock.value < |s.pcs|)
  }

  ghost predicate MutexesAgree(s: State) {
    EntryAgrees(s) && RcAgrees(s)
  }

  // A writer that is past its wait faces no reader, and a pending signal means none is left.
  ghost predicate Quiet(s: State) {
    forall t :: 0 <= t < |s.pcs| && (s.pcs[t].Writing? || s.pcs[t].WWoken? || s.pcs[t].RLast?) ==> s.rc == 0
  }

  // No lost wakeup: whoever waits, waits for a reader inside or for a signal about to be sent.
  ghost predicate Awaited(s: State) {
    forall t :: 0 <= t < |s.pcs| && s.pcs[t].WWaiting? ==> s.rc > 0 || SignalPending(s)
  }

  ghost predicate SignalPending(s: State) {
    exists r :: 0 <= r < |s.pcs| && s.pcs[r].RLast?
  }

  ghost predicate Inv(s: State) {
    MutexesAgree(s) && s.rc == Count(s.pcs) && Quiet(s) && Awaited(s)
  }

  lemma InitInv(n: nat)
    ensures Inv(State(None, None, 0, seq(n, i => Idle)))
  {
    CountPositive(seq(n, i => Idle));
  }

  // What a step does to one mutex: it is taken when free, released by its owner, or left alone.
  ghost predicate Handled(before: Owner, after: Owner, t: nat, held: bool, holds: bool) {
    if held == holds then after == before
    else if holds then before == None && after == Some(t)
    else after == None
  }

  lemma StepHandles(s: State, t: nat, c: Choice)
    requires t < |s.pcs| && Enabled(s, t)
    ensures var s' := Step(s, t, c);
            && |s'.pcs| == |s.pcs|
            && Handled(s.entry, s'.entry, t, HoldsEntry(s.pcs[t]), HoldsEntry(s'.pcs[t]))
            && Handled(s.rcLock, s'.rcLock, t, HoldsRc(s.pcs[t]), HoldsRc(s'.pcs[t]))
  {
  }

  // Nobody else moves, except that a signal turns a waiting writer into a woken one.
  lemma StepOthers(s: State, t: nat, c: Choice, u: nat)
    requires t < |s.pcs| && Enabled(s, t) && u < |s.pcs| && u != t
    ensures var s' := Step(s, t, c);
            s'.pcs[u] == s.pcs[u] || (s.pcs[t].RLast? && s.pcs[u].WWaiting? && s'.pcs[u].WWoken?)
  {
  }

  lemma StepMutexes(s: State, t: nat, c: Choice)
    requires MutexesAgree(s) && t < |s.pcs| && Enabled(s, t)
    ensures MutexesAgree(Step(s, t, c))
  {
    hide Step, Enabled;
    var s' := Step(s, t, c);
    StepHandles(s, t, c);
    forall u: nat | u < |s.pcs| && u != t
      ensures HoldsEntry(s'.pcs[u]) == HoldsEntry(s.pcs[u]) && HoldsRc(s'.pcs[u]) == HoldsRc(s.pcs[u])
    {
      StepOthers(s, t, c, u);
    }
  }

  lemma StepCounts(s: State, t: nat, c: Choice)
    requires s.rc == Count(s.pcs) && t < |s.pcs| && Enabled(s, t)
    ensures Step(s, t, c).rc == Count(Step(s, t, c).pcs)
  {
    var s' := Step(s, t, c);
    if s.pcs[t].RLast? && Waiter(s.pcs) < |s.pcs| {
      CountUpdate(s.pcs, Waiter(s.pcs), WWoken);
      CountUpdate(s.pcs[Waiter(s.pcs) := WWoken], t, RExitDone);
    } else {
      CountUpdate(s.pcs, t, s'.pcs[t]);
    }
  }

  lemma StepQuiet(s: State, t: nat, c: Choice)
    requires MutexesAgree(s) && s.rc == Count(s.pcs) && Quiet(s) && t < |s.pcs| && Enabled(s, t)
    ensures Quiet(Step(s, t, c))
  {
    var s' := Step(s, t, c);
    CountPositive(s.pcs);
    assert s.pcs[t].RExitHas? ==> Inside(s.pcs[t]);
    forall u | 0 <= u < |s'.pcs| && (s'.pcs[u].Writing? || s'.pcs[u].WWoken? || s'.pcs[u].RLast?)
      ensures s'.rc == 0
    {
      // Raising rc takes both mutexes, lowering it takes rc_lock.
      assert s.pcs[t].RHasBoth? ==> s.entry == Some(t) && s.rcLock == Some(t);
      assert HoldsEntry(s'.pcs[u]) || HoldsRc(s'.pcs[u]);
    }
  }

  lemma StepAwaited(s: State, t: nat, c: Choice)
    requires Inv(s) && t < |s.pcs| && Enabled(s, t)
    ensures Awaited(Step(s, t, c))
  {
    var s' := Step(s, t, c);
    forall u | 0 <= u < |s'.pcs| && s'.pcs[u].WWaiting?
      ensures s'.rc > 0 || SignalPending(s')
    {
      if u != t {
        assert s.pcs[u].WWaiting? && HoldsEntry(s.pcs[u]);
        if !(s.rc > 0) {
          var r :| 0 <= r < |s.pcs| && s.pcs[r].RLast?;
          if r != t { assert s'.pcs[r].RLast?; }
        } else if s.pcs[t].RExitHas? && s'.rc == 0 {
          assert s'.pcs[t].RLast?;
        }
      }
    }
  }

  lemma StepKeeps(s: State, t: nat, c: Choice)
    requires Inv(s) && t < |s.pcs| && Enabled(s, t)
    ensures Inv(Step(s, t, c))
  {
    hide Step, Quiet, Awaited, MutexesAgree;
    StepMutexes(s, t, c);
    StepCounts(s, t, c);
    StepQuiet(s, t, c);
    StepAwaited(s, t, c);
  }

  // ---- runs ----

  datatype Move = Move(tid: nat, choice: Choice)

  ghost predicate IsRun(s: State, moves: seq<Move>)
    decreases |moves|
  {
    moves == [] ||
    (moves[0].tid < |s.pcs| && Enabled(s, moves[0].tid)
     && IsRun(Step(s, moves[0].tid, moves[0].choice), moves[1..]))
  }

  ghost function After(s: State, moves: seq<Move>): State
    requires IsRun(s, moves)
    decreases |moves|
  {
    if moves == [] then s else After(Step(s, moves[0].tid, moves[0].choice), moves[1..])
  }

  lemma {:induction false} RunKeeps(s: State, moves: seq<Move>)
    requires Inv(s) && IsRun(s, moves)
    ensures Inv(After(s, moves))
    decreases |moves|
  {
    hide Inv, Step, Enabled;
    if moves != [] {
      StepKeeps(s, moves[0].tid, moves[0].choice);
      RunKeeps(Step(s, moves[0].tid, moves[0].choice), moves[1..]);
    }
  }

  // In every interleaving of any number of threads: rc counts the readers inside, and a writer
  // that has completed its lock excludes every reader and every other writer.
  lemma MutualExclusion(n: nat, moves: seq<Move>, w: nat)
    requires IsRun(State(None, None, 0, seq(n, i => Idle)), moves)
    ensures var s := After(State(None, None, 0, seq(n, i => Idle)), moves);
            && s.rc == Count(s.pcs) <= |s.pcs|
            && (w < |s.pcs| && s.pcs[w].Writing? ==>
                  forall u :: 0 <= u < |s.pcs| && u != w ==> !Inside(s.pcs[u]) && !s.pcs[u].Writing?)
  {
    InitInv(n);
    RunKeeps(State(None, None, 0, seq(n, i => Idle)), moves);
    var s := After(State(None, None, 0, seq(n, i => Idle)), moves);
    CountPositive(s.pcs);
    CountBounded(s.pcs);
  }

  // ---- progress ----

  // No deadlock: while any thread is inside or waiting, one that is not idle can move.
  lemma SomeoneCanMove(s: State, t: nat)
    requires Inv(s) && t < |s.pcs| && s.pcs[t] != Idle
    ensures exists u: nat :: u < |s.pcs| && s.pcs[u] != Idle && Enabled(s, u)
  {
    if !Enabled(s, t) {
      if s.rcLock.Some? {
        assert Enabled(s, s.rcLock.value);
      } else if s.entry.Some? {
        var e := s.entry.value;
        if s.pcs[e].WWaiting? {
          // rc_lock is free, so no signal is pending: a reader is inside, and can leave.
          assert !SignalPending(s);
          CountPositive(s.pcs);
          var r :| 0 <= r < |s.pcs| && Inside(s.pcs[r]);
          assert !HoldsEntry(s.pcs[r]) && !HoldsRc(s.pcs[r]);
          assert Enabled(s, r);
        } else {
          assert Enabled(s, e);
        }
      }
    }
  }

  // A writer between reserving the entry lock and writing.
  predicate Pending(p: Pc) {
    p.WReserved? || p.WWantRc? || p.WHasRc? || p.WWaiting? || p.WWoken?
  }

  lemma StepPending(s: State, t: nat, c: Choice, w: nat)
    requires Inv(s) && t < |s.pcs| && Enabled(s, t) && w < |s.pcs| && Pending(s.pcs[w])
    ensures var s' := Step(s, t, c); Pending(s'.pcs[w]) || s'.pcs[w].Writing?
  {
  }

  // Once a writer holds the entry lock, no new reader gets in.
  lemma NoNewReader(s: State, t: nat, c: Choice, w: nat)
    requires Inv(s) && t < |s.pcs| && Enabled(s, t) && w < |s.pcs| && Pending(s.pcs[w])
    ensures var s' := Step(s, t, c);
            && s'.rc <= s.rc
            && forall u :: 0 <= u < |s.pcs| && Inside(s'.pcs[u]) ==> Inside(s.pcs[u])
  {
    assert HoldsEntry(s.pcs[w]) && (HoldsEntry(s.pcs[t]) ==> t == w);
  }

  // Steps a thread may still take before the pending writer writes.
  function Weight(p: Pc): nat {
    match p
    case Reading => 5
    case RExit => 4
    case RExitHas => 3
    case RLast => 2
    case RExitDone => 1
    case WReserved => 5
    case WWantRc => 4
    case WHasRc => 3
    case WWaiting => 2
    case WWoken => 1
    case _ => 0
  }

  function Total(pcs: seq<Pc>): nat {
    if pcs == [] then 0 else Weight(pcs[0]) + Total(pcs[1..])
  }

  lemma {:induction false} TotalUpdate(pcs: seq<Pc>, t: nat, p: Pc)
    requires t < |pcs|
    ensures Total(pcs[t := p]) == Total(pcs) - Weight(pcs[t]) + Weight(p)
  {
    if t == 0 {
      assert pcs[t := p][1..] == pcs[1..];
    } else {
      assert pcs[t := p][1..] == pcs[1..][t - 1 := p];
      TotalUpdate(pcs[1..], t - 1, p);
    }
  }

  // While a writer is pending, every step lowers the total, except an idle thread's request,
  // which leaves it alone and blocks on the entry lock.
  lemma TotalFalls(s: State, t: nat, c: Choice, w: nat)
    requires Inv(s) && t < |s.pcs| && Enabled(s, t) && w < |s.pcs| && Pending(s.pcs[w])
    ensures s.pcs[t] == Idle ==> Total(Step(s, t, c).pcs) == Total(s.pcs)
    ensures s.pcs[t] != Idle ==> Total(Step(s, t, c).pcs) < Total(s.pcs)
  {
    if s.pcs[t].RLast? {
      TotalUpdate(s.pcs, t, RExitDone);
      if Waiter(s.pcs) < |s.pcs| {
        TotalUpdate(s.pcs, Waiter(s.pcs), WWoken);
        TotalUpdate(s.pcs[Waiter(s.pcs) := WWoken], t, RExitDone);
      }
    } else {
      MoverAlone(s, t, c);
      MoverLighter(s, t, c, w);
      TotalUpdate(s.pcs, t, Step(s, t, c).pcs[t]);
      hide Step, Inv, Enabled;
    }
  }

  lemma MoverAlone(s: State, t: nat, c: Choice)
    requires t < |s.pcs| && Enabled(s, t) && !s.pcs[t].RLast?
    ensures var s' := Step(s, t, c); t < |s'.pcs| && s'.pcs == s.pcs[t := s'.pcs[t]]
  {
  }

  lemma MoverLighter(s: State, t: nat, c: Choice, w: nat)
    requires Inv(s) && t < |s.pcs| && Enabled(s, t) && w < |s.pcs| && Pending(s.pcs[w])
    requires !s.pcs[t].RLast?
    ensures |Step(s, t, c).pcs| == |s.pcs|
    ensures s.pcs[t] == Idle ==> Weight(Step(s, t, c).pcs[t]) == 0
    ensures s.pcs[t] != Idle ==> Weight(Step(s, t, c).pcs[t]) < Weight(s.pcs[t])
  {
    assert HoldsEntry(s.pcs[w]) && (HoldsEntry(s.pcs[t]) ==> t == w);
  }

  // A run during which w stays pending.
  ghost predicate StaysPending(s: State, moves: seq<Move>, w: nat)
    requires IsRun(s, moves)
    decreases |moves|
  {
    && w < |s.pcs| && Pending(s.pcs[w])
    && (moves == [] || StaysPending(Step(s, moves[0].tid, moves[0].choice), moves[1..], w))
  }

  // Moves other than the requests of idle threads.
  ghost function Busy(s: State, moves: seq<Move>): nat
    requires IsRun(s, moves)
    decreases |moves|
  {
    if moves == [] then 0
    else (if s.pcs[moves[0].tid] == Idle then 0 else 1) + Busy(Step(s, moves[0].tid, moves[0].choice), moves[1..])
  }

  // No wakeup is lost: a pending writer gets to write after at most Total busy moves of anybody,
  // and by SomeoneCanMove there is always such a move to make.
  lemma {:induction false} WriterProceeds(s: State, moves: seq<Move>, w: nat)
    requires Inv(s) && IsRun(s, moves) && StaysPending(s, moves, w)
    ensures Busy(s, moves) + Total(After(s, moves).pcs) <= Total(s.pcs)
    ensures exists u: nat :: u < |After(s, moves).pcs| && After(s, moves).pcs[u] != Idle && Enabled(After(s, moves), u)
    decreases |moves|
  {
    hide Inv, Step, Enabled, Total;
    if moves == [] {
      SomeoneCanMove(s, w);
    } else {
      var s' := Step(s, moves[0].tid, moves[0].choice);
      StepKeeps(s, moves[0].tid, moves[0].choice);
      TotalFalls(s, moves[0].tid, moves[0].choice, w);
      WriterProceeds(s', moves[1..], w);
    }
  }

  lemma PendingStep(s: State, t: nat, c: Choice, w: nat)
    requires t < |s.pcs| && Enabled(s, t) && w < |s.pcs| && Pending(s.pcs[w]) && Inv(s)
    ensures var s' := Step(s, t, c);
            && Inv(s') && w < |s'.pcs| && (Pending(s'.pcs[w]) || s'.pcs[w].Writing?)
            && Total(s'.pcs) + (if s.pcs[t] == Idle then 0 else 1) <= Total(s.pcs)
  {
    hide Total;
    StepPending(s, t, c, w);
    StepKeeps(s, t, c);
    TotalFalls(s, t, c, w);
  }

  // So it writes: in any run with more than Total busy moves there is a point where it has the lock.
  lemma {:induction false} WriterWrites(s: State, moves: seq<Move>, w: nat) returns (k: nat)
    requires Inv(s) && IsRun(s, moves) && w < |s.pcs| && Pending(s.pcs[w])
    requires Busy(s, moves) > Total(s.pcs)
    ensures k <= |moves| && IsRun(s, moves[..k])
    ensures w < |After(s, moves[..k]).pcs| && After(s, moves[..k]).pcs[w].Writing?
    decreases |moves|
  {
    hide Inv, Step, Enabled, Total, Pending;
    var s' := Step(s, moves[0].tid, moves[0].choice);
    PendingStep(s, moves[0].tid, moves[0].choice, w);
    if s'.pcs[w].Writing? {
      k := 1;
      assert moves[..1][1..] == [];
      assert After(s', []) == s';
    } else {
      k := WriterWrites(s', moves[1..], w);
      k := k + 1;
      assert moves[..k][1..] == moves[1..][..k - 1];
    }
  }

  // The bound in numbers: five moves a thread.
  lemma {:induction false} TotalBounded(pcs: seq<Pc>)
    ensures Total(pcs) <= 5 * |pcs|
  {
    if pcs != [] { TotalBounded(pcs[1..]); }
  }
}
