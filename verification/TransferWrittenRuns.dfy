/** Whole runs of the transfer manager as coded: they stay consistent exactly as long as no call
    falls into one of the families of TransferAsWritten, and until then they are the intended runs. */
module TransferWrittenRuns {
  import opened TransferSpec
  import opened TransferInvariant
  import opened TransferRuns
  import opened TransferStarts
  import opened TransferAsWritten

  // A critical section that can be entered: as Enabled, but any id may be cancelled at any time.
  ghost predicate Possible(s: State, c: Call) {
    if c.op.DoRemove? then Linked(s) else Enabled(s, c)
  }

  ghost function StepAsWritten(s: State, c: Call): Outcome
    requires Possible(s, c)
  {
    match c.op
    case DoRegister(tid, fd, ip, thread, ips) => Done(RegisterAsWritten(s, tid, fd, ip, thread, ips).state)
    case DoRemove(tid) => RemoveAsWritten(s, tid, c.now)
    case _ => Done(Step(s, c))
  }

  // What a caller could check before the call.
  ghost predicate Misled(s: State, c: Call)
    requires Possible(s, c)
  {
    match c.op
    case DoRegister(tid, fd, ip, thread, ips) => Admitted(s, tid, ip, ips) && BehindHead(s, tid)
    case DoRemove(tid) => Mishandled(s, tid)
    case _ => false
  }

  lemma StepExact(s: State, c: Call)
    requires Inv(s) && Possible(s, c)
    ensures var o := StepAsWritten(s, c);
            && (o.Done? && Inv(o.state) && StartsAgree(s, o.state) <==> !Misled(s, c))
            && (!Misled(s, c) ==> Enabled(s, c) && o == Done(Step(s, c)))
  {
    hide Base, Slots, QueueJustified, UploadsDistinct, CancelledIdle, StartsAgree;
    match c.op
    case DoRegister(tid, fd, ip, thread, ips) => RegisterExact(s, tid, fd, ip, thread, ips);
    case DoRemove(tid) => RemoveExact(s, tid, c.now);
    case _ =>
      StepKeeps(s, c);
      StepStarts(s, c);
  }

  // Calls follow one another with a clock that never goes back, until one never returns.
  ghost predicate IsWrittenRun(s: State, clock: int, calls: seq<Call>)
    decreases |calls|
  {
    calls == []
    || (clock <= calls[0].now && Possible(s, calls[0])
        && (StepAsWritten(s, calls[0]).Done? ==>
              IsWrittenRun(StepAsWritten(s, calls[0]).state, calls[0].now, calls[1..])))
  }

  // Every call returns, every state on the way is consistent, and every call starts exactly what it
  // sets running.
  ghost predicate StaysConsistent(s: State, clock: int, calls: seq<Call>)
    requires IsWrittenRun(s, clock, calls)
    decreases |calls|
  {
    Inv(s)
    && (calls != [] ==>
          && StepAsWritten(s, calls[0]).Done?
          && StartsAgree(s, StepAsWritten(s, calls[0]).state)
          && StaysConsistent(StepAsWritten(s, calls[0]).state, calls[0].now, calls[1..]))
  }

  ghost predicate NeverMisled(s: State, clock: int, calls: seq<Call>)
    requires IsWrittenRun(s, clock, calls)
    decreases |calls|
  {
    calls != [] ==>
      && !Misled(s, calls[0])
      && (StepAsWritten(s, calls[0]).Done? ==>
            NeverMisled(StepAsWritten(s, calls[0]).state, calls[0].now, calls[1..]))
  }

  // The state such a run ends in.
  ghost function EndOf(s: State, clock: int, calls: seq<Call>): Outcome
    requires IsWrittenRun(s, clock, calls)
    decreases |calls|
  {
    if calls == [] then Done(s)
    else if StepAsWritten(s, calls[0]).Stuck? then Stuck
    else EndOf(StepAsWritten(s, calls[0]).state, calls[0].now, calls[1..])
  }

  lemma {:induction false} WrittenRunExact(s: State, clock: int, calls: seq<Call>)
    requires Inv(s) && IsWrittenRun(s, clock, calls)
    ensures StaysConsistent(s, clock, calls) <==> NeverMisled(s, clock, calls)
    ensures NeverMisled(s, clock, calls) ==>
              IsRun(s, clock, calls) && EndOf(s, clock, calls) == Done(After(s, clock, calls))
    decreases |calls|
  {
    hide Inv, Possible, Enabled, Step, StepAsWritten, Misled, StartsAgree;
    if calls != [] {
      StepExact(s, calls[0]);
      var o := StepAsWritten(s, calls[0]);
      if o.Done? && !Misled(s, calls[0]) {
        WrittenRunExact(o.state, calls[0].now, calls[1..]);
      } else if o.Done? && !Inv(o.state) {
        InconsistentStart(o.state, calls[0].now, calls[1..]);
      }
    }
  }

  lemma InconsistentStart(s: State, clock: int, calls: seq<Call>)
    requires IsWrittenRun(s, clock, calls) && !Inv(s)
    ensures !StaysConsistent(s, clock, calls)
  {
    hide Inv;
  }

  // From the start of the server: a run of the code stays consistent if and only if no call in it
  // is misled, and what holds over the intended runs then holds of it.
  lemma EveryWrittenRun(clock: int, calls: seq<Call>)
    requires IsWrittenRun(Boot(), clock, calls)
    ensures StaysConsistent(Boot(), clock, calls) <==> NeverMisled(Boot(), clock, calls)
    ensures NeverMisled(Boot(), clock, calls) ==>
              IsRun(Boot(), clock, calls) && EndOf(Boot(), clock, calls) == Done(After(Boot(), clock, calls))
  {
    hide Inv, StartsAgree;
    BootInv();
    WrittenRunExact(Boot(), clock, calls);
  }
}
