/** tfm_register and tfm_remove exactly as coded, against what their comments intend: they agree,
    and keep the invariant, on all calls but one family each. */
module TransferAsWritten {
  import opened Wrappers
  import opened TransferSpec
  import opened TransferInvariant
  import opened TransferSteps
  import opened TransferStarts

  // A sequestered transfer behind the head: the search at TransferManager.c:517 stops on the
  // entry itself and unlinks the one after it.
  ghost predicate BehindHead(s: State, tid: nat) {
    && tid in s.table && tid in s.live && s.live[tid].thread == None
    && tid in s.sequester && s.sequester[0] != tid
  }

  // The entry the search stops on, or any other occurrence behind the head, survives the cut.
  lemma CutKeeps(ids: seq<nat>, tid: nat)
    requires tid in ids && ids[0] != tid && StopOn(ids, tid) + 1 < |ids|
    ensures var c := StopOn(ids, tid); c > 0 && CutAfter(ids, c)[c] == tid && tid in CutAfter(ids, c)
  {
    var c := StopOn(ids, tid);
    assert CutAfter(ids, c)[c] == ids[c];
  }

  lemma RegisteredBehindHeadBreaks(s: State, tid: nat)
    requires tid in s.sequester && s.sequester[0] != tid && tid in s.live && s.live[tid].thread.Some?
    ensures !SequesterAgrees(s)
  {
    var i :| 0 <= i < |s.sequester| && s.sequester[i] == tid;
  }

  lemma RegisterExact(s: State, tid: nat, fd: int, ip: int, thread: int, ips: map<int, int>)
    requires Inv(s)
    ensures var w := RegisterAsWritten(s, tid, fd, ip, thread, ips);
            var misled := Admitted(s, tid, ip, ips) && BehindHead(s, tid);
            && (w == Register(s, tid, fd, ip, thread, ips) <==> !misled)
            && (Inv(w.state) <==> !misled)
            && (!misled ==> StartsAgree(s, w.state))
  {
    var w := RegisterAsWritten(s, tid, fd, ip, thread, ips);
    RegisterKeeps(s, tid, fd, ip, thread, ips);
    RegisterStarts(s, tid, fd, ip, thread, ips);
    hide StartsAgree;
    if Admitted(s, tid, ip, ips) && BehindHead(s, tid) {
      assert tid in w.state.sequester && w.state.sequester[0] != tid by {
        if StopOn(s.sequester, tid) + 1 < |s.sequester| { CutKeeps(s.sequester, tid); }
      }
      RegisteredBehindHeadBreaks(w.state, tid);
      assert !Inv(w.state);
      assert Inv(Register(s, tid, fd, ip, thread, ips).state);
    } else if Admitted(s, tid, ip, ips) && !Queued(s.live[tid]) {
      assert tid in s.sequester;
    }
  }

  // The calls tfm_remove gets wrong: cancelling a queued download in company, cancelling a
  // sequestered transfer behind the head, and cancelling a registered transfer that is still on a
  // list.
  ghost predicate Mishandled(s: State, tid: nat) {
    || (tid in s.table && tid in s.live && tid in s.queue && s.live[tid].thread == None && |s.queue| > 1)
    || BehindHead(s, tid)
    || CancelRace(s, tid)
  }

  // tfm_remove returns, leaves a consistent state and starts only what it sets running, exactly off
  // those calls; and there it does what is intended.
  lemma RemoveExact(s: State, tid: nat, now: int)
    requires Linked(s) && Inv(s)
    ensures var o := RemoveAsWritten(s, tid, now);
            && (o.Done? && Inv(o.state) && StartsAgree(s, o.state) <==> !Mishandled(s, tid))
            && (!Mishandled(s, tid) ==> o == Done(Remove(s, tid, now)))
  {
    hide StartsAgree, Base, Slots, QueueJustified, UploadsDistinct, CancelledIdle;
    if Mishandled(s, tid) {
      if BehindHead(s, tid) {
        RemoveBehindHeadDangles(s, tid, now);
      } else if CancelRace(s, tid) {
        if tid in s.queue && s.queue[0] == tid {
          RemoveFrontStarts(s, tid, now);
        } else {
          RemoveRaceDangles(s, tid, now);
        }
      } else {
        RemoveQueuedStuck(s, tid, now);
      }
    } else {
      RemoveKeeps(s, tid, now);
      RemoveStarts(s, tid, now);
      RemoveAgrees(s, tid, now);
    }
  }

  lemma RemoveQueuedStuck(s: State, tid: nat, now: int)
    requires Inv(s) && tid in s.table && tid in s.live && tid in s.queue && s.live[tid].thread == None && |s.queue| > 1
    ensures RemoveAsWritten(s, tid, now).Stuck?
  {
    var i :| 0 <= i < |s.queue| && s.queue[i] == tid;
    assert s.live[s.queue[i]].position == i + 1;
  }

  // The first in the queue, registered, is cancelled: it gets its own slot, is started, and is then
  // destroyed.
  lemma RemoveFrontStarts(s: State, tid: nat, now: int)
    requires Linked(s) && Inv(s) && CancelRace(s, tid) && tid in s.queue && s.queue[0] == tid
    ensures var o := RemoveAsWritten(s, tid, now);
            && o.Done? && tid !in o.state.live && |s.log| <= |o.state.log|
            && StartEvent(s.live[tid]) in o.state.log[|s.log|..] && !StartsAgree(s, o.state)
  {
    var s0 := s.(table := s.table - {tid});
    PromoteLog(s0, now);
    hide Promote, Slots, QueueJustified, UploadsDistinct, CancelledIdle, RestAgrees, SequesterAgrees, StartsOf;
    var s1 := Promote(s0, now);
    var s2 := Destroy(s1, tid);
    var at := |s1.log| - 1;
    assert s1.log[at] == StartEvent(s.live[tid]) && s1.log <= s2.log;
    assert s2.log[at] == StartEvent(s.live[tid]) && s2.log[|s.log|..][at - |s.log|] == s2.log[at];
    assert !Rightful(s2.log[at], s2.live);
  }

  lemma RemoveAgrees(s: State, tid: nat, now: int)
    requires Linked(s) && Inv(s) && !Mishandled(s, tid)
    ensures RemoveAsWritten(s, tid, now) == Done(Remove(s, tid, now))
  {
    if tid in s.table && s.live[tid].thread == None {
      if Queued(s.live[tid]) {
        assert s.queue == [tid];
        assert Without([tid], tid) == [];
        assert s.queue[1..] == [];
        assert MoveUp(s.live, []) == s.live;
        assert s.log + Notices(s.live, []) == s.log;
      } else {
        assert tid in s.sequester;
      }
    }
  }

  // A destroyed transfer that is still on a list leaves a dangling entry.
  lemma DestroyListedDangles(s: State, tid: nat)
    requires tid in s.live && (tid in s.sequester || tid in s.queue)
    ensures !Linked(Destroy(s, tid))
  {
  }

  lemma RemoveBehindHeadDangles(s: State, tid: nat, now: int)
    requires Linked(s) && Inv(s) && BehindHead(s, tid)
    ensures var o := RemoveAsWritten(s, tid, now); o.Done? && !Linked(o.state)
  {
    var s0 := s.(table := s.table - {tid});
    var c := StopOn(s.sequester, tid);
    if c + 1 < |s.sequester| {
      CutKeeps(s.sequester, tid);
      var s1 := s0.(sequester := CutAfter(s.sequester, c));
      ReleaseAppends(s1, s.live[tid].kind, now, tid);
      DestroyListedDangles(ReleaseSlot(s1, s.live[tid].kind, now), tid);
    } else {
      DestroyListedDangles(s0, tid);
    }
  }

  lemma RemoveRaceDangles(s: State, tid: nat, now: int)
    requires Linked(s) && Inv(s) && CancelRace(s, tid) && !(tid in s.queue && s.queue[0] == tid)
    ensures var o := RemoveAsWritten(s, tid, now); o.Done? && !Linked(o.state)
  {
    var s0 := s.(table := s.table - {tid});
    ReleaseAppends(s0, s.live[tid].kind, now, tid);
    DestroyListedDangles(ReleaseSlot(s0, s.live[tid].kind, now), tid);
  }

  // ReleaseSlot takes nothing off the sequester list, and only its head off the queue.
  lemma ReleaseAppends(s: State, kind: Kind, now: int, tid: nat)
    requires (forall id :: id in s.queue ==> id in s.live) && tid in s.live
    ensures var s' := ReleaseSlot(s, kind, now);
            && tid in s'.live
            && (tid in s.sequester ==> tid in s'.sequester)
            && (tid in s.queue && s.queue[0] != tid ==> tid in s'.queue)
  {
  }
}
