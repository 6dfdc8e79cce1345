/** What exactly the misled calls of tfm_register and tfm_remove do, entry by entry: the other side of
    the conditions under which the code does what it is meant to. */
module TransferMisled {
  import opened Wrappers
  import opened TransferSpec
  import opened TransferInvariant
  import Idm

  // Where the search stops.
  lemma {:induction false} StopsAt(ids: seq<nat>, i: nat)
    requires NoRepeat(ids) && i < |ids|
    ensures StopOn(ids, ids[i]) == i
  {
    if i > 0 {
      assert ids[0] != ids[i];
      StopsAt(ids[1..], i - 1);
    }
  }

  // A transfer behind the head whose data connection comes is attached. The last on the list is then
  // refused and stays there. Any other is started and stays there, and the one after it is taken off
  // instead: still known, it neither runs nor waits.
  lemma RegisterMisled(s: State, i: nat, fd: int, ip: int, thread: int, ips: map<int, int>)
    requires Linked(s) && Inv(s) && 0 < i < |s.sequester|
    requires s.sequester[i] in s.live && s.live[s.sequester[i]].uid in ips && ips[s.live[s.sequester[i]].uid] == ip
    ensures var tid, x := s.sequester[i], s.live[s.sequester[i]];
            var w := RegisterAsWritten(s, tid, fd, ip, thread, ips);
            var attached := s.(live := s.live[tid := x.(fd := fd, thread := Some(thread))]);
            if i == |s.sequester| - 1 then w == Reply(attached, -1)
            else
              && w == Reply(attached.(sequester := s.sequester[..i + 1] + s.sequester[i + 2..],
                                      log := s.log + [Start(tid, thread, x.kind, x.filename, x.mode, x.offset)]), 0)
              && var lost := s.sequester[i + 1];
                 && lost in w.state.table && lost in w.state.live && w.state.live[lost].thread == None
                 && lost !in w.state.sequester && lost !in w.state.queue
  {
    hide QueueAgrees, RestAgrees, Slots, QueueJustified, UploadsDistinct, CancelledIdle, StopOn;
    StopsAt(s.sequester, i);
  }

  // A slot of that kind was given up, or went to the first download in the queue.
  predicate SlotPassed(s: State, s': State, kind: Kind) {
    if kind.Upload? then s'.activeUp == s.activeUp - 1 && s'.activeDown == s.activeDown && s'.queue == s.queue
    else
      && s'.activeUp == s.activeUp
      && if s.queue == [] then s'.activeDown == s.activeDown - 1 && s'.queue == []
         else s'.activeDown == s.activeDown && s'.queue == s.queue[1..]
  }

  // Cancelling it instead destroys it where it stands: the list keeps its entry. The last one's slot
  // is never given back; any other's is, and the entry after it is taken off in its place.
  lemma RemoveMisled(s: State, i: nat, now: int)
    requires Linked(s) && Inv(s) && 0 < i < |s.sequester|
    ensures var tid := s.sequester[i];
            var o := RemoveAsWritten(s, tid, now);
            && o.Done? && tid in s.live && tid !in o.state.live && tid !in o.state.table
            && tid in o.state.sequester && o.state.free == Idm.Returned(s.free, tid)
            && if i == |s.sequester| - 1 then
                 && o.state.sequester == s.sequester && o.state.queue == s.queue
                 && o.state.activeDown == s.activeDown && o.state.activeUp == s.activeUp
               else
                 && s.sequester[..i + 1] + s.sequester[i + 2..] <= o.state.sequester
                 && SlotPassed(s, o.state, s.live[tid].kind)
                 && var lost := s.sequester[i + 1];
                    lost in o.state.table && lost in o.state.live && lost !in o.state.sequester && lost !in o.state.queue
  {
    hide QueueAgrees, RestAgrees, Slots, QueueJustified, UploadsDistinct, CancelledIdle, StopOn, ReleaseSlot;
    StopsAt(s.sequester, i);
    if i < |s.sequester| - 1 {
      MisledRelease(s, i, now);
      assert CutAfter(s.sequester, i)[i] == s.sequester[i];
    }
  }

  // The slot, after the wrong entry was taken off.
  lemma MisledRelease(s: State, i: nat, now: int)
    requires Linked(s) && Inv(s) && 0 < i < |s.sequester| - 1
    ensures s.sequester[i] in s.live
    ensures var lost, x := s.sequester[i + 1], s.live[s.sequester[i]];
            var r := ReleaseSlot(s.(table := s.table - {s.sequester[i]}, sequester := CutAfter(s.sequester, i)), x.kind, now);
            && CutAfter(s.sequester, i) <= r.sequester && s.sequester[i] in r.live
            && lost in s.table && lost in r.table && lost in r.live && lost !in r.sequester && lost !in r.queue
            && SlotPassed(s, r, x.kind) && r.free == s.free && s.sequester[i] !in r.table
            && r.live[s.sequester[i]].tid == s.live[s.sequester[i]].tid
  {
    hide Slots, QueueJustified, UploadsDistinct, CancelledIdle, RestAgrees;
  }
}
