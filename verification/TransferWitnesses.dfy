/** The misled calls at states the server reaches: concrete runs from its start. */
module TransferWitnesses {
  import opened Wrappers
  import opened TransferSpec
  import opened TransferInvariant
  import opened TransferRuns
  import opened TransferStarts
  import opened TransferAsWritten
  import Idm

  // Reached from the start by calls at time 0.
  ghost predicate Reached(s: State, calls: seq<Call>) {
    && (forall i :: 0 <= i < |calls| ==> calls[i].now == 0)
    && IsRun(Boot(), 0, calls) && After(Boot(), 0, calls) == s
  }

  ghost predicate Reachable(s: State) {
    exists calls :: Reached(s, calls)
  }

  lemma {:induction false} RunOneMore(s: State, calls: seq<Call>, op: Op)
    requires (forall i :: 0 <= i < |calls| ==> calls[i].now == 0) && IsRun(s, 0, calls)
    requires Enabled(After(s, 0, calls), Call(op, 0))
    ensures IsRun(s, 0, calls + [Call(op, 0)])
    ensures After(s, 0, calls + [Call(op, 0)]) == Step(After(s, 0, calls), Call(op, 0))
    decreases |calls|
  {
    hide Enabled, Step;
    var more := calls + [Call(op, 0)];
    if calls == [] {
      assert more[1..] == [];
      assert IsRun(Step(s, more[0]), 0, more[1..]);
    } else {
      assert more[0] == calls[0] && more[1..] == calls[1..] + [Call(op, 0)];
      RunOneMore(Step(s, calls[0]), calls[1..], op);
    }
  }

  lemma Reach(s: State, op: Op)
    requires Reachable(s) && Enabled(s, Call(op, 0))
    ensures Reachable(Step(s, Call(op, 0)))
  {
    hide Enabled, Step, IsRun, After;
    var calls :| Reached(s, calls);
    RunOneMore(Boot(), calls, op);
    assert Reached(Step(s, Call(op, 0)), calls + [Call(op, 0)]);
  }

  lemma ReachBoot()
    ensures Reachable(Boot())
  {
    assert Reached(Boot(), []);
  }

  lemma ReachableInv(s: State)
    requires Reachable(s)
    ensures Inv(s)
  {
    hide Inv, IsRun, After;
    var calls :| Reached(s, calls);
    BootInv();
    RunKeepsInv(Boot(), 0, calls);
  }

  lemma ReachableLinked(s: State)
    requires Reachable(s)
    ensures Linked(s)
  {
    hide Reachable;
    ReachableInv(s);
  }

  // ---- three downloads on an idle server ----

  ghost function Ask(s: State, uid: int, filename: string): State {
    AddDownload(s, uid, filename, 0, 0, 0).state
  }

  ghost function ThreeDownloads(uid: int): State {
    Ask(Ask(Ask(Boot(), uid, "a"), uid, "b"), uid, "c")
  }

  lemma ReachAsk(s: State, uid: int, filename: string)
    requires Reachable(s)
    ensures Reachable(Ask(s, uid, filename))
  {
    ReachableInv(s);
    hide Reachable, AddDownload;
    Reach(s, DoAddDownload(uid, filename, 0, 0));
  }

  lemma ThreeDownloadsReached(uid: int)
    ensures Reachable(ThreeDownloads(uid))
  {
    hide Reachable, Ask;
    ReachBoot();
    ReachAsk(Boot(), uid, "a");
    ReachAsk(Ask(Boot(), uid, "a"), uid, "b");
    ReachAsk(Ask(Ask(Boot(), uid, "a"), uid, "b"), uid, "c");
  }

  lemma ThreeDownloadsListed(uid: int)
    ensures var s := ThreeDownloads(uid);
            && s.sequester == [1, 2, 3] && 2 in s.table && 2 in s.live && s.queue == []
            && s.live[2].uid == uid && s.live[2].thread == None && s.live[2].position == 0
            && s.live[2].kind.Download?
  {
    var s1 := Ask(Boot(), uid, "a");
    var s2 := Ask(s1, uid, "b");
    assert Idm.IsLeast(1, Boot().free) && LeastId(Boot().free) == 1;
    assert Idm.IsLeast(2, s1.free) && LeastId(s1.free) == 2;
    assert Idm.IsLeast(3, s2.free) && LeastId(s2.free) == 3;
  }

  lemma CutsOfThree()
    ensures StopOn([1, 2, 3], 2) == 1 && CutAfter([1, 2, 3], 1) == [1, 2] && Without([1, 2, 3], 2) == [1, 3]
  {
    assert [1, 2, 3][1..] == [2, 3] && [2, 3][1..] == [3];
    assert StopOn([2, 3], 2) == 0 && Without([2, 3], 2) == [3];
  }

  // tfm_register: the data connection of the second arrives first. The code starts the second and
  // unlinks the third, which from then on neither runs nor can time out.
  lemma RegisterWitness(uid: int, ip: int)
    ensures var s := ThreeDownloads(uid);
            && Reachable(s) && Linked(s) && s.sequester == [1, 2, 3]
            && RegisterAsWritten(s, 2, 7, ip, 1, map[uid := ip]).state.sequester == [1, 2]
            && Register(s, 2, 7, ip, 1, map[uid := ip]).state.sequester == [1, 3]
  {
    hide Reachable, ThreeDownloads, StopOn, CutAfter, Without;
    ThreeDownloadsReached(uid);
    ReachableLinked(ThreeDownloads(uid));
    ThreeDownloadsListed(uid);
    CutsOfThree();
  }

  // tfm_remove on the second: it is destroyed but stays on the list, and the third is unlinked.
  lemma RemoveBehindHeadWitness(uid: int)
    ensures var s := ThreeDownloads(uid);
            && Reachable(s) && Linked(s) && BehindHead(s, 2)
            && var o := RemoveAsWritten(s, 2, 0);
               && o.Done? && o.state.sequester == [1, 2] && 2 !in o.state.live
  {
    hide Reachable, ThreeDownloads, StopOn, CutAfter, Without;
    ThreeDownloadsReached(uid);
    ReachableLinked(ThreeDownloads(uid));
    ThreeDownloadsListed(uid);
    CutsOfThree();
  }

  // ---- one slot ----

  ghost function OneSlot(): State {
    Init(Boot(), true, 1, -1, 0)
  }

  lemma OneSlotReached()
    ensures Reachable(OneSlot())
    ensures OneSlot() == Boot().(queueEnable := true, maxDown := 1)
  {
    hide Reachable;
    ReachBoot();
    Reach(Boot(), DoInit(true, 1, -1));
  }

  ghost function OneWaits(uid: int): State {
    Ask(Ask(OneSlot(), uid, "a"), uid, "b")
  }

  ghost function TwoWait(uid: int): State {
    Ask(OneWaits(uid), uid, "c")
  }

  lemma WaitsReached(uid: int)
    ensures Reachable(Ask(OneSlot(), uid, "a")) && Reachable(OneWaits(uid)) && Reachable(TwoWait(uid))
  {
    hide Reachable, Ask, OneSlot;
    OneSlotReached();
    ReachAsk(OneSlot(), uid, "a");
    ReachAsk(Ask(OneSlot(), uid, "a"), uid, "b");
    ReachAsk(OneWaits(uid), uid, "c");
  }

  lemma OneAskedListed(uid: int)
    ensures var s := Ask(OneSlot(), uid, "a");
            && s.sequester == [1] && s.queue == [] && s.activeDown == 1 && s.maxDown == 1 && s.queueEnable
            && s.queueSize == 0 && s.free == Idm.Ids(1, 4097) - {1} && s.table == {1} && 1 in s.live
            && s.live[1] == NewDownload(1, uid, "a", 0, 0, 0).(deadline := DATA_CONNECT_TIMEOUT)
  {
    OneSlotReached();
    hide Reachable, OneSlot;
    assert Idm.IsLeast(1, Boot().free) && LeastId(Boot().free) == 1;
  }

  lemma WaitsListed(uid: int)
    ensures var s := OneWaits(uid);
            && s.sequester == [1] && s.queue == [2] && s.table == {1, 2} && 2 in s.live
            && s.live[2] == NewDownload(2, uid, "b", 0, 0, 1)
    ensures var s := TwoWait(uid);
            && s.queue == [2, 3] && 2 in s.table && 2 in s.live
            && s.live[2] == NewDownload(2, uid, "b", 0, 0, 1)
  {
    OneAskedListed(uid);
    hide OneSlot;
    var s1 := Ask(OneSlot(), uid, "a");
    var s2 := OneWaits(uid);
    assert Idm.IsLeast(2, s1.free) && LeastId(s1.free) == 2;
    assert Idm.IsLeast(3, s2.free) && LeastId(s2.free) == 3;
  }

  // tfm_remove on the first of two waiting downloads never returns.
  lemma RemoveStuckWitness(uid: int)
    ensures Reachable(TwoWait(uid)) && Linked(TwoWait(uid))
    ensures RemoveAsWritten(TwoWait(uid), 2, 0).Stuck?
  {
    hide Reachable, TwoWait;
    WaitsReached(uid);
    ReachableLinked(TwoWait(uid));
    WaitsListed(uid);
  }

  ghost function Connect(s: State, tid: nat, uid: int, ip: int): State
    requires Linked(s)
  {
    Register(s, tid, 7, ip, 1, map[uid := ip]).state
  }

  lemma ReachConnect(s: State, tid: nat, uid: int, ip: int)
    requires Reachable(s)
    ensures Linked(s) && Reachable(Connect(s, tid, uid, ip))
  {
    hide Reachable, Register;
    ReachableLinked(s);
    Reach(s, DoRegister(tid, 7, ip, 1, map[uid := ip]));
  }

  lemma WaitingConnected(uid: int, ip: int)
    ensures Linked(OneWaits(uid))
    ensures var s := Connect(OneWaits(uid), 2, uid, ip);
            && Reachable(s) && s.queue == [2] && 2 in s.table && 2 in s.live
            && s.live[2] == Xfer(2, uid, Download, "b", 0, 0, 1, 7, Some(1), 0)
  {
    hide Reachable, OneWaits;
    WaitsReached(uid);
    WaitsListed(uid);
    ReachConnect(OneWaits(uid), 2, uid, ip);
  }

  // tfm_remove on the only waiting download, whose data connection has already come: it is started on
  // its thread and destroyed, and its id and descriptor go back.
  lemma RemoveFrontWitness(uid: int, ip: int)
    ensures Linked(OneWaits(uid))
    ensures var s := Connect(OneWaits(uid), 2, uid, ip);
            && Reachable(s) && Linked(s) && s.queue == [2]
            && var o := RemoveAsWritten(s, 2, 0);
               && o.Done? && |s.log| <= |o.state.log| && 2 !in o.state.live
               && Start(2, 1, Download, "b", 0, 0) in o.state.log[|s.log|..]
  {
    hide Reachable, OneWaits, Connect, Inv, RemoveAsWritten, StartsAgree;
    WaitingConnected(uid, ip);
    var s := Connect(OneWaits(uid), 2, uid, ip);
    ReachableInv(s);
    ReachableLinked(s);
    RemoveFrontStarts(s, 2, 0);
  }

  // tfm_remove on a head that is registered, before the monitor thread wakes: it is destroyed and
  // stays on the list.
  lemma RemoveHeadWitness(uid: int, ip: int)
    ensures Linked(Ask(OneSlot(), uid, "a"))
    ensures var s := Connect(Ask(OneSlot(), uid, "a"), 1, uid, ip);
            && Reachable(s) && Linked(s)
            && var o := RemoveAsWritten(s, 1, 0);
               && o.Done? && o.state.sequester == [1] && 1 !in o.state.live
  {
    hide Reachable, Ask, OneSlot;
    WaitsReached(uid);
    OneAskedListed(uid);
    ReachConnect(Ask(OneSlot(), uid, "a"), 1, uid, ip);
    ReachableLinked(Connect(Ask(OneSlot(), uid, "a"), 1, uid, ip));
  }
}
