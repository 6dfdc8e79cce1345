/** The hand-off of control connections between the main loop and the helper threads. The main loop
    owns a descriptor from its delivery to the message it sends; a helper owns it from that message
    until it puts it back into the poll table or closes it. Every step is one operation of one
    thread; the poll table behaves as PollRound says. */
module HandOff {
  import opened Wrappers
  import opened PollRound

  datatype Message = ControlConnect(fd: int) | DataConnect | Transaction(fd: int)

  // A helper taken from the pool: the message is in its mailbox, or being handled. Stray: the
  // handshake failed, cm_remove has closed fd and the handler will close it once more.
  datatype Helper = Mailed(msg: Message) | Working(msg: Message) | Stray(fd: int) | Done

  // ch_main, between its calls.
  datatype Main = Polling | Accepting | AcceptingData | Picked(fd: int) | Sending(msg: Message)

  // `helpers` holds the threads outside the pool. `open` holds the open control descriptors.
  datatype State = State(table: Round, main: Main, helpers: map<nat, Helper>, open: set<int>,
                         control: int, data: int)

  datatype Op =
    | Poll(report: Report)   // multiplexer_poll in ch_main
    | Accept(fd: int)        // listener_accept gives a descriptor that is not open
    | AcceptData             // the same on the data port
    | AcceptFails
    | Take                   // multiplexer_remove in ch_main
    | Send(h: nat)           // tm_get_thread and mqueue_send
    | Receive(h: nat)        // mqueue_recv
    | PutBack(h: nat)        // multiplexer_add at the end of a handler
    | Disconnect(h: nat)     // the transaction handler fails: cm_remove closes the descriptor
    | Reject(h: nat)         // the handshake fails: cm_remove closes the descriptor
    | CloseAgain(h: nat)     // and the handler closes it a second time
    | FinishData(h: nat)     // the data handler ends
    | Return(h: nat)         // tm_return_thread

  predicate Carries(m: Message, fd: int) {
    !m.DataConnect? && m.fd == fd
  }

  function Fds(t: seq<Entry>): (fds: seq<int>)
    ensures |fds| == |t|
    ensures forall i :: 0 <= i < |t| ==> fds[i] == t[i].fd
  {
    seq(|t|, i requires 0 <= i < |t| => t[i].fd)
  }

  predicate InTable(s: State, fd: int) {
    fd in Fds(Table(s.table))
  }

  predicate MainHolds(s: State, fd: int) {
    s.main.Sending? && Carries(s.main.msg, fd)
  }

  predicate HelperHolds(s: State, h: nat, fd: int) {
    h in s.helpers && (s.helpers[h].Mailed? || s.helpers[h].Working?) && Carries(s.helpers[h].msg, fd)
  }

  ghost predicate SomeHelperHolds(s: State, fd: int) {
    exists h :: HelperHolds(s, h, fd)
  }

  predicate Handles(s: State, h: nat, connect: bool) {
    h in s.helpers && s.helpers[h].Working?
    && (if connect then s.helpers[h].msg.ControlConnect? else s.helpers[h].msg.Transaction?)
  }

  predicate Enabled(s: State, op: Op) {
    match op
    case Poll(report) => s.main.Polling? && (report.Report? ==> |report.revents| == |Table(s.table)|)
    case Accept(fd) => s.main.Accepting? && fd !in s.open && fd != s.control && fd != s.data
    case AcceptData => s.main.AcceptingData?
    case AcceptFails => s.main.Accepting? || s.main.AcceptingData?
    case Take => s.main.Picked?
    case Send(h) => s.main.Sending? && h !in s.helpers
    case Receive(h) => h in s.helpers && s.helpers[h].Mailed?
    case PutBack(h) => Handles(s, h, true) || Handles(s, h, false)
    case Disconnect(h) => Handles(s, h, false)
    case Reject(h) => Handles(s, h, true)
    case CloseAgain(h) => h in s.helpers && s.helpers[h].Stray?
    case FinishData(h) => h in s.helpers && s.helpers[h].Working? && s.helpers[h].msg.DataConnect?
    case Return(h) => h in s.helpers && s.helpers[h].Done?
  }

  function Dispatch(s: State, entry: Option<Entry>): Main {
    match entry
    case None => Polling
    case Some(e) =>
      if e.fd == s.control then Accepting
      else if e.fd == s.data then AcceptingData
      else Picked(e.fd)
  }

  function Step(s: State, op: Op): State
    requires Enabled(s, op)
  {
    match op
    case Poll(report) =>
      var d := PollRound.Poll(s.table, report);
      s.(table := d.round, main := Dispatch(s, d.entry))
    case Accept(fd) => s.(open := s.open + {fd}, main := Sending(ControlConnect(fd)))
    case AcceptData => s.(main := Sending(DataConnect))
    case AcceptFails => s.(main := Polling)
    case Take => s.(table := PollRound.Remove(s.table, s.main.fd), main := Sending(Transaction(s.main.fd)))
    case Send(h) => s.(helpers := s.helpers[h := Mailed(s.main.msg)], main := Polling)
    case Receive(h) => s.(helpers := s.helpers[h := Working(s.helpers[h].msg)])
    case PutBack(h) =>
      s.(table := PollRound.Add(s.table, s.helpers[h].msg.fd, POLLIN), helpers := s.helpers[h := Done])
    case Disconnect(h) => s.(open := s.open - {s.helpers[h].msg.fd}, helpers := s.helpers[h := Done])
    case Reject(h) =>
      s.(open := s.open - {s.helpers[h].msg.fd}, helpers := s.helpers[h := Stray(s.helpers[h].msg.fd)])
    case CloseAgain(h) => s.(open := s.open - {s.helpers[h].fd}, helpers := s.helpers[h := Done])
    case FinishData(h) => s.(helpers := s.helpers[h := Done])
    case Return(h) => s.(helpers := s.helpers - {h})
  }

  ghost predicate Distinct(fds: seq<int>) {
    forall i, j :: 0 <= i < j < |fds| ==> fds[i] != fds[j]
  }

  // The listening sockets stay in the table; any other entry is an open connection, there once.
  ghost predicate TableInv(s: State) {
    && Distinct(Fds(Table(s.table)))
    && s.control != s.data && s.control !in s.open && s.data !in s.open
    && InTable(s, s.control) && InTable(s, s.data)
    && (forall fd :: InTable(s, fd) ==> fd in s.open || fd == s.control || fd == s.data)
    && (s.main.Picked? ==> InTable(s, s.main.fd) && s.main.fd in s.open)
  }

  // No descriptor is in two places, and none that is closed is anywhere.
  ghost predicate Single(s: State) {
    && (forall fd :: MainHolds(s, fd) ==> fd in s.open && !InTable(s, fd))
    && (forall h, fd :: HelperHolds(s, h, fd) ==> fd in s.open && !InTable(s, fd) && !MainHolds(s, fd))
    && (forall h, k, fd :: HelperHolds(s, h, fd) && HelperHolds(s, k, fd) ==> h == k)
  }

  // No open descriptor is lost.
  ghost predicate Kept(s: State) {
    forall fd :: fd in s.open ==> InTable(s, fd) || MainHolds(s, fd) || SomeHelperHolds(s, fd)
  }

  ghost predicate Inv(s: State) {
    TableInv(s) && Single(s) && Kept(s)
  }

  // ---- what the table operations do to the descriptors ----

  lemma {:induction false} ScanKeepsFds(r: Round)
    ensures var d := Scan(r);
            && Fds(Table(d.round)) == Fds(Table(r))
            && (d.entry.Some? ==> d.entry.value.fd in Fds(Table(r)))
    decreases |r.after|
  {
    if r.after != [] && r.left != 0 {
      var next := r.(before := r.before + [r.after[0]], after := r.after[1..]);
      assert Table(next) == Table(r);
      assert Table(r)[|r.before|] == r.after[0];
      assert Fds(Table(r))[|r.before|] == r.after[0].fd;
      if r.after[0].revents == 0 { ScanKeepsFds(next); }
    }
  }

  lemma PollKeepsFds(r: Round, p: Report)
    requires p.Report? ==> |p.revents| == |Table(r)|
    ensures var d := PollRound.Poll(r, p);
            && Fds(Table(d.round)) == Fds(Table(r))
            && (d.entry.Some? ==> d.entry.value.fd in Fds(Table(r)))
  {
    hide Scan, StartRound, Fds, Table;
    if !r.open { StartKeepsFds(r, p); }
    ScanKeepsFds(if r.open then r else StartRound(r, p));
  }

  lemma StartKeepsFds(r: Round, p: Report)
    requires p.Report? ==> |p.revents| == |Table(r)|
    ensures Fds(Table(StartRound(r, p))) == Fds(Table(r))
  {
    hide Ready;
    assert Table(StartRound(r, p)) == Marked(Table(r), p);
  }

  lemma AddFds(r: Round, fd: int)
    requires fd !in Fds(Table(r)) && Distinct(Fds(Table(r)))
    ensures var fds := Fds(Table(PollRound.Add(r, fd, POLLIN)));
            Distinct(fds) && (forall x :: x in fds <==> x in Fds(Table(r)) || x == fd)
  {
    assert Table(PollRound.Add(r, fd, POLLIN)) == Table(r) + [Entry(fd, POLLIN, 0)];
    var fds := Fds(Table(PollRound.Add(r, fd, POLLIN)));
    assert fds == Fds(Table(r)) + [fd];
  }

  lemma CutDistinct(was: seq<int>, i: nat, fds: seq<int>)
    requires Distinct(was) && i < |was| && fds == was[..i] + was[i + 1..]
    ensures Distinct(fds) && (forall x :: x in fds <==> x in was && x != was[i])
  {
    assert was == was[..i] + ([was[i]] + was[i + 1..]);
  }

  lemma RemoveTable(r: Round, i: nat)
    requires i < |Table(r)|
    ensures Table(Deleted(r, i)) == Cut(Table(r), i)
  {
  }

  lemma RemoveFds(r: Round, fd: int)
    requires fd in Fds(Table(r)) && Distinct(Fds(Table(r)))
    ensures var fds := Fds(Table(PollRound.Remove(r, fd)));
            Distinct(fds) && (forall x :: x in fds <==> x in Fds(Table(r)) && x != fd)
  {
    var t := Table(r);
    var i := Find(t, fd);
    assert i < |t|;
    RemoveTable(r, i);
    hide Deleted, Find, Table;
    assert Fds(Cut(t, i)) == Fds(t)[..i] + Fds(t)[i + 1..];
    CutDistinct(Fds(t), i, Fds(Cut(t, i)));
  }

  // ---- every step keeps the invariant ----

  lemma PollKeeps(s: State, p: Report)
    requires Inv(s) && Enabled(s, Op.Poll(p))
    ensures Inv(Step(s, Op.Poll(p)))
  {
    var s' := Step(s, Op.Poll(p));
    PollKeepsFds(s.table, p);
    hide PollRound.Poll, Fds;
    assert forall fd :: InTable(s', fd) <==> InTable(s, fd);
    assert forall h, fd :: HelperHolds(s', h, fd) <==> HelperHolds(s, h, fd);
    SameHelpers(s, s');
  }

  lemma SameHelpers(s: State, s': State)
    requires s.helpers == s'.helpers
    ensures forall fd :: SomeHelperHolds(s, fd) <==> SomeHelperHolds(s', fd)
  {
    forall fd ensures SomeHelperHolds(s, fd) <==> SomeHelperHolds(s', fd) {
      if SomeHelperHolds(s, fd) { var h :| HelperHolds(s, h, fd); assert HelperHolds(s', h, fd); }
      if SomeHelperHolds(s', fd) { var h :| HelperHolds(s', h, fd); assert HelperHolds(s, h, fd); }
    }
  }

  lemma AcceptKeeps(s: State, op: Op)
    requires op.Accept? || op.AcceptData? || op.AcceptFails?
    requires Inv(s) && Enabled(s, op)
    ensures Inv(Step(s, op))
  {
    var s' := Step(s, op);
    hide Fds;
    SameHelpers(s, s');
    assert forall h, fd :: HelperHolds(s', h, fd) <==> HelperHolds(s, h, fd);
  }

  lemma TakeKeeps(s: State)
    requires Inv(s) && Enabled(s, Take)
    ensures Inv(Step(s, Take))
  {
    var s' := Step(s, Take);
    RemoveFds(s.table, s.main.fd);
    hide Fds, PollRound.Remove;
    SameHelpers(s, s');
    assert forall h, fd :: HelperHolds(s', h, fd) <==> HelperHolds(s, h, fd);
  }

  lemma SendKeeps(s: State, h: nat)
    requires Inv(s) && Enabled(s, Send(h))
    ensures Inv(Step(s, Send(h)))
  {
    var s' := Step(s, Send(h));
    hide Fds;
    assert forall k, fd :: HelperHolds(s', k, fd) <==> if k == h then MainHolds(s, fd) else HelperHolds(s, k, fd);
    forall fd | fd in s.open ensures InTable(s', fd) || MainHolds(s', fd) || SomeHelperHolds(s', fd) {
      if MainHolds(s, fd) {
        assert HelperHolds(s', h, fd);
      } else if SomeHelperHolds(s, fd) {
        var k :| HelperHolds(s, k, fd);
        assert HelperHolds(s', k, fd);
      }
    }
  }

  // Steps that leave everything where it is.
  lemma StayingKeeps(s: State, s': State)
    requires Inv(s)
    requires s'.table == s.table && s'.main == s.main && s'.open == s.open
    requires s'.control == s.control && s'.data == s.data
    requires forall k, fd :: HelperHolds(s', k, fd) <==> HelperHolds(s, k, fd)
    ensures Inv(s')
  {
    hide Fds, HelperHolds, InTable, MainHolds, Distinct, SomeHelperHolds;
    assert forall fd :: InTable(s', fd) == InTable(s, fd) && MainHolds(s', fd) == MainHolds(s, fd) by { SamePlaces(s, s'); }
    forall fd | SomeHelperHolds(s, fd) ensures SomeHelperHolds(s', fd) { StillHeld(s, s', fd); }
  }

  lemma SamePlaces(s: State, s': State)
    requires s'.table == s.table && s'.main == s.main
    ensures forall fd :: InTable(s', fd) == InTable(s, fd) && MainHolds(s', fd) == MainHolds(s, fd)
  {
  }

  lemma StillHeld(s: State, s': State, fd: int)
    requires SomeHelperHolds(s, fd)
    requires forall k :: HelperHolds(s, k, fd) ==> HelperHolds(s', k, fd)
    ensures SomeHelperHolds(s', fd)
  {
    hide HelperHolds;
    var k :| HelperHolds(s, k, fd);
    assert HelperHolds(s', k, fd);
  }

  lemma HelperKeeps(s: State, h: nat, op: Op)
    requires op == Receive(h) || op == FinishData(h) || op == Return(h)
    requires Enabled(s, op) && Inv(s)
    ensures Inv(Step(s, op))
  {
    hide TableInv, Single, Kept;
    StayingKeeps(s, Step(s, op));
  }

  // A helper gives the descriptor it holds back to the table.
  lemma ReturningKeeps(s: State, s': State, h: nat, back: int)
    requires HelperHolds(s, h, back) && Inv(s)
    requires s'.main == s.main && s'.open == s.open && s'.control == s.control && s'.data == s.data
    requires Distinct(Fds(Table(s'.table))) && forall fd :: InTable(s', fd) <==> InTable(s, fd) || fd == back
    requires forall k, fd :: HelperHolds(s', k, fd) <==> k != h && HelperHolds(s, k, fd)
    requires forall fd :: HelperHolds(s, h, fd) ==> fd == back
    ensures Inv(s')
  {
    hide Fds, HelperHolds, Distinct, InTable;
    forall fd | fd in s.open ensures InTable(s', fd) || MainHolds(s', fd) || SomeHelperHolds(s', fd) {
      if SomeHelperHolds(s, fd) && fd != back {
        var k :| HelperHolds(s, k, fd);
        assert HelperHolds(s', k, fd);
      }
    }
  }

  lemma PutBackKeeps(s: State, h: nat)
    requires Enabled(s, PutBack(h)) && Inv(s)
    ensures Inv(Step(s, PutBack(h)))
  {
    hide Fds, PollRound.Add, Distinct, Kept;
    var back := s.helpers[h].msg.fd;
    assert HelperHolds(s, h, back);
    AddFds(s.table, back);
    ReturningKeeps(s, Step(s, PutBack(h)), h, back);
  }

  // A helper gives up the descriptor it holds, and the descriptor is closed.
  lemma ClosingKeeps(s: State, s': State, h: nat, gone: int)
    requires HelperHolds(s, h, gone) && Inv(s)
    requires s'.table == s.table && s'.main == s.main && s'.open == s.open - {gone}
    requires s'.control == s.control && s'.data == s.data
    requires forall k, fd :: HelperHolds(s', k, fd) <==> k != h && HelperHolds(s, k, fd)
    requires forall fd :: HelperHolds(s, h, fd) ==> fd == gone
    ensures Inv(s')
  {
    hide Fds, HelperHolds, InTable, MainHolds, Distinct;
    SamePlaces(s, s');
    forall fd | fd in s'.open ensures InTable(s', fd) || MainHolds(s', fd) || SomeHelperHolds(s', fd) {
      if SomeHelperHolds(s, fd) {
        var k :| HelperHolds(s, k, fd);
        assert HelperHolds(s', k, fd);
      }
    }
  }

  lemma CloseKeeps(s: State, h: nat, op: Op)
    requires op == Disconnect(h) || op == Reject(h)
    requires Enabled(s, op) && Inv(s)
    ensures Inv(Step(s, op))
  {
    hide TableInv, Single, Kept;
    ClosingKeeps(s, Step(s, op), h, s.helpers[h].msg.fd);
  }

  // The second close of a failed handshake does no harm exactly when the number has not been
  // given to a new connection in between.
  lemma CloseAgainExact(s: State, h: nat)
    requires Inv(s) && Enabled(s, CloseAgain(h))
    ensures Inv(Step(s, CloseAgain(h))) <==> s.helpers[h].fd !in s.open
  {
    var s' := Step(s, CloseAgain(h));
    var fd := s.helpers[h].fd;
    hide Fds;
    assert forall k, x :: HelperHolds(s', k, x) <==> HelperHolds(s, k, x);
    if fd in s.open {
      assert InTable(s', fd) || MainHolds(s', fd) || SomeHelperHolds(s', fd) by {
        if SomeHelperHolds(s, fd) {
          var k :| HelperHolds(s, k, fd);
          assert HelperHolds(s', k, fd);
        }
      }
      assert !Inv(s');
    } else {
      assert s'.open == s.open;
      StayingKeeps(s, s');
    }
  }

  // ---- runs ----

  predicate Clean(s: State, op: Op) {
    op.CloseAgain? && op.h in s.helpers && s.helpers[op.h].Stray? ==> s.helpers[op.h].fd !in s.open
  }

  lemma StepKeeps(s: State, op: Op)
    requires Inv(s) && Enabled(s, op) && Clean(s, op)
    ensures Inv(Step(s, op))
  {
    hide TableInv, Single, Kept, Step;
    match op
    case Poll(p) => PollKeeps(s, p);
    case Accept(_) => AcceptKeeps(s, op);
    case AcceptData => AcceptKeeps(s, op);
    case AcceptFails => AcceptKeeps(s, op);
    case Take => TakeKeeps(s);
    case Send(h) => SendKeeps(s, h);
    case Receive(h) => HelperKeeps(s, h, op);
    case PutBack(h) => PutBackKeeps(s, h);
    case Disconnect(h) => CloseKeeps(s, h, op);
    case Reject(h) => CloseKeeps(s, h, op);
    case CloseAgain(h) => CloseAgainExact(s, h);
    case FinishData(h) => HelperKeeps(s, h, op);
    case Return(h) => HelperKeeps(s, h, op);
  }

  ghost predicate IsRun(s: State, ops: seq<Op>)
    decreases |ops|
  {
    ops == [] || (Enabled(s, ops[0]) && Clean(s, ops[0]) && IsRun(Step(s, ops[0]), ops[1..]))
  }

  ghost function After(s: State, ops: seq<Op>): State
    requires IsRun(s, ops)
    decreases |ops|
  {
    if ops == [] then s else After(Step(s, ops[0]), ops[1..])
  }

  // ch_init: both listening sockets in the table, no connection yet.
  function Boot(control: int, data: int): State {
    State(Round([], [Entry(control, POLLIN, 0), Entry(data, POLLIN, 0)], false, 0), Polling, map[], {},
          control, data)
  }

  lemma BootInv(control: int, data: int)
    requires control != data
    ensures Inv(Boot(control, data))
  {
    var s := Boot(control, data);
    assert Fds(Table(s.table)) == [control, data];
  }

  lemma {:induction false} RunKeepsInv(s: State, ops: seq<Op>)
    requires Inv(s) && IsRun(s, ops)
    ensures Inv(After(s, ops))
    decreases |ops|
  {
    hide TableInv, Single, Kept, Enabled, Step;
    if ops != [] {
      StepKeeps(s, ops[0]);
      RunKeepsInv(Step(s, ops[0]), ops[1..]);
    }
  }

  ghost predicate OneOf(a: bool, b: bool, c: bool) {
    (a || b || c) && !(a && b) && !(a && c) && !(b && c)
  }

  // Over every run: an open control connection is in exactly one of three places, in the table at
  // most once, and two helpers never have the same connection, so no two transactions of one
  // connection are handled at once. What the main loop picks is still in the table to be removed.
  lemma SingleOwner(control: int, data: int, ops: seq<Op>)
    requires control != data && IsRun(Boot(control, data), ops)
    ensures var s := After(Boot(control, data), ops);
            && (forall fd :: fd in s.open ==> OneOf(InTable(s, fd), MainHolds(s, fd), SomeHelperHolds(s, fd)))
            && Distinct(Fds(Table(s.table)))
            && (forall h, k, fd :: HelperHolds(s, h, fd) && HelperHolds(s, k, fd) ==> h == k)
            && (forall h, fd :: HelperHolds(s, h, fd) ==> fd in s.open)
            && (s.main.Picked? ==> InTable(s, s.main.fd) && s.main.fd in s.open)
  {
    BootInv(control, data);
    RunKeepsInv(Boot(control, data), ops);
    hide Fds, IsRun, After;
  }

  // ---- a second close that hits a new connection ----

  lemma {:induction false} RunOneMore(s: State, ops: seq<Op>, op: Op)
    requires IsRun(s, ops) && Enabled(After(s, ops), op) && Clean(After(s, ops), op)
    ensures IsRun(s, ops + [op]) && After(s, ops + [op]) == Step(After(s, ops), op)
    decreases |ops|
  {
    hide Enabled, Step, Clean;
    var more := ops + [op];
    if ops == [] {
      assert more[1..] == [];
      assert IsRun(Step(s, more[0]), more[1..]);
    } else {
      assert more[0] == ops[0] && more[1..] == ops[1..] + [op];
      RunOneMore(Step(s, ops[0]), ops[1..], op);
    }
  }

  ghost predicate Reachable(s: State, control: int, data: int) {
    exists ops :: IsRun(Boot(control, data), ops) && After(Boot(control, data), ops) == s
  }

  lemma Reach(s: State, op: Op, control: int, data: int)
    requires Reachable(s, control, data) && Enabled(s, op) && Clean(s, op)
    ensures Reachable(Step(s, op), control, data)
  {
    hide Enabled, Step, Clean, IsRun, After;
    var ops :| IsRun(Boot(control, data), ops) && After(Boot(control, data), ops) == s;
    RunOneMore(Boot(control, data), ops, op);
  }

  lemma ReachBoot(control: int, data: int)
    ensures Reachable(Boot(control, data), control, data)
  {
    assert IsRun(Boot(control, data), []) && After(Boot(control, data), []) == Boot(control, data);
  }

  // Only the listening sockets 3 and 4 in the table, and no round open.
  predicate TwoPorts(s: State) {
    && !s.table.open && |Table(s.table)| == 2 && Table(s.table)[0].fd == 3 && Table(s.table)[1].fd == 4
    && s.control == 3 && s.data == 4
  }

  lemma ControlReady(s: State)
    requires TwoPorts(s) && s.main.Polling?
    ensures Enabled(s, Op.Poll(Report([1, 0])))
    ensures var s' := Step(s, Op.Poll(Report([1, 0])));
            TwoPorts(s') && s' == s.(table := s'.table, main := Accepting)
  {
    var r := StartRound(s.table, Report([1, 0]));
    var a, b := r.after[0], r.after[1];
    assert r.after == [a, b] && a.revents == 1 && b.revents == 0 && a.fd == 3 && b.fd == 4;
    assert [a, b][1..] == [b] && [b][1..] == [];
    assert Ready([b]) == [] && Ready([a, b]) == [a] + Ready([b]);
    assert r.left == 1;
    assert Scan(r) == Delivery(Round([] + [a], [b], false, 0), Some(a));
  }

  // The number of a descriptor that a helper is about to close again belongs to a new connection,
  // which that close takes away from the main loop.
  predicate Reused(s: State) {
    && 0 in s.helpers && s.helpers[0] == Stray(5) && 5 in s.open && MainHolds(s, 5)
    && var s' := Step(s, CloseAgain(0)); 5 !in s'.open && MainHolds(s', 5)
  }

  // The control port is ready, and a connection is accepted on it as descriptor 5.
  lemma Connects(s: State) returns (s': State)
    requires Reachable(s, 3, 4) && TwoPorts(s) && s.main.Polling? && 5 !in s.open
    ensures Reachable(s', 3, 4) && TwoPorts(s')
    ensures s' == s.(table := s'.table, main := Sending(ControlConnect(5)), open := s.open + {5})
  {
    hide Reachable, TwoPorts, PollRound.Poll;
    var ready := Op.Poll(Report([1, 0]));
    ControlReady(s);
    Reach(s, ready, 3, 4);
    var s1 := Step(s, ready);
    PortsOf(s1);
    Reach(s1, Accept(5), 3, 4);
    s' := Step(s1, Accept(5));
    SamePorts(s1, s');
  }

  // Its helper finds that the handshake fails, and closes it.
  lemma Fails(s: State) returns (s': State)
    requires Reachable(s, 3, 4) && TwoPorts(s) && s.main == Sending(ControlConnect(5)) && 0 !in s.helpers
    ensures Reachable(s', 3, 4) && TwoPorts(s')
    ensures s' == s.(main := Polling, helpers := s.helpers[0 := Stray(5)], open := s.open - {5})
  {
    hide Reachable, TwoPorts;
    Reach(s, Send(0), 3, 4);
    var s1 := Step(s, Send(0));
    Reach(s1, Receive(0), 3, 4);
    var s2 := Step(s1, Receive(0));
    Reach(s2, Reject(0), 3, 4);
    s' := Step(s2, Reject(0));
    SamePorts(s, s');
    assert s'.helpers == s.helpers[0 := Stray(5)];
  }

  // Descriptor 5 is accepted, fails its handshake and is closed; a new connection gets the number
  // before the handler closes it again.
  lemma CloseAgainWitness()
    ensures exists s :: Reachable(s, 3, 4) && Reused(s)
  {
    hide Reachable, TwoPorts, Boot;
    ReachBoot(3, 4);
    BootPorts();
    var s1 := Connects(Boot(3, 4));
    var s2 := Fails(s1);
    var s3 := Connects(s2);
    assert Reused(s3);
  }

  lemma PortsOf(s: State)
    requires TwoPorts(s)
    ensures s.control == 3 && s.data == 4
  {
  }

  lemma BootPorts()
    ensures TwoPorts(Boot(3, 4)) && Boot(3, 4).main == Polling && Boot(3, 4).helpers == map[] && Boot(3, 4).open == {}
  {
  }

  lemma SamePorts(s: State, s': State)
    requires TwoPorts(s) && s'.table == s.table && s'.control == s.control && s'.data == s.data
    ensures TwoPorts(s')
  {
  }
}
