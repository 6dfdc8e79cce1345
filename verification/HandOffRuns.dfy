/** Whole hand-offs: what a connection goes through from the moment the main loop has its descriptor
    to the moment the helper is back in the pool, and what the poll table watches for over every run. */
module HandOffRuns {
  import opened PollRound
  import opened HandOff

  // ---- every entry waits for input ----

  // 1 is the bit of poll() for input.
  predicate ForInput(t: seq<Entry>) {
    forall i :: 0 <= i < |t| ==> t[i].events == 1
  }

  lemma {:induction false} ScanTable(r: Round)
    ensures Table(Scan(r).round) == Table(r)
    decreases |r.after|
  {
    ScanTakesFirst(r);
  }

  lemma PollForInput(r: Round, p: Report)
    requires (p.Report? ==> |p.revents| == |Table(r)|) && ForInput(Table(r))
    ensures ForInput(Table(PollRound.Poll(r, p).round))
  {
    hide Scan, Ready;
    ScanTable(if r.open then r else StartRound(r, p));
    if !r.open { assert Table(StartRound(r, p)) == Marked(Table(r), p); }
  }

  lemma RemoveForInput(r: Round, fd: int)
    requires ForInput(Table(r))
    ensures ForInput(Table(PollRound.Remove(r, fd)))
  {
    var i := Find(Table(r), fd);
    if i < |Table(r)| { RemoveTable(r, i); }
  }

  lemma AddForInput(r: Round, fd: int)
    requires ForInput(Table(r))
    ensures ForInput(Table(PollRound.Add(r, fd, POLLIN)))
  {
    assert Table(PollRound.Add(r, fd, POLLIN)) == Table(r) + [Entry(fd, POLLIN, 0)];
  }

  lemma StepForInput(s: State, op: Op)
    requires Enabled(s, op) && ForInput(Table(s.table))
    ensures ForInput(Table(Step(s, op).table))
  {
    hide ForInput, Table, PollRound.Poll, PollRound.Remove, PollRound.Add;
    match op
    case Poll(p) => PollForInput(s.table, p);
    case Take => RemoveForInput(s.table, s.main.fd);
    case PutBack(h) => AddForInput(s.table, s.helpers[h].msg.fd);
    case _ =>
  }

  lemma {:induction false} RunForInput(s: State, ops: seq<Op>)
    requires IsRun(s, ops) && ForInput(Table(s.table))
    ensures ForInput(Table(HandOff.After(s, ops).table))
    decreases |ops|
  {
    hide Enabled, Step, ForInput, Table;
    if ops != [] {
      StepForInput(s, ops[0]);
      RunForInput(Step(s, ops[0]), ops[1..]);
    }
  }

  // Over every run, poll() is asked for input on every descriptor it watches, and for nothing else.
  lemma WatchedForInput(control: int, data: int, ops: seq<Op>)
    requires IsRun(Boot(control, data), ops)
    ensures var t := Table(HandOff.After(Boot(control, data), ops).table);
            forall i :: 0 <= i < |t| ==> t[i].events == 1
  {
    hide IsRun, HandOff.After;
    RunForInput(Boot(control, data), ops);
  }

  // ---- what the main loop does with a ready descriptor ----

  // The loop's three ways, by the first ready entry of the round.
  lemma Dispatched(s: State, p: Report)
    requires Enabled(s, Op.Poll(p))
    ensures var r := if s.table.open then s.table else StartRound(s.table, p);
            var ready := Ready(r.after);
            var s' := Step(s, Op.Poll(p));
            && s'.helpers == s.helpers && s'.open == s.open
            && (s'.main != Polling ==> ready != [])
            && (s'.main == Accepting ==> ready[0].fd == s.control)
            && (s'.main == AcceptingData ==> ready[0].fd == s.data)
            && (forall fd :: s'.main == Picked(fd) ==> ready[0].fd == fd && fd != s.control && fd != s.data)
            && !s'.main.Sending?
            && (ready != [] && r.left > 0 && s.control != s.data ==>
                  s'.main == if ready[0].fd == s.control then Accepting
                             else if ready[0].fd == s.data then AcceptingData
                             else Picked(ready[0].fd))
  {
    var r := if s.table.open then s.table else StartRound(s.table, p);
    ScanTakesFirst(r);
    FindsReady(r);
    hide Scan, Ready, StartRound;
  }

  lemma {:induction false} FindsReady(r: Round)
    ensures Ready(r.after) != [] && r.left > 0 ==> Scan(r).entry.Some?
    decreases |r.after|
  {
    if r.after != [] && r.left != 0 && r.after[0].revents == 0 {
      FindsReady(r.(before := r.before + [r.after[0]], after := r.after[1..]));
    }
  }

  // ---- whole hand-offs ----

  // The run `ops` can be taken from s, and ends in s'.
  ghost predicate Leads(s: State, ops: seq<Op>, s': State) {
    IsRun(s, ops) && HandOff.After(s, ops) == s'
  }

  lemma Stay(s: State)
    ensures Leads(s, [], s)
  {
  }

  lemma First(s: State, op: Op, ops: seq<Op>, s': State)
    requires Enabled(s, op) && Clean(s, op) && Leads(Step(s, op), ops, s')
    ensures Leads(s, [op] + ops, s')
  {
    hide Enabled, Step, Clean;
    assert ([op] + ops)[1..] == ops;
    assert IsRun(s, [op] + ops);
  }

  // The end of every hand-off: the helper goes back to the pool.
  lemma Returned(s: State, h: nat)
    requires h in s.helpers && s.helpers[h] == Done
    ensures Leads(s, [Return(h)], s.(helpers := s.helpers - {h}))
  {
    Stay(s.(helpers := s.helpers - {h}));
    First(s, Return(h), [], s.(helpers := s.helpers - {h}));
  }

  // What the main loop sends to a free helper, the helper comes to handle.
  lemma Delivered(s: State, h: nat, ops: seq<Op>, s': State)
    requires s.main.Sending? && h !in s.helpers
    requires Leads(s.(main := Polling, helpers := s.helpers[h := Working(s.main.msg)]), ops, s')
    ensures Leads(s, [Send(h), Receive(h)] + ops, s')
  {
    hide Leads;
    var sent := Step(s, Send(h));
    assert Step(sent, Receive(h)).helpers == s.helpers[h := Working(s.main.msg)];
    First(sent, Receive(h), ops, s');
    First(s, Send(h), [Receive(h)] + ops, s');
    assert [Send(h)] + ([Receive(h)] + ops) == [Send(h), Receive(h)] + ops;
  }

  // A ready connection whose transaction succeeds: out of the table, and back behind the others.
  lemma Transacted(s: State, h: nat)
    requires s.main.Picked? && h !in s.helpers
    ensures var fd := s.main.fd;
            Leads(s, [Take, Send(h), Receive(h), PutBack(h), Return(h)],
                  s.(table := PollRound.Add(PollRound.Remove(s.table, fd), fd, 1), main := Polling))
  {
    hide Leads, PollRound.Add, PollRound.Remove;
    var fd := s.main.fd;
    var sending := Step(s, Take);
    var working := sending.(main := Polling, helpers := s.helpers[h := Working(Transaction(fd))]);
    Released(working, PutBack(h), h, s.helpers);
    Delivered(sending, h, [PutBack(h), Return(h)], Step(working, PutBack(h)).(helpers := s.helpers));
    First(s, Take, [Send(h), Receive(h)] + [PutBack(h), Return(h)], Step(working, PutBack(h)).(helpers := s.helpers));
    assert [Take] + ([Send(h), Receive(h)] + [PutBack(h), Return(h)]) == [Take, Send(h), Receive(h), PutBack(h), Return(h)];
  }

  // One whose transaction fails: out of the table, and closed.
  lemma Disconnected(s: State, h: nat)
    requires s.main.Picked? && h !in s.helpers
    ensures var fd := s.main.fd;
            Leads(s, [Take, Send(h), Receive(h), Disconnect(h), Return(h)],
                  s.(table := PollRound.Remove(s.table, fd), main := Polling, open := s.open - {fd}))
  {
    hide Leads, PollRound.Remove;
    var fd := s.main.fd;
    var sending := Step(s, Take);
    var working := sending.(main := Polling, helpers := s.helpers[h := Working(Transaction(fd))]);
    Released(working, Disconnect(h), h, s.helpers);
    Delivered(sending, h, [Disconnect(h), Return(h)], Step(working, Disconnect(h)).(helpers := s.helpers));
    First(s, Take, [Send(h), Receive(h)] + [Disconnect(h), Return(h)], Step(working, Disconnect(h)).(helpers := s.helpers));
    assert [Take] + ([Send(h), Receive(h)] + [Disconnect(h), Return(h)])
           == [Take, Send(h), Receive(h), Disconnect(h), Return(h)];
  }

  // A step that ends a helper's work, and its return to the pool.
  lemma Released(s: State, op: Op, h: nat, helpers: map<nat, Helper>)
    requires op == PutBack(h) || op == Disconnect(h) || op == FinishData(h) || op == CloseAgain(h)
    requires Enabled(s, op) && Clean(s, op)
    requires h !in helpers && s.helpers - {h} == helpers
    ensures Leads(s, [op, Return(h)], Step(s, op).(helpers := helpers))
  {
    hide Leads, PollRound.Add;
    var done := Step(s, op);
    assert done.helpers == s.helpers[h := Done];
    assert done.helpers - {h} == helpers;
    Returned(done, h);
    First(s, op, [Return(h)], done.(helpers := helpers));
    assert [op] + [Return(h)] == [op, Return(h)];
  }

  // A new connection whose handshake succeeds: open, and in the table to wait for its first input.
  lemma Connected(s: State, fd: int, h: nat)
    requires Enabled(s, Accept(fd)) && h !in s.helpers
    ensures Leads(s, [Accept(fd), Send(h), Receive(h), PutBack(h), Return(h)],
                  s.(table := PollRound.Add(s.table, fd, 1), main := Polling, open := s.open + {fd}))
  {
    hide Leads, PollRound.Add;
    var sending := Step(s, Accept(fd));
    var working := sending.(main := Polling, helpers := s.helpers[h := Working(ControlConnect(fd))]);
    Released(working, PutBack(h), h, s.helpers);
    Delivered(sending, h, [PutBack(h), Return(h)], Step(working, PutBack(h)).(helpers := s.helpers));
    First(s, Accept(fd), [Send(h), Receive(h)] + [PutBack(h), Return(h)], Step(working, PutBack(h)).(helpers := s.helpers));
    assert [Accept(fd)] + ([Send(h), Receive(h)] + [PutBack(h), Return(h)])
           == [Accept(fd), Send(h), Receive(h), PutBack(h), Return(h)];
  }

  // One whose handshake fails, with nothing in between: closed twice, and gone.
  lemma Rejected(s: State, fd: int, h: nat)
    requires Enabled(s, Accept(fd)) && h !in s.helpers
    ensures Leads(s, [Accept(fd), Send(h), Receive(h), Reject(h), CloseAgain(h), Return(h)], s.(main := Polling))
  {
    hide Leads;
    var sending := Step(s, Accept(fd));
    var working := sending.(main := Polling, helpers := s.helpers[h := Working(ControlConnect(fd))]);
    var stray := Step(working, Reject(h));
    assert stray.helpers - {h} == s.helpers && stray.open == s.open;
    Released(stray, CloseAgain(h), h, s.helpers);
    var last := Step(stray, CloseAgain(h)).(helpers := s.helpers);
    assert last == s.(main := Polling);
    First(working, Reject(h), [CloseAgain(h), Return(h)], last);
    Delivered(sending, h, [Reject(h)] + [CloseAgain(h), Return(h)], last);
    First(s, Accept(fd), [Send(h), Receive(h)] + ([Reject(h)] + [CloseAgain(h), Return(h)]), last);
    assert [Accept(fd)] + ([Send(h), Receive(h)] + ([Reject(h)] + [CloseAgain(h), Return(h)]))
           == [Accept(fd), Send(h), Receive(h), Reject(h), CloseAgain(h), Return(h)];
  }

  // A data connection never enters the table.
  lemma DataHandled(s: State, h: nat)
    requires s.main.AcceptingData? && h !in s.helpers
    ensures Leads(s, [AcceptData, Send(h), Receive(h), FinishData(h), Return(h)], s.(main := Polling))
  {
    hide Leads;
    var sending := Step(s, AcceptData);
    var working := sending.(main := Polling, helpers := s.helpers[h := Working(DataConnect)]);
    Released(working, FinishData(h), h, s.helpers);
    Delivered(sending, h, [FinishData(h), Return(h)], Step(working, FinishData(h)).(helpers := s.helpers));
    First(s, AcceptData, [Send(h), Receive(h)] + [FinishData(h), Return(h)],
          Step(working, FinishData(h)).(helpers := s.helpers));
    assert [AcceptData] + ([Send(h), Receive(h)] + [FinishData(h), Return(h)])
           == [AcceptData, Send(h), Receive(h), FinishData(h), Return(h)];
  }
}
