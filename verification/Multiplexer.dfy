/** Multiplexer.poll.c: the descriptor array with its cursor, changed in place. Every operation is
    proved to do to the array what the list operations of PollRound do to a cut list. */
module Multiplexer {
  import opened Wrappers
  import opened PollRound

  const INITIAL_TABLE_SIZE := 64

  // The sizes doubling and halving can reach.
  predicate TableSize(n: nat) {
    n == INITIAL_TABLE_SIZE || (n > INITIAL_TABLE_SIZE && n % 2 == 0 && TableSize(n / 2))
  }

  lemma {:induction false} SizeMultiple(n: nat)
    requires TableSize(n)
    ensures n % INITIAL_TABLE_SIZE == 0 && n >= INITIAL_TABLE_SIZE
  {
    if n > INITIAL_TABLE_SIZE { SizeMultiple(n / 2); }
  }

  function Mask(event: Interest): int {
    if event.Readable? then POLLIN else POLLOUT
  }

  // Between rounds the cursor means nothing.
  function Settle(r: Round): Round {
    if r.open then r else r.(before := [], after := Table(r))
  }

  function Shape(t: seq<Entry>, open: bool, cursor: nat, left: int): Round
    requires open ==> cursor <= |t|
  {
    if open then Round(t[..cursor], t[cursor..], true, left) else Round([], t, false, left)
  }

  class PollTable {
    var fdtbl: array<Entry>
    var fdtblCount: nat
    var fdtblSize: nat
    var curfd: nat
    var retfds: int
    var pcomplete: bool

    ghost predicate Valid()
      reads this, fdtbl
    {
      && fdtblCount <= fdtblSize == fdtbl.Length
      && TableSize(fdtblSize)
      && (pcomplete ==> curfd <= fdtblCount)
      && 0 <= retfds
    }

    // Never more than four times as large as its contents, but for the size it starts with.
    ghost predicate Fitted()
      reads this
    {
      fdtblSize == INITIAL_TABLE_SIZE || fdtblSize <= 4 * fdtblCount
    }

    ghost function View(): Round
      reads this, fdtbl
      requires Valid()
    {
      Shape(fdtbl[..fdtblCount], pcomplete, curfd, retfds)
    }

    constructor ()
      ensures Valid() && Fitted() && fresh(fdtbl)
      ensures View() == Round([], [], false, 0)
    {
      var table := new Entry[INITIAL_TABLE_SIZE](_ => Entry(-1, 0, 0));
      fdtbl, fdtblCount, fdtblSize := table, 0, INITIAL_TABLE_SIZE;
      pcomplete, curfd, retfds := false, 0, 0;
    }

    // xrealloc: the entries survive.
    method Resize(size: nat)
      requires Valid() && fdtblCount <= size && TableSize(size)
      modifies this
      ensures Valid() && fresh(fdtbl)
      ensures View() == old(View())
      ensures fdtblCount == old(fdtblCount) && fdtblSize == size
      ensures pcomplete == old(pcomplete) && curfd == old(curfd) && retfds == old(retfds)
      ensures fdtbl[..fdtblCount] == old(fdtbl[..fdtblCount])
    {
      var table := new Entry[size](_ => Entry(-1, 0, 0));
      var i := 0;
      while i < fdtblCount
        invariant i <= fdtblCount
        invariant table[..i] == fdtbl[..i]
        modifies table
      {
        table[i] := fdtbl[i];
        i := i + 1;
      }
      fdtbl, fdtblSize := table, size;
    }

    method Add(fd: int, event: Interest)
      requires Valid()
      modifies this, fdtbl
      ensures Valid() && (fdtbl == old(fdtbl) || fresh(fdtbl))
      ensures event.Readable? ==> View() == PollRound.Add(old(View()), fd, POLLIN)
      ensures event.Writable? ==> View() == PollRound.Add(old(View()), fd, POLLOUT)
      // In the bits of poll(): 1 to wait for input, 4 for output, nothing pending.
      ensures event.Readable? ==> Table(View()) == Table(old(View())) + [Entry(fd, 1, 0)]
      ensures event.Writable? ==> Table(View()) == Table(old(View())) + [Entry(fd, 4, 0)]
      ensures old(Fitted()) ==> Fitted()
    {
      if fdtblCount == fdtblSize {
        Resize(2 * fdtblSize);
      }
      ghost var v, t := View(), fdtbl[..fdtblCount];
      AddTable(v, fd, Mask(event));
      fdtbl[fdtblCount] := Entry(fd, Mask(event), 0);
      fdtblCount := fdtblCount + 1;
      assert fdtbl[..fdtblCount] == t + [Entry(fd, Mask(event), 0)];
      assert View().before == v.before;
      assert View().after == v.after + [Entry(fd, Mask(event), 0)];
    }

    method Search(fd: int) returns (i: nat)
      requires Valid()
      ensures i == Find(fdtbl[..fdtblCount], fd)
    {
      i := 0;
      while i < fdtblCount && fdtbl[i].fd != fd
        invariant i <= fdtblCount
        invariant forall j :: 0 <= j < i ==> fdtbl[j].fd != fd
      {
        i := i + 1;
      }
      FindUnique(fdtbl[..fdtblCount], fd, i);
    }

    // memmove: the entries behind i move up by one.
    method Close(i: nat)
      requires Valid() && i < fdtblCount
      modifies this`fdtblCount, fdtbl
      ensures fdtblCount == old(fdtblCount) - 1
      ensures fdtbl[..fdtblCount] == Cut(old(fdtbl[..fdtblCount]), i)
    {
      ghost var t := fdtbl[..];
      var j := i;
      while j < fdtblCount - 1
        invariant i <= j < fdtblCount == old(fdtblCount)
        invariant forall k :: 0 <= k < i ==> fdtbl[k] == t[k]
        invariant forall k :: i <= k < j ==> fdtbl[k] == t[k + 1]
        invariant forall k :: j <= k < fdtbl.Length ==> fdtbl[k] == t[k]
      {
        fdtbl[j] := fdtbl[j + 1];
        j := j + 1;
      }
      fdtblCount := fdtblCount - 1;
    }

    // The part of multiplexer_remove that deletes entry i.
    method Delete(i: nat)
      requires Valid() && i < fdtblCount
      modifies this, fdtbl
      ensures Valid() && fdtbl == old(fdtbl)
      ensures View() == Deleted(old(View()), i)
      ensures fdtblCount == old(fdtblCount) - 1 && fdtblSize == old(fdtblSize)
    {
      DeleteShape(fdtbl[..fdtblCount], pcomplete, curfd, retfds, i);
      hide Cut, Shape, Deleted;
      if pcomplete && fdtbl[i].revents != 0 {
        retfds := (retfds - 1) % UNSIGNED;
      }
      Close(i);
      if pcomplete && curfd > i {
        curfd := curfd - 1;
      }
    }

    method Remove(fd: int)
      requires Valid()
      modifies this, fdtbl
      ensures Valid() && (fdtbl == old(fdtbl) || fresh(fdtbl))
      ensures View() == PollRound.Remove(old(View()), fd)
      ensures old(Fitted()) ==> Fitted()
    {
      hide TableSize;
      assert Table(View()) == fdtbl[..fdtblCount];
      var i := Search(fd);
      hide Find, Cut;
      if i == fdtblCount { return; }
      Delete(i);
      GiveBack();
    }

    // The end of multiplexer_remove: a table over four times as large as its contents is halved.
    method GiveBack()
      requires Valid()
      modifies this
      ensures Valid() && (fdtbl == old(fdtbl) || fresh(fdtbl))
      ensures View() == old(View()) && fdtblCount == old(fdtblCount)
      ensures fdtblSize == old(fdtblSize) || fdtblSize == old(fdtblSize) / 2
      ensures old(fdtblSize == INITIAL_TABLE_SIZE || fdtblSize <= 4 * (fdtblCount + 1)) ==> Fitted()
    {
      SizeMultiple(fdtblSize);
      if fdtblSize / 4 > fdtblCount && fdtblSize > INITIAL_TABLE_SIZE {
        Resize(fdtblSize / 2);
      }
    }

    // poll() fills in the events of every entry; an interrupted call leaves them zero.
    method Fill(report: Report)
      requires Valid() && (report.Report? ==> |report.revents| == fdtblCount)
      modifies fdtbl
      ensures fdtbl[..fdtblCount] == Marked(old(fdtbl[..fdtblCount]), report)
    {
      ghost var t := fdtbl[..];
      var i := 0;
      while i < fdtblCount
        invariant i <= fdtblCount
        invariant forall k :: 0 <= k < i ==>
          fdtbl[k] == t[k].(revents := if report.Report? then report.revents[k] else 0)
        invariant forall k :: i <= k < fdtbl.Length ==> fdtbl[k] == t[k]
      {
        fdtbl[i] := fdtbl[i].(revents := if report.Report? then report.revents[i] else 0);
        i := i + 1;
      }
    }

    // poll()'s result as an unsigned int: the number of entries with events, or -1.
    method Count(report: Report) returns (n: int)
      requires Valid()
      ensures n == if report.Interrupted? then UNSIGNED - 1 else |Ready(fdtbl[..fdtblCount])| % UNSIGNED
    {
      if report.Interrupted? { return UNSIGNED - 1; }
      n := 0;
      var i := fdtblCount;
      while i > 0
        invariant 0 <= i <= fdtblCount
        invariant n == |Ready(fdtbl[i..fdtblCount])|
      {
        i := i - 1;
        assert fdtbl[i..fdtblCount][1..] == fdtbl[i + 1..fdtblCount];
        if fdtbl[i].revents != 0 { n := n + 1; }
      }
      assert fdtbl[0..fdtblCount] == fdtbl[..fdtblCount];
      n := n % UNSIGNED;
    }

    // multiplexer_poll: the unsigned result of poll() is never below zero, so an interrupted call
    // also opens a round.
    method Poll(report: Report) returns (entry: Option<Entry>)
      requires Valid() && (report.Report? ==> |report.revents| == fdtblCount)
      modifies this, fdtbl
      ensures Valid() && fdtbl == old(fdtbl)
      ensures fdtblCount == old(fdtblCount) && fdtblSize == old(fdtblSize)
      ensures View() == Settle(PollRound.Poll(old(View()), report).round)
      ensures entry == PollRound.Poll(old(View()), report).entry
    {
      ghost var v := View();
      assert Table(v) == fdtbl[..fdtblCount];
      if !pcomplete {
        Fill(report);
        retfds := Count(report);
        pcomplete, curfd := true, 0;
        assert View() == StartRound(v, report);
      }
      entry := Next();
    }

    // The cursor at an entry with events: deliver it.
    method Deliver() returns (entry: Option<Entry>)
      requires Valid() && pcomplete && curfd < fdtblCount && retfds > 0
      modifies `curfd, `retfds, `pcomplete
      ensures Valid() && entry == Some(fdtbl[old(curfd)])
      ensures curfd == old(curfd) + 1 && retfds == old(retfds) - 1 && pcomplete == (retfds != 0)
    {
      entry := Some(fdtbl[curfd]);
      curfd := curfd + 1;
      retfds := retfds - 1;
      if retfds == 0 { pcomplete := false; }
    }

    method Next() returns (entry: Option<Entry>)
      requires Valid() && pcomplete
      modifies `curfd, `retfds, `pcomplete
      ensures Valid()
      ensures View() == Settle(Scan(old(View())).round)
      ensures entry == Scan(old(View())).entry
    {
      hide Scan, Shape, Settle;
      ghost var t, d := fdtbl[..fdtblCount], Scan(View());
      while curfd < fdtblCount && retfds > 0
        invariant curfd <= fdtblCount && pcomplete && retfds == old(retfds)
        invariant Scan(Shape(t, true, curfd, retfds)) == d
      {
        ScanShape(t, curfd, retfds);
        if fdtbl[curfd].revents == 0 {
          curfd := curfd + 1;
          continue;
        }
        entry := Deliver();
        return;
      }
      ScanShape(t, curfd, retfds);
      pcomplete := false;
      entry := None;
    }
  }

  lemma AddTable(r: Round, fd: int, events: int)
    ensures Table(PollRound.Add(r, fd, events)) == Table(r) + [Entry(fd, events, 0)]
  {
  }

  // One turn of the scan, on the array.
  lemma ScanShape(t: seq<Entry>, c: nat, left: int)
    requires c <= |t|
    ensures var d := Scan(Shape(t, true, c, left));
            if c == |t| || left == 0 then
              Settle(d.round) == Shape(t, false, c, left) && d.entry == None
            else if t[c].revents == 0 then
              d == Scan(Shape(t, true, c + 1, left))
            else
              Settle(d.round) == Shape(t, left - 1 != 0, c + 1, left - 1) && d.entry == Some(t[c])
  {
    assert t[..c] + t[c..] == t;
    if c < |t| {
      assert t[..c] + [t[c]] == t[..c + 1] && t[c..][1..] == t[c + 1..];
      assert t[..c + 1] + t[c + 1..] == t;
    }
  }

  lemma DeleteShape(t: seq<Entry>, open: bool, c: nat, left: int, i: nat)
    requires i < |t| && (open ==> c <= |t|)
    ensures Table(Shape(t, open, c, left)) == t
    ensures Deleted(Shape(t, open, c, left), i) ==
            Shape(Cut(t, i), open, if open && c > i then c - 1 else c,
                  if open && t[i].revents != 0 then (left - 1) % UNSIGNED else left)
  {
    if open {
      assert t[..c] + t[c..] == t;
      CutSplit(t, c, i);
    }
  }

  lemma FindUnique(t: seq<Entry>, fd: int, i: nat)
    requires i <= |t| && (forall j :: 0 <= j < i ==> t[j].fd != fd)
    requires i < |t| ==> t[i].fd == fd
    ensures i == Find(t, fd)
  {
  }

  // Cutting entry i out of a list that is itself cut at c.
  lemma CutSplit(t: seq<Entry>, c: nat, i: nat)
    requires c <= |t| && i < |t|
    ensures i < c ==> Cut(t, i)[..c - 1] == Cut(t[..c], i) && Cut(t, i)[c - 1..] == t[c..]
    ensures c <= i ==> Cut(t, i)[..c] == t[..c] && Cut(t, i)[c..] == Cut(t[c..], i - c)
  {
  }
}
