/** Whole calls of RCL.c: where a thread that takes or releases the lock without being disturbed ends
    up, and how many can be inside together. */
module RclRuns {
  import opened Wrappers
  import opened Rcl

  // The run `moves` can be taken from s, and ends in s'.
  ghost predicate Leads(s: State, moves: seq<Move>, s': State) {
    IsRun(s, moves) && After(s, moves) == s'
  }

  lemma First(s: State, m: Move, moves: seq<Move>, s': State)
    requires m.tid < |s.pcs| && Enabled(s, m.tid) && Leads(Step(s, m.tid, m.choice), moves, s')
    ensures Leads(s, [m] + moves, s')
  {
    hide Enabled, Step;
    assert ([m] + moves)[1..] == moves;
    assert IsRun(s, [m] + moves);
  }

  lemma {:induction false} Then(s: State, a: seq<Move>, mid: State, b: seq<Move>, s': State)
    requires Leads(s, a, mid) && Leads(mid, b, s')
    ensures Leads(s, a + b, s')
    decreases |a|
  {
    hide Enabled, Step;
    if a == [] {
      assert a + b == b;
    } else {
      Then(Step(s, a[0].tid, a[0].choice), a[1..], mid, b, s');
      First(s, a[0], a[1..] + b, s');
      assert [a[0]] + (a[1..] + b) == a + b;
    }
  }

  // n moves of one thread.
  function Turns(t: nat, c: Choice, n: nat): seq<Move> {
    if n == 0 then [] else [Move(t, c)] + Turns(t, c, n - 1)
  }

  lemma Turn(s: State, t: nat, c: Choice, n: nat, s': State)
    requires n > 0 && t < |s.pcs| && Enabled(s, t) && Leads(Step(s, t, c), Turns(t, c, n - 1), s')
    ensures Leads(s, Turns(t, c, n), s')
  {
    hide Leads, Enabled, Step;
    First(s, Move(t, c), Turns(t, c, n - 1), s');
  }

  lemma Stay(s: State, t: nat, c: Choice)
    ensures Leads(s, Turns(t, c, 0), s)
  {
  }

  // State in which t stands at p, and nobody else differs from s.
  function With(s: State, t: nat, p: Pc, entry: Owner, rcLock: Owner, rc: int): State
    requires t < |s.pcs|
  {
    State(entry, rcLock, rc, s.pcs[t := p])
  }

  lemma Moved(pcs: seq<Pc>, t: nat)
    requires t < |pcs|
    ensures pcs[t := pcs[t]] == pcs && forall p, q {:trigger pcs[t := p][t := q]} :: pcs[t := p][t := q] == pcs[t := q]
  {
  }

  // rcl_read_lock with both mutexes free: the thread is inside, counted, and holds neither; whoever
  // else is inside makes no difference.
  lemma ReaderEnters(s: State, t: nat)
    requires t < |s.pcs| && s.pcs[t] == Idle && s.entry == None && s.rcLock == None
    ensures Leads(s, Turns(t, Read, 6), State(None, None, s.rc + 1, s.pcs[t := Reading]))
  {
    hide Leads, Turns;
    var me := Some(t);
    var last := With(s, t, Reading, None, None, s.rc + 1);
    Moved(s.pcs, t);
    Stay(last, t, Read);
    Turn(With(s, t, RLeftRc, me, None, s.rc + 1), t, Read, 1, last);
    Turn(With(s, t, RCounted, me, me, s.rc + 1), t, Read, 2, last);
    Turn(With(s, t, RHasBoth, me, me, s.rc), t, Read, 3, last);
    Turn(With(s, t, RHasEntry, me, None, s.rc), t, Read, 4, last);
    Turn(With(s, t, RWantEntry, None, None, s.rc), t, Read, 5, last);
    Turn(s, t, Read, 6, last);
  }

  // rcl_read_unlock when rc_lock is free, with readers left behind: only the count changes.
  lemma ReaderLeaves(s: State, t: nat)
    requires t < |s.pcs| && s.pcs[t] == Reading && s.rcLock == None && s.rc > 1
    ensures Leads(s, Turns(t, Read, 4), s.(rc := s.rc - 1, pcs := s.pcs[t := Idle]))
  {
    hide Leads, Turns;
    var me := Some(t);
    var last := With(s, t, Idle, s.entry, None, s.rc - 1);
    Moved(s.pcs, t);
    Stay(last, t, Read);
    Turn(With(s, t, RExitDone, s.entry, me, s.rc - 1), t, Read, 1, last);
    Turn(With(s, t, RExitHas, s.entry, me, s.rc), t, Read, 2, last);
    Turn(With(s, t, RExit, s.entry, None, s.rc), t, Read, 3, last);
    Turn(s, t, Read, 4, last);
  }

  // The last reader wakes a waiting writer, if there is one, before it lets go of rc_lock.
  lemma LastReaderLeaves(s: State, t: nat)
    requires t < |s.pcs| && s.pcs[t] == Reading && s.rcLock == None && s.rc == 1
    ensures var w := Waiter(s.pcs);
            Leads(s, Turns(t, Read, 5),
                  s.(rc := 0, pcs := (if w < |s.pcs| then s.pcs[w := WWoken] else s.pcs)[t := Idle]))
  {
    hide Leads, Turns, Waiter;
    var me, w := Some(t), Waiter(s.pcs);
    var woken := if w < |s.pcs| then s.pcs[w := WWoken] else s.pcs;
    var signalled := State(s.entry, me, 0, woken[t := RExitDone]);
    var last := State(s.entry, None, 0, woken[t := Idle]);
    Moved(s.pcs, t);
    Moved(woken, t);
    WaiterStays(s.pcs, t, RLast);
    Stay(last, t, Read);
    Turn(signalled, t, Read, 1, last);
    Turn(With(s, t, RLast, s.entry, me, 0), t, Read, 2, last);
    Turn(With(s, t, RExitHas, s.entry, me, 1), t, Read, 3, last);
    Turn(With(s, t, RExit, s.entry, None, 1), t, Read, 4, last);
    Turn(s, t, Read, 5, last);
  }

  // The same writer waits while t moves.
  lemma {:induction false} WaiterStays(pcs: seq<Pc>, t: nat, p: Pc)
    requires t < |pcs| && !pcs[t].WWaiting? && !p.WWaiting?
    ensures Waiter(pcs[t := p]) == Waiter(pcs)
    ensures Waiter(pcs) < |pcs| ==>
              Waiter(pcs) != t && pcs[t := p][Waiter(pcs) := WWoken][t := RExitDone] == pcs[Waiter(pcs) := WWoken][t := RExitDone]
  {
    if !pcs[0].WWaiting? {
      if t == 0 {
        assert pcs[t := p][1..] == pcs[1..];
      } else {
        assert pcs[t := p][1..] == pcs[1..][t - 1 := p];
        WaiterStays(pcs[1..], t - 1, p);
      }
    }
  }

  // rcl_write_lock with both mutexes free: with no reader inside the thread holds both and writes;
  // otherwise it waits for the signal and keeps the entry lock, which shuts out every newcomer.
  lemma WriterEnters(s: State, t: nat)
    requires t < |s.pcs| && s.pcs[t] == Idle && s.entry == None && s.rcLock == None
    ensures Leads(s, Turns(t, Write, 5),
                  if s.rc > 0 then s.(entry := Some(t), pcs := s.pcs[t := WWaiting])
                  else s.(entry := Some(t), rcLock := Some(t), pcs := s.pcs[t := Writing]))
  {
    hide Leads, Turns;
    var me := Some(t);
    var last := if s.rc > 0 then With(s, t, WWaiting, me, None, s.rc) else With(s, t, Writing, me, me, s.rc);
    Moved(s.pcs, t);
    Stay(last, t, Write);
    Turn(With(s, t, WHasRc, me, me, s.rc), t, Write, 1, last);
    Turn(With(s, t, WWantRc, me, None, s.rc), t, Write, 2, last);
    Turn(With(s, t, WReserved, me, None, s.rc), t, Write, 3, last);
    Turn(With(s, t, WWantEntry, None, None, s.rc), t, Write, 4, last);
    Turn(s, t, Write, 5, last);
  }

  // A woken writer writes as soon as rc_lock is free.
  lemma WokenWrites(s: State, t: nat)
    requires t < |s.pcs| && s.pcs[t] == WWoken && s.rcLock == None
    ensures Leads(s, Turns(t, Write, 1), s.(rcLock := Some(t), pcs := s.pcs[t := Writing]))
  {
    hide Leads, Turns;
    var last := s.(rcLock := Some(t), pcs := s.pcs[t := Writing]);
    Stay(last, t, Write);
    Turn(s, t, Write, 1, last);
  }

  // rcl_write_unlock leaves both mutexes free.
  lemma WriterLeaves(s: State, t: nat)
    requires t < |s.pcs| && s.pcs[t] == Writing
    ensures Leads(s, Turns(t, Write, 2), s.(entry := None, rcLock := None, pcs := s.pcs[t := Idle]))
  {
    hide Leads, Turns;
    var last := With(s, t, Idle, None, None, s.rc);
    Moved(s.pcs, t);
    Stay(last, t, Write);
    Turn(With(s, t, WLeftRc, s.entry, None, s.rc), t, Write, 1, last);
    Turn(s, t, Write, 2, last);
  }

  // The first k threads read, the others are idle.
  function Readers(n: nat, k: nat): State
    requires k <= n
  {
    State(None, None, k, seq(n, i => if i < k then Reading else Idle))
  }

  // Readers do not exclude one another: from the start, any number of threads can be reading at the
  // same time.
  lemma {:induction false} ManyReaders(n: nat, k: nat) returns (moves: seq<Move>)
    requires k <= n
    ensures Leads(State(None, None, 0, seq(n, i => Idle)), moves, Readers(n, k))
    decreases k
  {
    hide Leads, Turns;
    var start := State(None, None, 0, seq(n, i => Idle));
    if k == 0 {
      assert Readers(n, 0) == start;
      moves := [];
      Nothing(start);
    } else {
      moves := ManyReaders(n, k - 1);
      ReaderEnters(Readers(n, k - 1), k - 1);
      assert Readers(n, k - 1).pcs[k - 1 := Reading] == Readers(n, k).pcs;
      Then(start, moves, Readers(n, k - 1), Turns(k - 1, Read, 6), Readers(n, k));
      moves := moves + Turns(k - 1, Read, 6);
    }
  }

  lemma Nothing(s: State)
    ensures Leads(s, [], s)
  {
  }
}
