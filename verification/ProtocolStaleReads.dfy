/** Measured reads of unfilled cells: exactly which programs of t1 to t4 can make one. */
module ProtocolStaleReads {
  import opened Protocol
  import opened ProtocolInvariant
  import opened ProtocolCells
  import opened ProtocolExposure
  import opened ProtocolPair

  /** Thread t is about to read, in a measured sweep, a live cell j that does not hold j. */
  predicate StaleRead(c: Config, s: State, t: nat)
    requires |s.threads| == |c.jobs|
  {
    && StaleAccess(s, t)
    && s.threads[t].pc.k < |Passes(c.jobs[t])| && Passes(c.jobs[t])[s.threads[t].pc.k] == Read
  }

  // ---------- A thread on its own ----------

  /** A thread finishes the sweep it is in. */
  lemma {:induction false} Sweeps(c: Config, moves: seq<Move>, t: nat, k: nat, j: nat) returns (more: seq<Move>)
    requires t < |c.jobs| && k < |Passes(c.jobs[t])| && j <= Limit(c.jobs[t].func, c.n)
    requires !Exec(c, moves).fault && Exec(c, moves).heap != [] && Exec(c, moves).threads[t].pc == PassHead(k, j)
    ensures Advanced(Exec(c, moves), Exec(c, more), t, PassHead(k + 1, 0))
    decreases Limit(c.jobs[t].func, c.n) - j
  {
    ExecInv(c, moves);
    var m := Move(t, []);
    ExecSnoc(c, moves, m);
    if j == Limit(c.jobs[t].func, c.n) {
      more := moves + [m];
    } else {
      TouchesCell(c, moves, t, k, j);
      more := Sweeps(c, moves + [m] + [m], t, k, j + 1);
    }
  }

  lemma TouchesCell(c: Config, moves: seq<Move>, t: nat, k: nat, j: nat)
    requires t < |c.jobs| && k < |Passes(c.jobs[t])| && j < Limit(c.jobs[t].func, c.n)
    requires !Exec(c, moves).fault && Exec(c, moves).heap != [] && Exec(c, moves).threads[t].pc == PassHead(k, j)
    ensures Advanced(Exec(c, moves), Exec(c, moves + [Move(t, [])] + [Move(t, [])]), t, PassHead(k, j + 1))
  {
    ExecInv(c, moves);
    var m := Move(t, []);
    ExecSnoc(c, moves, m);
    var s := Exec(c, moves + [m]);
    assert s.heap == Exec(c, moves).heap && s.threads[t].pc == Access(k, j, s.ptr) && Mapped(s, s.ptr, j);
    ExecSnoc(c, moves + [m], m);
  }

  /** A thread goes on from one sweep to a later one. */
  lemma {:induction false} SweepsUpTo(c: Config, moves: seq<Move>, t: nat, k: nat, end: nat)
    returns (more: seq<Move>)
    requires t < |c.jobs| && k <= end <= |Passes(c.jobs[t])|
    requires !Exec(c, moves).fault && Exec(c, moves).heap != [] && Exec(c, moves).threads[t].pc == PassHead(k, 0)
    ensures Advanced(Exec(c, moves), Exec(c, more), t, PassHead(end, 0))
    decreases end - k
  {
    hide Exec, Passes;
    if k == end {
      more := moves;
    } else {
      var next := Sweeps(c, moves, t, k, 0);
      more := SweepsUpTo(c, next, t, k + 1, end);
    }
  }

  // ---------- The schedules ----------

  /** Threads t and u both find the flag down; t raises it and allocates. */
  lemma BothEarly(c: Config, t: nat, u: nat) returns (moves: seq<Move>)
    requires t < |c.jobs| && u < |c.jobs| && t != u
    ensures var s := Exec(c, moves);
            && !s.fault && s.saFlag && !s.canRun
            && s.threads == Init(c).threads[u := Thread(Set, true)][t := Thread(FillHead(0), true)]
  {
    var mt, mu := Move(t, []), Move(u, []);
    var tested := Init(c).threads[u := Thread(Set, true)];
    ExecSnoc(c, [], mu);
    assert Exec(c, [] + [mu]).threads == tested;
    ExecSnoc(c, [] + [mu], mt);
    assert Exec(c, [] + [mu] + [mt]).threads == tested[t := Thread(Set, true)];
    ExecSnoc(c, [] + [mu] + [mt], mt);
    assert Exec(c, [] + [mu] + [mt] + [mt]).threads == tested[t := Thread(Alloc, true)];
    ExecSnoc(c, [] + [mu] + [mt] + [mt], mt);
    moves := [] + [mu] + [mt] + [mt] + [mt];
  }

  /** Thread t is about to begin sweep k, and thread u is about to raise the flag again. */
  predicate Poised(c: Config, s: State, t: nat, u: nat, k: nat) {
    && |s.threads| == |c.jobs| && t < |s.threads| && u < |s.threads| && t != u && !s.fault
    && s.threads[t].pc == PassHead(k, 0) && s.threads[u].pc == Set
  }

  /** A thread that does not wait. */
  lemma PoisedFree(c: Config, t: nat, u: nat, k: nat) returns (moves: seq<Move>)
    requires t < |c.jobs| && u < |c.jobs| && t != u && !WaitsAt(c, t) && k <= |Passes(c.jobs[t])|
    ensures Poised(c, Exec(c, moves), t, u, k)
  {
    hide Exec, Passes;
    var early := BothEarly(c, t, u);
    var filled := Fills(c, early, t, 0);
    moves := SweepsUpTo(c, filled, t, 0, k);
  }

  /** Thread 1 behind the gate that thread 0 has opened, thread 2 still before its set. */
  lemma PoisedBehindGate(c: Config, k: nat) returns (moves: seq<Move>)
    requires |c.jobs| >= 3 && WaitsAt(c, 1) && RaisesAt(c, 0) && k <= |Passes(c.jobs[1])|
    ensures Poised(c, Exec(c, moves), 1, 2, k)
  {
    hide Exec, Passes, Init;
    var early := BothEarly(c, 0, 2);
    InitialThreads(c);
    var filled := Fills(c, early, 0, 0);
    var swept := SweepsUpTo(c, filled, 0, 0, |Passes(c.jobs[0])|);
    var open := RaiseGate(c, swept);
    var passed := PassGate(c, open);
    moves := SweepsUpTo(c, passed, 1, 0, k);
  }

  lemma InitialThreads(c: Config)
    ensures |Init(c).threads| == |c.jobs|
    ensures forall t :: 0 <= t < |c.jobs| ==> Init(c).threads[t] == Thread(Check, false)
  {
  }

  /** Thread u publishes an array with junk in cell 0, and thread t begins sweep k with it. */
  lemma PoisedToStale(c: Config, moves: seq<Move>, t: nat, u: nat, k: nat) returns (more: seq<Move>)
    requires Poised(c, Exec(c, moves), t, u, k) && Touches(c, t)
    requires k < |Passes(c.jobs[t])| && Passes(c.jobs[t])[k] == Read
    ensures StaleRead(c, Exec(c, more), t)
  {
    ExecSnoc(c, moves, Move(u, []));
    var alloc := moves + [Move(u, [])];
    ExecSnoc(c, alloc, Move(u, [1]));
    var load := alloc + [Move(u, [1])];
    ExecSnoc(c, load, Move(t, []));
    more := load + [Move(t, [])];
  }

  /** Any number of threads that only store j in cell j: some run brings a thread to a measured
      read of a wrong value if and only if some exposed thread reads at all. */
  lemma StaleReadPossible(c: Config)
    requires IndexOnly(c)
    ensures (exists moves, t :: StaleRead(c, Exec(c, moves), t))
            <==> exists t :: 0 <= t < |c.jobs| && ExposedThread(c, t) && Read in Passes(c.jobs[t])
  {
    if moves: seq<Move>, t: nat :| StaleRead(c, Exec(c, moves), t) {
      StaleExposed(c, moves, t);
    }
    if t :| 0 <= t < |c.jobs| && ExposedThread(c, t) && Read in Passes(c.jobs[t]) {
      var k :| 0 <= k < |Passes(c.jobs[t])| && Passes(c.jobs[t])[k] == Read;
      var more := ExposedReads(c, t, k);
      assert StaleRead(c, Exec(c, more), t);
    }
  }

  lemma ExposedReads(c: Config, t: nat, k: nat) returns (more: seq<Move>)
    requires t < |c.jobs| && ExposedThread(c, t) && k < |Passes(c.jobs[t])| && Passes(c.jobs[t])[k] == Read
    ensures StaleRead(c, Exec(c, more), t)
  {
    hide Exec, Passes;
    if WaitsAt(c, t) {
      var moves := PoisedBehindGate(c, k);
      more := PoisedToStale(c, moves, t, 2, k);
    } else {
      var u := if t == 0 then 1 else 0;
      var moves := PoisedFree(c, t, u, k);
      more := PoisedToStale(c, moves, t, u, k);
    }
  }

  /** Two threads of t2 with one iteration are exposed, and yet never read a wrong value: their
      only sweep stores. */
  lemma OneIterationOnlyStores()
    ensures var c := Config(1, [Job(T2, 1), Job(T2, 1)]);
            Exposed(c) && forall moves, t :: !StaleRead(c, Exec(c, moves), t)
  {
    var c := Config(1, [Job(T2, 1), Job(T2, 1)]);
    assert IndexOnly(c) && Passes(c.jobs[0]) == Passes(c.jobs[1]) == [WriteIndex];
    StaleReadPossible(c);
    assert ExposedThread(c, 0);
  }

  /** In the run the program sets up: exactly when thread 0 reads. */
  lemma PairStaleReads(c: Config)
    requires Pair(c)
    ensures (exists moves, t :: StaleRead(c, Exec(c, moves), t)) <==> Touches(c, 0) && Read in Passes(c.jobs[0])
  {
    hide Exec, StaleRead, Passes;
    PairIndexOnly(c);
    StaleReadPossible(c);
    if Touches(c, 0) && Read in Passes(c.jobs[0]) { assert ExposedThread(c, 0); }
  }
}
