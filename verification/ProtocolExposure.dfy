/** Which programs can crash, access an unfilled cell, or measure two threads at once: exact
    conditions on the functions the threads run, for any number of threads. */
module ProtocolExposure {
  import opened Protocol
  import opened ProtocolInvariant
  import opened ProtocolCells
  import opened ProtocolHistory
  import opened ProtocolPair
  import FiniteSets

  // ---------- The functions by name ----------

  /** The function makes at least one measured sweep. */
  predicate MakesPass(job: Job) {
    match job.func
    case T1 => job.iterations > 0
    case WriteAll => job.iterations > 0
    case _ => true
  }

  /** Thread t makes at least one measured access. */
  predicate Touches(c: Config, t: nat)
    requires t < |c.jobs|
  {
    MakesPass(c.jobs[t]) && if c.jobs[t].func == T1 then c.n % 0x1_0000_0000 > 0 else c.n > 0
  }

  predicate T1OrT2(c: Config, t: nat)
    requires t < |c.jobs|
  {
    c.jobs[t].func == T1 || c.jobs[t].func == T2
  }

  /** Thread t touches the array without waiting while another thread may be in its setup; or it
      waits, thread 0 opens the gate, and a third thread may be in its setup. */
  predicate ExposedThread(c: Config, t: nat)
    requires t < |c.jobs|
  {
    Touches(c, t) && if t == 1 && T1OrT2(c, 1) then T1OrT2(c, 0) && |c.jobs| >= 3 else |c.jobs| >= 2
  }

  predicate Exposed(c: Config) {
    exists t :: 0 <= t < |c.jobs| && ExposedThread(c, t)
  }

  // ---------- Schedules ----------

  /** From s to r only thread t has moved, to pc, without touching the heap. */
  predicate OnlyMoved(s: State, r: State, t: nat, pc: Pc) {
    && t < |s.threads| && !r.fault
    && r.threads == s.threads[t := Thread(pc, s.threads[t].initialiser)]
    && r.saFlag == s.saFlag && r.ptr == s.ptr && r.heap == s.heap
  }

  /** Thread u tests and raises the flag, thread t then skips its setup. */
  lemma SkipSetup(c: Config, u: nat, t: nat) returns (moves: seq<Move>)
    requires u < |c.jobs| && t < |c.jobs| && u != t
    ensures var threads := Init(c).threads[u := Thread(Alloc, true)][t := Thread(AfterSetup(c, t), false)];
            Exec(c, moves) == State(true, false, Null, [], threads, false)
  {
    var m := Move(u, []);
    ExecSnoc(c, [], m);
    assert Exec(c, [] + [m]).threads == Init(c).threads[u := Thread(Set, true)];
    ExecSnoc(c, [] + [m], m);
    assert Exec(c, [] + [m] + [m]).threads == Init(c).threads[u := Thread(Alloc, true)];
    ExecSnoc(c, [] + [m] + [m], Move(t, []));
    moves := [] + [m] + [m] + [Move(t, [])];
  }

  /** A thread that touches nothing runs through its sweeps. */
  lemma {:induction false} EmptySweeps(c: Config, moves: seq<Move>, t: nat, k: nat) returns (more: seq<Move>)
    requires t < |c.jobs| && !Touches(c, t) && k <= |Passes(c.jobs[t])|
    requires !Exec(c, moves).fault && Exec(c, moves).threads[t].pc == PassHead(k, 0)
    ensures OnlyMoved(Exec(c, moves), Exec(c, more), t, PassHead(|Passes(c.jobs[t])|, 0))
    ensures Exec(c, more).canRun == Exec(c, moves).canRun
    decreases |Passes(c.jobs[t])| - k
  {
    if k == |Passes(c.jobs[t])| {
      more := moves;
    } else {
      ExecSnoc(c, moves, Move(t, []));
      more := EmptySweeps(c, moves + [Move(t, [])], t, k + 1);
    }
  }

  /** Thread 0 opens the gate while thread u is about to allocate, and thread 1 passes it. */
  lemma GateOpens(c: Config) returns (moves: seq<Move>)
    requires |c.jobs| >= 3 && WaitsAt(c, 1) && RaisesAt(c, 0) && !Touches(c, 0)
    ensures var s := Exec(c, moves);
            && !s.fault && s.ptr == Null && s.heap == []
            && s.threads[1] == Thread(PassHead(0, 0), false) && s.threads[2].pc == Alloc
  {
    var start := SkipSetup(c, 2, 0);
    var swept := EmptySweeps(c, start, 0, 0);
    var open := RaiseGate(c, swept);
    moves := PassGate(c, open);
  }

  lemma RaiseGate(c: Config, moves: seq<Move>) returns (more: seq<Move>)
    requires RaisesAt(c, 0) && !Exec(c, moves).fault
    requires Exec(c, moves).threads[0].pc == PassHead(|Passes(c.jobs[0])|, 0)
    ensures OnlyMoved(Exec(c, moves), Exec(c, more), 0, Done) && Exec(c, more).canRun
  {
    var m := Move(0, []);
    ExecSnoc(c, moves, m);
    assert OnlyMoved(Exec(c, moves), Exec(c, moves + [m]), 0, Raise);
    ExecSnoc(c, moves + [m], m);
    more := moves + [m] + [m];
  }

  lemma PassGate(c: Config, moves: seq<Move>) returns (more: seq<Move>)
    requires WaitsAt(c, 1) && !Exec(c, moves).fault && Exec(c, moves).saFlag && Exec(c, moves).canRun
    requires Exec(c, moves).threads[1] == Thread(Check, false)
    ensures OnlyMoved(Exec(c, moves), Exec(c, more), 1, PassHead(0, 0))
  {
    var m := Move(1, []);
    ExecSnoc(c, moves, m);
    assert OnlyMoved(Exec(c, moves), Exec(c, moves + [m]), 1, Wait) && Exec(c, moves + [m]).canRun;
    ExecSnoc(c, moves + [m], m);
    more := moves + [m] + [m];
  }

  /** Thread t is about to load the pointer for its first access, and no array is allocated
      yet although thread u is about to. */
  predicate OnTheBrink(c: Config, s: State, t: nat, u: nat) {
    && |s.threads| == |c.jobs| && t < |s.threads| && u < |s.threads| && t != u
    && !s.fault && s.ptr == Null && s.heap == [] && Touches(c, t)
    && s.threads[t].pc == PassHead(0, 0) && s.threads[u].pc == Alloc
  }

  lemma Brink(c: Config) returns (moves: seq<Move>, t: nat, u: nat)
    requires Exposed(c)
    ensures OnTheBrink(c, Exec(c, moves), t, u)
  {
    t :| 0 <= t < |c.jobs| && ExposedThread(c, t);
    if WaitsAt(c, t) && !Touches(c, 0) {
      u := 2;
      moves := GateOpens(c);
    } else {
      if WaitsAt(c, t) { t := 0; }
      u := if t == 0 then 1 else 0;
      moves := SkipSetup(c, u, t);
    }
  }

  // ---------- Crashes ----------

  /** A thread that goes through a null pointer is exposed. */
  lemma NullAccessExposed(c: Config, moves: seq<Move>, t: nat)
    requires t < |c.jobs| && Exec(c, moves).fault && NullAccess(Exec(c, moves).threads[t])
    ensures ExposedThread(c, t)
  {
    ExecInv(c, moves);
    var s := Exec(c, moves);
    assert ThreadOk(c, s, t);
    FlagHistory(c, moves);
    var k :| 0 <= k < |moves| && SetsAt(c, moves, k);
    SetterIsInitialiser(c, moves, k);
    if WaitsAt(c, t) && |c.jobs| == 2 {
      assert Pair(c);
      PairFault(c, moves);
      assert false;
    }
  }

  /** Any number of threads and any functions: some run crashes if and only if some thread is
      exposed. */
  lemma CrashPossible(c: Config)
    ensures (exists moves :: Exec(c, moves).fault) <==> Exposed(c)
  {
    if moves: seq<Move> :| Exec(c, moves).fault {
      ExecInv(c, moves);
      var t :| 0 <= t < |c.jobs| && NullAccess(Exec(c, moves).threads[t]);
      NullAccessExposed(c, moves, t);
    }
    if Exposed(c) {
      var moves, t, u := Brink(c);
      ExecSnoc(c, moves, Move(t, []));
      ExecSnoc(c, moves + [Move(t, [])], Move(t, []));
      assert Exec(c, moves + [Move(t, [])] + [Move(t, [])]).fault;
    }
  }

  // ---------- Unfilled cells ----------

  /** Thread t is about to touch a live cell j that does not hold j. */
  predicate StaleAccess(s: State, t: nat) {
    && t < |s.threads| && s.threads[t].pc.Access? && Mapped(s, s.threads[t].pc.p, s.threads[t].pc.j)
    && s.heap[s.threads[t].pc.p.id].cells[s.threads[t].pc.j] != s.threads[t].pc.j
  }

  lemma StaleExposed(c: Config, moves: seq<Move>, t: nat)
    requires IndexOnly(c) && StaleAccess(Exec(c, moves), t)
    ensures ExposedThread(c, t)
  {
    ExecIndexInv(c, moves);
    var s := Exec(c, moves);
    assert ThreadOk(c, s, t);
    if |c.jobs| == 1 {
      AloneFilled(c, s);
      assert false;
    } else if WaitsAt(c, t) && |c.jobs| == 2 {
      assert Pair(c);
      ThreadOneReadsFilled(c, moves);
      assert false;
    }
  }

  lemma AloneFilled(c: Config, s: State)
    requires Inv(c, s) && IndexInv(c, s) && |c.jobs| == 1 && s.threads[0].pc.Access? && Live(s, s.threads[0].pc.p)
    ensures !StaleAccess(s, 0)
  {
    assert ThreadOk(c, s, 0);
    assert AllocSet(s) <= {0};
    FiniteSets.SubsetSize(AllocSet(s), {0});
    FilledOutsideSetup(c, s);
  }

  /** Any number of threads that only ever store j in cell j: some run brings a thread to an access,
      be it a read or a store, of a live cell with a wrong value if and only if some thread is
      exposed. */
  lemma StaleAccessPossible(c: Config)
    requires IndexOnly(c)
    ensures (exists moves, t :: StaleAccess(Exec(c, moves), t)) <==> Exposed(c)
  {
    if moves: seq<Move>, t: nat :| StaleAccess(Exec(c, moves), t) {
      StaleExposed(c, moves, t);
    }
    if Exposed(c) {
      var moves, t, u := Brink(c);
      var more := BrinkToStale(c, moves, t, u);
      assert StaleAccess(Exec(c, more), t);
    }
  }

  /** Thread u publishes an array with junk in cell 0, and thread t loads its address. */
  lemma BrinkToStale(c: Config, moves: seq<Move>, t: nat, u: nat) returns (more: seq<Move>)
    requires OnTheBrink(c, Exec(c, moves), t, u)
    ensures StaleAccess(Exec(c, more), t)
  {
    var alloc := moves + [Move(u, [1])];
    ExecSnoc(c, moves, Move(u, [1]));
    ExecSnoc(c, alloc, Move(t, []));
    more := alloc + [Move(t, [])];
  }

  /** The run the program sets up is exposed exactly through thread 0. */
  lemma PairExposed(c: Config)
    requires Pair(c)
    ensures Exposed(c) <==> Touches(c, 0)
  {
    if Touches(c, 0) { assert ExposedThread(c, 0); }
  }

  // ---------- Overlapping measurements ----------

  /** From s to r only thread t has moved, to pc, without raising or opening anything, and an
      array is published. */
  predicate Advanced(s: State, r: State, t: nat, pc: Pc) {
    && t < |s.threads| && !r.fault && r.heap != []
    && r.threads == s.threads[t := Thread(pc, s.threads[t].initialiser)]
    && r.saFlag == s.saFlag && r.canRun == s.canRun
  }

  /** A thread at the head of its filling loop leaves the setup. */
  lemma {:induction false} Fills(c: Config, moves: seq<Move>, t: nat, i: nat) returns (more: seq<Move>)
    requires t < |c.jobs| && i <= c.n
    requires !Exec(c, moves).fault && Exec(c, moves).threads[t].pc == FillHead(i)
    ensures Advanced(Exec(c, moves), Exec(c, more), t, AfterSetup(c, t))
    decreases c.n - i
  {
    ExecInv(c, moves);
    assert ThreadOk(c, Exec(c, moves), t);
    var m := Move(t, []);
    ExecSnoc(c, moves, m);
    if i == c.n {
      more := moves + [m];
    } else {
      ExecSnoc(c, moves + [m], m);
      assert Advanced(Exec(c, moves), Exec(c, moves + [m] + [m]), t, FillHead(i + 1));
      more := Fills(c, moves + [m] + [m], t, i + 1);
    }
  }

  /** Threads 0 and 1 can measure at the same time if and only if both measure at all and thread
      1 runs t3, t4 or the write benchmark. */
  lemma OverlapPossible(c: Config)
    requires |c.jobs| >= 2
    ensures (exists moves :: Measuring(c, Exec(c, moves), 0) && Measuring(c, Exec(c, moves), 1))
            <==> (c.jobs[1].func == T3 || c.jobs[1].func == T4 || c.jobs[1].func == WriteAll)
                 && MakesPass(c.jobs[0]) && MakesPass(c.jobs[1])
  {
    if moves: seq<Move> :| Measuring(c, Exec(c, moves), 0) && Measuring(c, Exec(c, moves), 1) {
      ExecInv(c, moves);
      assert ThreadOk(c, Exec(c, moves), 0) && ThreadOk(c, Exec(c, moves), 1);
      if WaitsAt(c, 1) { MeasurementsDisjoint(c, moves); }
    }
    if !WaitsAt(c, 1) && |Passes(c.jobs[0])| > 0 && |Passes(c.jobs[1])| > 0 {
      var start := SkipSetup(c, 1, 0);
      var m1 := Move(1, []);
      ExecSnoc(c, start, m1);
      var both := Fills(c, start + [m1], 1, 0);
      assert Measuring(c, Exec(c, both), 0) && Measuring(c, Exec(c, both), 1);
    }
  }
}
