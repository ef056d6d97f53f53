/** Termination: every step that is not a spin uses up some remaining work, and the only way
    to be stuck is a thread 1 that waits for a thread 0 that never opens the gate. */
module ProtocolProgress {
  import opened Protocol
  import opened ProtocolInvariant

  /** Work left to thread t at the head of pass k. */
  function WorkFrom(c: Config, t: nat, k: nat): nat
    requires t < |c.jobs|
    decreases |Passes(c.jobs[t])| - k
  {
    if k >= |Passes(c.jobs[t])| then 2
    else WorkFrom(c, t, k + 1) + 2 * Limit(c.jobs[t].func, c.n) + 2
  }

  /** Upper bound on the steps thread t still takes, spins not counted. */
  function Work(c: Config, t: nat, pc: Pc): int
    requires t < |c.jobs|
  {
    match pc
    case Check => WorkFrom(c, t, 0) + 2 * c.n + 5
    case Set => WorkFrom(c, t, 0) + 2 * c.n + 4
    case Alloc => WorkFrom(c, t, 0) + 2 * c.n + 3
    case FillHead(i) => WorkFrom(c, t, 0) + 2 * (c.n - i) + 2
    case FillStore(i, _) => WorkFrom(c, t, 0) + 2 * (c.n - i) + 1
    case Wait => WorkFrom(c, t, 0) + 1
    case PassHead(k, j) => WorkFrom(c, t, k) - 2 * j
    case Access(k, j, _) => WorkFrom(c, t, k) - 2 * j - 1
    case Raise => 1
    case Done => 0
  }

  function TotalWork(c: Config, s: State, count: nat): int
    requires count <= |s.threads| == |c.jobs|
  {
    if count == 0 then 0 else TotalWork(c, s, count - 1) + Work(c, count - 1, s.threads[count - 1].pc)
  }

  function Measure(c: Config, s: State): int
    requires |s.threads| == |c.jobs|
  {
    TotalWork(c, s, |s.threads|) + if s.fault then 0 else 1
  }

  lemma WorkBounded(c: Config, s: State, t: nat)
    requires t < |s.threads| == |c.jobs| && ThreadOk(c, s, t)
    ensures Work(c, t, s.threads[t].pc) >= 0
  {
  }

  lemma {:induction false} TotalWorkBounded(c: Config, s: State, count: nat)
    requires Inv(c, s) && count <= |s.threads|
    ensures TotalWork(c, s, count) >= 0
  {
    if count > 0 {
      TotalWorkBounded(c, s, count - 1);
      assert ThreadOk(c, s, count - 1);
      WorkBounded(c, s, count - 1);
    }
  }

  lemma {:induction false} TotalWorkUpdate(c: Config, s: State, s': State, t: nat, count: nat)
    requires t < |s.threads| == |s'.threads| == |c.jobs| && count <= |s.threads|
    requires forall u :: 0 <= u < |s.threads| && u != t ==> s'.threads[u] == s.threads[u]
    ensures TotalWork(c, s', count) - TotalWork(c, s, count) ==
            if t < count then Work(c, t, s'.threads[t].pc) - Work(c, t, s.threads[t].pc) else 0
  {
    if count > 0 { TotalWorkUpdate(c, s, s', t, count - 1); }
  }

  /** Thread t cannot move: it is finished, or spins on the closed gate. */
  predicate Idle(s: State, t: nat)
    requires t < |s.threads|
  {
    s.threads[t].pc == Done || (s.threads[t].pc == Wait && !s.canRun)
  }

  /** A step either crashes the process, or moves its thread forward, or is a spin. */
  lemma StepWork(c: Config, s: State, m: Move)
    requires m.tid < |s.threads| == |c.jobs| && !s.fault && ThreadOk(c, s, m.tid) && !Idle(s, m.tid)
    ensures var s' := Step(c, s, m);
            if s'.fault then s'.threads == s.threads
            else Work(c, m.tid, s'.threads[m.tid].pc) < Work(c, m.tid, s.threads[m.tid].pc)
  {
    if BeforePasses(s.threads[m.tid].pc) {
      StepWorkBefore(c, s, m);
    } else {
      StepWorkPasses(c, s, m);
    }
  }

  lemma StepWorkBefore(c: Config, s: State, m: Move)
    requires m.tid < |s.threads| == |c.jobs| && !s.fault && ThreadOk(c, s, m.tid) && !Idle(s, m.tid)
    requires BeforePasses(s.threads[m.tid].pc)
    ensures var s' := Step(c, s, m);
            if s'.fault then s'.threads == s.threads
            else Work(c, m.tid, s'.threads[m.tid].pc) < Work(c, m.tid, s.threads[m.tid].pc)
  {
  }

  lemma StepWorkPasses(c: Config, s: State, m: Move)
    requires m.tid < |s.threads| == |c.jobs| && !s.fault && ThreadOk(c, s, m.tid) && !Idle(s, m.tid)
    requires !BeforePasses(s.threads[m.tid].pc)
    ensures var s' := Step(c, s, m);
            if s'.fault then s'.threads == s.threads
            else Work(c, m.tid, s'.threads[m.tid].pc) < Work(c, m.tid, s.threads[m.tid].pc)
  {
  }

  /** A move that changes nothing: a spin, or the move of a finished or absent thread or of a
      crashed process. */
  predicate Spins(s: State, m: Move) {
    s.fault || m.tid >= |s.threads| || Idle(s, m.tid)
  }

  predicate Decreased(c: Config, s: State, s': State)
    requires |s.threads| == |c.jobs|
  {
    |s'.threads| == |c.jobs| && (s' == s || Measure(c, s') < Measure(c, s))
  }

  /** Every step that changes anything decreases the measure, which is never negative. */
  lemma StepDecreases(c: Config, s: State, m: Move)
    requires Inv(c, s)
    ensures Measure(c, s) >= 0 && Decreased(c, s, Step(c, s, m))
    ensures Step(c, s, m) == s <==> Spins(s, m)
  {
    TotalWorkBounded(c, s, |s.threads|);
    var s' := Step(c, s, m);
    if !s.fault && m.tid < |s.threads| && !Idle(s, m.tid) {
      assert ThreadOk(c, s, m.tid);
      StepWork(c, s, m);
      StepFrame(c, s, m);
      TotalWorkUpdate(c, s, s', m.tid, |s.threads|);
    }
  }

  /** How many moves of a schedule were not spins. */
  function Effective(c: Config, moves: seq<Move>): nat
    decreases |moves|
  {
    if moves == [] then 0
    else
      var before := moves[..|moves| - 1];
      Effective(c, before) + if Exec(c, moves) == Exec(c, before) then 0 else 1
  }

  /** However it is scheduled, a run takes no more than Measure(Init) steps that are not spins. */
  lemma {:induction false} RunsAreBounded(c: Config, moves: seq<Move>)
    ensures Effective(c, moves) + Measure(c, Exec(c, moves)) <= Measure(c, Init(c))
    ensures Effective(c, moves) <= Measure(c, Init(c))
    decreases |moves|
  {
    ExecInv(c, moves);
    TotalWorkBounded(c, Exec(c, moves), |c.jobs|);
    if moves != [] {
      var last := |moves| - 1;
      RunsAreBounded(c, moves[..last]);
      ExecInv(c, moves[..last]);
      StepDecreases(c, Exec(c, moves[..last]), moves[last]);
    }
  }

  /** No thread can do anything but spin. */
  predicate Quiet(s: State) {
    !s.fault && forall t :: 0 <= t < |s.threads| ==> Idle(s, t)
  }

  /** The stuck pairings: id 1 runs t1 or t2 and waits for an id 0 that runs neither. */
  predicate Stuck(c: Config) {
    && |c.jobs| >= 2
    && (c.jobs[1].func == T1 || c.jobs[1].func == T2)
    && c.jobs[0].func != T1 && c.jobs[0].func != T2
  }

  /** A quiet state is the end of the run, or thread 1 waits in vain for a finished thread 0
      whose function never opens the gate. */
  lemma QuietMeansDone(c: Config, s: State)
    requires Inv(c, s) && Quiet(s) && !AllDone(s)
    ensures Stuck(c) && s.threads[1].pc == Wait
    ensures forall t :: 0 <= t < |s.threads| && t != 1 ==> s.threads[t].pc == Done
  {
    forall t | 0 <= t < |s.threads| && s.threads[t].pc != Done
      ensures t == 1 && WaitsAt(c, 1)
    {
      assert Idle(s, t) && ThreadOk(c, s, t);
    }
    var t :| 0 <= t < |s.threads| && s.threads[t].pc != Done;
    assert t == 1 && Idle(s, 1);
    assert s.threads[0].pc == Done && ThreadOk(c, s, 0);
  }

  /** Every array pointer in flight is good and stays good. */
  predicate NoNull(s: State) {
    s.heap != [] && forall t :: 0 <= t < |s.threads| ==> !(s.threads[t].pc.Access? && s.threads[t].pc.p == Null)
  }

  lemma StepNoNull(c: Config, s: State, m: Move)
    requires Inv(c, s) && !s.fault && NoNull(s)
    ensures !Step(c, s, m).fault && NoNull(Step(c, s, m))
  {
    StepInv(c, s, m);
    StepFrame(c, s, m);
    StepFault(c, s, m);
    var s' := Step(c, s, m);
    if m.tid < |s.threads| {
      assert ThreadOk(c, s, m.tid);
      StepLoads(c, s, m);
    }
  }

  lemma StepLoads(c: Config, s: State, m: Move)
    requires m.tid < |s.threads| == |c.jobs| && s.ptr.At?
    requires !(s.threads[m.tid].pc.Access? && s.threads[m.tid].pc.p == Null)
    ensures var pc := Step(c, s, m).threads[m.tid].pc; !(pc.Access? && pc.p == Null)
  {
  }

  /** From a state with good pointers the run can be driven, without a crash, until all is quiet. */
  lemma {:induction false} DriveToQuiet(c: Config, moves: seq<Move>)
    requires !Exec(c, moves).fault && NoNull(Exec(c, moves))
    ensures exists more :: Quiet(Exec(c, more))
    decreases Measure(c, Exec(c, moves)) + 1
  {
    ExecInv(c, moves);
    var s := Exec(c, moves);
    if !Quiet(s) {
      var t :| 0 <= t < |s.threads| && !Idle(s, t);
      var m := Move(t, []);
      StepDecreases(c, s, m);
      StepNoNull(c, s, m);
      ExecSnoc(c, moves, m);
      StepInv(c, s, m);
      TotalWorkBounded(c, Step(c, s, m), |c.jobs|);
      DriveToQuiet(c, moves + [m]);
    }
  }

  /** Thread 0 tests, raises and allocates before anybody else moves. */
  lemma ZeroAllocates(c: Config) returns (moves: seq<Move>)
    requires |c.jobs| > 0
    ensures !Exec(c, moves).fault && NoNull(Exec(c, moves))
  {
    var m := Move(0, []);
    ExecSnoc(c, [], m);
    assert Exec(c, [] + [m]).threads == Init(c).threads[0 := Thread(Set, true)];
    ExecSnoc(c, [] + [m], m);
    assert Exec(c, [] + [m] + [m]).threads == Init(c).threads[0 := Thread(Alloc, true)];
    ExecSnoc(c, [] + [m] + [m], m);
    moves := [] + [m] + [m] + [m];
    assert Exec(c, moves).threads == Init(c).threads[0 := Thread(FillHead(0), true)];
  }

  /** Some run goes quiet with a thread left waiting exactly when id 1 runs t1 or t2 and id 0
      runs a function that never opens the gate. */
  lemma StuckExactlyWhen(c: Config)
    ensures (exists moves :: Quiet(Exec(c, moves)) && !AllDone(Exec(c, moves)))
            <==> Stuck(c)
  {
    if moves: seq<Move> :| Quiet(Exec(c, moves)) && !AllDone(Exec(c, moves)) {
      ExecInv(c, moves);
      QuietMeansDone(c, Exec(c, moves));
    }
    if Stuck(c) {
      var start := ZeroAllocates(c);
      DriveToQuiet(c, start);
      var moves :| Quiet(Exec(c, moves));
      NeverDone(c, moves);
      assert Quiet(Exec(c, moves)) && !AllDone(Exec(c, moves));
    }
  }

  /** In such a pairing no run of any length ever finishes. */
  lemma NeverDone(c: Config, moves: seq<Move>)
    requires Stuck(c)
    ensures !AllDone(Exec(c, moves))
  {
    ExecInv(c, moves);
    var s := Exec(c, moves);
    assert ThreadOk(c, s, 1);
  }

  /** In every other pairing a run that has not crashed and can only spin has finished, and
      some run does finish. */
  lemma OtherwiseFinishes(c: Config, moves: seq<Move>)
    requires |c.jobs| > 0 && !Stuck(c)
    ensures Quiet(Exec(c, moves)) <==> !Exec(c, moves).fault && AllDone(Exec(c, moves))
    ensures exists all :: AllDone(Exec(c, all)) && !Exec(c, all).fault
  {
    ExecInv(c, moves);
    var s := Exec(c, moves);
    if Quiet(s) && !AllDone(s) { QuietMeansDone(c, s); }
    var start := ZeroAllocates(c);
    DriveToQuiet(c, start);
    var all :| Quiet(Exec(c, all));
    ExecInv(c, all);
    if !AllDone(Exec(c, all)) { QuietMeansDone(c, Exec(c, all)); }
  }
}
