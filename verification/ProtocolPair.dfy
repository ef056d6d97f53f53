/** The run main sets up: ids 0 and 1, each running t1 or t2. */
module ProtocolPair {
  import opened Protocol
  import opened ProtocolInvariant
  import opened ProtocolCells
  import opened ProtocolHistory

  predicate Pair(c: Config) {
    && |c.jobs| == 2
    && (c.jobs[0].func == T1 || c.jobs[0].func == T2)
    && (c.jobs[1].func == T1 || c.jobs[1].func == T2)
  }

  lemma PairIndexOnly(c: Config)
    requires Pair(c)
    ensures IndexOnly(c)
  {
  }

  /** Whenever thread 1 carries a pointer into a sweep, it is the current one. */
  predicate PairInv(c: Config, s: State)
    requires Pair(c)
  {
    Inv(c, s) && IndexInv(c, s) && (s.threads[1].pc.Access? ==> s.threads[1].pc.p == s.ptr && Live(s, s.ptr))
  }

  /** Thread 1 measures only behind the gate, when thread 0 is finished and an array exists. */
  lemma BehindGate(c: Config, s: State)
    requires Pair(c) && Inv(c, s) && Measuring(c, s, 1)
    ensures s.canRun && s.threads[0].pc == Done && s.heap != [] && Live(s, s.ptr)
    ensures !InSetup(s, 0) && !InSetup(s, 1)
  {
    assert ThreadOk(c, s, 1);
    forall a | 0 <= a < |s.threads|
      ensures s.threads[a].pc != Alloc
    {
      assert a == 0 || a == 1;
    }
  }

  lemma PairFilled(c: Config, s: State)
    requires Pair(c) && Inv(c, s) && IndexInv(c, s) && s.heap != []
    requires !InSetup(s, 0) && !InSetup(s, 1)
    ensures forall j :: 0 <= j < c.n ==> Current(s)[j] == j
  {
    forall t | 0 <= t < |s.threads|
      ensures !InSetup(s, t)
    {
      assert t == 0 || t == 1;
    }
    FilledOutsideSetup(c, s);
  }

  lemma StepPairInv(c: Config, s: State, m: Move)
    requires Pair(c) && PairInv(c, s)
    ensures PairInv(c, Step(c, s, m))
  {
    PairIndexOnly(c);
    StepInv(c, s, m);
    StepIndexInv(c, s, m);
    StepFrame(c, s, m);
    var s' := Step(c, s, m);
    if s'.threads[1].pc.Access? && s' != s {
      if m.tid == 1 {
        assert ThreadOk(c, s, 1) && Measuring(c, s, 1);
      } else {
        assert Measuring(c, s, 1);
      }
      BehindGate(c, s);
    }
  }

  lemma {:induction false} ExecPairInv(c: Config, moves: seq<Move>)
    requires Pair(c)
    ensures PairInv(c, Exec(c, moves))
    decreases |moves|
  {
    InitInv(c);
    if moves != [] {
      var last := |moves| - 1;
      ExecPairInv(c, moves[..last]);
      StepPairInv(c, Exec(c, moves[..last]), moves[last]);
    }
  }

  /** The access thread t is about to make goes to an allocated array all of whose cells i
      hold i. */
  predicate ReadsFilled(c: Config, s: State, t: nat)
    requires t < |s.threads|
  {
    s.threads[t].pc.Access? ==>
      && s.threads[t].pc.j < c.n && Live(s, s.threads[t].pc.p)
      && |s.heap[s.threads[t].pc.p.id].cells| == c.n
      && forall i :: 0 <= i < c.n ==> s.heap[s.threads[t].pc.p.id].cells[i] == i
  }

  /** Every measured access of thread 1 hits a completely filled array, in every run, even when
      both threads found the flag down and both allocated. */
  lemma ThreadOneReadsFilled(c: Config, moves: seq<Move>)
    requires Pair(c)
    ensures ReadsFilled(c, Exec(c, moves), 1)
  {
    ExecPairInv(c, moves);
    var s := Exec(c, moves);
    if s.threads[1].pc.Access? {
      assert ThreadOk(c, s, 1) && Measuring(c, s, 1);
      BehindGate(c, s);
      PairFilled(c, s);
    }
  }

  /** The measured sections of threads 0 and 1 never overlap as soon as thread 1 runs t1 or t2,
      however many other threads there are and whatever they and thread 0 run. */
  lemma MeasurementsDisjoint(c: Config, moves: seq<Move>)
    requires |c.jobs| >= 2 && (c.jobs[1].func == T1 || c.jobs[1].func == T2)
    ensures var s := Exec(c, moves);
            && !(Measuring(c, s, 0) && Measuring(c, s, 1))
            && (Measuring(c, s, 1) ==> s.canRun)
            && (s.canRun ==> s.threads[0].pc == Done)
  {
    ExecInv(c, moves);
    assert ThreadOk(c, Exec(c, moves), 1);
  }

  /** The gate, once open, stays open. */
  lemma {:induction false} GateMonotone(c: Config, s: State, moves: seq<Move>)
    requires |s.threads| == |c.jobs|
    ensures s.canRun ==> ExecFrom(c, s, moves).canRun
    ensures s.saFlag ==> ExecFrom(c, s, moves).saFlag
    decreases |moves|
  {
    if moves != [] {
      var last := |moves| - 1;
      GateMonotone(c, s, moves[..last]);
      StepFrame(c, ExecFrom(c, s, moves[..last]), moves[last]);
    }
  }

  /** A crash of the pair is always thread 0 reading through a null pointer after it skipped
      the setup, thread 1 having raised the flag without having allocated yet. */
  lemma PairFault(c: Config, moves: seq<Move>)
    requires Pair(c) && Exec(c, moves).fault
    ensures NullAccess(Exec(c, moves).threads[0])
    ensures exists k :: 0 <= k < |moves| && SetsAt(c, moves, k) && moves[k].tid == 1
  {
    ExecPairInv(c, moves);
    var s := Exec(c, moves);
    var t :| 0 <= t < |s.threads| && NullAccess(s.threads[t]);
    assert t == 0;
    assert ThreadOk(c, s, 0);
    FlagHistory(c, moves);
    var k :| 0 <= k < |moves| && SetsAt(c, moves, k);
    SetterIsInitialiser(c, moves, k);
  }

  /** If thread 0 raises the flag before thread 1 tests it, the pair never crashes, and every
      measured access of either thread hits an array with i in cell i. */
  lemma ZeroFirstIsSafe(c: Config, moves: seq<Move>)
    requires Pair(c) && SetsFirst(c, moves, 0)
    ensures var s := Exec(c, moves);
            !s.fault && ReadsFilled(c, s, 0) && ReadsFilled(c, s, 1)
  {
    ExecPairInv(c, moves);
    FirstSetterAllocatesAlone(c, moves, 0);
    ThreadOneReadsFilled(c, moves);
    var s := Exec(c, moves);
    assert ThreadOk(c, s, 0);
    if s.fault { PairFault(c, moves); }
    if s.threads[0].pc.Access? { ZeroReadsFilled(c, s); }
  }

  lemma ZeroReadsFilled(c: Config, s: State)
    requires Pair(c) && PairInv(c, s) && s.threads[0].pc.Access? && SoleInitialiser(s, 0)
    ensures ReadsFilled(c, s, 0)
  {
    assert ThreadOk(c, s, 0) && ThreadOk(c, s, 1);
    SoleAllocator(s, 0);
    PairFilled(c, s);
  }
}
