/** Once the setup is over the array stays put, and the benchmark loops only ever move its
    cells towards their final contents. */
module ProtocolStable {
  import opened Protocol
  import opened ProtocolInvariant
  import opened ProtocolCells

  /** An array is published and no thread is inside its setup block. */
  predicate SetupOver(c: Config, s: State) {
    Inv(c, s) && s.heap != [] && forall t :: 0 <= t < |s.threads| ==> !InSetup(s, t)
  }

  lemma StepSetupOver(c: Config, s: State, m: Move)
    requires SetupOver(c, s)
    ensures SetupOver(c, Step(c, s, m)) && !Allocates(s, m)
  {
    StepInv(c, s, m);
    StepFrame(c, s, m);
    var owner := s.heap[|s.heap| - 1].owner;
    assert owner in AllocSet(s) && ThreadOk(c, s, owner);
    var s' := Step(c, s, m);
    assert m.tid < |s.threads| ==> !InSetup(s, m.tid);
    forall t | 0 <= t < |s.threads|
      ensures !InSetup(s', t)
    {
      assert !InSetup(s, t);
    }
    StepBlocks(c, s, m);
  }

  lemma {:induction false} ExecSetupOver(c: Config, s: State, moves: seq<Move>)
    requires SetupOver(c, s)
    ensures var r := ExecFrom(c, s, moves);
            SetupOver(c, r) && r.ptr == s.ptr && |r.heap| == |s.heap|
    decreases |moves|
  {
    if moves != [] {
      var last := |moves| - 1;
      ExecSetupOver(c, s, moves[..last]);
      var r := ExecFrom(c, s, moves[..last]);
      StepSetupOver(c, r, moves[last]);
      StepBlocks(c, r, moves[last]);
    }
  }

  /** t1 to t4: from a filled array, every interleaving keeps j in cell j. */
  lemma {:induction false} IndexLoopsKeepCells(c: Config, s: State, moves: seq<Move>)
    requires SetupOver(c, s) && IndexOnly(c)
    requires forall j :: 0 <= j < c.n ==> Current(s)[j] == j
    ensures var r := ExecFrom(c, s, moves);
            SetupOver(c, r) && r.ptr == s.ptr && forall j :: 0 <= j < c.n ==> Current(r)[j] == j
    decreases |moves|
  {
    ExecSetupOver(c, s, moves);
    if moves != [] {
      var last := |moves| - 1;
      IndexLoopsKeepCells(c, s, moves[..last]);
      var r := ExecFrom(c, s, moves[..last]);
      ExecSetupOver(c, s, moves[..last]);
      assert IndexInv(c, r);
      StepIndexInv(c, r, moves[last]);
      FilledOutsideSetup(c, Step(c, r, moves[last]));
    }
  }

  predicate WritersOnly(c: Config) {
    forall t :: 0 <= t < |c.jobs| ==> c.jobs[t].func == WriteAll
  }

  predicate Settled(s: State, j: nat)
    requires s.heap != [] && j < |Current(s)|
  {
    Current(s)[j] == j + 1
  }

  /** Outside the setup, a step of the write benchmark leaves a cell alone or settles it. */
  lemma StepWriters(c: Config, s: State, m: Move, j: nat)
    requires SetupOver(c, s) && WritersOnly(c) && j < c.n
    ensures var s' := Step(c, s, m);
            SetupOver(c, s') && (Current(s')[j] == Current(s)[j] || Settled(s', j))
  {
    StepSetupOver(c, s, m);
    StepCell(c, s, m, j);
    if m.tid < |s.threads| {
      assert !InSetup(s, m.tid) && c.jobs[m.tid].func == WriteAll;
    }
  }

  /** The write benchmark: cells stay in {j, j + 1} and never go back from j + 1. */
  lemma {:induction false} WriteLoopsMonotone(c: Config, s: State, moves: seq<Move>, j: nat)
    requires SetupOver(c, s) && WritersOnly(c) && j < c.n
    ensures var r := ExecFrom(c, s, moves);
            && SetupOver(c, r) && r.ptr == s.ptr
            && (Current(r)[j] == Current(s)[j] || Settled(r, j))
            && (Settled(s, j) ==> Settled(r, j))
    decreases |moves|
  {
    ExecSetupOver(c, s, moves);
    if moves != [] {
      var last := |moves| - 1;
      WriteLoopsMonotone(c, s, moves[..last], j);
      StepWriters(c, ExecFrom(c, s, moves[..last]), moves[last], j);
    }
  }

  /** Thread t is past its pass k. */
  predicate PastPass(s: State, t: nat, k: nat)
    requires t < |s.threads|
  {
    match s.threads[t].pc
    case PassHead(k', _) => k' > k
    case Access(k', _, _) => k' > k
    case Raise => true
    case Done => true
    case _ => false
  }

  /** Thread t is in its pass k, which it began after the setup was over, has settled the cells
      behind it, and goes through the current pointer. */
  predicate Sweeping(s: State, t: nat, k: nat)
    requires t < |s.threads| && s.heap != []
  {
    match s.threads[t].pc
    case PassHead(k', i) => k' == k && i <= |Current(s)| && forall j :: 0 <= j < i ==> Settled(s, j)
    case Access(k', i, p) => k' == k && i < |Current(s)| && p == s.ptr && forall j :: 0 <= j < i ==> Settled(s, j)
    case _ => false
  }

  predicate AllSettled(s: State)
    requires s.heap != []
  {
    forall j :: 0 <= j < |Current(s)| ==> Settled(s, j)
  }

  lemma StepSweep(c: Config, s: State, m: Move, t: nat, k: nat)
    requires SetupOver(c, s) && WritersOnly(c) && t < |s.threads| && k < |Passes(c.jobs[t])|
    requires Sweeping(s, t, k) || (PastPass(s, t, k) && AllSettled(s))
    ensures var s' := Step(c, s, m);
            SetupOver(c, s') && (Sweeping(s', t, k) || (PastPass(s', t, k) && AllSettled(s')))
  {
    var s' := Step(c, s, m);
    StepSetupOver(c, s, m);
    StepFrame(c, s, m);
    StepSameHeap(c, s, m);
    forall j: nat | j < c.n && Settled(s, j)
      ensures Settled(s', j)
    {
      StepWriters(c, s, m, j);
    }
    if t == m.tid {
      assert ThreadOk(c, s, t) && c.jobs[t].func == WriteAll;
      if s.threads[t].pc.Access? { StepCell(c, s, m, s.threads[t].pc.j); }
      SweepSelf(c, s, m, k);
    }
  }

  /** The sweeping thread itself: its access settles its cell, and the end of the loop is
      reached only with every cell settled. */
  lemma SweepSelf(c: Config, s: State, m: Move, k: nat)
    requires m.tid < |s.threads| == |c.jobs| && c.jobs[m.tid].func == WriteAll && k < |Passes(c.jobs[m.tid])|
    requires s.heap != [] && |Current(s)| == c.n && ThreadOk(c, s, m.tid)
    requires Sweeping(s, m.tid, k) || (PastPass(s, m.tid, k) && AllSettled(s))
    requires var s' := Step(c, s, m);
             && s'.heap != [] && s'.ptr == s.ptr && |Current(s')| == c.n
             && (forall j :: 0 <= j < c.n && Settled(s, j) ==> Settled(s', j))
             && (s.threads[m.tid].pc.Access? && StoresCurrent(c, s, m, s.threads[m.tid].pc.j, s.threads[m.tid].pc.j + 1)
                 ==> Settled(s', s.threads[m.tid].pc.j))
    ensures var s' := Step(c, s, m);
            Sweeping(s', m.tid, k) || (PastPass(s', m.tid, k) && AllSettled(s'))
  {
  }

  lemma {:induction false} ExecSweep(c: Config, s: State, moves: seq<Move>, t: nat, k: nat)
    requires SetupOver(c, s) && WritersOnly(c) && t < |s.threads| && k < |Passes(c.jobs[t])|
    requires s.threads[t].pc == PassHead(k, 0)
    ensures var r := ExecFrom(c, s, moves);
            SetupOver(c, r) && (Sweeping(r, t, k) || (PastPass(r, t, k) && AllSettled(r)))
    decreases |moves|
  {
    if moves != [] {
      var last := |moves| - 1;
      ExecSweep(c, s, moves[..last], t, k);
      StepSweep(c, ExecFrom(c, s, moves[..last]), moves[last], t, k);
    }
  }

  /** As soon as one thread has completed one pass begun after the setup, every cell holds
      j + 1, and that stays so whatever is scheduled afterwards. */
  lemma OnePassSettlesForGood(c: Config, s: State, t: nat, k: nat, sweep: seq<Move>, later: seq<Move>)
    requires SetupOver(c, s) && WritersOnly(c) && t < |s.threads| && k < |Passes(c.jobs[t])|
    requires s.threads[t].pc == PassHead(k, 0)
    requires PastPass(ExecFrom(c, s, sweep), t, k)
    ensures var r := ExecFrom(c, ExecFrom(c, s, sweep), later);
            r.heap != [] && r.ptr == s.ptr && |Current(r)| == c.n && AllSettled(r)
  {
    ExecSetupOver(c, s, sweep);
    ExecSweep(c, s, sweep, t, k);
    var mid := ExecFrom(c, s, sweep);
    var r := ExecFrom(c, mid, later);
    ExecSetupOver(c, mid, later);
    forall j | 0 <= j < c.n
      ensures Settled(r, j)
    {
      assert Settled(mid, j);
      WriteLoopsMonotone(c, mid, later, j);
    }
  }
}
