/** What each benchmark function does to the shared array, access by access: the loads and stores
    of its measured sweeps in order, observed from the steps of a run and stated by name. */
module ProtocolAccesses {
  import opened Protocol
  import opened ProtocolInvariant

  datatype Op = LoadOf(cell: nat) | StoreOf(cell: nat, value: int)

  // ---------- Observing a run ----------

  /** Thread t's measured access of an allocated cell is the next step. */
  predicate AccessNext(s: State, m: Move, t: nat) {
    && !s.fault && m.tid == t && t < |s.threads| && s.threads[t].pc.Access?
    && Mapped(s, s.threads[t].pc.p, s.threads[t].pc.j)
  }

  /** What the cell would hold after the step if it held v before. */
  function Outcome(c: Config, s: State, m: Move, v: int): int
    requires |s.threads| == |c.jobs| && AccessNext(s, m, m.tid)
  {
    var pc := s.threads[m.tid].pc;
    var r := Step(c, Store(s, pc.p, pc.j, v), m);
    if Mapped(r, pc.p, pc.j) then r.heap[pc.p.id].cells[pc.j] else v
  }

  /** A load leaves the cell as it was, whatever that is; a store leaves what it stores. */
  function Observe(c: Config, s: State, m: Move): Op
    requires |s.threads| == |c.jobs| && AccessNext(s, m, m.tid)
  {
    var j := s.threads[m.tid].pc.j;
    if Outcome(c, s, m, -1) == -1 && Outcome(c, s, m, -2) == -2 then LoadOf(j) else StoreOf(j, Outcome(c, s, m, -1))
  }

  /** The measured accesses thread t makes in a run. */
  function AccessLog(c: Config, moves: seq<Move>, t: nat): seq<Op>
    decreases |moves|
  {
    if moves == [] then []
    else
      var last := |moves| - 1;
      var s := Exec(c, moves[..last]);
      AccessLog(c, moves[..last], t)
      + if AccessNext(s, moves[last], t) then [Observe(c, s, moves[last])] else []
  }

  // ---------- What is promised, function by function ----------

  function Times(count: nat, sweep: seq<Op>): seq<Op> {
    if count == 0 then [] else Times(count - 1, sweep) + sweep
  }

  function Loads(n: nat): seq<Op> {
    seq(n, j requires j >= 0 => LoadOf(j))
  }

  function Stores(n: nat): seq<Op> {
    seq(n, j requires j >= 0 => StoreOf(j, j))
  }

  function SuccStores(n: nat): seq<Op> {
    seq(n, j requires j >= 0 => StoreOf(j, j + 1))
  }

  /** t1 loads n modulo 2^32 cells in every sweep, all others go over all n. */
  function Promised(job: Job, n: nat): seq<Op> {
    match job.func
    case T1 => Times(job.iterations, Loads(n % 0x1_0000_0000))
    case T2 => Times(job.iterations / 2, Loads(n)) + Stores(n) + Times(job.iterations / 2, Loads(n))
    case T3 => Times(9, Loads(n)) + Stores(n)
    case T4 => Stores(n) + Times(9, Loads(n))
    case WriteAll => Times(job.iterations, SuccStores(n))
  }

  // ---------- One access ----------

  function OpOf(pass: Pass, j: nat): Op {
    match pass
    case Read => LoadOf(j)
    case WriteIndex => StoreOf(j, j)
    case WriteSucc => StoreOf(j, j + 1)
  }

  lemma OutcomeIs(c: Config, s: State, m: Move, v: int)
    requires |s.threads| == |c.jobs| && AccessNext(s, m, m.tid)
    requires s.threads[m.tid].pc.k < |Passes(c.jobs[m.tid])|
    ensures var pc := s.threads[m.tid].pc;
            Outcome(c, s, m, v) == match Passes(c.jobs[m.tid])[pc.k]
                                   case Read => v
                                   case WriteIndex => pc.j
                                   case WriteSucc => pc.j + 1
  {
    hide Passes;
  }

  lemma ObserveIs(c: Config, s: State, m: Move)
    requires |s.threads| == |c.jobs| && AccessNext(s, m, m.tid)
    requires s.threads[m.tid].pc.k < |Passes(c.jobs[m.tid])|
    ensures Observe(c, s, m) == OpOf(Passes(c.jobs[m.tid])[s.threads[m.tid].pc.k], s.threads[m.tid].pc.j)
  {
    hide Passes, Outcome;
    OutcomeIs(c, s, m, -1);
    OutcomeIs(c, s, m, -2);
  }

  /** The observation is complete: the step changes the heap as the operation says, and no more. */
  lemma ObservedExactly(c: Config, s: State, m: Move)
    requires Inv(c, s) && AccessNext(s, m, m.tid)
    ensures var pc := s.threads[m.tid].pc;
            Step(c, s, m).heap == match Observe(c, s, m)
                                  case LoadOf(_) => s.heap
                                  case StoreOf(_, v) => Store(s, pc.p, pc.j, v).heap
  {
    assert ThreadOk(c, s, m.tid);
    ObserveIs(c, s, m);
    hide Passes, Observe;
  }

  // ---------- The log of a run ----------

  function SweepOps(pass: Pass, count: nat): seq<Op> {
    seq(count, j requires j >= 0 => OpOf(pass, j))
  }

  /** The operations of the first k sweeps of thread t. */
  function OpsOf(c: Config, t: nat, k: nat): seq<Op>
    requires t < |c.jobs| && k <= |Passes(c.jobs[t])|
  {
    if k == 0 then []
    else OpsOf(c, t, k - 1) + SweepOps(Passes(c.jobs[t])[k - 1], Limit(c.jobs[t].func, c.n))
  }

  /** The operations thread t has behind it at pc. */
  function OpsUpTo(c: Config, t: nat, pc: Pc): seq<Op>
    requires t < |c.jobs|
  {
    var passes := Passes(c.jobs[t]);
    match pc
    case PassHead(k, j) => if k < |passes| then OpsOf(c, t, k) + SweepOps(passes[k], j) else OpsOf(c, t, |passes|)
    case Access(k, j, _) => if k < |passes| then OpsOf(c, t, k) + SweepOps(passes[k], j) else []
    case Raise => OpsOf(c, t, |passes|)
    case Done => OpsOf(c, t, |passes|)
    case _ => []
  }

  lemma SweepSnoc(pass: Pass, j: nat)
    ensures SweepOps(pass, j + 1) == SweepOps(pass, j) + [OpOf(pass, j)]
    ensures SweepOps(pass, 0) == []
  {
  }

  /** A step of thread t adds to its operations exactly the access it makes. */
  lemma StepOps(c: Config, s: State, m: Move)
    requires Inv(c, s) && m.tid < |s.threads|
    ensures |Step(c, s, m).threads| == |s.threads|
    ensures OpsUpTo(c, m.tid, Step(c, s, m).threads[m.tid].pc)
            == OpsUpTo(c, m.tid, s.threads[m.tid].pc)
               + if AccessNext(s, m, m.tid) then [Observe(c, s, m)] else []
  {
    var t := m.tid;
    assert ThreadOk(c, s, t);
    if BeforePasses(s.threads[t].pc) {
      StepOpsBefore(c, s, m);
    } else if s.threads[t].pc.Access? {
      StepOpsAccess(c, s, m);
    } else {
      StepOpsElse(c, s, m);
    }
  }

  lemma StepOpsBefore(c: Config, s: State, m: Move)
    requires |s.threads| == |c.jobs| && m.tid < |s.threads| && BeforePasses(s.threads[m.tid].pc)
    ensures |Step(c, s, m).threads| == |s.threads|
    ensures OpsUpTo(c, m.tid, Step(c, s, m).threads[m.tid].pc) == []
    ensures OpsUpTo(c, m.tid, s.threads[m.tid].pc) == []
  {
    hide Passes, SweepOps;
    if |Passes(c.jobs[m.tid])| > 0 { SweepSnoc(Passes(c.jobs[m.tid])[0], 0); }
  }

  lemma StepOpsAccess(c: Config, s: State, m: Move)
    requires |s.threads| == |c.jobs| && m.tid < |s.threads| && ThreadOk(c, s, m.tid) && s.threads[m.tid].pc.Access?
    ensures |Step(c, s, m).threads| == |s.threads|
    ensures OpsUpTo(c, m.tid, Step(c, s, m).threads[m.tid].pc)
            == OpsUpTo(c, m.tid, s.threads[m.tid].pc)
               + if AccessNext(s, m, m.tid) then [Observe(c, s, m)] else []
  {
    hide Passes, SweepOps, Observe, OpsOf;
    var pc := s.threads[m.tid].pc;
    SweepSnoc(Passes(c.jobs[m.tid])[pc.k], pc.j);
    if AccessNext(s, m, m.tid) { ObserveIs(c, s, m); }
  }

  lemma StepOpsElse(c: Config, s: State, m: Move)
    requires |s.threads| == |c.jobs| && m.tid < |s.threads| && ThreadOk(c, s, m.tid)
    requires !BeforePasses(s.threads[m.tid].pc) && !s.threads[m.tid].pc.Access?
    ensures |Step(c, s, m).threads| == |s.threads|
    ensures OpsUpTo(c, m.tid, Step(c, s, m).threads[m.tid].pc) == OpsUpTo(c, m.tid, s.threads[m.tid].pc)
  {
    hide Passes, SweepOps;
    var count := |Passes(c.jobs[m.tid])|;
    match s.threads[m.tid].pc
    case PassHead(k, j) =>
      if k + 1 < count { SweepSnoc(Passes(c.jobs[m.tid])[k + 1], 0); }
    case _ =>
  }

  lemma {:induction false} LogIs(c: Config, moves: seq<Move>, t: nat)
    requires t < |c.jobs|
    ensures AccessLog(c, moves, t) == OpsUpTo(c, t, Exec(c, moves).threads[t].pc)
    decreases |moves|
  {
    if moves != [] {
      var last := |moves| - 1;
      var s := Exec(c, moves[..last]);
      LogIs(c, moves[..last], t);
      ExecInv(c, moves[..last]);
      hide Step, Observe, OpsUpTo, Passes;
      if moves[last].tid == t {
        StepOps(c, s, moves[last]);
      } else {
        StepFrame(c, s, moves[last]);
      }
    }
  }

  // ---------- The promise ----------

  lemma {:induction false} OpsOfRepeated(c: Config, t: nat, from: nat, count: nat, pass: Pass, sweep: seq<Op>)
    requires t < |c.jobs| && from + count <= |Passes(c.jobs[t])|
    requires forall k :: from <= k < from + count ==> Passes(c.jobs[t])[k] == pass
    requires sweep == SweepOps(pass, Limit(c.jobs[t].func, c.n))
    ensures OpsOf(c, t, from + count) == OpsOf(c, t, from) + Times(count, sweep)
    decreases count
  {
    hide Passes, SweepOps;
    if count > 0 {
      OpsOfRepeated(c, t, from, count - 1, pass, sweep);
      assert OpsOf(c, t, from + count) == OpsOf(c, t, from + count - 1) + sweep;
    }
  }

  lemma SweepsByName(n: nat)
    ensures SweepOps(Read, n) == Loads(n) && SweepOps(WriteIndex, n) == Stores(n)
    ensures SweepOps(WriteSucc, n) == SuccStores(n)
  {
  }

  lemma OpsAreAsPromised(c: Config, t: nat)
    requires t < |c.jobs|
    ensures OpsOf(c, t, |Passes(c.jobs[t])|) == Promised(c.jobs[t], c.n)
  {
    hide SweepOps, Loads, Stores, SuccStores, Times, OpsOf;
    var job := c.jobs[t];
    var n := Limit(job.func, c.n);
    SweepsByName(n);
    NoOps(c, t);
    match job.func
    case T1 => OpsOfRepeated(c, t, 0, job.iterations, Read, Loads(n));
    case WriteAll => OpsOfRepeated(c, t, 0, job.iterations, WriteSucc, SuccStores(n));
    case T3 =>
      OpsOfRepeated(c, t, 0, 9, Read, Loads(n));
      OneMoreSweep(c, t, 9);
    case T4 =>
      OneMoreSweep(c, t, 0);
      OpsOfRepeated(c, t, 1, 9, Read, Loads(n));
    case T2 =>
      var half := job.iterations / 2;
      OpsOfRepeated(c, t, 0, half, Read, Loads(n));
      OneMoreSweep(c, t, half);
      OpsOfRepeated(c, t, half + 1, half, Read, Loads(n));
  }

  lemma NoOps(c: Config, t: nat)
    requires t < |c.jobs|
    ensures OpsOf(c, t, 0) == []
  {
  }

  lemma OneMoreSweep(c: Config, t: nat, k: nat)
    requires t < |c.jobs| && k < |Passes(c.jobs[t])|
    ensures OpsOf(c, t, k + 1) == OpsOf(c, t, k) + SweepOps(Passes(c.jobs[t])[k], Limit(c.jobs[t].func, c.n))
  {
  }

  /** In every run, among any other threads, a thread that has finished has made exactly the loads
      and stores its function promises, in their order: t1 loads every cell in each iteration, t2
      and t3 and t4 mix load sweeps with one sweep that stores j in cell j, the write benchmark
      stores j + 1. */
  lemma AccessesInOrder(c: Config, moves: seq<Move>, t: nat)
    requires t < |c.jobs| && Exec(c, moves).threads[t].pc == Done
    ensures AccessLog(c, moves, t) == Promised(c.jobs[t], c.n)
  {
    hide Passes, Promised, AccessLog, Exec, OpsOf;
    LogIs(c, moves, t);
    OpsAreAsPromised(c, t);
  }

  /** A thread of t1 stores nothing outside its setup block. */
  lemma T1OnlyLoads(c: Config, s: State, m: Move)
    requires Inv(c, s) && m.tid < |s.threads| && c.jobs[m.tid].func == T1
    requires !InSetup(s, m.tid)
    ensures Step(c, s, m).heap == s.heap
  {
    assert ThreadOk(c, s, m.tid);
  }
}
