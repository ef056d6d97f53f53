/** What every step of the benchmark protocol keeps, for any number of threads, any mix of
    benchmark functions, any array length and any interleaving. */
module ProtocolInvariant {
  import opened Protocol

  /** Thread t's loop counters are in range, the pointers it carries are null or live, and its
      position agrees with the shared flags. */
  predicate ThreadOk(c: Config, s: State, t: nat)
    requires t < |s.threads| == |c.jobs|
  {
    var th := s.threads[t];
    var count := |Passes(c.jobs[t])|;
    var limit := Limit(c.jobs[t].func, c.n);
    var past := s.saFlag && (th.initialiser ==> s.heap != []);
    match th.pc
    case Check => !th.initialiser
    case Set => th.initialiser
    case Alloc => th.initialiser && s.saFlag
    case FillHead(i) => th.initialiser && past && i <= c.n
    case FillStore(i, p) => th.initialiser && past && i < c.n && Live(s, p)
    case Wait => past && WaitsAt(c, t)
    case PassHead(k, j) => past && k <= count && j <= limit && (k == count ==> j == 0)
                           && (WaitsAt(c, t) ==> s.canRun)
    case Access(k, j, p) => past && k < count && j < limit && (p.At? ==> Live(s, p))
                            && (th.initialiser ==> p.At?) && (WaitsAt(c, t) ==> s.canRun)
    case Raise => past && RaisesAt(c, t)
    case Done => past && (WaitsAt(c, t) ==> s.canRun) && (RaisesAt(c, t) ==> s.canRun)
  }

  predicate HasAllocated(th: Thread) {
    th.initialiser && !th.pc.Check? && !th.pc.Set? && !th.pc.Alloc?
  }

  function AllocSet(s: State): set<nat> {
    set t: nat | t < |s.threads| && HasAllocated(s.threads[t])
  }

  /** The shared pointer designates the youngest array, and every array has n cells. */
  predicate HeapShape(c: Config, s: State) {
    && s.ptr == (if s.heap == [] then Null else At(|s.heap| - 1))
    && forall b :: 0 <= b < |s.heap| ==> |s.heap[b].cells| == c.n
  }

  /** As many arrays as threads that allocated, each with its owner among them. */
  predicate HeapCount(s: State) {
    && (forall b :: 0 <= b < |s.heap| ==> s.heap[b].owner in AllocSet(s))
    && |s.heap| == |AllocSet(s)|
  }

  predicate FlagsOk(c: Config, s: State)
    requires |s.threads| == |c.jobs|
  {
    && (s.saFlag ==> s.heap != [] || exists t :: 0 <= t < |s.threads| && s.threads[t].pc == Alloc)
    && (s.canRun ==> RaisesAt(c, 0) && s.threads[0].pc == Done)
  }

  /** A crash is always a thread that skipped the setup and went through a null pointer. */
  predicate FaultOk(s: State) {
    s.fault ==> exists t :: 0 <= t < |s.threads| && NullAccess(s.threads[t])
  }

  predicate NullAccess(th: Thread) {
    !th.initialiser && th.pc.Access? && th.pc.p == Null
  }

  predicate Inv(c: Config, s: State) {
    && |s.threads| == |c.jobs|
    && (forall t :: 0 <= t < |s.threads| ==> ThreadOk(c, s, t))
    && HeapShape(c, s)
    && HeapCount(s)
    && FlagsOk(c, s)
    && FaultOk(s)
  }

  lemma InitInv(c: Config)
    ensures Inv(c, Init(c))
  {
    assert AllocSet(Init(c)) == {};
  }

  /** The flags only rise, the heap only grows, and nobody moves but the scheduled thread. */
  lemma StepFrame(c: Config, s: State, m: Move)
    requires |s.threads| == |c.jobs|
    ensures var s' := Step(c, s, m);
            && (s.saFlag ==> s'.saFlag) && (s.canRun ==> s'.canRun) && |s.heap| <= |s'.heap|
            && forall u :: 0 <= u < |s.threads| && u != m.tid ==> s'.threads[u] == s.threads[u]
  {
  }

  /** Thread t has not reached its measured sweeps. */
  predicate BeforePasses(pc: Pc) {
    pc.Check? || pc.Set? || pc.Alloc? || pc.FillHead? || pc.FillStore? || pc.Wait?
  }

  lemma StepThreadBefore(c: Config, s: State, m: Move)
    requires m.tid < |s.threads| == |c.jobs| && HeapShape(c, s)
    requires ThreadOk(c, s, m.tid) && BeforePasses(s.threads[m.tid].pc)
    ensures ThreadOk(c, Step(c, s, m), m.tid)
  {
  }

  lemma StepThreadPasses(c: Config, s: State, m: Move)
    requires m.tid < |s.threads| == |c.jobs| && HeapShape(c, s)
    requires ThreadOk(c, s, m.tid) && !BeforePasses(s.threads[m.tid].pc)
    ensures ThreadOk(c, Step(c, s, m), m.tid)
  {
  }

  lemma StepThreads(c: Config, s: State, m: Move)
    requires Inv(c, s)
    ensures forall t :: 0 <= t < |s.threads| ==> ThreadOk(c, Step(c, s, m), t)
  {
    StepFrame(c, s, m);
    var s' := Step(c, s, m);
    forall t | 0 <= t < |s.threads|
      ensures ThreadOk(c, s', t)
    {
      if t == m.tid {
        if BeforePasses(s.threads[t].pc) { StepThreadBefore(c, s, m); } else { StepThreadPasses(c, s, m); }
      } else { Undisturbed(c, s, s', t); }
    }
  }

  lemma Undisturbed(c: Config, s: State, s': State, t: nat)
    requires t < |s.threads| == |s'.threads| == |c.jobs|
    requires ThreadOk(c, s, t) && s'.threads[t] == s.threads[t]
    requires (s.saFlag ==> s'.saFlag) && (s.canRun ==> s'.canRun) && |s.heap| <= |s'.heap|
    ensures ThreadOk(c, s', t)
  {
  }

  /** Exactly the allocating step changes the set of threads that have allocated. */
  lemma StepAllocSet(c: Config, s: State, m: Move)
    requires Inv(c, s)
    ensures AllocSet(Step(c, s, m)) == AllocSet(s) + if Allocates(s, m) then {m.tid} else {}
    ensures Allocates(s, m) ==> m.tid !in AllocSet(s)
  {
    StepFrame(c, s, m);
    if m.tid < |s.threads| {
      StepAllocated(c, s, m);
      AllocSetUpdate(s, Step(c, s, m), m.tid, Allocates(s, m));
    }
  }

  lemma AllocSetUpdate(s: State, s': State, t: nat, added: bool)
    requires t < |s.threads| == |s'.threads|
    requires forall u :: 0 <= u < |s.threads| && u != t ==> s'.threads[u] == s.threads[u]
    requires HasAllocated(s'.threads[t]) == (HasAllocated(s.threads[t]) || added)
    ensures AllocSet(s') == AllocSet(s) + if added then {t} else {}
  {
  }

  lemma StepAllocated(c: Config, s: State, m: Move)
    requires m.tid < |s.threads| == |c.jobs| && ThreadOk(c, s, m.tid)
    ensures HasAllocated(Step(c, s, m).threads[m.tid]) == (HasAllocated(s.threads[m.tid]) || Allocates(s, m))
  {
  }

  predicate Allocates(s: State, m: Move) {
    !s.fault && m.tid < |s.threads| && s.threads[m.tid].pc == Alloc
  }

  /** The heap grows by an array of the scheduled thread exactly when that thread allocates. */
  lemma StepBlocks(c: Config, s: State, m: Move)
    requires |s.threads| == |c.jobs| && HeapShape(c, s)
    ensures var s' := Step(c, s, m);
            && |s'.heap| == |s.heap| + (if Allocates(s, m) then 1 else 0)
            && (forall b :: 0 <= b < |s.heap| ==> s'.heap[b].owner == s.heap[b].owner)
            && (Allocates(s, m) ==> s'.heap[|s.heap|].owner == m.tid)
            && HeapShape(c, s')
  {
    var s' := Step(c, s, m);
    if !Allocates(s, m) {
      StepSameHeap(c, s, m);
      forall b | 0 <= b < |s.heap|
        ensures s'.heap[b].owner == s.heap[b].owner && |s'.heap[b].cells| == c.n
      {
      }
    }
  }

  /** The heap of s' is that of s with at most some cells overwritten. */
  predicate SameBlocks(s: State, s': State) {
    && s'.ptr == s.ptr && |s'.heap| == |s.heap|
    && forall b :: 0 <= b < |s.heap| ==> SameBlock(s.heap[b], s'.heap[b])
  }

  predicate SameBlock(b: Block, b': Block) {
    b'.owner == b.owner && |b'.cells| == |b.cells|
  }

  lemma StepSameHeap(c: Config, s: State, m: Move)
    requires |s.threads| == |c.jobs| && !Allocates(s, m)
    ensures SameBlocks(s, Step(c, s, m))
  {
  }

  lemma StepHeap(c: Config, s: State, m: Move)
    requires Inv(c, s)
    ensures HeapShape(c, Step(c, s, m)) && HeapCount(Step(c, s, m))
  {
    StepAllocSet(c, s, m);
    StepBlocks(c, s, m);
  }

  lemma StepFlags(c: Config, s: State, m: Move)
    requires Inv(c, s)
    ensures FlagsOk(c, Step(c, s, m))
  {
    StepFrame(c, s, m);
    var s' := Step(c, s, m);
    var t := m.tid;
    if t < |s.threads| {
      assert ThreadOk(c, s, t);
      if !s.fault && s.threads[t].pc == Set {
        assert s'.threads[t].pc == Alloc;
      } else if s.saFlag && s.heap == [] {
        var a :| 0 <= a < |s.threads| && s.threads[a].pc == Alloc;
        assert a == t || s'.threads[a].pc == Alloc;
      }
    }
  }

  lemma StepFault(c: Config, s: State, m: Move)
    requires Inv(c, s)
    ensures FaultOk(Step(c, s, m))
  {
    var s' := Step(c, s, m);
    if s'.fault && !s.fault {
      assert ThreadOk(c, s, m.tid);
      assert NullAccess(s'.threads[m.tid]);
    }
  }

  lemma StepInv(c: Config, s: State, m: Move)
    requires Inv(c, s)
    ensures Inv(c, Step(c, s, m))
  {
    StepThreads(c, s, m);
    StepHeap(c, s, m);
    StepFlags(c, s, m);
    StepFault(c, s, m);
  }

  lemma {:induction false} ExecInv(c: Config, moves: seq<Move>)
    ensures Inv(c, Exec(c, moves))
    decreases |moves|
  {
    if moves == [] {
      InitInv(c);
    } else {
      var last := |moves| - 1;
      ExecInv(c, moves[..last]);
      StepInv(c, Exec(c, moves[..last]), moves[last]);
    }
  }
}
