/** Contents of the shared array: which cells are right, and who still owes a write to the
    ones that are not. */
module ProtocolCells {
  import opened Protocol
  import opened ProtocolInvariant

  /** The array the shared pointer designates. */
  function Current(s: State): seq<int>
    requires s.heap != []
  {
    s.heap[|s.heap| - 1].cells
  }

  /** This move stores v in cell j of the current array. */
  predicate StoresCurrent(c: Config, s: State, m: Move, j: nat, v: int)
    requires |s.threads| == |c.jobs|
  {
    && !s.fault && m.tid < |s.threads|
    && match s.threads[m.tid].pc
       case FillStore(i, p) => i == j && p == s.ptr && v == j
       case Access(k, i, p) => i == j && p == s.ptr && k < |Passes(c.jobs[m.tid])|
                               && Passes(c.jobs[m.tid])[k] != Read
                               && v == (if Passes(c.jobs[m.tid])[k] == WriteIndex then j else j + 1)
       case _ => false
  }

  /** Unless the move allocates, the current array stays current, and its cell j changes only
      by a store through the current pointer. */
  lemma StepCell(c: Config, s: State, m: Move, j: nat)
    requires |s.threads| == |c.jobs| && HeapShape(c, s) && s.heap != [] && j < c.n
    requires !Allocates(s, m)
    ensures var s' := Step(c, s, m);
            && s'.ptr == s.ptr && |s'.heap| == |s.heap| && HeapShape(c, s')
            && s'.heap[|s.heap| - 1].owner == s.heap[|s.heap| - 1].owner
            && (Current(s')[j] == Current(s)[j] || StoresCurrent(c, s, m, j, Current(s')[j]))
            && (forall v :: StoresCurrent(c, s, m, j, v) ==> Current(s')[j] == v)
  {
    StepBlocks(c, s, m);
    StepOneCell(c, s, m, j);
  }

  lemma StepOneCell(c: Config, s: State, m: Move, j: nat)
    requires |s.threads| == |c.jobs| && HeapShape(c, s) && s.heap != [] && j < c.n
    requires !Allocates(s, m)
    requires |Step(c, s, m).heap| == |s.heap| && |Current(Step(c, s, m))| == c.n
    ensures var s' := Step(c, s, m);
            && (Current(s')[j] == Current(s)[j] || StoresCurrent(c, s, m, j, Current(s')[j]))
            && (forall v :: StoresCurrent(c, s, m, j, v) ==> Current(s')[j] == v)
  {
  }

  // ---------- Programs that only ever store j in cell j ----------

  predicate IndexOnly(c: Config) {
    forall t, k :: 0 <= t < |c.jobs| && 0 <= k < |Passes(c.jobs[t])| ==> Passes(c.jobs[t])[k] != WriteSucc
  }

  /** Thread t will still fill cell j of the current array. */
  predicate WillFill(s: State, t: nat, j: nat) {
    && t < |s.threads|
    && match s.threads[t].pc
       case FillHead(i) => i <= j
       case FillStore(i, p) => i <= j && p == s.ptr
       case _ => false
  }

  predicate IndexCell(s: State, j: nat)
    requires s.heap != [] && j < |Current(s)|
  {
    Current(s)[j] == j || WillFill(s, s.heap[|s.heap| - 1].owner, j)
  }

  /** Cell j of the current array holds j, or the allocator of that array still owes it. */
  predicate IndexInv(c: Config, s: State) {
    s.heap != [] ==> |Current(s)| == c.n && forall j :: 0 <= j < c.n ==> IndexCell(s, j)
  }

  lemma StepIndexCell(c: Config, s: State, m: Move, j: nat)
    requires Inv(c, s) && IndexOnly(c) && s.heap != [] && j < c.n && IndexCell(s, j)
    requires !Allocates(s, m)
    requires |Step(c, s, m).heap| == |s.heap| && |Current(Step(c, s, m))| == c.n
    ensures IndexCell(Step(c, s, m), j)
  {
    StepCell(c, s, m, j);
    StepFrame(c, s, m);
    var s' := Step(c, s, m);
    var owner := s.heap[|s.heap| - 1].owner;
    if Current(s')[j] != j {
      assert !StoresCurrent(c, s, m, j, Current(s')[j]);
      assert !StoresCurrent(c, s, m, j, j);
      assert ThreadOk(c, s, owner);
    }
  }

  lemma StepIndexInv(c: Config, s: State, m: Move)
    requires Inv(c, s) && IndexOnly(c) && IndexInv(c, s)
    ensures IndexInv(c, Step(c, s, m))
  {
    var s' := Step(c, s, m);
    StepBlocks(c, s, m);
    if !Allocates(s, m) {
      forall j | 0 <= j < c.n && s.heap != []
        ensures IndexCell(s', j)
      {
        StepIndexCell(c, s, m, j);
      }
    }
  }

  lemma {:induction false} ExecIndexInv(c: Config, moves: seq<Move>)
    requires IndexOnly(c)
    ensures Inv(c, Exec(c, moves)) && IndexInv(c, Exec(c, moves))
    decreases |moves|
  {
    ExecInv(c, moves);
    if moves != [] {
      var last := |moves| - 1;
      ExecIndexInv(c, moves[..last]);
      StepIndexInv(c, Exec(c, moves[..last]), moves[last]);
    }
  }

  /** With nobody in the setup block and an array published, every cell j holds j. */
  lemma FilledOutsideSetup(c: Config, s: State)
    requires Inv(c, s) && IndexInv(c, s) && s.heap != []
    requires forall t :: 0 <= t < |s.threads| ==> !InSetup(s, t)
    ensures forall j :: 0 <= j < c.n ==> Current(s)[j] == j
  {
    forall j | 0 <= j < c.n
      ensures Current(s)[j] == j
    {
      assert IndexCell(s, j);
      var owner := s.heap[|s.heap| - 1].owner;
      assert owner in AllocSet(s) && !InSetup(s, owner);
    }
  }

  // ---------- The write benchmark ----------

  predicate AllWrite(c: Config) {
    forall t :: 0 <= t < |c.jobs| ==> c.jobs[t].func == WriteAll && c.jobs[t].iterations >= 1
  }

  /** Thread t still owes cell j of the current array a store of j + 1. */
  predicate Owes(c: Config, s: State, t: nat, j: nat)
    requires |s.threads| == |c.jobs|
  {
    && t < |s.threads|
    && match s.threads[t].pc
       case PassHead(k, i) => k + 1 < |Passes(c.jobs[t])| || (k + 1 == |Passes(c.jobs[t])| && i <= j)
       case Access(k, i, p) => k + 1 < |Passes(c.jobs[t])| || i < j || (i == j && p == s.ptr)
       case Raise => false
       case Done => false
       case _ => true
  }

  predicate SuccCell(c: Config, s: State, j: nat)
    requires |s.threads| == |c.jobs| && s.heap != [] && j < |Current(s)|
  {
    Current(s)[j] == j + 1 || exists t :: 0 <= t < |s.threads| && Owes(c, s, t, j)
  }

  /** Any cell of the current array that is not yet j + 1 has a thread that owes it that write. */
  predicate SuccInv(c: Config, s: State)
    requires |s.threads| == |c.jobs|
  {
    s.heap != [] ==> |Current(s)| == c.n && forall j :: 0 <= j < c.n ==> SuccCell(c, s, j)
  }

  /** A thread keeps owing a cell until it stores j + 1 there. */
  lemma StepOwes(c: Config, s: State, m: Move, t: nat, j: nat)
    requires Inv(c, s) && AllWrite(c) && s.heap != [] && j < c.n && !Allocates(s, m)
    requires Owes(c, s, t, j)
    ensures Owes(c, Step(c, s, m), t, j) || StoresCurrent(c, s, m, j, j + 1)
  {
    StepFrame(c, s, m);
    StepCell(c, s, m, j);
    assert ThreadOk(c, s, t);
    if t == m.tid { StepOwesSelf(c, s, m, j); }
  }

  lemma StepOwesSelf(c: Config, s: State, m: Move, j: nat)
    requires |s.threads| == |c.jobs| && m.tid < |s.threads| && ThreadOk(c, s, m.tid)
    requires AllWrite(c) && j < c.n && s.heap != [] && !Allocates(s, m)
    requires Owes(c, s, m.tid, j) && Step(c, s, m).ptr == s.ptr
    ensures Owes(c, Step(c, s, m), m.tid, j) || StoresCurrent(c, s, m, j, j + 1)
  {
    assert c.jobs[m.tid].func == WriteAll;
  }

  lemma StepSuccCell(c: Config, s: State, m: Move, j: nat)
    requires Inv(c, s) && AllWrite(c) && s.heap != [] && j < c.n && SuccCell(c, s, j)
    requires !Allocates(s, m)
    requires |Step(c, s, m).heap| == |s.heap| && |Current(Step(c, s, m))| == c.n
    ensures SuccCell(c, Step(c, s, m), j)
  {
    StepCell(c, s, m, j);
    var s' := Step(c, s, m);
    if Current(s')[j] != j + 1 {
      assert !StoresCurrent(c, s, m, j, j + 1);
      if Current(s)[j] == j + 1 {
        // only the filling loop stores j, and its thread has all its sweeps ahead
        assert StoresCurrent(c, s, m, j, Current(s')[j]);
        StoreOtherOwes(c, s, m, j, Current(s')[j]);
      } else {
        var t :| 0 <= t < |s.threads| && Owes(c, s, t, j);
        StepOwes(c, s, m, t, j);
      }
    }
  }

  lemma StoreOtherOwes(c: Config, s: State, m: Move, j: nat, v: int)
    requires Inv(c, s) && AllWrite(c)
    requires StoresCurrent(c, s, m, j, v) && v != j + 1
    ensures Owes(c, Step(c, s, m), m.tid, j)
  {
    assert ThreadOk(c, s, m.tid);
    assert c.jobs[m.tid].func == WriteAll;
  }

  lemma StepSuccInv(c: Config, s: State, m: Move)
    requires Inv(c, s) && AllWrite(c) && SuccInv(c, s)
    ensures SuccInv(c, Step(c, s, m))
  {
    var s' := Step(c, s, m);
    StepBlocks(c, s, m);
    if Allocates(s, m) {
      forall j | 0 <= j < c.n
        ensures SuccCell(c, s', j)
      {
        assert Owes(c, s', m.tid, j);
      }
    } else {
      forall j | 0 <= j < c.n && s.heap != []
        ensures SuccCell(c, s', j)
      {
        StepSuccCell(c, s, m, j);
      }
    }
  }

  lemma {:induction false} ExecSuccInv(c: Config, moves: seq<Move>)
    requires AllWrite(c)
    ensures Inv(c, Exec(c, moves)) && SuccInv(c, Exec(c, moves))
    decreases |moves|
  {
    ExecInv(c, moves);
    if moves != [] {
      var last := |moves| - 1;
      ExecSuccInv(c, moves[..last]);
      StepSuccInv(c, Exec(c, moves[..last]), moves[last]);
    }
  }

  // ---------- Final contents ----------

  /** A finished thread saw the flag up, so some array has been published. */
  lemma DoneHasArray(c: Config, s: State)
    requires Inv(c, s) && AllDone(s) && |s.threads| > 0
    ensures s.heap != []
  {
    assert ThreadOk(c, s, 0);
  }

  /** The write benchmark, any number of threads, any interleaving, several racing
      initialisers included: once every thread has finished, cell j holds j + 1. */
  lemma WriteBenchmarkResult(c: Config, moves: seq<Move>)
    requires AllWrite(c) && |c.jobs| > 0 && AllDone(Exec(c, moves))
    ensures var s := Exec(c, moves);
            && s.heap != [] && s.ptr == At(|s.heap| - 1) && |Current(s)| == c.n
            && forall j :: 0 <= j < c.n ==> Current(s)[j] == j + 1
  {
    ExecSuccInv(c, moves);
    var s := Exec(c, moves);
    DoneHasArray(c, s);
    forall j | 0 <= j < c.n
      ensures Current(s)[j] == j + 1
    {
      assert SuccCell(c, s, j);
    }
  }

  /** t1 to t4 in any mixture leave j in cell j, and so does the write benchmark when told
      to make no iterations. */
  lemma IndexBenchmarkResult(c: Config, moves: seq<Move>)
    requires forall t :: 0 <= t < |c.jobs| ==> c.jobs[t].func != WriteAll || c.jobs[t].iterations == 0
    requires |c.jobs| > 0 && AllDone(Exec(c, moves))
    ensures var s := Exec(c, moves);
            && s.heap != [] && s.ptr == At(|s.heap| - 1) && |Current(s)| == c.n
            && forall j :: 0 <= j < c.n ==> Current(s)[j] == j
  {
    NoWriterIndexOnly(c);
    ExecIndexInv(c, moves);
    var s := Exec(c, moves);
    DoneHasArray(c, s);
    FilledOutsideSetup(c, s);
  }

  lemma NoWriterIndexOnly(c: Config)
    requires forall t :: 0 <= t < |c.jobs| ==> c.jobs[t].func != WriteAll || c.jobs[t].iterations == 0
    ensures IndexOnly(c)
  {
  }
}
