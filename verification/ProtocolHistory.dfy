/** Who allocates: relating the shared flag to the order of the tests and sets in a run. */
module ProtocolHistory {
  import opened Protocol
  import opened ProtocolInvariant
  import opened FiniteSets

  /** Move k of the run executes the statement at `pc` (for a pc that is not a spin). */
  predicate ExecutesAt(c: Config, moves: seq<Move>, k: nat, pc: Pc)
    requires k < |moves|
  {
    var s := Exec(c, moves[..k]);
    !s.fault && moves[k].tid < |s.threads| && s.threads[moves[k].tid].pc == pc
  }

  /** Move k tests sa_flag. */
  predicate ChecksAt(c: Config, moves: seq<Move>, k: nat)
    requires k < |moves|
  {
    ExecutesAt(c, moves, k, Check)
  }

  /** Move k raises sa_flag. */
  predicate SetsAt(c: Config, moves: seq<Move>, k: nat)
    requires k < |moves|
  {
    ExecutesAt(c, moves, k, Set)
  }

  predicate NoSetBefore(c: Config, moves: seq<Move>, k: nat)
    requires k <= |moves|
  {
    forall m :: 0 <= m < k ==> !SetsAt(c, moves, m)
  }

  /** Move k is thread t's test of the flag, and nobody has raised it before. */
  predicate EarlyAt(c: Config, moves: seq<Move>, t: nat, k: nat)
    requires k < |moves|
  {
    ChecksAt(c, moves, k) && moves[k].tid == t && NoSetBefore(c, moves, k)
  }

  ghost predicate EarlyChecker(c: Config, moves: seq<Move>, t: nat) {
    exists k :: 0 <= k < |moves| && EarlyAt(c, moves, t, k)
  }

  lemma PrefixExecutes(c: Config, moves: seq<Move>, k: nat, pc: Pc)
    requires k < |moves| - 1
    ensures ExecutesAt(c, moves, k, pc) == ExecutesAt(c, moves[..|moves| - 1], k, pc)
  {
    assert moves[..|moves| - 1][..k] == moves[..k];
  }

  lemma PrefixNoSet(c: Config, moves: seq<Move>, k: nat)
    requires k <= |moves| - 1
    ensures NoSetBefore(c, moves, k) == NoSetBefore(c, moves[..|moves| - 1], k)
  {
    var before := moves[..|moves| - 1];
    forall m | 0 <= m < k
      ensures SetsAt(c, moves, m) <==> SetsAt(c, before, m)
    {
      PrefixExecutes(c, moves, m, Set);
    }
    assert (forall m :: 0 <= m < k ==> !SetsAt(c, moves, m)) <==> (forall m :: 0 <= m < k ==> !SetsAt(c, before, m));
  }

  lemma StepFlag(c: Config, s: State, m: Move)
    requires |s.threads| == |c.jobs|
    ensures Step(c, s, m).saFlag == (s.saFlag || (!s.fault && m.tid < |s.threads| && s.threads[m.tid].pc == Set))
  {
  }

  /** The flag is up exactly when some earlier move raised it. */
  lemma {:induction false} FlagHistory(c: Config, moves: seq<Move>)
    ensures Exec(c, moves).saFlag == !NoSetBefore(c, moves, |moves|)
    decreases |moves|
  {
    if moves != [] {
      var last := |moves| - 1;
      FlagHistory(c, moves[..last]);
      StepFlag(c, Exec(c, moves[..last]), moves[last]);
      PrefixNoSet(c, moves, last);
      assert SetsAt(c, moves, last) || NoSetBefore(c, moves, |moves|) == NoSetBefore(c, moves, last);
    }
  }

  lemma StepInitialiser(c: Config, s: State, m: Move, t: nat)
    requires t < |s.threads| == |c.jobs|
    requires s.threads[t].pc == Check ==> !s.threads[t].initialiser
    ensures Step(c, s, m).threads[t].initialiser ==
            (s.threads[t].initialiser || (!s.fault && m.tid == t && s.threads[t].pc == Check && !s.saFlag))
  {
    if m.tid == t { if !s.fault { StepOwnInitialiser(c, s, m); } } else { StepFrame(c, s, m); }
  }

  lemma StepOwnInitialiser(c: Config, s: State, m: Move)
    requires m.tid < |s.threads| == |c.jobs| && !s.fault
    ensures Step(c, s, m).threads[m.tid].initialiser ==
            if s.threads[m.tid].pc == Check then !s.saFlag else s.threads[m.tid].initialiser
  {
  }

  /** A thread has entered its setup block exactly when its test came before the first set. */
  lemma {:induction false} InitialiserHistory(c: Config, moves: seq<Move>, t: nat)
    requires t < |c.jobs|
    ensures Exec(c, moves).threads[t].initialiser == EarlyChecker(c, moves, t)
    decreases |moves|
  {
    if moves != [] {
      var last := |moves| - 1;
      var before := moves[..last];
      InitialiserHistory(c, before, t);
      ExecInv(c, before);
      assert ThreadOk(c, Exec(c, before), t);
      StepInitialiser(c, Exec(c, before), moves[last], t);
      FlagHistory(c, before);
      PrefixNoSet(c, moves, last);
      PrefixEarly(c, moves, t);
    }
  }

  /** The last move adds an early test or leaves the early tests as they were. */
  lemma PrefixEarly(c: Config, moves: seq<Move>, t: nat)
    requires moves != []
    ensures var last := |moves| - 1;
            EarlyChecker(c, moves, t) ==
            (EarlyChecker(c, moves[..last], t)
             || (ChecksAt(c, moves, last) && moves[last].tid == t && NoSetBefore(c, moves, last)))
  {
    var last := |moves| - 1;
    var before := moves[..last];
    forall k | 0 <= k < last
      ensures EarlyAt(c, moves, t, k) == EarlyAt(c, before, t, k)
    {
      PrefixExecutes(c, moves, k, Check);
      PrefixNoSet(c, moves, k);
    }
    if EarlyChecker(c, before, t) {
      var k :| 0 <= k < last && EarlyAt(c, before, t, k);
      assert EarlyAt(c, moves, t, k);
    }
    if EarlyChecker(c, moves, t) {
      var k :| 0 <= k < |moves| && EarlyAt(c, moves, t, k);
      assert k < last ==> EarlyAt(c, before, t, k);
    }
    assert EarlyAt(c, moves, t, last) ==> EarlyChecker(c, moves, t);
  }

  lemma {:induction false} InitialiserForGood(c: Config, moves: seq<Move>, k: nat, t: nat)
    requires k <= |moves| && t < |c.jobs| && Exec(c, moves[..k]).threads[t].initialiser
    ensures Exec(c, moves).threads[t].initialiser
  {
    InitialiserHistory(c, moves[..k], t);
    InitialiserHistory(c, moves, t);
    var e :| 0 <= e < k && EarlyAt(c, moves[..k], t, e);
    assert forall m :: 0 <= m <= e ==> moves[..k][..m] == moves[..m];
    assert forall m :: 0 <= m < e ==> SetsAt(c, moves, m) == SetsAt(c, moves[..k], m);
    assert EarlyAt(c, moves, t, e);
  }

  /** Whoever raises the flag has entered its setup block. */
  lemma SetterIsInitialiser(c: Config, moves: seq<Move>, k: nat)
    requires k < |moves| && SetsAt(c, moves, k)
    ensures moves[k].tid < |c.jobs| && Exec(c, moves).threads[moves[k].tid].initialiser
  {
    ExecInv(c, moves[..k]);
    assert ThreadOk(c, Exec(c, moves[..k]), moves[k].tid);
    InitialiserForGood(c, moves, k, moves[k].tid);
  }

  ghost function EarlyCheckers(c: Config, moves: seq<Move>): set<nat> {
    set t: nat | t < |c.jobs| && EarlyChecker(c, moves, t)
  }

  /** The number of arrays allocated by a complete run is the number of threads whose test of
      the flag comes before the first set; that is at least one and at most one per thread. */
  lemma AllocationCount(c: Config, moves: seq<Move>)
    requires |c.jobs| > 0 && AllDone(Exec(c, moves))
    ensures |Exec(c, moves).heap| == |EarlyCheckers(c, moves)|
    ensures 1 <= |Exec(c, moves).heap| <= |c.jobs|
  {
    ExecInv(c, moves);
    var s := Exec(c, moves);
    forall t: nat | t < |c.jobs|
      ensures EarlyChecker(c, moves, t) == HasAllocated(s.threads[t])
    {
      InitialiserHistory(c, moves, t);
      assert s.threads[t].pc == Done;
    }
    assert EarlyCheckers(c, moves) == AllocSet(s);
    BelowSize(AllocSet(s), |c.jobs|);
    assert ThreadOk(c, s, 0);
  }

  /** Exactly one array is allocated when no second thread tests the flag before the first set. */
  lemma SingleAllocation(c: Config, moves: seq<Move>)
    requires |c.jobs| > 0 && AllDone(Exec(c, moves))
    ensures |Exec(c, moves).heap| == 1 <==>
            forall t: nat, u: nat :: EarlyChecker(c, moves, t) && EarlyChecker(c, moves, u) ==> t == u
  {
    AllocationCount(c, moves);
    var early := EarlyCheckers(c, moves);
    forall t: nat | EarlyChecker(c, moves, t)
      ensures t in early
    {
    }
    var x :| x in early;
    if |early| == 1 {
      forall t: nat | t in early
        ensures t == x
      {
        SubsetSize({x, t}, early);
      }
    }
    if forall t: nat, u: nat :: EarlyChecker(c, moves, t) && EarlyChecker(c, moves, u) ==> t == u {
      assert early == {x};
    }
  }

  // ---------- Runs in which one thread is ahead of all others ----------

  /** Thread t raises the flag, and every test of the flag made before that is its own. */
  ghost predicate SetsFirst(c: Config, moves: seq<Move>, t: nat) {
    exists k :: 0 <= k < |moves| && SetsFirstAt(c, moves, t, k)
  }

  predicate SetsFirstAt(c: Config, moves: seq<Move>, t: nat, k: nat)
    requires k < |moves|
  {
    SetsAt(c, moves, k) && moves[k].tid == t && forall m :: 0 <= m < k && ChecksAt(c, moves, m) ==> moves[m].tid == t
  }

  predicate SoleInitialiser(s: State, t: nat) {
    forall u :: 0 <= u < |s.threads| ==> (s.threads[u].initialiser <==> u == t)
  }

  /** The flag is up and t is the only thread that ever entered its setup block, if and only if
      t raised the flag before any other thread tested it. */
  lemma SetsFirstMeans(c: Config, moves: seq<Move>, t: nat)
    requires t < |c.jobs|
    ensures SetsFirst(c, moves, t) <==> Exec(c, moves).saFlag && SoleInitialiser(Exec(c, moves), t)
  {
    FlagHistory(c, moves);
    if SetsFirst(c, moves, t) { SetsFirstSole(c, moves, t); }
    if Exec(c, moves).saFlag && SoleInitialiser(Exec(c, moves), t) {
      var k := FirstSet(c, moves, |moves|);
      SetterIsInitialiser(c, moves, k);
      forall m | 0 <= m < k && ChecksAt(c, moves, m)
        ensures moves[m].tid == t
      {
        InitialiserHistory(c, moves, moves[m].tid);
        assert EarlyAt(c, moves, moves[m].tid, m);
      }
      assert SetsFirstAt(c, moves, t, k);
    }
  }

  lemma SetsFirstSole(c: Config, moves: seq<Move>, t: nat)
    requires t < |c.jobs| && SetsFirst(c, moves, t)
    ensures SoleInitialiser(Exec(c, moves), t)
  {
    var k :| 0 <= k < |moves| && SetsFirstAt(c, moves, t, k);
    SetterIsInitialiser(c, moves, k);
    forall u | 0 <= u < |c.jobs| && u != t
      ensures !Exec(c, moves).threads[u].initialiser
    {
      InitialiserHistory(c, moves, u);
      forall e | 0 <= e < |moves|
        ensures !EarlyAt(c, moves, u, e)
      {
        assert e < k ==> !ChecksAt(c, moves, e) || moves[e].tid == t;
      }
    }
  }

  lemma {:induction false} FirstSet(c: Config, moves: seq<Move>, bound: nat) returns (k: nat)
    requires bound <= |moves| && !NoSetBefore(c, moves, bound)
    ensures k < bound && SetsAt(c, moves, k) && NoSetBefore(c, moves, k)
  {
    if NoSetBefore(c, moves, bound - 1) {
      k := bound - 1;
    } else {
      k := FirstSet(c, moves, bound - 1);
    }
  }

  lemma SoleAllocator(s: State, t: nat)
    requires HeapCount(s) && SoleInitialiser(s, t)
    ensures |s.heap| <= 1 && forall b :: 0 <= b < |s.heap| ==> s.heap[b].owner == t
  {
    assert AllocSet(s) <= {t};
    SubsetSize(AllocSet(s), {t});
  }

  /** Any number of threads and any functions: when thread t raises the flag before any other
      thread tests it, no other thread ever enters its setup block, at most one array is ever
      allocated, it is t's, and only t fills it; a finished run has allocated it. */
  lemma FirstSetterAllocatesAlone(c: Config, moves: seq<Move>, t: nat)
    requires t < |c.jobs| && SetsFirst(c, moves, t)
    ensures var s := Exec(c, moves);
            && SoleInitialiser(s, t)
            && |s.heap| <= 1 && (forall b :: 0 <= b < |s.heap| ==> s.heap[b].owner == t)
            && (forall u :: 0 <= u < |s.threads| && u != t ==> !InSetup(s, u))
            && (AllDone(s) ==> |s.heap| == 1)
  {
    ExecInv(c, moves);
    SetsFirstSole(c, moves, t);
    var s := Exec(c, moves);
    SoleAllocator(s, t);
    forall u | 0 <= u < |s.threads|
      ensures u != t ==> !InSetup(s, u)
    {
      assert ThreadOk(c, s, u);
    }
    if AllDone(s) {
      assert s.threads[t].pc == Done && s.threads[t].initialiser && ThreadOk(c, s, t);
    }
  }
}
