/** The parts of the benchmark functions as imperative code over shared variables, one thread at
    a time in the foreground while the other threads move arbitrarily between any two of its
    accesses.  Each method keeps Valid(): the shared variables are always a state of the
    transition system. */
module BenchmarkThreads {
  import opened Protocol
  import ProtocolCells
  import ProtocolFairness
  import ProtocolInvariant
  import ProtocolPair
  import ProtocolProgress

  /** The moves of a schedule that are not thread t's. */
  function Without(schedule: seq<Move>, t: nat): seq<Move> {
    if schedule == [] then []
    else
      var last := |schedule| - 1;
      Without(schedule[..last], t) + if schedule[last].tid != t then [schedule[last]] else []
  }

  lemma {:induction false} WithoutKeepsTurns(schedule: seq<Move>, t: nat, u: nat)
    requires u != t && ProtocolFairness.HasTurn(schedule, u)
    ensures ProtocolFairness.HasTurn(Without(schedule, t), u)
    decreases |schedule|
  {
    var last := |schedule| - 1;
    var rest := Without(schedule[..last], t);
    if schedule[last].tid == u {
      assert Without(schedule, t)[|rest|].tid == u;
    } else {
      var i :| 0 <= i < |schedule| && schedule[i].tid == u;
      assert schedule[..last][i].tid == u;
      WithoutKeepsTurns(schedule[..last], t, u);
      var k :| 0 <= k < |rest| && rest[k].tid == u;
      assert Without(schedule, t)[k] == rest[k];
    }
  }

  ghost predicate TurnFrom(others: nat -> seq<Move>, u: nat, k: nat) {
    exists i: nat :: i >= k && ProtocolFairness.HasTurn(others(i), u)
  }

  /** Thread u gets a turn again and again, however rarely. */
  ghost predicate Recurs(others: nat -> seq<Move>, u: nat) {
    forall k: nat :: TurnFrom(others, u, k)
  }

  ghost function NextTurn(others: nat -> seq<Move>, u: nat, k: nat): (i: nat)
    requires Recurs(others, u)
    ensures i >= k && ProtocolFairness.HasTurn(others(i), u)
  {
    assert TurnFrom(others, u, k);
    var i: nat :| i >= k && ProtocolFairness.HasTurn(others(i), u);
    i
  }

  /** The work the threads still have to do. */
  ghost function WorkLeft(c: Config, moves: seq<Move>): nat {
    ProtocolInvariant.ExecInv(c, moves);
    ProtocolProgress.TotalWorkBounded(c, Exec(c, moves), |c.jobs|);
    ProtocolProgress.Measure(c, Exec(c, moves))
  }

  /** While the gate stays closed, the other threads lose work whenever thread 0 has a turn. */
  lemma ClosedGateProgress(c: Config, moves: seq<Move>, turns: seq<Move>)
    requires WaitsAt(c, 1) && RaisesAt(c, 0) && !Exec(c, moves + turns).canRun && !Exec(c, moves + turns).fault
    ensures var before, after := WorkLeft(c, moves), WorkLeft(c, moves + turns);
            after <= before && (ProtocolFairness.HasTurn(turns, 0) ==> after < before)
  {
    hide ProtocolProgress.Measure, Step;
    var s := Exec(c, moves);
    ProtocolInvariant.ExecInv(c, moves);
    ProtocolFairness.ExecFromConcat(c, Init(c), moves, turns);
    ProtocolFairness.StretchDecreases(c, s, turns);
    ProtocolPair.GateMonotone(c, s, turns);
    assert ProtocolInvariant.ThreadOk(c, s, 0);
    if ProtocolFairness.HasTurn(turns, 0) {
      var i :| 0 <= i < |turns| && turns[i].tid == 0;
      assert s.fault || !ProtocolProgress.Spins(s, turns[i]);
    }
  }

  class Process {
    const c: Config
    const others: nat -> seq<Move>
    var saFlag: bool
    var canRun: bool
    var sharedArray: Ptr
    var heap: seq<Block>
    var threads: seq<Thread>
    var fault: bool
    var time: nat
    ghost var moves: seq<Move>

    ghost function Now(): State
      reads this
    {
      State(saFlag, canRun, sharedArray, heap, threads, fault)
    }

    ghost predicate Valid()
      reads this
    {
      |threads| == |c.jobs| && Now() == Exec(c, moves)
    }

    /** Thread t is about to execute pc. */
    ghost predicate AboutTo(t: nat, pc: Pc)
      reads this
    {
      Valid() && t < |threads| && (fault || threads[t].pc == pc)
    }

    constructor (c: Config, others: nat -> seq<Move>)
      ensures Valid() && moves == [] && this.c == c && this.others == others
      ensures !fault && forall t :: 0 <= t < |threads| ==> threads[t].pc == Check
    {
      this.c, this.others := c, others;
      saFlag, canRun, sharedArray, heap, fault := false, false, Null, [], false;
      threads := seq(|c.jobs|, _ => Thread(Check, false));
      time, moves := 0, [];
    }

    /** The other threads run for a while: exactly their part of the schedule for this time. */
    method Interleave(t: nat, ghost pc: Pc)
      requires AboutTo(t, pc)
      modifies this
      ensures AboutTo(t, pc) && (old(fault) ==> fault)
      ensures moves == old(moves) + Without(others(old(time)), t) && time == old(time) + 1
    {
      hide Step, Exec;
      var schedule := others(time);
      time := time + 1;
      var i := 0;
      while i < |schedule|
        invariant i <= |schedule| && AboutTo(t, pc) && (old(fault) ==> fault)
        invariant moves == old(moves) + Without(schedule[..i], t) && time == old(time) + 1
      {
        assert schedule[..i + 1][..i] == schedule[..i];
        if schedule[i].tid != t { StepOther(schedule[i], t, pc); }
        i := i + 1;
      }
      assert schedule[..i] == schedule;
    }

    method StepOther(m: Move, t: nat, ghost pc: Pc)
      requires AboutTo(t, pc) && m.tid != t
      modifies this`saFlag, this`canRun, this`sharedArray, this`heap, this`threads, this`fault, this`moves
      ensures AboutTo(t, pc) && (old(fault) ==> fault) && moves == old(moves) + [m]
    {
      hide Step, Exec;
      ghost var before := Now();
      var s := Step(c, State(saFlag, canRun, sharedArray, heap, threads, fault), m);
      saFlag, canRun, sharedArray, heap, threads, fault := s.saFlag, s.canRun, s.ptr, s.heap, s.threads, s.fault;
      ExecSnoc(c, moves, m);
      OthersKeep(c, before, m, t);
      moves := moves + [m];
    }

    /** Bookkeeping after an access of thread t: it corresponds to one step of the system. */
    ghost method Record(t: nat, junk: seq<int>)
      requires |threads| == |c.jobs| && Now() == Step(c, Exec(c, moves), Move(t, junk))
      modifies this`moves
      ensures Valid() && moves == old(moves) + [Move(t, junk)]
    {
      ExecSnoc(c, moves, Move(t, junk));
      moves := moves + [Move(t, junk)];
    }

    method Proceed(t: nat, pc: Pc)
      requires t < |threads|
      modifies this`threads
      ensures threads == old(threads)[t := Thread(pc, old(threads)[t].initialiser)]
    {
      threads := threads[t := threads[t].(pc := pc)];
    }

    /** if (sa_flag == false) */
    method TestFlag(t: nat) returns (raised: bool)
      requires AboutTo(t, Check)
      modifies this
      ensures AboutTo(t, if raised then AfterSetup(c, t) else Set) && old(moves) <= moves
    {
      Interleave(t, Check);
      raised := saFlag;
      if !fault {
        threads := threads[t := Thread(if raised then AfterSetup(c, t) else Set, !raised)];
        Record(t, []);
      }
    }

    /** sa_flag = true */
    method RaiseFlag(t: nat)
      requires AboutTo(t, Set)
      modifies this
      ensures AboutTo(t, Alloc) && old(moves) <= moves
    {
      Interleave(t, Set);
      if !fault {
        saFlag := true;
        Proceed(t, Alloc);
        Record(t, []);
      }
    }

    /** shared_array = malloc(...), with whatever the fresh memory holds. */
    method Allocate(t: nat, junk: seq<int>)
      requires AboutTo(t, Alloc)
      modifies this
      ensures AboutTo(t, FillHead(0)) && old(moves) <= moves
    {
      Interleave(t, Alloc);
      if !fault {
        heap, sharedArray := heap + [Block(t, Fresh(c.n, junk))], At(|heap|);
        Proceed(t, FillHead(0));
        Record(t, junk);
      }
    }

    /** The filling loop: shared_array[i] = i loads the pointer, then stores through it. */
    method Fill(t: nat)
      requires AboutTo(t, FillHead(0))
      modifies this
      ensures AboutTo(t, AfterSetup(c, t)) && old(moves) <= moves
    {
      var i := 0;
      while i < c.n && !fault
        invariant i <= c.n && AboutTo(t, FillHead(i)) && old(moves) <= moves
        decreases c.n - i
      {
        var p := LoadForFill(t, i);
        StoreForFill(t, i, p);
        i := i + 1;
      }
      LeaveFill(t, i);
    }

    method LoadForFill(t: nat, i: nat) returns (p: Ptr)
      requires AboutTo(t, FillHead(i)) && i < c.n
      modifies this
      ensures AboutTo(t, FillStore(i, p)) && old(moves) <= moves
    {
      Interleave(t, FillHead(i));
      p := sharedArray;
      if !fault {
        Proceed(t, FillStore(i, p));
        Record(t, []);
      }
    }

    method StoreForFill(t: nat, i: nat, p: Ptr)
      requires AboutTo(t, FillStore(i, p))
      modifies this
      ensures AboutTo(t, FillHead(i + 1)) && old(moves) <= moves
    {
      Interleave(t, FillStore(i, p));
      if !fault {
        var ok := StoreCell(p, i, i);
        if ok { Proceed(t, FillHead(i + 1)); }
        Record(t, []);
      }
    }

    /** A store through a pointer; one that hits no allocated cell ends the process. */
    method StoreCell(p: Ptr, j: nat, v: int) returns (ok: bool)
      modifies this`heap, this`fault
      ensures ok == Mapped(old(Now()), p, j)
      ensures Now() == if ok then Store(old(Now()), p, j, v) else old(Now()).(fault := true)
    {
      ok := p.At? && p.id < |heap| && j < |heap[p.id].cells|;
      if ok {
        heap := heap[p.id := Block(heap[p.id].owner, heap[p.id].cells[j := v])];
      } else {
        fault := true;
      }
    }

    method LeaveFill(t: nat, i: nat)
      requires AboutTo(t, FillHead(i)) && (fault || i >= c.n)
      modifies this
      ensures AboutTo(t, AfterSetup(c, t)) && old(moves) <= moves
    {
      Interleave(t, FillHead(i));
      if !fault {
        Proceed(t, AfterSetup(c, t));
        Record(t, []);
      }
    }

    /** The setup block that opens every benchmark function. */
    method Setup(t: nat, junk: seq<int>)
      requires AboutTo(t, Check)
      modifies this
      ensures AboutTo(t, AfterSetup(c, t)) && old(moves) <= moves
    {
      var raised := TestFlag(t);
      if !raised {
        RaiseFlag(t);
        Allocate(t, junk);
        Fill(t);
      }
    }

    /** while (!can_run) ; ends as soon as thread 0 is one that opens the gate and keeps getting
        turns, with the gate open or the process crashed. */
    method Await(t: nat)
      requires AboutTo(t, Wait) && WaitsAt(c, t) && RaisesAt(c, 0) && Recurs(others, 0)
      modifies this
      ensures AboutTo(t, PassHead(0, 0)) && old(moves) <= moves && (canRun || fault)
    {
      var open := false;
      ghost var turn := NextTurn(others, 0, time);
      ghost var work: nat := WorkLeft(c, moves);
      while !open && !fault
        invariant AboutTo(t, if open then PassHead(0, 0) else Wait) && old(moves) <= moves && (open ==> canRun)
        invariant turn >= time && ProtocolFairness.HasTurn(others(turn), 0)
        invariant work == WorkLeft(c, moves) || open || fault
        decreases !open && !fault, work, turn - time
      {
        ghost var before, now := moves, time;
        open := TestGate(t);
        if !open && !fault {
          ClosedTest(c, before, Without(others(now), t), t);
          if now == turn { WithoutKeepsTurns(others(now), t, 0); }
          ghost var less: nat := WorkLeft(c, moves);
          if less < work { turn := NextTurn(others, 0, time); }
          work := less;
        } else {
          turn := NextTurn(others, 0, time);
        }
      }
    }

    /** One test of can_run. */
    method TestGate(t: nat) returns (open: bool)
      requires AboutTo(t, Wait)
      modifies this
      ensures AboutTo(t, if open then PassHead(0, 0) else Wait) && (open ==> canRun)
      ensures old(moves) <= moves && time == old(time) + 1
      ensures !open && !fault ==>
                !canRun && moves == old(moves) + Without(others(old(time)), t) + [Move(t, [])]
    {
      Interleave(t, Wait);
      open := canRun;
      if !fault {
        if open { Proceed(t, PassHead(0, 0)); }
        Record(t, []);
      }
    }

    /** One measured sweep, the k-th of the function. */
    method Sweep(t: nat, k: nat, pass: Pass)
      requires AboutTo(t, PassHead(k, 0)) && k < |Passes(c.jobs[t])| && Passes(c.jobs[t])[k] == pass
      modifies this
      ensures AboutTo(t, PassHead(k + 1, 0)) && old(moves) <= moves
    {
      var limit := Limit(c.jobs[t].func, c.n);
      var j := 0;
      while j < limit && !fault
        invariant j <= limit && AboutTo(t, PassHead(k, j)) && old(moves) <= moves
        decreases limit - j
      {
        var p := LoadForSweep(t, k, j);
        match pass {
          case Read => var b := LoadCell(t, k, j, p);
          case WriteIndex => WriteCell(t, k, j, p, j);
          case WriteSucc => WriteCell(t, k, j, p, j + 1);
        }
        j := j + 1;
      }
      LeaveSweep(t, k, j);
    }

    method LoadForSweep(t: nat, k: nat, j: nat) returns (p: Ptr)
      requires AboutTo(t, PassHead(k, j)) && k < |Passes(c.jobs[t])| && j < Limit(c.jobs[t].func, c.n)
      modifies this
      ensures AboutTo(t, Access(k, j, p)) && old(moves) <= moves
    {
      Interleave(t, PassHead(k, j));
      p := sharedArray;
      if !fault {
        Proceed(t, Access(k, j, p));
        Record(t, []);
      }
    }

    /** b = shared_array[j].  In the run of the program, with ids 0 and 1 in t1 or t2, thread 1
        reads j, whatever thread 0 has done or still does to the array. */
    method LoadCell(t: nat, k: nat, j: nat, p: Ptr) returns (b: int)
      requires AboutTo(t, Access(k, j, p)) && k < |Passes(c.jobs[t])| && Passes(c.jobs[t])[k] == Read
      modifies this
      ensures AboutTo(t, PassHead(k, j + 1)) && old(moves) <= moves
      ensures ProtocolPair.Pair(c) && t == 1 && !fault ==> b == j
    {
      Interleave(t, Access(k, j, p));
      hide Exec, Passes;
      b := 0;
      if !fault {
        if ProtocolPair.Pair(c) && t == 1 { ProtocolPair.ThreadOneReadsFilled(c, moves); }
        if p.At? && p.id < |heap| && j < |heap[p.id].cells| {
          b := heap[p.id].cells[j];
          Proceed(t, PassHead(k, j + 1));
        } else {
          fault := true;
        }
        Record(t, []);
      }
    }

    /** shared_array[j] = j, or shared_array[j] = j + 1. */
    method WriteCell(t: nat, k: nat, j: nat, p: Ptr, v: int)
      requires AboutTo(t, Access(k, j, p)) && k < |Passes(c.jobs[t])| && Passes(c.jobs[t])[k] != Read
      requires v == if Passes(c.jobs[t])[k] == WriteIndex then j else j + 1
      modifies this
      ensures AboutTo(t, PassHead(k, j + 1)) && old(moves) <= moves
    {
      Interleave(t, Access(k, j, p));
      hide Exec, Passes;
      if !fault {
        var ok := StoreCell(p, j, v);
        if ok { Proceed(t, PassHead(k, j + 1)); }
        Record(t, []);
      }
    }

    method LeaveSweep(t: nat, k: nat, j: nat)
      requires AboutTo(t, PassHead(k, j)) && k < |Passes(c.jobs[t])| && (fault || j >= Limit(c.jobs[t].func, c.n))
      modifies this
      ensures AboutTo(t, PassHead(k + 1, 0)) && old(moves) <= moves
    {
      Interleave(t, PassHead(k, j));
      if !fault {
        Proceed(t, PassHead(k + 1, 0));
        Record(t, []);
      }
    }

    /** The end of the function: id 0 raises can_run in t1 and t2. */
    method Finish(t: nat)
      requires t < |c.jobs| && AboutTo(t, PassHead(|Passes(c.jobs[t])|, 0))
      modifies this
      ensures AboutTo(t, Done) && old(moves) <= moves
    {
      hide Exec, Passes;
      var total := |Passes(c.jobs[t])|;
      Interleave(t, PassHead(total, 0));
      if !fault {
        Proceed(t, if RaisesAt(c, t) then Raise else Done);
        Record(t, []);
      }
      if t == 0 && Gated(c.jobs[t].func) { OpenGate(t); }
    }

    /** can_run = true */
    method OpenGate(t: nat)
      requires AboutTo(t, Raise)
      modifies this
      ensures AboutTo(t, Done) && old(moves) <= moves
    {
      Interleave(t, Raise);
      if !fault {
        canRun := true;
        Proceed(t, Done);
        Record(t, []);
      }
    }

    /** Once every thread has returned from the write benchmark, the array the program is left
        with holds j + 1 in cell j. */
    lemma FinalArray()
      requires Valid()
      ensures |c.jobs| > 0 && ProtocolCells.AllWrite(c) && AllDone(Now()) ==>
                && sharedArray.At? && sharedArray.id < |heap| && |heap[sharedArray.id].cells| == c.n
                && forall j :: 0 <= j < c.n ==> heap[sharedArray.id].cells[j] == j + 1
    {
      hide Exec;
      if |c.jobs| > 0 && ProtocolCells.AllWrite(c) && AllDone(Now()) {
        ProtocolCells.WriteBenchmarkResult(c, moves);
      }
    }
  }

  /** A test that found the gate closed, after the turns of the others. */
  lemma ClosedTest(c: Config, moves: seq<Move>, turns: seq<Move>, t: nat)
    requires t == 1 && WaitsAt(c, 1) && RaisesAt(c, 0)
    requires var s := Exec(c, moves + turns + [Move(t, [])]); !s.canRun && !s.fault && s.threads[1].pc == Wait
    ensures var before, after := WorkLeft(c, moves), WorkLeft(c, moves + turns + [Move(t, [])]);
            after <= before && (ProtocolFairness.HasTurn(turns, 0) ==> after < before)
  {
    hide ProtocolProgress.Measure;
    ExecSnoc(c, moves + turns, Move(t, []));
    ProtocolInvariant.ExecInv(c, moves + turns);
    assert ProtocolInvariant.ThreadOk(c, Exec(c, moves + turns), 1);
    ProtocolInvariant.StepFrame(c, Exec(c, moves + turns), Move(t, []));
    ProtocolProgress.StepDecreases(c, Exec(c, moves + turns), Move(t, []));
    ClosedGateProgress(c, moves, turns);
  }

  lemma OthersKeep(c: Config, s: State, m: Move, t: nat)
    requires |s.threads| == |c.jobs| && t < |s.threads| && m.tid != t
    ensures |Step(c, s, m).threads| == |s.threads| && Step(c, s, m).threads[t] == s.threads[t]
    ensures s.fault ==> Step(c, s, m) == s
  {
    hide Step;
    ProtocolInvariant.StepFrame(c, s, m);
    SameThreads(c, s, m);
  }

  lemma SameThreads(c: Config, s: State, m: Move)
    requires |s.threads| == |c.jobs|
    ensures |Step(c, s, m).threads| == |s.threads| && (s.fault ==> Step(c, s, m) == s)
  {
  }
}
