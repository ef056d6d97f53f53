/** Termination under fair scheduling, bounded and unbounded. */
module ProtocolFairness {
  import opened Protocol
  import opened ProtocolInvariant
  import opened ProtocolProgress

  /** The process has crashed, or no thread can do anything but spin. */
  predicate Settled(s: State) {
    s.fault || Quiet(s)
  }

  lemma SettledStays(c: Config, s: State, m: Move)
    requires Inv(c, s) && Settled(s)
    ensures Step(c, s, m) == s
  {
    StepDecreases(c, s, m);
  }

  // ---------- Rounds ----------

  /** Every thread gets a turn. */
  predicate CoversAll(c: Config, round: seq<Move>) {
    forall t: nat :: t < |c.jobs| ==> HasTurn(round, t)
  }

  predicate HasTurn(round: seq<Move>, t: nat) {
    exists i :: 0 <= i < |round| && round[i].tid == t
  }

  predicate AllSpin(s: State, moves: seq<Move>) {
    forall i :: 0 <= i < |moves| ==> Spins(s, moves[i])
  }

  /** A stretch of moves lowers the measure, unless every one of them is a spin. */
  lemma {:induction false} StretchDecreases(c: Config, s: State, moves: seq<Move>)
    requires Inv(c, s)
    ensures var r := ExecFrom(c, s, moves);
            Inv(c, r) && if AllSpin(s, moves) then r == s else Measure(c, r) < Measure(c, s)
    decreases |moves|
  {
    if moves != [] {
      var last := |moves| - 1;
      StretchDecreases(c, s, moves[..last]);
      hide Measure, Step, Inv, AllSpin;
      LastMove(c, s, moves, ExecFrom(c, s, moves[..last]));
    }
  }

  lemma LastMove(c: Config, s: State, moves: seq<Move>, r: State)
    requires |s.threads| == |c.jobs| && moves != [] && Inv(c, r)
    requires if AllSpin(s, moves[..|moves| - 1]) then r == s else Measure(c, r) < Measure(c, s)
    ensures var s' := Step(c, r, moves[|moves| - 1]);
            Inv(c, s') && if AllSpin(s, moves) then s' == s else Measure(c, s') < Measure(c, s)
  {
    hide Measure, Step, Spins;
    var last := |moves| - 1;
    StepDecreases(c, r, moves[last]);
    StepInv(c, r, moves[last]);
    assert AllSpin(s, moves) <==> AllSpin(s, moves[..last]) && Spins(s, moves[last]);
  }

  lemma RoundDecreases(c: Config, s: State, round: seq<Move>)
    requires Inv(c, s) && CoversAll(c, round)
    ensures var r := ExecFrom(c, s, round);
            Inv(c, r) && if Settled(s) then r == s else Measure(c, r) < Measure(c, s)
  {
    hide Step, ExecFrom, Measure;
    StretchDecreases(c, s, round);
    RoundOfSpins(c, s, round);
  }

  lemma RoundOfSpins(c: Config, s: State, round: seq<Move>)
    requires |s.threads| == |c.jobs| && CoversAll(c, round)
    ensures AllSpin(s, round) <==> Settled(s)
  {
    if AllSpin(s, round) && !s.fault {
      forall t: nat | t < |s.threads|
        ensures Idle(s, t)
      {
        assert HasTurn(round, t);
        var i :| 0 <= i < |round| && round[i].tid == t;
        assert Spins(s, round[i]);
      }
    }
  }

  function Flat(rounds: seq<seq<Move>>): seq<Move> {
    if rounds == [] then [] else Flat(rounds[..|rounds| - 1]) + rounds[|rounds| - 1]
  }

  lemma {:induction false} ExecFromConcat(c: Config, s: State, first: seq<Move>, second: seq<Move>)
    requires |s.threads| == |c.jobs|
    ensures ExecFrom(c, s, first + second) == ExecFrom(c, ExecFrom(c, s, first), second)
    decreases |second|
  {
    if second == [] {
      assert first + second == first;
    } else {
      var last := |second| - 1;
      assert (first + second)[..|first + second| - 1] == first + second[..last];
      ExecFromConcat(c, s, first, second[..last]);
    }
  }

  lemma {:induction false} RoundsDecrease(c: Config, rounds: seq<seq<Move>>)
    requires forall r :: 0 <= r < |rounds| ==> CoversAll(c, rounds[r])
    ensures var s := Exec(c, Flat(rounds));
            Inv(c, s) && (Settled(s) || Measure(c, s) + |rounds| <= Measure(c, Init(c)))
    decreases |rounds|
  {
    ExecInv(c, Flat(rounds));
    if rounds != [] {
      var last := |rounds| - 1;
      RoundsDecrease(c, rounds[..last]);
      ExecFromConcat(c, Init(c), Flat(rounds[..last]), rounds[last]);
      RoundDecreases(c, Exec(c, Flat(rounds[..last])), rounds[last]);
    }
  }

  /** As many rounds as the initial measure, each giving every thread a turn in any order and
      any number of times, end in a crash or with nothing left to do but spin; outside the stuck
      pairings the latter means that all threads have finished. */
  lemma FairRoundsFinish(c: Config, rounds: seq<seq<Move>>)
    requires |rounds| >= Measure(c, Init(c)) && forall r :: 0 <= r < |rounds| ==> CoversAll(c, rounds[r])
    ensures Settled(Exec(c, Flat(rounds)))
    ensures !Stuck(c) ==> Exec(c, Flat(rounds)).fault || AllDone(Exec(c, Flat(rounds)))
  {
    RoundsDecrease(c, rounds);
    var s := Exec(c, Flat(rounds));
    TotalWorkBounded(c, s, |s.threads|);
    if Quiet(s) && !AllDone(s) { QuietMeansDone(c, s); }
  }

  // ---------- Infinite schedules ----------

  /** Every thread gets a turn again and again, however rarely. */
  ghost predicate Fair(c: Config, schedule: nat -> Move) {
    forall t: nat, k: nat :: t < |c.jobs| ==> TurnAfter(schedule, t, k)
  }

  ghost predicate TurnAfter(schedule: nat -> Move, t: nat, k: nat) {
    exists i: nat :: i >= k && schedule(i).tid == t
  }

  function Prefix(schedule: nat -> Move, k: nat): (moves: seq<Move>)
    ensures |moves| == k
  {
    seq(k, i requires i >= 0 => schedule(i))
  }

  lemma PrefixSnoc(c: Config, schedule: nat -> Move, k: nat)
    ensures Exec(c, Prefix(schedule, k + 1)) == Step(c, Exec(c, Prefix(schedule, k)), schedule(k))
  {
    assert Prefix(schedule, k + 1) == Prefix(schedule, k) + [schedule(k)];
    ExecSnoc(c, Prefix(schedule, k), schedule(k));
  }

  /** Between times k and i nothing changes, or the measure falls. */
  lemma {:induction false} Meanwhile(c: Config, schedule: nat -> Move, k: nat, i: nat)
    requires k <= i
    ensures var s, r := Exec(c, Prefix(schedule, k)), Exec(c, Prefix(schedule, i));
            r == s || Measure(c, r) < Measure(c, s)
    decreases i
  {
    if k < i {
      Meanwhile(c, schedule, k, i - 1);
      PrefixSnoc(c, schedule, i - 1);
      ExecInv(c, Prefix(schedule, i - 1));
      StepDecreases(c, Exec(c, Prefix(schedule, i - 1)), schedule(i - 1));
    }
  }

  lemma TurnDecreases(c: Config, schedule: nat -> Move, k: nat, i: nat)
    requires k <= i && !Spins(Exec(c, Prefix(schedule, k)), schedule(i))
    ensures 0 <= Measure(c, Exec(c, Prefix(schedule, i + 1))) < Measure(c, Exec(c, Prefix(schedule, k)))
  {
    hide Step, Exec, Measure;
    var r := Exec(c, Prefix(schedule, i));
    Meanwhile(c, schedule, k, i);
    PrefixSnoc(c, schedule, i);
    ExecInv(c, Prefix(schedule, i));
    StepDecreases(c, r, schedule(i));
    ExecInv(c, Prefix(schedule, i + 1));
    StepDecreases(c, Exec(c, Prefix(schedule, i + 1)), schedule(i));
  }

  lemma {:induction false} SettlesAfter(c: Config, schedule: nat -> Move, k: nat) returns (end: nat)
    requires Fair(c, schedule)
    ensures end >= k && Settled(Exec(c, Prefix(schedule, end)))
    decreases Measure(c, Exec(c, Prefix(schedule, k))) + 1
  {
    hide Step, Exec, Measure;
    var s := Exec(c, Prefix(schedule, k));
    if Settled(s) {
      end := k;
    } else {
      var t :| 0 <= t < |s.threads| && !Idle(s, t);
      assert TurnAfter(schedule, t, k);
      var i: nat :| i >= k && schedule(i).tid == t;
      TurnDecreases(c, schedule, k, i);
      end := SettlesAfter(c, schedule, i + 1);
    }
  }

  lemma {:induction false} StaysSettled(c: Config, schedule: nat -> Move, end: nat, later: nat)
    requires end <= later && Settled(Exec(c, Prefix(schedule, end)))
    ensures Exec(c, Prefix(schedule, later)) == Exec(c, Prefix(schedule, end))
    decreases later
  {
    if end < later {
      StaysSettled(c, schedule, end, later - 1);
      PrefixSnoc(c, schedule, later - 1);
      ExecInv(c, Prefix(schedule, later - 1));
      SettledStays(c, Exec(c, Prefix(schedule, later - 1)), schedule(later - 1));
    }
  }

  /** Under every infinite fair schedule the program reaches a state it never leaves again: a
      crash, or one in which all threads have finished, or, in a stuck pairing alone, one in
      which thread 1 waits for ever. */
  lemma FairRunsFinish(c: Config, schedule: nat -> Move) returns (end: nat)
    requires Fair(c, schedule)
    ensures var s := Exec(c, Prefix(schedule, end));
            && (s.fault || AllDone(s) || (Stuck(c) && s.threads[1].pc == Wait))
            && forall later :: later >= end ==> Exec(c, Prefix(schedule, later)) == s
  {
    end := SettlesAfter(c, schedule, 0);
    var s := Exec(c, Prefix(schedule, end));
    ExecInv(c, Prefix(schedule, end));
    if Quiet(s) && !AllDone(s) { QuietMeansDone(c, s); }
    forall later | later >= end
      ensures Exec(c, Prefix(schedule, later)) == s
    {
      StaysSettled(c, schedule, end, later);
    }
  }
}
