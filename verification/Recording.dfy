/** The benchmark functions as a whole: what they record around their sweeps, what the main
    program prints of it, and how the printed numbers relate to the events the hardware counted. */
module Recording {
  import opened BenchmarkThreads
  import opened Numerals
  import opened Protocol
  import opened RegisterLayouts
  import Counters
  import ProtocolAccesses
  import ProtocolCells

  const MAX_PTS: nat := 50000

  /** How many events the counter at an address has seen by the time of access number t to any
      counter. */
  type Events = (nat, int) -> nat

  /** What a thread observes: the counters of the table, whose registers hold the number of
      events modulo 2^width, and the time of day at each time stamp. */
  datatype Observed = Observed(table: seq<Entry>, events: Events, width: nat, clock: nat -> nat)

  /** Eight named rows, then the unnamed row at which the loops over the table stop. */
  predicate EightCounters(table: seq<Entry>) {
    |table| > N_CUSTOM_CTR && table[N_CUSTOM_CTR].name == ""
    && forall c :: 0 <= c < N_CUSTOM_CTR ==> table[c].name != ""
  }

  predicate Sound(o: Observed) {
    EightCounters(o.table) && o.width <= 64
  }

  // ---------- The meaning of the records ----------

  /** Where a counter register wraps. */
  function Size(o: Observed): (size: nat)
    ensures size >= 1
  {
    Pow(2, o.width)
  }

  /** The accesses of sweep j: eight before it, eight after it. */
  function StartEvents(o: Observed, c: nat, j: nat): nat
    requires c < |o.table|
  {
    o.events(2 * N_CUSTOM_CTR * j + c, o.table[c].pmc)
  }

  function EndEvents(o: Observed, c: nat, j: nat): nat
    requires c < |o.table|
  {
    o.events(2 * N_CUSTOM_CTR * j + N_CUSTOM_CTR + c, o.table[c].pmc)
  }

  /** What the register shows. */
  function StartReading(o: Observed, c: nat, j: nat): nat
    requires c < |o.table|
  {
    StartEvents(o, c, j) % Size(o)
  }

  function EndReading(o: Observed, c: nat, j: nat): nat
    requires c < |o.table|
  {
    EndEvents(o, c, j) % Size(o)
  }

  /** Subtraction of unsigned 64-bit values. */
  function Minus(x: nat, y: nat): nat {
    (x - y) % TWO64
  }

  /** The entry for counter c and sweep j. */
  function Delta(o: Observed, c: nat, j: nat): nat
    requires c < |o.table|
  {
    Minus(EndReading(o, c, j), StartReading(o, c, j))
  }

  function Stamps(clock: nat -> nat, count: nat): seq<nat> {
    seq(count, k requires k >= 0 => clock(k))
  }

  datatype Row = Row(tid: nat, time: nat, columns: seq<nat>)

  function RowOf(o: Observed, tid: nat, j: nat): Row
    requires Sound(o)
  {
    Row(tid, o.clock(j), seq(N_CUSTOM_CTR, c requires 0 <= c < N_CUSTOM_CTR => Delta(o, c, j)))
  }

  // ---------- The record of one thread ----------

  class ThreadArgs {
    const o: Observed
    const values: array2<nat>
    var counts: nat
    var times: seq<nat>
    var accesses: nat
    // for each counter access the length of the run so far, for each stamp the accesses so far
    ghost var readAt: seq<nat>
    ghost var stampedAt: seq<nat>

    ghost predicate Valid()
      reads this, values
    {
      && Sound(o)
      && values.Length0 == N_CUSTOM_CTR && values.Length1 == MAX_PTS
      && counts <= MAX_PTS
      && accesses == 2 * N_CUSTOM_CTR * counts
      && times == Stamps(o.clock, |times|)
      && |readAt| == accesses && |stampedAt| == |times|
      && (forall j :: 0 <= j < |times| ==> stampedAt[j] == 2 * N_CUSTOM_CTR * j)
      && forall c, j :: 0 <= c < N_CUSTOM_CTR && 0 <= j < counts ==> values[c, j] == Delta(o, c, j)
    }

    /** The readings enclose the sweeps: at every reading the run has thread t at the beginning of
        the sweep that comes next. */
    ghost predicate Encloses(c: Config, moves: seq<Move>, t: nat)
      reads this`readAt
    {
      forall a :: 0 <= a < |readAt| ==> HeadAt(c, moves, t, NextSweep(a), readAt[a])
    }

    lemma EnclosesLonger(c: Config, moves: seq<Move>, longer: seq<Move>, t: nat)
      requires Encloses(c, moves, t) && moves <= longer
      ensures Encloses(c, longer, t)
    {
      hide HeadAt;
      forall a | 0 <= a < |readAt|
        ensures HeadAt(c, longer, t, NextSweep(a), readAt[a])
      {
        HeadAtLonger(c, moves, longer, t, NextSweep(a), readAt[a]);
      }
    }

    /** The eight readings that start column j are made before sweep j, the eight that end it after
        sweep j and before sweep j + 1; the time stamp of column j comes before the first of them
        and after the last reading of the column before. */
    lemma ColumnEncloses(c: Config, moves: seq<Move>, t: nat, j: nat, i: nat)
      requires Valid() && Encloses(c, moves, t) && j < counts && i < 8
      ensures HeadAt(c, moves, t, j, readAt[16 * j + i])
      ensures HeadAt(c, moves, t, j + 1, readAt[16 * j + 8 + i])
      ensures j < |times| ==> stampedAt[j] == 16 * j
    {
      hide HeadAt;
      assert NextSweep(16 * j + i) == j && NextSweep(16 * j + 8 + i) == j + 1;
    }

    constructor (o: Observed)
      requires Sound(o)
      ensures Valid() && fresh(values) && counts == 0 && times == [] && this.o == o
    {
      this.o := o;
      values := new nat[N_CUSTOM_CTR, MAX_PTS];
      counts, times, accesses := 0, [], 0;
      readAt, stampedAt := [], [];
    }

    /** read_values: one access per named row, while thread t stays where it is and the others
        go on. */
    method ReadValues(p: Process, t: nat, ghost k: nat, store: array<nat>)
      requires Sound(o) && store.Length == N_CUSTOM_CTR && |readAt| == accesses
      requires p.AboutTo(t, PassHead(k, 0)) && Encloses(p.c, p.moves, t)
      requires accesses % N_CUSTOM_CTR == 0 && NextSweep(accesses) == k
      modifies this`accesses, this`readAt, store, p
      ensures accesses == old(accesses) + N_CUSTOM_CTR == |readAt|
      ensures p.AboutTo(t, PassHead(k, 0)) && old(p.moves) <= p.moves && Encloses(p.c, p.moves, t)
      ensures forall c :: 0 <= c < N_CUSTOM_CTR ==> store[c] == o.events(old(accesses) + c, o.table[c].pmc) % Size(o)
    {
      hide Size, HeadAt, Encloses, NextSweep;
      var i := 0;
      while o.table[i].name != ""
        invariant i <= N_CUSTOM_CTR && accesses == old(accesses) + i == |readAt|
        invariant p.AboutTo(t, PassHead(k, 0)) && old(p.moves) <= p.moves && Encloses(p.c, p.moves, t)
        invariant forall c :: 0 <= c < i ==> store[c] == o.events(old(accesses) + c, o.table[c].pmc) % Size(o)
        decreases N_CUSTOM_CTR - i
      {
        SameNextSweep(old(accesses), i);
        Pause(p, t, k);
        store[i] := o.events(accesses, o.table[i].pmc) % Size(o);
        accesses := accesses + 1;
        i := i + 1;
      }
    }

    /** The other threads go on until a counter is read; the moment is noted. */
    method Pause(p: Process, t: nat, ghost k: nat)
      requires p.AboutTo(t, PassHead(k, 0)) && Encloses(p.c, p.moves, t) && NextSweep(|readAt|) == k
      modifies this`readAt, p
      ensures p.AboutTo(t, PassHead(k, 0)) && old(p.moves) <= p.moves
      ensures |readAt| == |old(readAt)| + 1 && Encloses(p.c, p.moves, t)
    {
      hide HeadAt;
      ghost var before := p.moves;
      p.Interleave(t, PassHead(k, 0));
      EnclosesLonger(p.c, before, p.moves, t);
      HeadNow(p, t, k);
      readAt := readAt + [|p.moves|];
    }

    /** args.times.push_back, before the readings of the sweep to come. */
    method Stamp()
      requires Valid() && |times| == counts
      modifies this`times, this`stampedAt
      ensures Valid() && |times| == counts + 1
    {
      times, stampedAt := times + [o.clock(|times|)], stampedAt + [accesses];
      assert times == Stamps(o.clock, |times|);
    }

    /** The loop that stores the differences of two readings in column `counts`. */
    method StoreDifferences(start: array<nat>, end: array<nat>)
      requires Sound(o) && values.Length0 == N_CUSTOM_CTR && counts < values.Length1
      requires start.Length == end.Length == N_CUSTOM_CTR
      modifies values
      ensures forall c :: 0 <= c < N_CUSTOM_CTR ==> values[c, counts] == Minus(end[c], start[c])
      ensures forall c, j :: 0 <= c < N_CUSTOM_CTR && 0 <= j < counts ==> values[c, j] == old(values[c, j])
    {
      var c := 0;
      while o.table[c].name != ""
        invariant c <= N_CUSTOM_CTR
        invariant forall d :: 0 <= d < c ==> values[d, counts] == Minus(end[d], start[d])
        invariant forall d, j :: 0 <= d < N_CUSTOM_CTR && 0 <= j < counts ==> values[d, j] == old(values[d, j])
        decreases N_CUSTOM_CTR - c
      {
        values[c, counts] := Minus(end[c], start[c]);
        c := c + 1;
      }
    }

    /** One measured sweep over the shared array, between two readings of the counters, while
        the other threads go on. */
    method Measure(p: Process, t: nat, k: nat, pass: Pass)
      requires Valid() && k == counts < MAX_PTS && Encloses(p.c, p.moves, t)
      requires p.AboutTo(t, PassHead(k, 0)) && k < |Passes(p.c.jobs[t])| && Passes(p.c.jobs[t])[k] == pass
      modifies this`counts, this`accesses, this`readAt, values, p
      ensures Valid() && counts == old(counts) + 1 && Encloses(p.c, p.moves, t)
      ensures p.AboutTo(t, PassHead(k + 1, 0)) && old(p.moves) <= p.moves
    {
      hide Minus, Delta, Passes, Exec, Size, HeadAt, Encloses, NextSweep;
      SweepNumbers(counts);
      var start, end := new nat[N_CUSTOM_CTR], new nat[N_CUSTOM_CTR];
      ReadValues(p, t, k, start);
      ghost var before := p.moves;
      p.Sweep(t, k, pass);
      EnclosesLonger(p.c, before, p.moves, t);
      ReadValues(p, t, k + 1, end);
      Keep(start, end);
    }

    /** The readings become column `counts`. */
    method Keep(start: array<nat>, end: array<nat>)
      requires Sound(o) && values.Length0 == N_CUSTOM_CTR && values.Length1 == MAX_PTS && counts < MAX_PTS
      requires start.Length == end.Length == N_CUSTOM_CTR
      requires accesses == 2 * N_CUSTOM_CTR * (counts + 1) == |readAt| && times == Stamps(o.clock, |times|)
      requires |stampedAt| == |times| && forall j :: 0 <= j < |times| ==> stampedAt[j] == 2 * N_CUSTOM_CTR * j
      requires forall c, j :: 0 <= c < N_CUSTOM_CTR && 0 <= j < counts ==> values[c, j] == Delta(o, c, j)
      requires forall c :: 0 <= c < N_CUSTOM_CTR ==> start[c] == StartReading(o, c, counts)
      requires forall c :: 0 <= c < N_CUSTOM_CTR ==> end[c] == EndReading(o, c, counts)
      modifies this`counts, values
      ensures Valid() && counts == old(counts) + 1 && readAt == old(readAt)
    {
      hide Minus, StartReading, EndReading;
      StoreDifferences(start, end);
      counts := counts + 1;
    }

    /** A loop of `count` stamped sweeps of one kind, the first of them the k-th of the function. */
    method StampedSweeps(p: Process, t: nat, k: nat, pass: Pass, count: nat)
      requires Valid() && k == counts == |times| && counts + count <= MAX_PTS && Encloses(p.c, p.moves, t)
      requires p.AboutTo(t, PassHead(k, 0)) && k + count <= |Passes(p.c.jobs[t])|
      requires forall i :: k <= i < k + count ==> Passes(p.c.jobs[t])[i] == pass
      modifies this`counts, this`times, this`accesses, this`readAt, this`stampedAt, values, p
      ensures Valid() && counts == old(counts) + count == |times| && Encloses(p.c, p.moves, t)
      ensures p.AboutTo(t, PassHead(k + count, 0)) && old(p.moves) <= p.moves
    {
      hide Passes, Exec, Delta, HeadAt;
      var i := 0;
      while i < count
        invariant i <= count && Valid() && counts == old(counts) + i == |times| && Encloses(p.c, p.moves, t)
        invariant p.AboutTo(t, PassHead(k + i, 0)) && old(p.moves) <= p.moves
      {
        StampedSweep(p, t, k + i, pass);
        i := i + 1;
      }
    }

    method StampedSweep(p: Process, t: nat, k: nat, pass: Pass)
      requires Valid() && k == counts == |times| && counts < MAX_PTS && Encloses(p.c, p.moves, t)
      requires p.AboutTo(t, PassHead(k, 0)) && k < |Passes(p.c.jobs[t])| && Passes(p.c.jobs[t])[k] == pass
      modifies this`counts, this`times, this`accesses, this`readAt, this`stampedAt, values, p
      ensures Valid() && counts == old(counts) + 1 == |times| && Encloses(p.c, p.moves, t)
      ensures p.AboutTo(t, PassHead(k + 1, 0)) && old(p.moves) <= p.moves
    {
      hide Passes, Exec, Delta, HeadAt;
      Stamp();
      Measure(p, t, k, pass);
    }

    /** The setup block, and for id 1 in t1 and t2 the waiting loop. */
    method Begin(p: Process, t: nat, junk: seq<int>)
      requires p.AboutTo(t, Check) && Returns(p, t)
      modifies p
      ensures p.AboutTo(t, PassHead(0, 0)) && old(p.moves) <= p.moves
    {
      hide Exec;
      p.Setup(t, junk);
      if t == 1 && Gated(p.c.jobs[t].func) { p.Await(t); }
    }

    method RunT1(p: Process, t: nat, junk: seq<int>)
      requires p.AboutTo(t, Check) && Returns(p, t) && p.c.jobs[t].func == T1 && RoomFor(p.c.jobs[t])
      modifies this`counts, this`times, this`accesses, this`readAt, this`stampedAt, values, p
      ensures Complete(p, t) && p.AboutTo(t, Done) && old(p.moves) <= p.moves
    {
      hide Exec, Delta;
      Begin(p, t, junk);
      StampedSweeps(p, t, 0, Read, p.c.jobs[t].iterations);
      Close(p, t);
    }

    method RunT2(p: Process, t: nat, junk: seq<int>)
      requires p.AboutTo(t, Check) && Returns(p, t) && p.c.jobs[t].func == T2 && RoomFor(p.c.jobs[t])
      modifies this`counts, this`times, this`accesses, this`readAt, this`stampedAt, values, p
      ensures Complete(p, t) && p.AboutTo(t, Done) && old(p.moves) <= p.moves
    {
      T2Passes(p.c.jobs[t]);
      hide Exec, Delta, Passes;
      Begin(p, t, junk);
      var half := p.c.jobs[t].iterations / 2;
      StampedSweeps(p, t, 0, Read, half);
      StampedSweep(p, t, half, WriteIndex);
      StampedSweeps(p, t, half + 1, Read, half);
      Close(p, t);
    }

    method RunT3(p: Process, t: nat, junk: seq<int>)
      requires p.AboutTo(t, Check) && Returns(p, t) && p.c.jobs[t].func == T3 && RoomFor(p.c.jobs[t])
      modifies this`counts, this`times, this`accesses, this`readAt, this`stampedAt, values, p
      ensures Complete(p, t) && p.AboutTo(t, Done) && old(p.moves) <= p.moves
    {
      hide Exec, Delta;
      Begin(p, t, junk);
      StampedSweeps(p, t, 0, Read, 9);
      StampedSweep(p, t, 9, WriteIndex);
      Close(p, t);
    }

    method RunT4(p: Process, t: nat, junk: seq<int>)
      requires p.AboutTo(t, Check) && Returns(p, t) && p.c.jobs[t].func == T4 && RoomFor(p.c.jobs[t])
      modifies this`counts, this`times, this`accesses, this`readAt, this`stampedAt, values, p
      ensures Complete(p, t) && p.AboutTo(t, Done) && old(p.moves) <= p.moves
    {
      hide Exec, Delta;
      Begin(p, t, junk);
      StampedSweep(p, t, 0, WriteIndex);
      StampedSweeps(p, t, 1, Read, 9);
      Close(p, t);
    }

    /** The write benchmark records no time stamps.  Once every thread has returned from it, the
        array the program is left with holds j + 1 in cell j. */
    method RunWriteAll(p: Process, t: nat, junk: seq<int>)
      requires p.AboutTo(t, Check) && Returns(p, t) && p.c.jobs[t].func == WriteAll && RoomFor(p.c.jobs[t])
      modifies this`counts, this`times, this`accesses, this`readAt, this`stampedAt, values, p
      ensures Complete(p, t) && p.AboutTo(t, Done) && old(p.moves) <= p.moves
      ensures ProtocolCells.AllWrite(p.c) && AllDone(p.Now()) ==>
                && p.sharedArray.At? && p.sharedArray.id < |p.heap| && |p.heap[p.sharedArray.id].cells| == p.c.n
                && forall j :: 0 <= j < p.c.n ==> p.heap[p.sharedArray.id].cells[j] == j + 1
    {
      hide Exec, Delta, ProtocolCells.AllWrite;
      Begin(p, t, junk);
      var i := 0;
      while i < p.c.jobs[t].iterations
        invariant i <= p.c.jobs[t].iterations && Valid() && counts == i && times == [] && Encloses(p.c, p.moves, t)
        invariant p.AboutTo(t, PassHead(i, 0)) && old(p.moves) <= p.moves
      {
        Measure(p, t, i, WriteSucc);
        i := i + 1;
      }
      Close(p, t);
      p.FinalArray();
    }

    /** An empty record with room for the sweeps of a function. */
    ghost predicate RoomFor(job: Job)
      reads this, values
    {
      Valid() && counts == 0 && times == [] && |Passes(job)| <= MAX_PTS
    }

    /** The record has one column for every sweep of the function, the readings of each enclose
        that sweep, and there is one time stamp for each unless the function is the write
        benchmark; and unless the process crashed, the thread has made the accesses its function
        promises. */
    ghost predicate Complete(p: Process, t: nat)
      reads this, values, p
    {
      && t < |p.c.jobs| && Valid() && counts == |Passes(p.c.jobs[t])| && Encloses(p.c, p.moves, t)
      && |times| == (if p.c.jobs[t].func == WriteAll then 0 else counts)
      && (p.fault || ProtocolAccesses.AccessLog(p.c, p.moves, t) == ProtocolAccesses.Promised(p.c.jobs[t], p.c.n))
    }

    /** The end of a function. */
    method Close(p: Process, t: nat)
      requires t < |p.c.jobs| && p.AboutTo(t, PassHead(|Passes(p.c.jobs[t])|, 0))
      requires Valid() && counts == |Passes(p.c.jobs[t])| && Encloses(p.c, p.moves, t)
      requires |times| == if p.c.jobs[t].func == WriteAll then 0 else counts
      modifies p
      ensures Complete(p, t) && p.AboutTo(t, Done) && old(p.moves) <= p.moves
    {
      hide Exec, Passes, Delta, Encloses, ProtocolAccesses.AccessLog, ProtocolAccesses.Promised;
      ghost var before := p.moves;
      p.Finish(t);
      EnclosesLonger(p.c, before, p.moves, t);
      if !p.fault { ProtocolAccesses.AccessesInOrder(p.c, p.moves, t); }
    }

    /** The main program starts the function of the thread. */
    method Run(p: Process, t: nat, junk: seq<int>)
      requires p.AboutTo(t, Check) && Returns(p, t) && RoomFor(p.c.jobs[t])
      modifies this`counts, this`times, this`accesses, this`readAt, this`stampedAt, values, p
      ensures Complete(p, t) && p.AboutTo(t, Done) && old(p.moves) <= p.moves
    {
      hide Exec, Delta, Passes;
      match p.c.jobs[t].func
      case T1 => RunT1(p, t, junk);
      case T2 => RunT2(p, t, junk);
      case T3 => RunT3(p, t, junk);
      case T4 => RunT4(p, t, junk);
      case WriteAll => RunWriteAll(p, t, junk);
    }

    /** The printing loop of the main program.  It prints a row for every count and takes the
        time stamp of that index; `overrun` says that it indexed past the last stamp. */
    method PrintRows(tid: nat) returns (rows: seq<Row>, overrun: bool)
      requires Valid()
      ensures overrun <==> |times| < counts
      ensures |rows| == if overrun then |times| else counts
      ensures forall j :: 0 <= j < |rows| ==> rows[j] == RowOf(o, tid, j)
    {
      rows, overrun := [], false;
      var j := 0;
      while j < counts
        invariant j <= counts && |rows| == j <= |times| && !overrun
        invariant forall k :: 0 <= k < j ==> rows[k] == RowOf(o, tid, k)
      {
        if j >= |times| {
          overrun := true;
          return;
        }
        var columns := [values[0, j]];
        while o.table[|columns|].name != ""
          invariant 1 <= |columns| <= N_CUSTOM_CTR
          invariant forall c :: 0 <= c < |columns| ==> columns[c] == values[c, j]
          decreases N_CUSTOM_CTR - |columns|
        {
          columns := columns + [values[|columns|, j]];
        }
        assert Row(tid, times[j], columns) == RowOf(o, tid, j);
        rows := rows + [Row(tid, times[j], columns)];
        j := j + 1;
      }
    }
  }

  /** The sweep that follows counter access a: eight accesses come before sweep 0, sixteen between
      any two sweeps. */
  function NextSweep(a: nat): nat {
    (a + N_CUSTOM_CTR) / (2 * N_CUSTOM_CTR)
  }

  lemma SameNextSweep(a: nat, i: nat)
    requires a % N_CUSTOM_CTR == 0 && i < N_CUSTOM_CTR
    ensures NextSweep(a + i) == NextSweep(a)
  {
    var half := a / 16;
    assert a == 16 * half || a == 16 * half + 8;
  }

  lemma SweepNumbers(j: nat)
    ensures NextSweep(16 * j) == j && NextSweep(16 * j + 8) == j + 1
    ensures (16 * j) % 8 == 0 && (16 * j + 8) % 8 == 0
  {
  }

  /** After the first `at` moves of the run thread t is at the beginning of its sweep k, if the
      process has not crashed. */
  ghost predicate HeadAt(c: Config, moves: seq<Move>, t: nat, k: nat, at: nat) {
    && at <= |moves| && t < |c.jobs|
    && (Exec(c, moves[..at]).fault || Exec(c, moves[..at]).threads[t].pc == PassHead(k, 0))
  }

  lemma HeadAtLonger(c: Config, moves: seq<Move>, longer: seq<Move>, t: nat, k: nat, at: nat)
    requires HeadAt(c, moves, t, k, at) && moves <= longer
    ensures HeadAt(c, longer, t, k, at)
  {
    assert longer[..at] == moves[..at];
  }

  lemma HeadNow(p: Process, t: nat, k: nat)
    requires p.AboutTo(t, PassHead(k, 0))
    ensures HeadAt(p.c, p.moves, t, k, |p.moves|)
  {
    assert p.moves[..|p.moves|] == p.moves;
  }

  /** Thread t does not wait, or thread 0 is one that opens the gate and keeps getting turns. */
  ghost predicate Returns(p: Process, t: nat) {
    WaitsAt(p.c, t) ==> RaisesAt(p.c, 0) && Recurs(p.others, 0)
  }

  lemma T2Passes(job: Job)
    requires job.func == T2
    ensures var half := job.iterations / 2;
            && |Passes(job)| == half + 1 + half && Passes(job)[half] == WriteIndex
            && forall k :: 0 <= k < |Passes(job)| && k != half ==> Passes(job)[k] == Read
  {
  }

  /** The number of sweeps each benchmark function measures. */
  lemma SweepCount(job: Job)
    ensures |Passes(job)| == match job.func
                             case T1 => job.iterations
                             case T2 => 2 * (job.iterations / 2) + 1
                             case T3 => 10
                             case T4 => 10
                             case WriteAll => job.iterations
  {
  }

  /** One thread of the program, from its start to its printed rows, among other threads that
      move in between as they like.  Unless the process crashes, a row is printed for every sweep
      and holds its own time stamp and its own differences, except for the write benchmark: it
      counts sweeps without stamping them, so that the printing overruns its stamps. */
  method ThreadRows(c: Config, others: nat -> seq<Move>, t: nat, junk: seq<int>, o: Observed)
    returns (crashed: bool, rows: seq<Row>, overrun: bool)
    requires Sound(o) && t < |c.jobs| && |Passes(c.jobs[t])| <= MAX_PTS
    requires WaitsAt(c, t) ==> RaisesAt(c, 0) && Recurs(others, 0)
    ensures !crashed ==>
              && (overrun <==> c.jobs[t].func == WriteAll && c.jobs[t].iterations > 0)
              && |rows| == if c.jobs[t].func == WriteAll then 0 else |Passes(c.jobs[t])|
    ensures crashed ==> rows == [] && !overrun
    ensures forall j :: 0 <= j < |rows| ==> rows[j] == RowOf(o, t, j)
    ensures forall j :: 0 <= j < |rows| ==> RowInNumbers(rows[j], o, t, j)
  {
    hide Exec, Delta, Passes, ThreadArgs.Encloses;
    var p := new Process(c, others);
    var args := new ThreadArgs(o);
    args.Run(p, t, junk);
    SweepCount(c.jobs[t]);
    crashed, rows, overrun := p.fault, [], false;
    if !crashed { rows, overrun := args.PrintRows(t); }
    forall j | 0 <= j < |rows|
      ensures RowInNumbers(rows[j], o, t, j)
    {
      RowIs(o, t, j);
    }
  }

  /** The row of index j in numbers: its time stamp, and for each counter the register before the
      sweep subtracted from the register after it, modulo 2^64. */
  predicate RowInNumbers(row: Row, o: Observed, tid: nat, j: nat)
    requires |o.table| >= 8
  {
    && row.tid == tid && row.time == o.clock(j) && |row.columns| == 8
    && forall c :: 0 <= c < 8 ==>
         row.columns[c] == (o.events(16 * j + 8 + c, o.table[c].pmc) % Pow(2, o.width)
                            - o.events(16 * j + c, o.table[c].pmc) % Pow(2, o.width)) % 0x1_0000_0000_0000_0000
  }

  lemma RowIs(o: Observed, tid: nat, j: nat)
    requires Sound(o)
    ensures RowInNumbers(RowOf(o, tid, j), o, tid, j)
  {
    hide Pow;
  }

  /** The shipped table is one of eight counters. */
  lemma ShippedTableEnds()
    ensures EightCounters(Counters.COUNTER_TBL)
  {
  }

  // ---------- Exactness ----------

  /** No counter runs backwards. */
  ghost predicate Monotone(o: Observed) {
    forall a: int, s: nat, t: nat :: s <= t ==> o.events(s, a) <= o.events(t, a)
  }

  /** The events during sweep j (and the readings around it). */
  function Advance(o: Observed, c: nat, j: nat): int
    requires c < |o.table|
  {
    EndEvents(o, c, j) - StartEvents(o, c, j)
  }

  /** How often the register wrapped during sweep j. */
  function Wraps(o: Observed, c: nat, j: nat): int
    requires c < |o.table|
  {
    EndEvents(o, c, j) / Size(o) - StartEvents(o, c, j) / Size(o)
  }

  /** The subtraction of the two readings borrows. */
  predicate Borrows(o: Observed, c: nat, j: nat)
    requires c < |o.table|
  {
    EndReading(o, c, j) < StartReading(o, c, j)
  }

  lemma SizeInRange(o: Observed)
    requires o.width <= 64
    ensures 1 <= Size(o) <= TWO64 && (o.width == 64 ==> Size(o) == TWO64) && (o.width < 64 ==> Size(o) < TWO64)
  {
    PowTwo64();
    PowMonotone(2, o.width, 64);
    if o.width < 64 { PowMonotone(2, o.width, 63); }
  }

  /** A recorded difference in terms of events, wraps and borrow, for registers of any width. */
  lemma DeltaIs(o: Observed, c: nat, j: nat)
    requires c < |o.table| && o.width <= 64
    ensures Delta(o, c, j)
            == Advance(o, c, j) - Size(o) * Wraps(o, c, j) + if Borrows(o, c, j) then TWO64 else 0
  {
    SizeInRange(o);
    hide Size;
    DifferenceIs(StartEvents(o, c, j), EndEvents(o, c, j), Size(o));
  }

  lemma DifferenceIs(s: nat, e: nat, size: nat)
    requires 1 <= size <= TWO64
    ensures Minus(e % size, s % size)
            == e - s - size * (e / size - s / size) + if e % size < s % size then TWO64 else 0
  {
    hide Minus;
    Split(e, size);
    Split(s, size);
    SplitDifference(size, e / size, e % size, s / size, s % size);
  }

  lemma SplitDifference(size: nat, p: nat, x: nat, q: nat, y: nat)
    requires x < TWO64 && y < TWO64
    ensures Minus(x, y) == (size * p + x) - (size * q + y) - size * (p - q) + if x < y then TWO64 else 0
  {
    MinusIs(x, y);
    Difference(size, p, q);
  }

  lemma MinusIs(x: nat, y: nat)
    requires x < TWO64 && y < TWO64
    ensures Minus(x, y) == x - y + if x < y then TWO64 else 0
  {
  }

  lemma Split(x: nat, size: nat)
    requires size >= 1
    ensures x == size * (x / size) + x % size && x % size < size
  {
  }

  lemma Difference(k: nat, a: nat, b: nat)
    ensures k * (a - b) == k * a - k * b
  {
  }

  /** A recorded difference is the number of events if and only if the register did not wrap
      during the sweep, or wrapped just often enough for the borrow of the 64-bit subtraction to
      make up for it. */
  lemma DeltaExact(o: Observed, c: nat, j: nat)
    requires c < |o.table| && o.width <= 64 && Monotone(o)
    ensures Delta(o, c, j) == Advance(o, c, j)
            <==> Wraps(o, c, j) == 0 || (Size(o) * Wraps(o, c, j) == TWO64 && Borrows(o, c, j))
  {
    DeltaIs(o, c, j);
    SizeInRange(o);
    hide Size, Delta;
    WrapsOf(StartEvents(o, c, j), EndEvents(o, c, j), Size(o));
  }

  lemma WrapsOf(s: nat, e: nat, size: nat)
    requires s <= e && size >= 1
    ensures var w := e / size - s / size;
            && w >= 0
            && (size * w == 0 <==> w == 0)
            && (e % size < s % size ==> w >= 1)
            && (e - s < size ==> w <= 1 && (w == 1 <==> e % size < s % size))
  {
    Split(e, size);
    Split(s, size);
    var w := e / size - s / size;
    Difference(size, e / size, s / size);
    if w < 0 { Times(size, w, -1); }
    if w >= 1 { Times(size, 1, w); }
    if w >= 2 { Times(size, 2, w); }
  }

  lemma Times(k: nat, a: int, b: int)
    requires a <= b
    ensures k * a <= k * b
  {
  }

  /** For a 64-bit register that condition is that fewer than 2^64 events occurred, and the
      difference never exceeds their number. */
  lemma FullWidthExact(o: Observed, c: nat, j: nat)
    requires c < |o.table| && o.width == 64 && Monotone(o)
    ensures Delta(o, c, j) <= Advance(o, c, j)
    ensures Delta(o, c, j) == Advance(o, c, j) <==> Advance(o, c, j) < TWO64
  {
    SizeInRange(o);
    hide Size;
    var s, e := StartEvents(o, c, j), EndEvents(o, c, j);
    assert s <= e;
    DifferenceIs(s, e, TWO64);
    WrapsOf(s, e, TWO64);
  }

  // ---------- Conservation ----------

  /** Column c of the printed rows, added up. */
  function ColumnSum(rows: seq<Row>, c: nat): nat
    requires forall r :: r in rows ==> c < |r.columns|
  {
    if rows == [] then 0
    else ColumnSum(rows[..|rows| - 1], c) + rows[|rows| - 1].columns[c]
  }

  /** The events between the first `count` sweeps. */
  function Gaps(o: Observed, c: nat, count: nat): int
    requires c < |o.table|
  {
    if count <= 1 then 0
    else Gaps(o, c, count - 1) + StartEvents(o, c, count - 1) - EndEvents(o, c, count - 2)
  }

  /** Wraps and borrows of the first `count` sweeps. */
  function AllWraps(o: Observed, c: nat, count: nat): int
    requires c < |o.table|
  {
    if count == 0 then 0 else AllWraps(o, c, count - 1) + Wraps(o, c, count - 1)
  }

  function AllBorrows(o: Observed, c: nat, count: nat): nat
    requires c < |o.table|
  {
    if count == 0 then 0 else AllBorrows(o, c, count - 1) + if Borrows(o, c, count - 1) then 1 else 0
  }

  predicate PrintedBy(rows: seq<Row>, o: Observed, tid: nat)
    requires Sound(o)
  {
    forall j :: 0 <= j < |rows| ==> rows[j] == RowOf(o, tid, j)
  }

  /** The events from the start of the first sweep to the end of the last. */
  function Total(o: Observed, c: nat, count: nat): int
    requires c < |o.table| && count > 0
  {
    EndEvents(o, c, count - 1) - StartEvents(o, c, 0)
  }

  /** For registers of any width: the printed column, the events between the sweeps and what the
      wraps swallowed add up to the events from first start to last end and the borrows. */
  lemma {:induction false} Conservation(rows: seq<Row>, o: Observed, tid: nat, c: nat)
    requires Sound(o) && c < N_CUSTOM_CTR && PrintedBy(rows, o, tid) && rows != []
    ensures ColumnSum(rows, c) + Gaps(o, c, |rows|) + Size(o) * AllWraps(o, c, |rows|)
            == Total(o, c, |rows|) + TWO64 * AllBorrows(o, c, |rows|)
    decreases |rows|
  {
    hide Delta, StartEvents, EndEvents, Size, Wraps, Borrows;
    var last := |rows| - 1;
    assert rows[last].columns[c] == Delta(o, c, last);
    DeltaIs(o, c, last);
    Distribute(Size(o), AllWraps(o, c, last), Wraps(o, c, last));
    if last > 0 {
      Conservation(rows[..last], o, tid, c);
    } else {
      assert ColumnSum(rows[..last], c) == 0;
    }
  }

  lemma Distribute(k: nat, a: int, b: int)
    ensures k * (a + b) == k * a + k * b
  {
  }

  lemma {:induction false} GapsGrow(o: Observed, c: nat, count: nat)
    requires c < N_CUSTOM_CTR < |o.table| && Monotone(o)
    ensures Gaps(o, c, count) >= 0
  {
    if count > 1 {
      GapsGrow(o, c, count - 1);
      assert EndEvents(o, c, count - 2) <= StartEvents(o, c, count - 1);
    }
  }

  lemma {:induction false} OneWrapPerBorrow(o: Observed, c: nat, count: nat)
    requires c < |o.table| && Monotone(o)
    requires forall j :: 0 <= j < count ==> Advance(o, c, j) < Size(o)
    ensures AllWraps(o, c, count) == AllBorrows(o, c, count)
  {
    hide Size, Monotone, StartEvents, EndEvents;
    if count > 0 {
      Order(o, c, count - 1, count - 1);
      OneWrapPerBorrow(o, c, count - 1);
      assert Advance(o, c, count - 1) < Size(o);
      WrapsOf(StartEvents(o, c, count - 1), EndEvents(o, c, count - 1), Size(o));
    }
  }

  /** When no sweep sees as many events as a register holds, every register wrap adds 2^64 minus
      that number to the column: nothing for 64-bit registers, and for narrower ones the column
      tells the truth if and only if no reading after a sweep is below the one before it. */
  lemma ShortSweeps(rows: seq<Row>, o: Observed, tid: nat, c: nat)
    requires Sound(o) && c < N_CUSTOM_CTR && Monotone(o) && PrintedBy(rows, o, tid) && rows != []
    requires forall j :: 0 <= j < |rows| ==> Advance(o, c, j) < Size(o)
    ensures var printed := ColumnSum(rows, c) + Gaps(o, c, |rows|);
            && printed == Total(o, c, |rows|) + (TWO64 - Size(o)) * AllBorrows(o, c, |rows|)
            && (printed == Total(o, c, |rows|) <==> o.width == 64 || AllBorrows(o, c, |rows|) == 0)
  {
    SizeInRange(o);
    hide Size, ColumnSum, Gaps, Total, Advance, AllWraps, AllBorrows, Monotone;
    Conservation(rows, o, tid, c);
    OneWrapPerBorrow(o, c, |rows|);
    Excess(Size(o), AllBorrows(o, c, |rows|));
  }

  lemma Excess(size: nat, b: nat)
    requires 1 <= size <= TWO64
    ensures (TWO64 - size) * b == TWO64 * b - size * b
    ensures (TWO64 - size) * b == 0 <==> size == TWO64 || b == 0
  {
    Difference(b, TWO64, size);
    if b >= 1 && size < TWO64 { Times(b, 1, TWO64 - size); }
  }

  /** 64-bit registers: nothing is counted twice, and nothing is lost if and only if no sweep
      saw 2^64 events or more. */
  lemma FullWidthConservation(rows: seq<Row>, o: Observed, tid: nat, c: nat)
    requires Sound(o) && o.width == 64 && c < N_CUSTOM_CTR && Monotone(o)
    requires PrintedBy(rows, o, tid) && rows != []
    ensures var printed := ColumnSum(rows, c) + Gaps(o, c, |rows|);
            && printed <= Total(o, c, |rows|)
            && (printed == Total(o, c, |rows|) <==> forall j :: 0 <= j < |rows| ==> Advance(o, c, j) < TWO64)
  {
    SizeInRange(o);
    hide Size, ColumnSum, Gaps, Total, Advance, AllWraps, AllBorrows, Monotone;
    Conservation(rows, o, tid, c);
    LostEvents(o, c, |rows|);
    Difference(TWO64, AllWraps(o, c, |rows|), AllBorrows(o, c, |rows|));
  }

  lemma {:induction false} LostEvents(o: Observed, c: nat, count: nat)
    requires c < |o.table| && o.width == 64 && Monotone(o)
    ensures AllWraps(o, c, count) >= AllBorrows(o, c, count)
    ensures AllWraps(o, c, count) == AllBorrows(o, c, count)
            <==> forall j :: 0 <= j < count ==> Advance(o, c, j) < TWO64
  {
    hide Size, Delta, Advance, Wraps, Borrows;
    if count > 0 {
      LostEvents(o, c, count - 1);
      SizeInRange(o);
      FullWidthExact(o, c, count - 1);
      DeltaIs(o, c, count - 1);
    }
  }

  lemma Order(o: Observed, c: nat, j: nat, k: nat)
    requires c < |o.table| && Monotone(o) && j <= k
    ensures StartEvents(o, c, 0) <= EndEvents(o, c, j) <= EndEvents(o, c, k)
    ensures Advance(o, c, j) <= EndEvents(o, c, k) && StartEvents(o, c, j) <= EndEvents(o, c, j)
  {
  }

  lemma {:induction false} NoBorrows(o: Observed, c: nat, count: nat, end: nat)
    requires c < |o.table| && Monotone(o) && count <= end + 1 && EndEvents(o, c, end) < Size(o)
    ensures AllBorrows(o, c, count) == 0
  {
    hide Size, Monotone, StartEvents, EndEvents;
    if count > 0 {
      NoBorrows(o, c, count - 1, end);
      Order(o, c, count - 1, end);
      Small(StartEvents(o, c, count - 1), Size(o));
      Small(EndEvents(o, c, count - 1), Size(o));
    }
  }

  lemma Small(x: nat, size: nat)
    requires x < size
    ensures x % size == x
  {
  }

  /** A register that never wraps never loses an event, whatever its width: its printed column is
      at most the last end reading minus the first start reading, and the rest occurred between
      sweeps. */
  lemma {:induction false} NonWrapping(rows: seq<Row>, o: Observed, tid: nat, c: nat)
    requires Sound(o) && c < N_CUSTOM_CTR && Monotone(o) && PrintedBy(rows, o, tid) && rows != []
    requires EndEvents(o, c, |rows| - 1) < Size(o)
    ensures ColumnSum(rows, c) == EndReading(o, c, |rows| - 1) - StartReading(o, c, 0) - Gaps(o, c, |rows|)
    ensures Gaps(o, c, |rows|) >= 0
  {
    hide EndEvents, StartEvents, ColumnSum, Advance, Gaps, Monotone, Size, AllBorrows;
    forall j | 0 <= j < |rows|
      ensures Advance(o, c, j) < Size(o)
    {
      Order(o, c, j, |rows| - 1);
    }
    ShortSweeps(rows, o, tid, c);
    NoBorrows(o, c, |rows|, |rows| - 1);
    GapsGrow(o, c, |rows|);
    Order(o, c, 0, |rows| - 1);
    Small(StartEvents(o, c, 0), Size(o));
    Small(EndEvents(o, c, |rows| - 1), Size(o));
  }
}
