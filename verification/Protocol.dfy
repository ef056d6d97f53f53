/** The threads of the shared-array benchmarks as an interleaved transition system.

    Every step performs at most one access to shared memory: the flag `sa_flag`, the gate
    `can_run`, the pointer `shared_array`, or one cell behind that pointer.  `shared_array[j]`
    is therefore two steps, a load of the pointer and an access through the loaded value, and
    another thread may replace the array in between. */
module Protocol {

  /** The benchmark functions that share the array. */
  datatype Func = T1 | T2 | T3 | T4 | WriteAll

  /** One sweep over the array: read every cell, store j in cell j, or store j + 1 in cell j. */
  datatype Pass = Read | WriteIndex | WriteSucc

  datatype Job = Job(func: Func, iterations: nat)

  /** `n` cells per array; the thread with id t runs `jobs[t]`. */
  datatype Config = Config(n: nat, jobs: seq<Job>)

  datatype Ptr = Null | At(id: nat)

  datatype Pc =
    | Check                                 // about to test sa_flag
    | Set                                   // about to raise sa_flag
    | Alloc                                 // about to publish a fresh array
    | FillHead(i: nat)                      // head of the filling loop, loads the pointer
    | FillStore(i: nat, p: Ptr)             // about to store i in cell i of p
    | Wait                                  // spinning on can_run
    | PassHead(k: nat, j: nat)              // head of the inner loop of pass k, loads the pointer
    | Access(k: nat, j: nat, p: Ptr)        // about to touch cell j of p in pass k
    | Raise                                 // about to raise can_run
    | Done

  /** `initialiser` is the outcome of the test of sa_flag: this thread entered its setup block. */
  datatype Thread = Thread(pc: Pc, initialiser: bool)

  /** An allocated array and the thread that allocated it. */
  datatype Block = Block(owner: nat, cells: seq<int>)

  datatype State = State(saFlag: bool, canRun: bool, ptr: Ptr, heap: seq<Block>,
                         threads: seq<Thread>, fault: bool)

  /** The scheduler picks a thread; should it allocate, the fresh memory holds `junk`. */
  datatype Move = Move(tid: nat, junk: seq<int>)

  function Repeat(p: Pass, count: nat): seq<Pass> {
    seq(count, _ => p)
  }

  /** The measured sweeps of each benchmark function, in order. */
  function Passes(job: Job): seq<Pass> {
    match job.func
    case T1 => Repeat(Read, job.iterations)
    case T2 => Repeat(Read, job.iterations / 2) + [WriteIndex] + Repeat(Read, job.iterations / 2)
    case T3 => Repeat(Read, 9) + [WriteIndex]
    case T4 => [WriteIndex] + Repeat(Read, 9)
    case WriteAll => Repeat(WriteSucc, job.iterations)
  }

  /** t1 keeps its bound in an `unsigned int`, the others compare with the 64-bit n. */
  function Limit(f: Func, n: nat): (limit: nat)
    ensures limit <= n
  {
    if f == T1 then n % 0x1_0000_0000 else n
  }

  /** t1 and t2 make id 1 wait for id 0; the other functions have that code commented out. */
  predicate Gated(f: Func) {
    f == T1 || f == T2
  }

  predicate WaitsAt(c: Config, t: nat) {
    t == 1 && t < |c.jobs| && Gated(c.jobs[t].func)
  }

  predicate RaisesAt(c: Config, t: nat) {
    t == 0 && t < |c.jobs| && Gated(c.jobs[t].func)
  }

  function Init(c: Config): State {
    State(false, false, Null, [], seq(|c.jobs|, _ => Thread(Check, false)), false)
  }

  /** Where control goes when the setup block is left or skipped. */
  function AfterSetup(c: Config, t: nat): Pc {
    if WaitsAt(c, t) then Wait else PassHead(0, 0)
  }

  function Goto(s: State, t: nat, pc: Pc): State
    requires t < |s.threads|
  {
    s.(threads := s.threads[t := s.threads[t].(pc := pc)])
  }

  function Fresh(n: nat, junk: seq<int>): (cells: seq<int>)
    ensures |cells| == n
  {
    seq(n, i => if 0 <= i < |junk| then junk[i] else 0)
  }

  /** p points to an allocated array. */
  predicate Live(s: State, p: Ptr) {
    p.At? && p.id < |s.heap|
  }

  predicate Mapped(s: State, p: Ptr, j: nat) {
    Live(s, p) && j < |s.heap[p.id].cells|
  }

  function Store(s: State, p: Ptr, j: nat, v: int): State
    requires Mapped(s, p, j)
  {
    var b := s.heap[p.id];
    s.(heap := s.heap[p.id := b.(cells := b.cells[j := v])])
  }

  /** The access of cell j of p by thread t in pass k; a bad pointer ends the whole process. */
  function Touch(c: Config, s: State, t: nat, k: nat, j: nat, p: Ptr): State
    requires t < |s.threads| == |c.jobs|
  {
    var passes := Passes(c.jobs[t]);
    if !Mapped(s, p, j) || k >= |passes| then s.(fault := true)
    else
      var s1 := match passes[k]
                case Read => s
                case WriteIndex => Store(s, p, j, j)
                case WriteSucc => Store(s, p, j, j + 1);
      Goto(s1, t, PassHead(k, j + 1))
  }

  /** One step of thread t.  A finished thread, an absent thread and a crashed process stay put,
      and so does a thread that spins on a gate that is still closed. */
  function Step(c: Config, s: State, m: Move): State
    requires |s.threads| == |c.jobs|
  {
    var t := m.tid;
    if s.fault || t >= |s.threads| then s
    else
      var f := c.jobs[t].func;
      match s.threads[t].pc
      case Check =>
        s.(threads := s.threads[t := Thread(if s.saFlag then AfterSetup(c, t) else Set, !s.saFlag)])
      case Set =>
        Goto(s.(saFlag := true), t, Alloc)
      case Alloc =>
        Goto(s.(heap := s.heap + [Block(t, Fresh(c.n, m.junk))], ptr := At(|s.heap|)), t, FillHead(0))
      case FillHead(i) =>
        if i < c.n then Goto(s, t, FillStore(i, s.ptr)) else Goto(s, t, AfterSetup(c, t))
      case FillStore(i, p) =>
        if Mapped(s, p, i) then Goto(Store(s, p, i, i), t, FillHead(i + 1)) else s.(fault := true)
      case Wait =>
        if s.canRun then Goto(s, t, PassHead(0, 0)) else s
      case PassHead(k, j) =>
        if k >= |Passes(c.jobs[t])| then Goto(s, t, if RaisesAt(c, t) then Raise else Done)
        else if j < Limit(f, c.n) then Goto(s, t, Access(k, j, s.ptr))
        else Goto(s, t, PassHead(k + 1, 0))
      case Access(k, j, p) =>
        Touch(c, s, t, k, j, p)
      case Raise =>
        Goto(s.(canRun := true), t, Done)
      case Done => s
  }

  /** The state a schedule leads to from s. */
  function ExecFrom(c: Config, s: State, moves: seq<Move>): (r: State)
    requires |s.threads| == |c.jobs|
    ensures |r.threads| == |c.jobs|
    decreases |moves|
  {
    if moves == [] then s
    else Step(c, ExecFrom(c, s, moves[..|moves| - 1]), moves[|moves| - 1])
  }

  /** The state a schedule leads to from the start of the program. */
  function Exec(c: Config, moves: seq<Move>): (r: State)
    ensures |r.threads| == |c.jobs|
  {
    ExecFrom(c, Init(c), moves)
  }

  lemma ExecSnoc(c: Config, moves: seq<Move>, m: Move)
    ensures Exec(c, moves + [m]) == Step(c, Exec(c, moves), m)
  {
    assert (moves + [m])[..|moves|] == moves;
  }

  predicate AllDone(s: State) {
    forall t :: 0 <= t < |s.threads| ==> s.threads[t].pc == Done
  }

  /** Thread t is between its test of sa_flag and the end of its filling loop. */
  predicate InSetup(s: State, t: nat)
    requires t < |s.threads|
  {
    var pc := s.threads[t].pc;
    pc.Set? || pc.Alloc? || pc.FillHead? || pc.FillStore?
  }

  /** Thread t is inside one of its measured sweeps. */
  predicate Measuring(c: Config, s: State, t: nat)
    requires t < |s.threads| == |c.jobs|
  {
    match s.threads[t].pc
    case PassHead(k, _) => k < |Passes(c.jobs[t])|
    case Access(_, _, _) => true
    case _ => false
  }
}
