/** The whole program's shutdown (src/main.cpp): GPU threads that push batches, CPU
    threads, and the main thread that stops and joins them in a fixed order. */
module Shutdown {
  import opened Workers

  /** A GPU thread polls its stop flag between batches. */
  datatype GpuPc = Polling | InBatch | Left

  /** Where the main thread is; the number is that of the next thread to stop or join. */
  datatype MainPc = Waiting | StopGpus(k: nat) | StopCpus(k: nat) | JoinGpus(k: nat) | JoinCpus(k: nat) | Done

  datatype Program = Program(work: State, gpus: seq<GpuPc>, gpuStop: seq<bool>, main: MainPc)

  datatype Move =
    | Interrupt                              // the signal that ends the main loop
    | Main                                   // the main thread's next call
    | Poll(g: nat)                           // a GPU thread reads its stop flag
    | Batch(g: nat, found: seq<Candidate>)   // it queues what a batch found, under the lock
    | Cpu(step: Step)                        // a step of a CPU thread

  function Start(gpus: nat, cpus: nat): Program {
    Program(Init(cpus), seq(gpus, _ => Polling), seq(gpus, _ => false), Waiting)
  }

  /** The calls of the main thread in order. The program stops the GPU threads, then the
      CPU threads, and then joins both. With `joinFirst` it would join the GPU threads
      before it stops the CPU threads. */
  function Following(joinFirst: bool, p: Program, pc: MainPc): MainPc {
    match pc
    case Waiting => StopGpus(0)
    case StopGpus(k) => if k < |p.gpus| then pc else if joinFirst then JoinGpus(0) else StopCpus(0)
    case StopCpus(k) => if k < |p.work.threads| then pc else if joinFirst then JoinCpus(0) else JoinGpus(0)
    case JoinGpus(k) => if k < |p.gpus| then pc else if joinFirst then StopCpus(0) else JoinCpus(0)
    case JoinCpus(k) => if k < |p.work.threads| then pc else Done
    case Done => Done
  }

  predicate CanMove(joinFirst: bool, process: Process, p: Program, m: Move) {
    match m
    case Interrupt => p.main == Waiting
    case Main => MainReady(joinFirst, p)
    case Poll(g) => g < |p.gpus| && g < |p.gpuStop| && p.gpus[g] == Polling
    case Batch(g, _) => g < |p.gpus| && p.gpus[g] == InBatch
    case Cpu(step) => !step.Push? && !step.Stop? && Enabled(process, p.work, step)
  }

  /** A join waits for its thread. */
  predicate MainReady(joinFirst: bool, p: Program) {
    match p.main
    case Waiting => false
    case StopGpus(k) => k < |p.gpuStop| || k >= |p.gpus|
    case StopCpus(k) => k < |p.work.stop| || k >= |p.work.threads|
    case JoinGpus(k) => k >= |p.gpus| || p.gpus[k] == Left
    case JoinCpus(k) => k >= |p.work.threads| || p.work.threads[k] == Exited
    case Done => false
  }

  /** The main thread's call, or its passage to the next loop. */
  function MainStep(joinFirst: bool, process: Process, p: Program): Program
    requires MainReady(joinFirst, p)
  {
    var next := Following(joinFirst, p, p.main);
    if next != p.main then p.(main := next)
    else
      match p.main
      case StopGpus(k) => if k < |p.gpuStop| then p.(gpuStop := p.gpuStop[k := true], main := StopGpus(k + 1)) else p
      case StopCpus(k) =>
        if k < |p.work.stop| then p.(work := Next(process, p.work, Step.Stop(k)), main := StopCpus(k + 1)) else p
      case JoinGpus(k) => p.(main := JoinGpus(k + 1))
      case JoinCpus(k) => p.(main := JoinCpus(k + 1))
      case _ => p
  }

  function PushAll(process: Process, s: State, found: seq<Candidate>): State {
    if found == [] then s
    else Next(process, PushAll(process, s, found[..|found| - 1]), Push(found[|found| - 1]))
  }

  function Moved(joinFirst: bool, process: Process, p: Program, m: Move): Program
    requires CanMove(joinFirst, process, p, m)
  {
    match m
    case Interrupt => p.(main := StopGpus(0))
    case Main => MainStep(joinFirst, process, p)
    case Poll(g) => p.(gpus := p.gpus[g := if p.gpuStop[g] then Left else InBatch])
    case Batch(g, found) => p.(work := PushAll(process, p.work, found), gpus := p.gpus[g := Polling])
    case Cpu(step) => p.(work := Next(process, p.work, step))
  }

  /** A run: every move is possible where it is made. */
  ghost predicate Runs(joinFirst: bool, process: Process, p: Program, moves: seq<Move>)
    decreases |moves|
  {
    moves != [] ==>
      CanMove(joinFirst, process, p, moves[0]) &&
      Runs(joinFirst, process, Moved(joinFirst, process, p, moves[0]), moves[1..])
  }

  ghost function End(joinFirst: bool, process: Process, p: Program, moves: seq<Move>): Program
    requires Runs(joinFirst, process, p, moves)
    decreases |moves|
  {
    if moves == [] then p else End(joinFirst, process, Moved(joinFirst, process, p, moves[0]), moves[1..])
  }

  // ------------------------------------------------------------------ what every run keeps

  lemma {:induction false} PushAllKeeps(process: Process, s: State, found: seq<Candidate>)
    requires Conserved(process, s)
    ensures var r := PushAll(process, s, found);
      Conserved(process, r) && r.threads == s.threads && r.stop == s.stop
    decreases |found|
  {
    if found != [] {
      PushAllKeeps(process, s, found[..|found| - 1]);
      StepConserved(process, PushAll(process, s, found[..|found| - 1]), Push(found[|found| - 1]));
    }
  }

  ghost predicate GpusLeft(p: Program, k: nat) {
    forall g :: 0 <= g < |p.gpus| && g < k ==> p.gpus[g] == Left
  }

  ghost predicate CpusLeft(p: Program, k: nat) {
    forall t :: 0 <= t < |p.work.threads| && t < k ==> p.work.threads[t] == Exited
  }

  /** Joined threads have left. */
  ghost predicate Joined(joinFirst: bool, p: Program) {
    match p.main
    case Waiting => true
    case StopGpus(_) => true
    case StopCpus(_) => joinFirst ==> GpusLeft(p, |p.gpus|)
    case JoinGpus(k) => GpusLeft(p, k)
    case JoinCpus(k) => GpusLeft(p, |p.gpus|) && CpusLeft(p, k)
    case Done => GpusLeft(p, |p.gpus|) && CpusLeft(p, |p.work.threads|)
  }

  ghost predicate Kept(joinFirst: bool, process: Process, p: Program) {
    Conserved(process, p.work) && |p.gpuStop| == |p.gpus| && Joined(joinFirst, p)
  }

  lemma KeptStep(joinFirst: bool, process: Process, p: Program, m: Move)
    requires Kept(joinFirst, process, p) && CanMove(joinFirst, process, p, m)
    ensures Kept(joinFirst, process, Moved(joinFirst, process, p, m))
  {
    match m
    case Interrupt =>
    case Main => MainKeeps(joinFirst, process, p);
    case Poll(g) =>
    case Batch(g, found) => BatchKeeps(joinFirst, process, p, g, found);
    case Cpu(step) => CpuKeeps(joinFirst, process, p, step);
  }

  /** A thread in a batch is not joined yet. */
  lemma BatchKeeps(joinFirst: bool, process: Process, p: Program, g: nat, found: seq<Candidate>)
    requires Kept(joinFirst, process, p) && CanMove(joinFirst, process, p, Batch(g, found))
    ensures Kept(joinFirst, process, Moved(joinFirst, process, p, Batch(g, found)))
  {
    PushAllKeeps(process, p.work, found);
  }

  /** Threads that have left stay away. */
  lemma CpuKeeps(joinFirst: bool, process: Process, p: Program, step: Step)
    requires Kept(joinFirst, process, p) && CanMove(joinFirst, process, p, Cpu(step))
    ensures Kept(joinFirst, process, Moved(joinFirst, process, p, Cpu(step)))
  {
    StepConserved(process, p.work, step);
    assert forall t :: 0 <= t < |p.work.threads| && p.work.threads[t] == Exited ==>
      Next(process, p.work, step).threads[t] == Exited;
  }

  lemma MainKeeps(joinFirst: bool, process: Process, p: Program)
    requires Kept(joinFirst, process, p) && MainReady(joinFirst, p)
    ensures Kept(joinFirst, process, MainStep(joinFirst, process, p))
  {
    if p.main.StopCpus? && p.main.k < |p.work.stop| { StepConserved(process, p.work, Step.Stop(p.main.k)); }
  }

  lemma {:induction false} RunKeeps(joinFirst: bool, process: Process, p: Program, moves: seq<Move>)
    requires Kept(joinFirst, process, p) && Runs(joinFirst, process, p, moves)
    ensures Kept(joinFirst, process, End(joinFirst, process, p, moves))
    decreases |moves|
  {
    if moves != [] {
      KeptStep(joinFirst, process, p, moves[0]);
      RunKeeps(joinFirst, process, Moved(joinFirst, process, p, moves[0]), moves[1..]);
    }
  }

  lemma StartKept(joinFirst: bool, process: Process, gpus: nat, cpus: nat)
    ensures Kept(joinFirst, process, Start(gpus, cpus))
  {
    InitConserved(process, cpus);
  }

  lemma {:induction false} RunsSplit(joinFirst: bool, process: Process, p: Program, moves: seq<Move>, last: Move)
    requires Runs(joinFirst, process, p, moves + [last])
    ensures Runs(joinFirst, process, p, moves) && CanMove(joinFirst, process, End(joinFirst, process, p, moves), last)
    ensures End(joinFirst, process, p, moves + [last])
         == Moved(joinFirst, process, End(joinFirst, process, p, moves), last)
    decreases |moves|
  {
    if moves == [] {
      assert ([] + [last])[1..] == [];
      assert Runs(joinFirst, process, Moved(joinFirst, process, p, last), []);
    } else {
      assert (moves + [last])[1..] == moves[1..] + [last];
      RunsSplit(joinFirst, process, Moved(joinFirst, process, p, moves[0]), moves[1..], last);
    }
  }

  // --------------------------------------------------------- the workers inside the program

  /** A batch that found something is queued after the last CPU thread has left. */
  predicate BatchTooLate(moves: seq<Move>) {
    moves != [] &&
    var before := moves[..|moves| - 1];
    match moves[|moves| - 1]
    case Batch(_, found) => found != [] || BatchTooLate(before)
    case Cpu(step) => !step.Exit? && BatchTooLate(before)
    case _ => BatchTooLate(before)
  }

  /** Queueing what a batch found is a number of pushes. */
  lemma {:induction false} Pushes(process: Process, cpus: nat, steps: seq<Step>, found: seq<Candidate>)
    returns (steps': seq<Step>)
    requires Run(process, Init(cpus), steps)
    ensures Run(process, Init(cpus), steps')
    ensures After(process, Init(cpus), steps') == PushAll(process, After(process, Init(cpus), steps), found)
    ensures PushedTooLate(steps') <==> found != [] || PushedTooLate(steps)
    decreases |found|
  {
    if found == [] { return steps; }
    var last := |found| - 1;
    var before := Pushes(process, cpus, steps, found[..last]);
    steps' := OneMore(process, cpus, before, Push(found[last]));
  }

  lemma OneMore(process: Process, cpus: nat, steps: seq<Step>, step: Step) returns (steps': seq<Step>)
    requires Run(process, Init(cpus), steps) && Enabled(process, After(process, Init(cpus), steps), step)
    ensures Run(process, Init(cpus), steps')
    ensures After(process, Init(cpus), steps') == Next(process, After(process, Init(cpus), steps), step)
    ensures PushedTooLate(steps') <==> step.Push? || (!step.Exit? && PushedTooLate(steps))
  {
    RunAppend(process, Init(cpus), steps, step);
    steps' := steps + [step];
    assert steps'[..|steps|] == steps;
  }

  /** Every run of the program contains a run of the workers, which queues too late exactly
      when the program does. */
  lemma {:induction false} Workings(joinFirst: bool, process: Process, gpus: nat, cpus: nat, moves: seq<Move>)
    returns (steps: seq<Step>)
    requires Runs(joinFirst, process, Start(gpus, cpus), moves)
    ensures Run(process, Init(cpus), steps)
    ensures After(process, Init(cpus), steps) == End(joinFirst, process, Start(gpus, cpus), moves).work
    ensures PushedTooLate(steps) <==> BatchTooLate(moves)
    decreases |moves|
  {
    if moves == [] { return []; }
    var before, last := moves[..|moves| - 1], moves[|moves| - 1];
    assert moves == before + [last];
    RunsSplit(joinFirst, process, Start(gpus, cpus), before, last);
    var p := End(joinFirst, process, Start(gpus, cpus), before);
    steps := Workings(joinFirst, process, gpus, cpus, before);
    match last
    case Batch(_, found) => steps := Pushes(process, cpus, steps, found);
    case Cpu(step) => steps := OneMore(process, cpus, steps, step);
    case Main =>
      if p.main.StopCpus? && p.main.k < |p.work.threads| && p.main.k < |p.work.stop| {
        steps := OneMore(process, cpus, steps, Step.Stop(p.main.k));
      }
    case _ =>
  }

  /** When the program has ended, every candidate was processed exactly once if and only if
      no batch was queued after the last CPU thread had left; and the results are those of
      the finished candidates. */
  lemma DoneProcessed(joinFirst: bool, process: Process, gpus: nat, cpus: nat, moves: seq<Move>)
    requires Runs(joinFirst, process, Start(gpus, cpus), moves)
    requires End(joinFirst, process, Start(gpus, cpus), moves).main == Done
    ensures var s := End(joinFirst, process, Start(gpus, cpus), moves).work;
      && (multiset(s.finished) == multiset(s.pushed) <==> !BatchTooLate(moves))
      && (s.queue == [] <==> !BatchTooLate(moves)) && s.output == Results(process, s.finished)
  {
    StartKept(joinFirst, process, gpus, cpus);
    RunKeeps(joinFirst, process, Start(gpus, cpus), moves);
    var steps := Workings(joinFirst, process, gpus, cpus, moves);
    AllProcessed(process, cpus, steps);
    LeftOver(process, cpus, steps);
  }

  // ----------------------------------------------------------------- the program's order

  /** Some run from p ends in q. */
  ghost predicate Reaches(joinFirst: bool, process: Process, p: Program, q: Program) {
    exists moves :: Runs(joinFirst, process, p, moves) && End(joinFirst, process, p, moves) == q
  }

  lemma {:induction false} RunMore(joinFirst: bool, process: Process, p: Program, moves: seq<Move>, m: Move)
    requires Runs(joinFirst, process, p, moves) && CanMove(joinFirst, process, End(joinFirst, process, p, moves), m)
    ensures Runs(joinFirst, process, p, moves + [m])
    ensures End(joinFirst, process, p, moves + [m]) == Moved(joinFirst, process, End(joinFirst, process, p, moves), m)
    decreases |moves|
  {
    if moves == [] {
      assert ([] + [m])[1..] == [];
      assert Runs(joinFirst, process, Moved(joinFirst, process, p, m), []);
    } else {
      assert (moves + [m])[1..] == moves[1..] + [m];
      RunMore(joinFirst, process, Moved(joinFirst, process, p, moves[0]), moves[1..], m);
    }
  }

  lemma ReachMore(joinFirst: bool, process: Process, p: Program, q: Program, m: Move, r: Program)
    requires Reaches(joinFirst, process, p, q)
    requires CanMove(joinFirst, process, q, m) && Moved(joinFirst, process, q, m) == r
    ensures Reaches(joinFirst, process, p, r)
  {
    var moves :| Runs(joinFirst, process, p, moves) && End(joinFirst, process, p, moves) == q;
    RunMore(joinFirst, process, p, moves, m);
  }

  /** A state in which nothing was finished yet. */
  function Snap(gpus: seq<GpuPc>, gpuStop: seq<bool>, cpus: seq<Pc>, stop: seq<bool>, queue: seq<Candidate>,
                main: MainPc): Program
  {
    Program(State(queue, cpus, stop, [], queue, [], []), gpus, gpuStop, main)
  }

  /** The first k of n are a, the others b. */
  function Lined<T>(n: nat, k: nat, a: T, b: T): (r: seq<T>)
    ensures |r| == n && forall i :: 0 <= i < n ==> r[i] == if i < k then a else b
  {
    seq(n, i => if i < k then a else b)
  }

  lemma LinedNext<T>(n: nat, k: nat, a: T, b: T)
    requires k < n
    ensures Lined(n, k, a, b)[k := a] == Lined(n, k + 1, a, b)
  {
  }

  /** States that follow each other by the given moves. */
  ghost predicate Staged(process: Process, p: nat -> Program, m: nat -> Move, n: nat) {
    forall i: nat | i < n :: CanMove(false, process, p(i), m(i)) && Moved(false, process, p(i), m(i)) == p(i + 1)
  }

  lemma {:induction false} ReachStaged(process: Process, start: Program, p: nat -> Program, m: nat -> Move, n: nat)
    requires Reaches(false, process, start, p(0)) && Staged(process, p, m, n)
    ensures Reaches(false, process, start, p(n))
  {
    if n > 0 {
      ReachStaged(process, start, p, m, n - 1);
      ReachMore(false, process, start, p(n - 1), m(n - 1), p(n));
    }
  }

  /** One GPU thread begins a batch, and the main thread tells all threads to stop. */
  lemma StopsInBatch(process: Process, n: nat, c: nat)
    requires n > 0
    ensures Reaches(false, process, Start(n, c),
                    Snap(Lined(n, 1, InBatch, Polling), Lined(n, n, true, false), Lined(c, 0, Exited, Idle),
                         Lined(c, c, true, false), [], JoinGpus(0)))
  {
    var start, gpus, idle := Start(n, c), Lined(n, 1, InBatch, Polling), Lined(c, 0, Exited, Idle);
    var told, untold := Lined(n, n, true, false), Lined(c, 0, true, false);
    BeginsBatch(process, n, c);
    var p := (k: nat) => Snap(gpus, Lined(n, k, true, false), idle, untold, [], StopGpus(k));
    forall k: nat | k < n ensures CanMove(false, process, p(k), Main) && Moved(false, process, p(k), Main) == p(k + 1) {
      LinedNext(n, k, true, false);
    }
    ReachStaged(process, start, p, _ => Main, n);
    ReachMore(false, process, start, p(n), Main, Snap(gpus, told, idle, untold, [], StopCpus(0)));
    var q := (k: nat) => Snap(gpus, told, idle, Lined(c, k, true, false), [], StopCpus(k));
    forall k: nat | k < c ensures CanMove(false, process, q(k), Main) && Moved(false, process, q(k), Main) == q(k + 1) {
      LinedNext(c, k, true, false);
    }
    ReachStaged(process, start, q, _ => Main, c);
    ReachMore(false, process, start, q(c), Main, Snap(gpus, told, idle, Lined(c, c, true, false), [], JoinGpus(0)));
  }

  lemma BeginsBatch(process: Process, n: nat, c: nat)
    requires n > 0
    ensures Reaches(false, process, Start(n, c),
                    Snap(Lined(n, 1, InBatch, Polling), Lined(n, 0, true, false), Lined(c, 0, Exited, Idle),
                         Lined(c, 0, true, false), [], StopGpus(0)))
  {
    var start := Start(n, c);
    var gpus, untold := Lined(n, 1, InBatch, Polling), Lined(n, 0, true, false);
    var idle, stop := Lined(c, 0, Exited, Idle), Lined(c, 0, true, false);
    assert start == Snap(Lined(n, 0, InBatch, Polling), untold, idle, stop, [], Waiting);
    assert Runs(false, process, start, []) && End(false, process, start, []) == start;
    LinedNext(n, 0, InBatch, Polling);
    ReachMore(false, process, start, start, Poll(0), Snap(gpus, untold, idle, stop, [], Waiting));
    ReachMore(false, process, start, Snap(gpus, untold, idle, stop, [], Waiting), Interrupt,
              Snap(gpus, untold, idle, stop, [], StopGpus(0)));
  }

  /** The CPU threads find the queue empty and leave; then the batch is queued. */
  lemma BatchComesLate(process: Process, n: nat, c: nat, found: Candidate)
    requires n > 0
    ensures Reaches(false, process, Start(n, c),
                    Snap(Lined(n, 0, Left, Polling), Lined(n, n, true, false), Lined(c, c, Exited, Idle),
                         Lined(c, c, true, false), [found], JoinGpus(0)))
  {
    var start, gpus := Start(n, c), Lined(n, 1, InBatch, Polling);
    var told, stop := Lined(n, n, true, false), Lined(c, c, true, false);
    StopsInBatch(process, n, c);
    var p := (k: nat) => Snap(gpus, told, Lined(c, k, Exited, Idle), stop, [], JoinGpus(0));
    var m := (k: nat) => Cpu(Exit(k));
    forall k: nat | k < c ensures CanMove(false, process, p(k), m(k)) && Moved(false, process, p(k), m(k)) == p(k + 1) {
      LinedNext(c, k, Exited, Idle);
    }
    ReachStaged(process, start, p, m, c);
    OnePushed(process, p(c).work, found);
    assert gpus[0 := Polling] == Lined(n, 0, Left, Polling);
    ReachMore(false, process, start, p(c), Batch(0, [found]),
              Snap(Lined(n, 0, Left, Polling), told, Lined(c, c, Exited, Idle), stop, [found], JoinGpus(0)));
  }

  lemma OnePushed(process: Process, s: State, found: Candidate)
    ensures PushAll(process, s, [found]) == Next(process, s, Push(found))
  {
    assert [found][..0] == [];
    assert PushAll(process, s, []) == s;
  }

  /** The GPU threads leave. */
  lemma GpusLeave(process: Process, n: nat, c: nat, found: Candidate)
    requires n > 0
    ensures Reaches(false, process, Start(n, c),
                    Snap(Lined(n, n, Left, Polling), Lined(n, n, true, false), Lined(c, c, Exited, Idle),
                         Lined(c, c, true, false), [found], JoinGpus(0)))
  {
    BatchComesLate(process, n, c, found);
    var told, exited, stop := Lined(n, n, true, false), Lined(c, c, Exited, Idle), Lined(c, c, true, false);
    var p := (k: nat) => Snap(Lined(n, k, Left, Polling), told, exited, stop, [found], JoinGpus(0));
    var m := (k: nat) => Poll(k);
    forall k: nat | k < n ensures CanMove(false, process, p(k), m(k)) && Moved(false, process, p(k), m(k)) == p(k + 1) {
      LinedNext(n, k, Left, Polling);
    }
    ReachStaged(process, Start(n, c), p, m, n);
  }

  /** The main thread joins all threads. */
  lemma ProgramEnds(process: Process, n: nat, c: nat, found: Candidate)
    requires n > 0
    ensures Reaches(false, process, Start(n, c),
                    Snap(Lined(n, n, Left, Polling), Lined(n, n, true, false), Lined(c, c, Exited, Idle),
                         Lined(c, c, true, false), [found], Done))
  {
    var start, left := Start(n, c), Lined(n, n, Left, Polling);
    var told, exited, stop := Lined(n, n, true, false), Lined(c, c, Exited, Idle), Lined(c, c, true, false);
    GpusLeave(process, n, c, found);
    ReachStaged(process, start, (k: nat) => Snap(left, told, exited, stop, [found], JoinGpus(k)), _ => Main, n);
    ReachMore(false, process, start, Snap(left, told, exited, stop, [found], JoinGpus(n)), Main,
              Snap(left, told, exited, stop, [found], JoinCpus(0)));
    ReachStaged(process, start, (k: nat) => Snap(left, told, exited, stop, [found], JoinCpus(k)), _ => Main, c);
    ReachMore(false, process, start, Snap(left, told, exited, stop, [found], JoinCpus(c)), Main,
              Snap(left, told, exited, stop, [found], Done));
  }

  /** A run at whose end a candidate is queued that no thread processes. */
  ghost predicate Loses(process: Process, gpus: nat, cpus: nat, moves: seq<Move>, c: Candidate) {
    && Runs(false, process, Start(gpus, cpus), moves)
    && var p := End(false, process, Start(gpus, cpus), moves);
      p.main == Done && p.work.queue == [c] && p.work.finished == []
  }

  /** In the order of the program a candidate can be lost as soon as there is a GPU thread:
      it finishes its batch after the CPU threads have left, and the program ends with the
      candidate in the queue. */
  lemma ProgramCanLose(process: Process, gpus: nat, cpus: nat, c: Candidate)
    requires gpus > 0
    ensures exists moves :: Loses(process, gpus, cpus, moves, c)
  {
    ProgramEnds(process, gpus, cpus, c);
    var q := Snap(Lined(gpus, gpus, Left, Polling), Lined(gpus, gpus, true, false), Lined(cpus, cpus, Exited, Idle),
                  Lined(cpus, cpus, true, false), [c], Done);
    var moves :| Runs(false, process, Start(gpus, cpus), moves) && End(false, process, Start(gpus, cpus), moves) == q;
    assert Loses(process, gpus, cpus, moves, c);
  }

  ghost predicate SafeRun(process: Process, gpus: nat, cpus: nat, moves: seq<Move>)
    requires Runs(false, process, Start(gpus, cpus), moves)
  {
    var p := End(false, process, Start(gpus, cpus), moves);
    p.main == Done ==> multiset(p.work.finished) == multiset(p.work.pushed)
  }

  /** So the program's order processes every candidate in every run if and only if there is
      no GPU thread. */
  lemma SafeWithoutGpus(process: Process, gpus: nat, cpus: nat)
    ensures (forall moves | Runs(false, process, Start(gpus, cpus), moves) :: SafeRun(process, gpus, cpus, moves))
       <==> gpus == 0
  {
    if gpus == 0 {
      forall moves | Runs(false, process, Start(gpus, cpus), moves) ensures SafeRun(process, gpus, cpus, moves) {
        if End(false, process, Start(gpus, cpus), moves).main == Done {
          NoBatch(process, cpus, moves);
          DoneProcessed(false, process, gpus, cpus, moves);
        }
      }
    } else {
      ProgramCanLose(process, gpus, cpus, Candidate(0, 0, 0));
      var moves :| Loses(process, gpus, cpus, moves, Candidate(0, 0, 0));
      DoneProcessed(false, process, gpus, cpus, moves);
      assert !SafeRun(process, gpus, cpus, moves);
    }
  }

  /** Without GPU threads there are no batches. */
  lemma {:induction false} NoBatch(process: Process, cpus: nat, moves: seq<Move>)
    requires Runs(false, process, Start(0, cpus), moves)
    ensures !BatchTooLate(moves) && End(false, process, Start(0, cpus), moves).gpus == []
    decreases |moves|
  {
    if moves != [] {
      var before, last := moves[..|moves| - 1], moves[|moves| - 1];
      assert moves == before + [last];
      RunsSplit(false, process, Start(0, cpus), before, last);
      NoBatch(process, cpus, before);
    }
  }

  // ---------------------------------------------------------------------- the other order

  /** The main thread has told CPU thread t to stop. */
  predicate Told(p: Program, t: nat) {
    match p.main
    case StopCpus(k) => t < k
    case JoinCpus(_) => true
    case Done => true
    case _ => false
  }

  /** CPU threads leave only when told to, and then nothing is queued any more. */
  ghost predicate NoneLate(p: Program) {
    && |p.work.stop| == |p.work.threads|
    && (forall t :: 0 <= t < |p.work.stop| && p.work.stop[t] ==> Told(p, t))
    && (forall t :: 0 <= t < |p.work.threads| && p.work.threads[t] == Exited ==> p.work.stop[t] && p.work.queue == [])
  }

  lemma NoneLateStep(process: Process, p: Program, m: Move)
    requires Kept(true, process, p) && NoneLate(p) && CanMove(true, process, p, m)
    ensures NoneLate(Moved(true, process, p, m))
  {
    match m
    case Interrupt =>
    case Main =>
    case Poll(g) =>
    case Batch(g, found) =>
      PushAllKeeps(process, p.work, found);
      assert !GpusLeft(p, |p.gpus|);
    case Cpu(step) => NoneLateCpu(process, p, step);
  }

  /** A CPU thread leaves only when told to, and finds the queue empty. */
  lemma NoneLateCpu(process: Process, p: Program, step: Step)
    requires NoneLate(p) && CanMove(true, process, p, Cpu(step))
    ensures NoneLate(Moved(true, process, p, Cpu(step)))
  {
  }

  lemma {:induction false} NoneLateRun(process: Process, p: Program, moves: seq<Move>)
    requires Kept(true, process, p) && NoneLate(p) && Runs(true, process, p, moves)
    ensures NoneLate(End(true, process, p, moves))
    decreases |moves|
  {
    if moves != [] {
      KeptStep(true, process, p, moves[0]);
      NoneLateStep(process, p, moves[0]);
      NoneLateRun(process, Moved(true, process, p, moves[0]), moves[1..]);
    }
  }

  /** If the GPU threads were joined before the CPU threads are stopped, the program would
      end with every candidate processed exactly once, in every run. */
  lemma JoiningFirstIsSafe(process: Process, gpus: nat, cpus: nat, moves: seq<Move>)
    requires cpus > 0 && Runs(true, process, Start(gpus, cpus), moves)
    requires End(true, process, Start(gpus, cpus), moves).main == Done
    ensures var s := End(true, process, Start(gpus, cpus), moves).work;
      s.queue == [] && multiset(s.finished) == multiset(s.pushed) && s.output == Results(process, s.finished)
  {
    StartKept(true, process, gpus, cpus);
    NoneLateRun(process, Start(gpus, cpus), moves);
    RunKeeps(true, process, Start(gpus, cpus), moves);
    SameThreads(true, process, Start(gpus, cpus), moves);
    var p := End(true, process, Start(gpus, cpus), moves);
    assert p.work.threads[0] == Exited;
    DoneProcessed(true, process, gpus, cpus, moves);
  }

  lemma {:induction false} SameThreads(joinFirst: bool, process: Process, p: Program, moves: seq<Move>)
    requires Kept(joinFirst, process, p) && Runs(joinFirst, process, p, moves)
    ensures |End(joinFirst, process, p, moves).work.threads| == |p.work.threads|
    decreases |moves|
  {
    if moves != [] {
      var m := moves[0];
      if m.Batch? { PushAllKeeps(process, p.work, m.found); }
      KeptStep(joinFirst, process, p, m);
      SameThreads(joinFirst, process, Moved(joinFirst, process, p, m), moves[1..]);
    }
  }
}
