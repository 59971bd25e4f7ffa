/** The worker pipeline (src): GPU threads queue candidates, CPU threads take them out,
    test them and queue results, until they are told to stop and find nothing left. */
module Workers {
  import opened Options

  datatype Candidate = Candidate(seed: nat, x: int, z: int)
  datatype Result = Result(seed: nat, x: int, z: int, score: int)

  /** Where a CPU thread is: before the lock, testing a candidate it took, about to
      queue the result, or returned from run(). */
  datatype Pc = Idle | Testing(c: Candidate) | Emitting(c: Candidate, r: Result) | Exited

  /** The shared state, with the history of candidates queued, taken and finished. */
  datatype State = State(queue: seq<Candidate>, threads: seq<Pc>, stop: seq<bool>, output: seq<Result>,
                         pushed: seq<Candidate>, popped: seq<Candidate>, finished: seq<Candidate>)

  /** The steps; those of CPU thread t follow its loop. The two critical sections are
      atomic because all access to the queues is under their mutexes. */
  datatype Step =
    | Push(c: Candidate)   // a GPU thread queues a candidate
    | Stop(t: nat)         // stop() sets the flag of thread t
    | Take(t: nat)         // the queue is not empty: front and pop
    | Sleep(t: nat)        // empty, not told to stop: unlock and try again later
    | Exit(t: nat)         // empty and told to stop: leave the loop
    | Test(t: nat)         // process() the candidate
    | Emit(t: nat)         // queue its result

  type Process = Candidate -> Option<Result>

  function Init(n: nat): State {
    State([], seq(n, _ => Idle), seq(n, _ => false), [], [], [], [])
  }

  predicate Enabled(process: Process, s: State, step: Step) {
    match step
    case Push(_) => true
    case Stop(t) => t < |s.stop|
    case Take(t) => t < |s.threads| && s.threads[t] == Idle && s.queue != []
    case Sleep(t) => t < |s.threads| && t < |s.stop| && s.threads[t] == Idle && s.queue == [] && !s.stop[t]
    case Exit(t) => t < |s.threads| && t < |s.stop| && s.threads[t] == Idle && s.queue == [] && s.stop[t]
    case Test(t) => t < |s.threads| && s.threads[t].Testing?
    case Emit(t) => t < |s.threads| && s.threads[t].Emitting?
  }

  function Next(process: Process, s: State, step: Step): State
    requires Enabled(process, s, step)
  {
    match step
    case Push(c) => s.(queue := s.queue + [c], pushed := s.pushed + [c])
    case Stop(t) => s.(stop := s.stop[t := true])
    case Take(t) =>
      s.(queue := s.queue[1..], popped := s.popped + [s.queue[0]], threads := s.threads[t := Testing(s.queue[0])])
    case Sleep(t) => s
    case Exit(t) => s.(threads := s.threads[t := Exited])
    case Test(t) =>
      var c := s.threads[t].c;
      (match process(c)
       case None => s.(threads := s.threads[t := Idle], finished := s.finished + [c])
       case Some(r) => s.(threads := s.threads[t := Emitting(c, r)]))
    case Emit(t) =>
      s.(threads := s.threads[t := Idle], finished := s.finished + [s.threads[t].c],
         output := s.output + [s.threads[t].r])
  }

  /** A run from s: every step is enabled where it is taken. */
  ghost predicate Run(process: Process, s: State, steps: seq<Step>)
    decreases |steps|
  {
    steps != [] ==>
      Enabled(process, s, steps[0]) && Run(process, Next(process, s, steps[0]), steps[1..])
  }

  ghost function After(process: Process, s: State, steps: seq<Step>): State
    requires Run(process, s, steps)
    decreases |steps|
  {
    if steps == [] then s else After(process, Next(process, s, steps[0]), steps[1..])
  }

  lemma {:induction false} RunSplit(process: Process, s: State, steps: seq<Step>, last: Step)
    requires Run(process, s, steps + [last])
    ensures Run(process, s, steps) && Enabled(process, After(process, s, steps), last)
    ensures After(process, s, steps + [last]) == Next(process, After(process, s, steps), last)
    decreases |steps|
  {
    if steps == [] {
      assert ([] + [last])[1..] == [];
      assert Run(process, Next(process, s, last), []);
    } else {
      assert (steps + [last])[1..] == steps[1..] + [last];
      RunSplit(process, Next(process, s, steps[0]), steps[1..], last);
    }
  }

  lemma {:induction false} RunAppend(process: Process, s: State, steps: seq<Step>, last: Step)
    requires Run(process, s, steps) && Enabled(process, After(process, s, steps), last)
    ensures Run(process, s, steps + [last])
    ensures After(process, s, steps + [last]) == Next(process, After(process, s, steps), last)
    decreases |steps|
  {
    if steps == [] {
      assert ([] + [last])[1..] == [];
      assert Run(process, Next(process, s, last), []);
    } else {
      assert (steps + [last])[1..] == steps[1..] + [last];
      RunAppend(process, Next(process, s, steps[0]), steps[1..], last);
    }
  }

  // -------------------------------------------------------------- what every run keeps

  /** How often a candidate is held by threads between taking and finishing it. */
  function InFlight(threads: seq<Pc>, c: Candidate): nat {
    if threads == [] then 0 else InFlight(threads[..|threads| - 1], c) + Holds(threads[|threads| - 1], c)
  }

  function Holds(pc: Pc, c: Candidate): nat {
    if (pc.Testing? || pc.Emitting?) && pc.c == c then 1 else 0
  }

  /** The results of a list of candidates, in order. */
  function Results(process: Process, cs: seq<Candidate>): seq<Result> {
    if cs == [] then []
    else
      var rest := Results(process, cs[..|cs| - 1]);
      match process(cs[|cs| - 1]) case None => rest case Some(r) => rest + [r]
  }

  lemma {:induction false} InFlightUpdate(threads: seq<Pc>, t: nat, pc: Pc, c: Candidate)
    requires t < |threads|
    ensures InFlight(threads[t := pc], c) + Holds(threads[t], c) == InFlight(threads, c) + Holds(pc, c)
    decreases |threads|
  {
    var last := |threads| - 1;
    var changed := threads[t := pc];
    if t == last {
      assert changed[..last] == threads[..last];
    } else {
      assert changed[..last] == threads[..last][t := pc];
      InFlightUpdate(threads[..last], t, pc, c);
    }
  }

  lemma ResultsAppend(process: Process, cs: seq<Candidate>, c: Candidate)
    ensures Results(process, cs + [c]) ==
      match process(c) case None => Results(process, cs) case Some(r) => Results(process, cs) + [r]
  {
    assert (cs + [c])[..|cs|] == cs;
  }

  /** Candidates leave the queue in the order they entered; each one is in the queue, in
      flight or finished, exactly as often as it was queued; and the output holds the
      results of the finished ones in the order of finishing. */
  ghost predicate Conserved(process: Process, s: State) {
    && |s.stop| == |s.threads|
    && s.pushed == s.popped + s.queue
    && (forall c :: multiset(s.popped)[c] == InFlight(s.threads, c) + multiset(s.finished)[c])
    && s.output == Results(process, s.finished)
    && forall t :: 0 <= t < |s.threads| && s.threads[t].Emitting? ==> process(s.threads[t].c) == Some(s.threads[t].r)
  }

  lemma {:induction false} NothingInFlight(threads: seq<Pc>, c: Candidate)
    requires forall t :: 0 <= t < |threads| ==> !threads[t].Testing? && !threads[t].Emitting?
    ensures InFlight(threads, c) == 0
  {
    if threads != [] { NothingInFlight(threads[..|threads| - 1], c); }
  }

  lemma InitConserved(process: Process, n: nat)
    ensures Conserved(process, Init(n))
  {
    forall c ensures InFlight(Init(n).threads, c) == 0 { NothingInFlight(Init(n).threads, c); }
  }

  lemma StepConserved(process: Process, s: State, step: Step)
    requires Conserved(process, s) && Enabled(process, s, step)
    ensures Conserved(process, Next(process, s, step))
  {
    match step
    case Push(c) =>
    case Stop(t) =>
    case Sleep(t) =>
    case Take(t) => TakeConserved(process, s, t);
    case Exit(t) =>
      forall c ensures InFlight(s.threads[t := Exited], c) == InFlight(s.threads, c) {
        InFlightUpdate(s.threads, t, Exited, c);
      }
    case Test(t) => TestConserved(process, s, t);
    case Emit(t) => EmitConserved(process, s, t);
  }

  lemma TakeConserved(process: Process, s: State, t: nat)
    requires Conserved(process, s) && Enabled(process, s, Take(t))
    ensures Conserved(process, Next(process, s, Take(t)))
  {
    var s' := Next(process, s, Take(t));
    assert s'.popped + s'.queue == s.popped + s.queue;
    forall c ensures multiset(s'.popped)[c] == InFlight(s'.threads, c) + multiset(s'.finished)[c] {
      InFlightUpdate(s.threads, t, Testing(s.queue[0]), c);
    }
  }

  lemma TestConserved(process: Process, s: State, t: nat)
    requires Conserved(process, s) && Enabled(process, s, Test(t))
    ensures Conserved(process, Next(process, s, Test(t)))
  {
    if process(s.threads[t].c) == None {
      RejectConserved(process, s, t);
    } else {
      HoldConserved(process, s, t);
    }
  }

  lemma RejectConserved(process: Process, s: State, t: nat)
    requires Conserved(process, s) && Enabled(process, s, Test(t)) && process(s.threads[t].c) == None
    ensures Conserved(process, Next(process, s, Test(t)))
  {
    var s' := Next(process, s, Test(t));
    ResultsAppend(process, s.finished, s.threads[t].c);
    forall c ensures multiset(s'.popped)[c] == InFlight(s'.threads, c) + multiset(s'.finished)[c] {
      InFlightUpdate(s.threads, t, Idle, c);
    }
  }

  lemma HoldConserved(process: Process, s: State, t: nat)
    requires Conserved(process, s) && Enabled(process, s, Test(t)) && process(s.threads[t].c).Some?
    ensures Conserved(process, Next(process, s, Test(t)))
  {
    var s' := Next(process, s, Test(t));
    forall c ensures multiset(s'.popped)[c] == InFlight(s'.threads, c) + multiset(s'.finished)[c] {
      InFlightUpdate(s.threads, t, s'.threads[t], c);
    }
  }

  lemma EmitConserved(process: Process, s: State, t: nat)
    requires Conserved(process, s) && Enabled(process, s, Emit(t))
    ensures Conserved(process, Next(process, s, Emit(t)))
  {
    var s' := Next(process, s, Emit(t));
    ResultsAppend(process, s.finished, s.threads[t].c);
    forall c ensures multiset(s'.popped)[c] == InFlight(s'.threads, c) + multiset(s'.finished)[c] {
      InFlightUpdate(s.threads, t, Idle, c);
    }
  }

  lemma {:induction false} RunConserved(process: Process, s: State, steps: seq<Step>)
    requires Conserved(process, s) && Run(process, s, steps)
    ensures Conserved(process, After(process, s, steps))
    decreases |steps|
  {
    if steps != [] {
      StepConserved(process, s, steps[0]);
      RunConserved(process, Next(process, s, steps[0]), steps[1..]);
    }
  }

  // -------------------------------------------------------------- when all threads exit

  ghost predicate AllExited(s: State) {
    forall t :: 0 <= t < |s.threads| ==> s.threads[t] == Exited
  }

  /** A candidate was queued after the last thread left. */
  predicate PushedTooLate(steps: seq<Step>) {
    steps != [] &&
    match steps[|steps| - 1]
    case Push(_) => true
    case Exit(_) => false
    case _ => PushedTooLate(steps[..|steps| - 1])
  }

  /** Threads that have left take no further steps. */
  lemma LastSteps(process: Process, s: State, step: Step)
    requires |s.threads| > 0 && Enabled(process, s, step) && AllExited(Next(process, s, step))
    ensures step.Exit? || ((step.Push? || step.Stop?) && AllExited(s))
  {
    if !step.Exit? && !step.Push? && !step.Stop? { ActiveThread(process, s, step); }
  }

  lemma ActiveThread(process: Process, s: State, step: Step)
    requires Enabled(process, s, step) && !step.Exit? && !step.Push? && !step.Stop?
    ensures !AllExited(Next(process, s, step))
  {
    assert Next(process, s, step).threads[step.t] != Exited;
  }

  lemma InitNotExited(n: nat)
    ensures n > 0 ==> !AllExited(Init(n))
  {
    if n > 0 { assert Init(n).threads[0] == Idle; }
  }

  /** Once all threads have left, what is still queued are the late candidates. */
  lemma {:induction false} LeftOver(process: Process, n: nat, steps: seq<Step>)
    requires Run(process, Init(n), steps) && AllExited(After(process, Init(n), steps))
    ensures PushedTooLate(steps) <==> After(process, Init(n), steps).queue != []
    decreases |steps|
  {
    InitNotExited(n);
    if steps != [] {
      var before, last := steps[..|steps| - 1], steps[|steps| - 1];
      assert steps == before + [last];
      RunSplit(process, Init(n), before, last);
      KeepsThreadCount(process, Init(n), before);
      if n > 0 { LastSteps(process, After(process, Init(n), before), last); }
      if last.Stop? { LeftOver(process, n, before); }
    }
  }

  lemma {:induction false} KeepsThreadCount(process: Process, s: State, steps: seq<Step>)
    requires Run(process, s, steps)
    ensures |After(process, s, steps).threads| == |s.threads|
    decreases |steps|
  {
    if steps != [] { KeepsThreadCount(process, Next(process, s, steps[0]), steps[1..]); }
  }

  /** When all threads of a run have left, every queued candidate has been finished
      exactly once and the output holds exactly their results, if and only if none was
      queued after the last thread left. */
  lemma AllProcessed(process: Process, n: nat, steps: seq<Step>)
    requires Run(process, Init(n), steps) && AllExited(After(process, Init(n), steps))
    ensures var s := After(process, Init(n), steps);
      (multiset(s.finished) == multiset(s.pushed) <==> !PushedTooLate(steps))
      && s.output == Results(process, s.finished)
  {
    var s := After(process, Init(n), steps);
    InitConserved(process, n);
    RunConserved(process, Init(n), steps);
    LeftOver(process, n, steps);
    forall c ensures multiset(s.popped)[c] == multiset(s.finished)[c] {
      NothingInFlight(s.threads, c);
    }
    assert multiset(s.popped) == multiset(s.finished);
    assert multiset(s.pushed) == multiset(s.popped) + multiset(s.queue);
    if s.queue != [] {
      assert |multiset(s.pushed)| == |multiset(s.popped)| + |s.queue|;
    }
  }

  /** The main thread stops the CPU threads only after the last push. */
  ghost predicate StopsLast(steps: seq<Step>) {
    forall a, b :: 0 <= a < b < |steps| && steps[a].Stop? ==> !steps[b].Push?
  }

  /** Threads that have left were told to stop. */
  lemma {:induction false} ExitNeedsStop(process: Process, n: nat, steps: seq<Step>)
    requires Run(process, Init(n), steps)
    ensures var s := After(process, Init(n), steps);
      |s.stop| == |s.threads| == n
      && (forall t :: 0 <= t < n && s.threads[t] == Exited ==> s.stop[t])
      && (forall t :: 0 <= t < n && s.stop[t] ==> exists a :: 0 <= a < |steps| && steps[a] == Stop(t))
    decreases |steps|
  {
    if steps != [] {
      var before, last := steps[..|steps| - 1], steps[|steps| - 1];
      assert steps == before + [last];
      RunSplit(process, Init(n), before, last);
      ExitNeedsStop(process, n, before);
      var s := After(process, Init(n), steps);
      forall t | 0 <= t < n && s.stop[t] ensures exists a :: 0 <= a < |steps| && steps[a] == Stop(t) {
        if After(process, Init(n), before).stop[t] {
          var a :| 0 <= a < |before| && before[a] == Stop(t);
          assert steps[a] == Stop(t);
        } else {
          assert steps[|before|] == Stop(t);
        }
      }
    }
  }

  /** So a main thread that stops the others only after the last push loses nothing. */
  lemma StopsLastIsSafe(process: Process, n: nat, steps: seq<Step>)
    requires n > 0 && Run(process, Init(n), steps) && StopsLast(steps)
    requires AllExited(After(process, Init(n), steps))
    ensures var s := After(process, Init(n), steps);
      s.queue == [] && multiset(s.finished) == multiset(s.pushed) && s.output == Results(process, s.finished)
  {
    NotTooLate(process, n, steps);
    AllProcessed(process, n, steps);
    LeftOver(process, n, steps);
  }

  lemma {:induction false} NotTooLate(process: Process, n: nat, steps: seq<Step>)
    requires n > 0 && Run(process, Init(n), steps) && StopsLast(steps)
    requires AllExited(After(process, Init(n), steps))
    ensures !PushedTooLate(steps)
    decreases |steps|
  {
    if steps != [] {
      var before, last := steps[..|steps| - 1], steps[|steps| - 1];
      assert steps == before + [last];
      RunSplit(process, Init(n), before, last);
      ExitNeedsStop(process, n, before);
      LastSteps(process, After(process, Init(n), before), last);
      assert !last.Push? by {
        if last.Push? { StoppedBefore(process, n, before, last); }
      }
      if last.Stop? { NotTooLate(process, n, before); }
    }
  }

  lemma StoppedBefore(process: Process, n: nat, before: seq<Step>, last: Step)
    requires n > 0 && Run(process, Init(n), before) && AllExited(After(process, Init(n), before)) && last.Push?
    ensures !StopsLast(before + [last])
  {
    ExitNeedsStop(process, n, before);
    assert After(process, Init(n), before).threads[0] == Exited;
    var a :| 0 <= a < |before| && before[a] == Stop(0);
    var steps := before + [last];
    assert steps[a].Stop? && steps[|before|].Push?;
  }

  /** A thread stopped too early loses a candidate: it leaves an empty queue, and what is
      queued afterwards stays there. */
  lemma EarlyStopLoses(process: Process, c: Candidate)
    ensures var steps := [Stop(0), Exit(0), Push(c)];
      Run(process, Init(1), steps) && AllExited(After(process, Init(1), steps))
      && After(process, Init(1), steps).queue == [c]
  {
    var steps := [Stop(0), Exit(0), Push(c)];
    var s1 := Next(process, Init(1), Stop(0));
    var s2 := Next(process, s1, Exit(0));
    var s3 := Next(process, s2, Push(c));
    assert steps[1..] == [Exit(0), Push(c)] && steps[1..][1..] == [Push(c)] && steps[1..][1..][1..] == [];
    assert Run(process, s3, []) && After(process, s3, []) == s3;
    assert Run(process, s2, [Push(c)]) && After(process, s2, [Push(c)]) == s3;
    assert Run(process, s1, [Exit(0), Push(c)]) && After(process, s1, [Exit(0), Push(c)]) == s3;
  }

  // ------------------------------------------------------------------------- shutdown

  function Rank(pc: Pc): nat {
    match pc
    case Exited => 0
    case Idle => 1
    case Emitting(_, _) => 2
    case Testing(_) => 3
  }

  function RankSum(threads: seq<Pc>): nat {
    if threads == [] then 0 else RankSum(threads[..|threads| - 1]) + Rank(threads[|threads| - 1])
  }

  /** Work left: three steps for a queued candidate, and what each thread has to do. */
  function WorkLeft(s: State): nat {
    3 * |s.queue| + RankSum(s.threads)
  }

  lemma {:induction false} RankUpdate(threads: seq<Pc>, t: nat, pc: Pc)
    requires t < |threads|
    ensures RankSum(threads[t := pc]) + Rank(threads[t]) == RankSum(threads) + Rank(pc)
    decreases |threads|
  {
    var last := |threads| - 1;
    var changed := threads[t := pc];
    assert RankSum(changed) == RankSum(changed[..last]) + Rank(changed[last]);
    if t == last {
      assert changed[..last] == threads[..last];
      assert changed[last] == pc;
    } else {
      assert changed[..last] == threads[..last][t := pc];
      assert changed[last] == threads[last];
      RankUpdate(threads[..last], t, pc);
    }
  }

  ghost predicate AllStopped(s: State) {
    |s.stop| == |s.threads| && forall t :: 0 <= t < |s.stop| ==> s.stop[t]
  }

  /** After all stop flags are set, every step of a thread uses up work, and until all
      have left some thread can step: whatever the schedule, the threads leave. */
  lemma ShutdownTerminates(process: Process, s: State, step: Step)
    requires AllStopped(s) && Enabled(process, s, step) && !step.Push? && !step.Stop?
    ensures WorkLeft(Next(process, s, step)) < WorkLeft(s) && AllStopped(Next(process, s, step))
  {
    RankUpdate(s.threads, step.t, Next(process, s, step).threads[step.t]);
    assert Next(process, s, step).threads == s.threads[step.t := Next(process, s, step).threads[step.t]];
  }

  lemma ShutdownProgresses(process: Process, s: State) returns (step: Step)
    requires AllStopped(s) && !AllExited(s)
    ensures Enabled(process, s, step) && !step.Push? && !step.Stop?
  {
    var t :| 0 <= t < |s.threads| && s.threads[t] != Exited;
    step := if s.threads[t].Testing? then Test(t)
            else if s.threads[t].Emitting? then Emit(t)
            else if s.queue != [] then Take(t)
            else Exit(t);
  }
}
