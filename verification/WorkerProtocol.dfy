/** Posters, the worker and bg_sched_destroy as the steps of threads under one
    lock (core/posix/background_sched.c). */
module WorkerProtocol {
  import opened Json
  import opened BackgroundSched

  /** Where the worker is: about to lock, asleep on the condition, in a callback,
      past it but not yet counted down, or gone. */
  datatype Phase<T> = Ready | Asleep | Running(task: T) | Returned | Exited

  /** Where bg_sched_destroy is. */
  datatype Destroy = NotCalled | Joining | Freed

  datatype State<T> = State(
    queue: seq<T>, running: bool, pending: int, active: int, phase: Phase<T>, destroy: Destroy,
    posted: seq<T>, finished: seq<T>, dropped: seq<T>, postedAtExit: nat)

  datatype Step<T> =
    | Post(task: T) // from any thread, callbacks included
    | Look
    | CallbackReturns
    | CountDown
    | Spurious
    | Stop
    | FreeAll

  function Initial<T>(): State<T> {
    State([], true, 0, 0, Ready, NotCalled, [], [], [], 0)
  }

  predicate Enabled<T>(s: State<T>, step: Step<T>) {
    match step
    case Post(_) => !s.destroy.Freed?
    case Look => s.phase.Ready?
    case CallbackReturns => s.phase.Running?
    case CountDown => s.phase.Returned?
    case Spurious => s.phase.Asleep?
    case Stop => s.destroy.NotCalled?
    case FreeAll => s.destroy.Joining? && s.phase.Exited?
  }

  function Woken<T>(phase: Phase<T>): Phase<T> {
    if phase.Asleep? then Ready else phase
  }

  function Apply<T>(s: State<T>, step: Step<T>): State<T> {
    match step
    case Post(task) =>
      s.(queue := s.queue + [task], pending := s.pending + 1, phase := Woken(s.phase), posted := s.posted + [task])
    case Look =>
      (match TurnFor(s.queue, s.running)
       case Sleep => s.(phase := Asleep)
       case Exit => s.(phase := Exited, postedAtExit := |s.posted|)
       case RunTask(task) => s.(queue := s.queue[1..], pending := s.pending - 1, active := s.active + 1, phase := Running(task)))
    case CallbackReturns => if s.phase.Running? then s.(phase := Returned, finished := s.finished + [s.phase.task]) else s
    case CountDown => s.(phase := Ready, active := s.active - 1)
    case Spurious => s.(phase := Woken(s.phase))
    case Stop => s.(running := false, phase := Woken(s.phase), destroy := Joining)
    case FreeAll => s.(queue := [], dropped := s.queue, destroy := Freed)
  }

  predicate Legal<T>(s: State<T>, steps: seq<Step<T>>)
    decreases |steps|
  {
    steps != [] ==> Enabled(s, steps[0]) && Legal(Apply(s, steps[0]), steps[1..])
  }

  function Run<T>(s: State<T>, steps: seq<Step<T>>): State<T>
    decreases |steps|
  {
    if steps == [] then s else Run(Apply(s, steps[0]), steps[1..])
  }

  function InFlight<T>(phase: Phase<T>): seq<T> {
    if phase.Running? then [phase.task] else []
  }

  ghost predicate Invariant<T>(s: State<T>) {
    // conservation, in order
    && s.posted == s.finished + InFlight(s.phase) + s.queue + s.dropped
    && (s.dropped != [] ==> s.destroy.Freed?) && (s.destroy.Freed? ==> s.queue == [])
    // the counters
    && s.pending == |s.queue + s.dropped|
    && s.active == (if s.phase.Running? || s.phase.Returned? then 1 else 0)
    // no missed signal
    && (s.phase.Asleep? ==> s.queue == [] && s.running)
    && (s.running <==> s.destroy.NotCalled?)
    // drained at exit
    && (s.destroy.Freed? ==> s.phase.Exited?)
    && (s.phase.Exited? ==> !s.running && s.postedAtExit <= |s.posted| && s.finished == s.posted[..s.postedAtExit])
  }

  lemma StepKeepsInvariant<T>(s: State<T>, step: Step<T>)
    requires Invariant(s) && Enabled(s, step)
    ensures Invariant(Apply(s, step))
  {
    if step.Look? && s.queue != [] {
      assert s.queue == [s.queue[0]] + s.queue[1..];
    }
  }

  /** In every reachable state: what was posted is what has run, what runs, what
      is queued and what was dropped, in that order; the counters agree; the
      worker sleeps only on an empty queue that is not shutting down. */
  lemma {:induction false} RunKeepsInvariant<T>(s: State<T>, steps: seq<Step<T>>)
    requires Invariant(s) && Legal(s, steps)
    ensures Invariant(Run(s, steps))
    decreases |steps|
  {
    if steps != [] {
      StepKeepsInvariant(s, steps[0]);
      RunKeepsInvariant(Apply(s, steps[0]), steps[1..]);
    }
  }

  /** The tasks a run posts, in order. */
  function Tasks<T>(steps: seq<Step<T>>): seq<T> {
    if steps == [] then [] else (if steps[0].Post? then [steps[0].task] else []) + Tasks(steps[1..])
  }

  lemma {:induction false} PostedIsTasks<T>(s: State<T>, steps: seq<Step<T>>)
    requires Legal(s, steps)
    ensures Run(s, steps).posted == s.posted + Tasks(steps)
    decreases |steps|
  {
    if steps != [] {
      PostedIsTasks(Apply(s, steps[0]), steps[1..]);
      Regroup(s.posted, if steps[0].Post? then [steps[0].task] else [], Tasks(steps[1..]));
    }
  }

  lemma {:induction false} RunInTwo<T>(s: State<T>, a: seq<Step<T>>, b: seq<Step<T>>)
    ensures Run(s, a + b) == Run(Run(s, a), b)
    ensures Legal(s, a + b) <==> Legal(s, a) && Legal(Run(s, a), b)
    decreases |a|
  {
    if a == [] {
      assert a + b == b;
    } else {
      RunInTwo(Apply(s, a[0]), a[1..], b);
      assert (a + b)[1..] == a[1..] + b;
    }
  }

  lemma {:induction false} TasksInTwo<T>(a: seq<Step<T>>, b: seq<Step<T>>)
    ensures Tasks(a + b) == Tasks(a) + Tasks(b)
  {
    if a == [] {
      assert a + b == b;
    } else {
      TasksInTwo(a[1..], b);
      assert (a + b)[1..] == a[1..] + b;
      Regroup(if a[0].Post? then [a[0].task] else [], Tasks(a[1..]), Tasks(b));
    }
  }

  lemma {:induction false} ExitedStays<T>(s: State<T>, steps: seq<Step<T>>)
    requires Legal(s, steps) && s.phase.Exited?
    ensures Run(s, steps).phase.Exited? && Run(s, steps).postedAtExit == s.postedAtExit
    decreases |steps|
  {
    if steps != [] {
      ExitedStays(Apply(s, steps[0]), steps[1..]);
    }
  }

  /** Conservation over a run: the tasks of its posts are those that have run, the
      one that runs, those queued and those dropped, in that order. */
  lemma TasksConserved<T>(steps: seq<Step<T>>)
    requires Legal(Initial(), steps)
    ensures var s := Run(Initial<T>(), steps);
            && Tasks(steps) == s.finished + InFlight(s.phase) + s.queue + s.dropped
            && (s.dropped != [] ==> exists k :: 0 <= k < |steps| && steps[k].FreeAll?)
  {
    RunKeepsInvariant(Initial<T>(), steps);
    PostedIsTasks(Initial<T>(), steps);
    assert [] + Tasks(steps) == Tasks(steps);
    if Run(Initial<T>(), steps).dropped != [] {
      OnlyFreeDrops(Initial<T>(), steps);
    }
  }

  lemma {:induction false} OnlyFreeDrops<T>(s: State<T>, steps: seq<Step<T>>)
    requires Legal(s, steps) && s.dropped == [] && Run(s, steps).dropped != []
    ensures exists k :: 0 <= k < |steps| && steps[k].FreeAll?
    decreases |steps|
  {
    if !steps[0].FreeAll? {
      OnlyFreeDrops(Apply(s, steps[0]), steps[1..]);
      var k :| 0 <= k < |steps[1..]| && steps[1..][k].FreeAll?;
      assert steps[k + 1].FreeAll?;
    }
  }

  lemma ExitCounts<T>(before: seq<Step<T>>, after: seq<Step<T>>)
    requires Legal(Initial<T>(), before + [Look] + after)
    requires !Run(Initial<T>(), before).phase.Exited? && Run(Initial<T>(), before + [Look]).phase.Exited?
    ensures var s := Run(Initial<T>(), before + [Look] + after);
            s.phase.Exited? && s.postedAtExit == |Tasks(before)|
  {
    var look: seq<Step<T>> := [Look];
    RunInTwo(Initial<T>(), before + look, after);
    RunInTwo(Initial<T>(), before, look);
    PostedIsTasks(Initial<T>(), before);
    ExitedStays(Run(Initial<T>(), before + look), after);
    var s := Run(Initial<T>(), before);
    assert look[1..] == [] && Run(s, look) == Apply(s, look[0]);
    assert [] + Tasks(before) == Tasks(before);
  }

  lemma PostedInTwo<T>(before: seq<Step<T>>, after: seq<Step<T>>)
    requires Legal(Initial<T>(), before + [Look] + after)
    ensures Run(Initial<T>(), before + [Look] + after).posted == Tasks(before) + Tasks(after)
  {
    var look: seq<Step<T>> := [Look];
    PostedIsTasks(Initial<T>(), before + look + after);
    TasksInTwo(before + look, after);
    TasksInTwo(before, look);
    assert look[1..] == [] && Tasks(look) == [];
    assert Tasks(before) + [] == Tasks(before);
    assert [] + Tasks(before + look + after) == Tasks(before + look + after);
  }

  /** The look at which the worker leaves: every task posted before it has run, once,
      in order of posting, and whatever is freed without having run, or still
      queued, was posted after. */
  lemma DrainedAtExit<T>(before: seq<Step<T>>, after: seq<Step<T>>)
    requires Legal(Initial<T>(), before + [Look] + after)
    requires !Run(Initial<T>(), before).phase.Exited? && Run(Initial<T>(), before + [Look]).phase.Exited?
    ensures var s := Run(Initial<T>(), before + [Look] + after);
            && s.finished == Tasks(before)
            && s.queue + s.dropped == Tasks(after)
            && (s.destroy.Freed? ==> s.dropped == Tasks(after))
  {
    RunKeepsInvariant(Initial<T>(), before + [Look] + after);
    ExitCounts(before, after);
    PostedInTwo(before, after);
    DrainedState(Run(Initial<T>(), before + [Look] + after), Tasks(before), Tasks(after));
  }

  lemma DrainedState<T>(s: State<T>, early: seq<T>, late: seq<T>)
    requires Invariant(s) && s.phase.Exited? && s.postedAtExit == |early| && s.posted == early + late
    ensures s.finished == early && s.queue + s.dropped == late && (s.destroy.Freed? ==> s.dropped == late)
  {
    assert s.posted == s.finished + (s.queue + s.dropped);
    assert (early + late)[..|early|] == early && (early + late)[|early|..] == late;
    assert s.destroy.Freed? ==> s.queue + s.dropped == s.dropped;
  }

  /** What can happen next, in any state: tasks can be posted until everything is
      freed, destroy called once, and the worker, unless asleep or gone, go on. */
  lemma CanGoOn<T>(s: State<T>, task: T)
    ensures s.destroy != Freed ==> Enabled(s, Post(task))
    ensures s.destroy == NotCalled ==> Enabled(s, Step<T>.Stop)
    ensures s.phase == Ready ==> Enabled(s, Step<T>.Look)
    ensures s.phase.Running? ==> Enabled(s, Step<T>.CallbackReturns)
    ensures s.phase == Returned ==> Enabled(s, Step<T>.CountDown)
    ensures s.phase == Asleep ==> Enabled(s, Step<T>.Spurious)
    ensures s.phase == Exited && s.destroy == Joining ==> Enabled(s, Step<T>.FreeAll)
  {
  }

  /** And what the worker's look leads to: the oldest task, sleep while there is no
      task and no shutdown, and else the end. */
  lemma LookLeadsTo<T>(s: State<T>)
    ensures var s' := Apply(s, Look);
            && (s.queue != [] ==> s'.phase == Running(s.queue[0]))
            && (s.queue == [] && s.running ==> s'.phase == Asleep)
            && (s.queue == [] && !s.running ==> s'.phase == Exited)
  {
  }

  // Shutdown.

  function Posts<T>(steps: seq<Step<T>>): nat {
    if steps == [] then 0 else (if steps[0].Post? then 1 else 0) + Posts(steps[1..])
  }

  function Rank<T>(s: State<T>): nat {
    match s.phase
    case Running(_) => 4
    case Returned => 3
    case Ready => 2
    case Asleep => 2
    case Exited => if s.destroy.Freed? then 0 else 1
  }

  /** Work left after bg_sched_destroy was called. */
  function Remaining<T>(s: State<T>): nat {
    4 * |s.queue| + Rank(s)
  }

  lemma ShutdownStep<T>(s: State<T>, step: Step<T>)
    requires Invariant(s) && Enabled(s, step) && !s.running
    ensures !Apply(s, step).running
    ensures Remaining(Apply(s, step)) < Remaining(s) + if step.Post? then 5 else 0
  {
  }

  /** Once destroy has been called nothing goes on for ever: a run with `p` more
      posts has at most 5p + Remaining steps, by whomever. */
  lemma {:induction false} ShutdownTerminates<T>(s: State<T>, steps: seq<Step<T>>)
    requires Invariant(s) && Legal(s, steps) && !s.running
    ensures |steps| + Remaining(Run(s, steps)) <= 5 * Posts(steps) + Remaining(s)
    decreases |steps|
  {
    if steps != [] {
      ShutdownStep(s, steps[0]);
      StepKeepsInvariant(s, steps[0]);
      ShutdownTerminates(Apply(s, steps[0]), steps[1..]);
    }
  }

  /** And nothing gets stuck before the end: until everything is freed, some step
      of the worker or of destroy itself is possible. */
  lemma ShutdownProgresses<T>(s: State<T>)
    requires Invariant(s) && !s.running && !s.destroy.Freed?
    ensures exists step: Step<T> :: Enabled(s, step) && !step.Post? && !step.Spurious?
  {
    if s.phase.Exited? {
      assert Enabled(s, Step<T>.FreeAll);
    } else if s.phase.Ready? {
      assert Enabled(s, Step<T>.Look);
    } else if s.phase.Running? {
      assert Enabled(s, Step<T>.CallbackReturns);
    } else {
      assert Enabled(s, Step<T>.CountDown);
    }
  }
}
