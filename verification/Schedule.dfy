/** The simple scheduler (core/posix/schedule.c): a list without a tail pointer,
    and a runner that looks at it without the lock before popping with it. */
module Schedule {
  import opened Json
  import opened Tasks

  class Scheduler<T> {
    var taskQueue: TaskNode?<T>
    ghost var nodes: seq<TaskNode<T>>

    ghost predicate Valid()
      reads this, nodes
    {
      && (if nodes == [] then taskQueue == null else taskQueue == nodes[0] && nodes[|nodes| - 1].next == null)
      && (forall i :: 0 <= i < |nodes| - 1 ==> nodes[i].next == nodes[i + 1])
      && (forall i, j :: 0 <= i < j < |nodes| ==> nodes[i] != nodes[j])
    }

    ghost function Queue(): (q: seq<T>)
      reads this
      ensures |q| == |nodes|
    {
      seq(|nodes|, i requires 0 <= i < |nodes| reads this => nodes[i].task)
    }

    constructor ()
      ensures Valid() && Queue() == [] && nodes == []
    {
      taskQueue, nodes := null, [];
    }

    /** schedule_post: walk to the last node and hook the new one on. */
    method Post(task: Option<T>) returns (status: int)
      requires Valid()
      modifies this, nodes
      ensures Valid() && status == (if task.Some? then 0 else -1)
      ensures Queue() == if task.Some? then old(Queue()) + [task.value] else old(Queue())
      ensures forall i :: 0 <= i < |nodes| ==> nodes[i] in old(nodes) || fresh(nodes[i])
    {
      if task.None? {
        return -1;
      }
      var node := new TaskNode(task.value);
      if taskQueue == null {
        taskQueue := node;
      } else {
        var tail := taskQueue;
        ghost var i := 0;
        while tail.next != null
          invariant 0 <= i < |nodes| && tail == nodes[i]
          invariant i < |nodes| - 1 ==> tail.next == nodes[i + 1]
          decreases |nodes| - i
        {
          tail := tail.next;
          i := i + 1;
        }
        assert i == |nodes| - 1;
        tail.next := node;
      }
      nodes := nodes + [node];
      return 0;
    }

    /** The locked pop of schedule_run: there must be a task to pop. */
    method Pop() returns (task: T)
      requires Valid() && taskQueue != null
      modifies this
      ensures Valid() && old(Queue()) == [task] + Queue() && nodes == old(nodes)[1..]
    {
      task := taskQueue.task;
      taskQueue := taskQueue.next;
      nodes := nodes[1..];
    }

    /** What a callback posts, one task after the other. */
    method PostAll(tasks: seq<T>)
      requires Valid()
      modifies this, nodes
      ensures Valid() && Queue() == old(Queue()) + tasks
      ensures forall i :: 0 <= i < |nodes| ==> nodes[i] in old(nodes) || fresh(nodes[i])
    {
      for i := 0 to |tasks|
        invariant Valid() && Queue() == old(Queue()) + tasks[..i]
        invariant forall i :: 0 <= i < |nodes| ==> nodes[i] in old(nodes) || fresh(nodes[i])
      {
        var status := Post(Some(tasks[i]));
      }
    }

    /** schedule_run as the only runner, while `running` is found set `rounds` times;
        running a task posts what `posts` says.  Queued and posted tasks run once,
        in order; those left over are still queued, and there are none unless
        `running` was cleared. */
    method RunQueued(posts: T -> seq<T>, rounds: nat) returns (ran: seq<T>)
      requires Valid()
      modifies this, nodes
      ensures Valid() && ran + Queue() == old(Queue()) + AllPosted(posts, ran)
      ensures |ran| <= rounds && (|ran| < rounds ==> Queue() == [])
    {
      ran := [];
      while |ran| < rounds && taskQueue != null
        invariant Valid() && ran + Queue() == old(Queue()) + AllPosted(posts, ran)
        invariant forall i :: 0 <= i < |nodes| ==> nodes[i] in old(nodes) || fresh(nodes[i])
        invariant |ran| <= rounds
      {
        ghost var before, q := ran, Queue();
        var task := Pop();
        PostAll(posts(task));
        ran := ran + [task];
        OneMoreRan(posts, before, q, old(Queue()), task, Queue());
      }
    }
  }

  /** What running these tasks posts, in order. */
  function AllPosted<T>(posts: T -> seq<T>, ran: seq<T>): seq<T> {
    if ran == [] then [] else AllPosted(posts, ran[..|ran| - 1]) + posts(ran[|ran| - 1])
  }

  lemma OneMoreRan<T>(posts: T -> seq<T>, ran: seq<T>, queue: seq<T>, start: seq<T>, task: T, left: seq<T>)
    requires ran + queue == start + AllPosted(posts, ran) && queue != [] && queue[0] == task
    requires left == queue[1..] + posts(task)
    ensures ran + [task] + left == start + AllPosted(posts, ran + [task])
  {
    assert (ran + [task])[..|ran|] == ran;
    assert queue == [task] + queue[1..];
    assert ran + [task] + left == ran + queue + posts(task);
  }

  type Task = nat

  /** A thread that may call schedule_run: outside it, before the unlocked test,
      past the test but not yet locked, or running a task it popped. */
  datatype Runner = Outside | AtTest | PastTest | Holding(task: Task)

  /** `broken` records a pop of an empty queue: the null dereference. */
  datatype State = State(queue: seq<Task>, runners: seq<Runner>, posted: seq<Task>, ran: seq<Task>, broken: bool)

  datatype Step =
    | Post(task: Task) // any thread, callbacks included
    | Enter(r: nat)
    | Test(r: nat)
    | Pop(r: nat)
    | Finish(r: nat)

  function Initial(runners: nat): State {
    State([], seq(runners, _ => Outside), [], [], false)
  }

  predicate Enabled(s: State, step: Step) {
    match step
    case Post(_) => true
    case Enter(r) => r < |s.runners| && s.runners[r].Outside?
    case Test(r) => r < |s.runners| && s.runners[r].AtTest?
    case Pop(r) => r < |s.runners| && s.runners[r].PastTest?
    case Finish(r) => r < |s.runners| && s.runners[r].Holding?
  }

  function Apply(s: State, step: Step): State
    requires Enabled(s, step)
  {
    match step
    case Post(task) => s.(queue := s.queue + [task], posted := s.posted + [task])
    case Enter(r) => s.(runners := s.runners[r := AtTest])
    case Test(r) => s.(runners := s.runners[r := if s.queue == [] then Outside else PastTest])
    case Pop(r) =>
      if s.queue == [] then s.(broken := true)
      else s.(queue := s.queue[1..], runners := s.runners[r := Holding(s.queue[0])])
    case Finish(r) => s.(ran := s.ran + [s.runners[r].task], runners := s.runners[r := AtTest])
  }

  predicate Legal(s: State, steps: seq<Step>)
    decreases |steps|
  {
    steps != [] ==> Enabled(s, steps[0]) && Legal(Apply(s, steps[0]), steps[1..])
  }

  function Run(s: State, steps: seq<Step>): State
    requires Legal(s, steps)
    decreases |steps|
  {
    if steps == [] then s else Run(Apply(s, steps[0]), steps[1..])
  }

  function Held(runners: seq<Runner>): seq<Task> {
    if runners != [] && runners[0].Holding? then [runners[0].task] else []
  }

  /** With one runner: past the test there is a task, and tasks run in order. */
  ghost predicate Invariant(s: State) {
    && !s.broken
    && (forall i :: 0 <= i < |s.runners| && s.runners[i].PastTest? ==> s.queue != [])
    && s.posted == s.ran + Held(s.runners) + s.queue
  }

  lemma {:induction false} SingleRunnerKeeps(s: State, steps: seq<Step>)
    requires |s.runners| <= 1 && Invariant(s) && Legal(s, steps)
    ensures Invariant(Run(s, steps))
    decreases |steps|
  {
    if steps != [] {
      if steps[0].Pop? {
        assert s.queue == [s.queue[0]] + s.queue[1..];
      }
      SingleRunnerKeeps(Apply(s, steps[0]), steps[1..]);
    }
  }

  /** The tasks a run posts, in order. */
  function Posts(steps: seq<Step>): seq<Task> {
    if steps == [] then [] else (if steps[0].Post? then [steps[0].task] else []) + Posts(steps[1..])
  }

  lemma {:induction false} PostedIsPosts(s: State, steps: seq<Step>)
    requires Legal(s, steps)
    ensures Run(s, steps).posted == s.posted + Posts(steps)
    decreases |steps|
  {
    if steps != [] {
      PostedIsPosts(Apply(s, steps[0]), steps[1..]);
      Regroup(s.posted, if steps[0].Post? then [steps[0].task] else [], Posts(steps[1..]));
    }
  }

  /** A single runner never pops an empty queue, however many threads post, and the
      tasks of a run's posts are those that have run, the one that runs and those
      queued, in order of posting. */
  lemma SingleRunnerSafe(n: nat, steps: seq<Step>)
    requires n <= 1 && Legal(Initial(n), steps)
    ensures var s := Run(Initial(n), steps);
            && !s.broken
            && Posts(steps) == s.ran + Held(s.runners) + s.queue
            && (forall i :: 0 <= i < |s.runners| && s.runners[i].PastTest? ==> s.queue != [])
  {
    SingleRunnerKeeps(Initial(n), steps);
    PostedIsPosts(Initial(n), steps);
    assert [] + Posts(steps) == Posts(steps);
  }

  /** A runner's steps: it goes on exactly while it finds a task, takes the oldest,
      and tests again when the task is done; in any state it can take them, and
      tasks can be posted. */
  lemma RunnerGoesOn(s: State, r: nat, task: Task)
    requires r < |s.runners|
    ensures Enabled(s, Post(task)) && Apply(s, Post(task)) == s.(queue := s.queue + [task], posted := s.posted + [task])
    ensures s.runners[r].Outside? ==> Enabled(s, Enter(r)) && Apply(s, Enter(r)).runners[r].AtTest?
    ensures s.runners[r].AtTest? ==> Enabled(s, Test(r)) && Apply(s, Test(r)).runners[r] == if s.queue == [] then Outside else PastTest
    ensures s.runners[r].PastTest? && s.queue != [] ==> Enabled(s, Pop(r)) && Apply(s, Pop(r)).runners[r] == Holding(s.queue[0])
    ensures s.runners[r].PastTest? && s.queue == [] ==> Enabled(s, Pop(r)) && Apply(s, Pop(r)).broken
    ensures s.runners[r].Holding? ==> Enabled(s, Finish(r)) && Apply(s, Finish(r)).runners[r].AtTest?
                                      && Apply(s, Finish(r)).ran == s.ran + [s.runners[r].task]
  {
  }

  /** Two runners can: both see the one task, one takes it. */
  lemma TwoRunnersBreak(n: nat) returns (steps: seq<Step>)
    requires n >= 2
    ensures Legal(Initial(n), steps) && Run(Initial(n), steps).broken
  {
    var s0 := Initial(n);
    var s1 := Apply(s0, Post(7));
    var s2 := Apply(s1, Enter(0));
    var s3 := Apply(s2, Enter(1));
    var s4 := Apply(s3, Test(0));
    var s5 := Apply(s4, Test(1));
    var s6 := Apply(s5, Pop(0));
    var s7 := Apply(s6, Pop(1));
    steps := [];
    steps := Before(s6, Pop(1), steps);
    steps := Before(s5, Pop(0), steps);
    steps := Before(s4, Test(1), steps);
    steps := Before(s3, Test(0), steps);
    steps := Before(s2, Enter(1), steps);
    steps := Before(s1, Enter(0), steps);
    steps := Before(s0, Post(7), steps);
  }

  lemma Before(s: State, step: Step, rest: seq<Step>) returns (steps: seq<Step>)
    requires Enabled(s, step) && Legal(Apply(s, step), rest)
    ensures Legal(s, steps) && Run(s, steps) == Run(Apply(s, step), rest)
  {
    steps := [step] + rest;
    assert steps[1..] == rest;
  }

  /** So the unlocked test is safe for exactly one runner at a time. */
  lemma SafeIffSingleRunner(n: nat)
    ensures (forall steps :: Legal(Initial(n), steps) ==> !Run(Initial(n), steps).broken) <==> n <= 1
  {
    if n <= 1 {
      forall steps | Legal(Initial(n), steps)
        ensures !Run(Initial(n), steps).broken
      {
        SingleRunnerSafe(n, steps);
      }
    } else {
      var steps := TwoRunnersBreak(n);
    }
  }
}
