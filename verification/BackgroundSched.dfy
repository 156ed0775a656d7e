/** The background scheduler's linked task queue (core/posix/background_sched.c).
    Each method is one pass through the locked region. */
module BackgroundSched {
  import opened Json
  import opened Tasks

  /** What the worker does after a look at the queue. */
  datatype Turn<T> = Sleep | Exit | RunTask(task: T)

  function TurnFor<T>(queue: seq<T>, running: bool): Turn<T> {
    if queue != [] then RunTask(queue[0]) else if running then Sleep else Exit
  }

  class Sched<T> {
    var queueHead: TaskNode?<T>
    var queueTail: TaskNode?<T>
    var running: bool
    var pending: nat
    var active: nat
    ghost var nodes: seq<TaskNode<T>>

    /** The list from head to tail is `nodes`, and the counter counts it. */
    ghost predicate Valid()
      reads this, nodes
    {
      && pending == |nodes|
      && (if nodes == [] then queueHead == null && queueTail == null
          else queueHead == nodes[0] && queueTail == nodes[|nodes| - 1] && queueTail.next == null)
      && (forall i :: 0 <= i < |nodes| - 1 ==> nodes[i].next == nodes[i + 1])
      && (forall i, j :: 0 <= i < j < |nodes| ==> nodes[i] != nodes[j])
    }

    ghost function Queue(): (q: seq<T>)
      reads this
      ensures |q| == |nodes|
    {
      seq(|nodes|, i requires 0 <= i < |nodes| reads this => nodes[i].task)
    }

    constructor ()
      ensures Valid() && Queue() == [] && running && active == 0 && nodes == []
    {
      queueHead, queueTail, running, pending, active, nodes := null, null, true, 0, 0, [];
    }

    /** bg_sched_post; a missing callback is refused. */
    method Post(task: Option<T>) returns (status: int)
      requires Valid()
      modifies this`queueHead, this`queueTail, this`pending, this`nodes, nodes
      ensures Valid() && status == (if task.Some? then 0 else -1)
      ensures Queue() == if task.Some? then old(Queue()) + [task.value] else old(Queue())
      ensures fresh(nodes[|old(nodes)|..]) && nodes[..|old(nodes)|] == old(nodes)
    {
      if task.None? {
        return -1;
      }
      var node := new TaskNode(task.value);
      if queueTail != null {
        queueTail.next := node;
      } else {
        queueHead := node;
      }
      queueTail := node;
      pending := pending + 1;
      nodes := nodes + [node];
      return 0;
    }

    /** The locked look of worker_main at the queue. */
    method TakeTurn() returns (turn: Turn<T>)
      requires Valid()
      modifies this`queueHead, this`queueTail, this`pending, this`active, this`nodes
      ensures Valid() && turn == TurnFor(old(Queue()), running)
      ensures if turn.RunTask? then old(Queue()) == [turn.task] + Queue() && active == old(active) + 1 && nodes == old(nodes)[1..]
              else Queue() == old(Queue()) && active == old(active)
    {
      if queueHead == null {
        return if running then Sleep else Exit;
      }
      var task := queueHead;
      queueHead := task.next;
      if queueHead == null {
        queueTail := null;
      }
      pending := pending - 1;
      active := active + 1;
      nodes := nodes[1..];
      return RunTask(task.task);
    }

    method TaskDone()
      requires active > 0
      modifies this`active
      ensures active == old(active) - 1
    {
      active := active - 1;
    }

    method Stop()
      modifies this`running
      ensures !running
    {
      running := false;
    }

    /** worker_main once bg_sched_destroy has been called and nobody posts: it runs
        what is queued, front to back, each task once, and exits with nothing
        queued and the active count as it was. */
    method WorkerMain() returns (ran: seq<T>)
      requires Valid() && !running
      modifies this`queueHead, this`queueTail, this`pending, this`active, this`nodes
      ensures Valid() && ran == old(Queue()) && Queue() == []
      ensures pending == 0 && queueHead == null && queueTail == null && active == old(active)
    {
      ran := [];
      while true
        invariant Valid() && ran + Queue() == old(Queue()) && active == old(active)
        decreases |nodes|
      {
        var turn := TakeTurn();
        match turn {
          case Sleep => assert false; // not running
          case Exit => return;
          case RunTask(task) =>
            ran := ran + [task];
            TaskDone();
        }
      }
    }

    /** The closing loop of bg_sched_destroy: every node still queued is freed,
        front to back, once. */
    method FreeQueued() returns (freed: seq<TaskNode<T>>)
      requires Valid()
      ensures freed == nodes
    {
      var curr := queueHead;
      freed := [];
      while curr != null
        invariant |freed| <= |nodes| && freed == nodes[..|freed|]
        invariant curr == if |freed| < |nodes| then nodes[|freed|] else null
        decreases |nodes| - |freed|
      {
        var next := curr.next;
        freed := freed + [curr];
        curr := next;
      }
    }
  }
}
