/** From received bytes to replies: the receive callback hands messages to the
    worker, which dispatches and frees them (core/mcp/mcp_server.c). */
module Pipeline {
  import opened Json
  import opened JsonRpc
  import opened Dispatch
  import opened Paging
  import Registry
  import W = WorkerProtocol

  /** What a message parses to; None when it is not JSON. */
  type Message = Option<Json>

  /** `received` are the messages in order of arrival, each in its own buffer.
      `freed` lists the buffers whose message has been dispatched and released,
      in that order; `sent` is the log of replies. */
  datatype State = State(received: seq<Message>, worker: W.State<nat>, freed: seq<nat>, sent: seq<Json>)

  datatype Step =
    | Receive(message: Message) // handed to the worker
    | ReceiveInline(message: Message) // could not be: dispatched by the receiver
    | Worker(step: W.Step<nat>)

  /** Dispatching a message: what it sends. */
  type Dispatcher = Message -> seq<Json>

  function RepliesAt(dispatch: Dispatcher, received: seq<Message>, b: nat): seq<Json> {
    if b < |received| then dispatch(received[b]) else []
  }

  /** The replies to the messages in those buffers, in that order. */
  function AllReplies(dispatch: Dispatcher, received: seq<Message>, buffers: seq<nat>): seq<Json> {
    if buffers == [] then []
    else AllReplies(dispatch, received, buffers[..|buffers| - 1]) + RepliesAt(dispatch, received, buffers[|buffers| - 1])
  }

  function Initial(): State {
    State([], W.Initial<nat>(), [], [])
  }

  predicate Enabled(s: State, step: Step) {
    match step
    case Receive(_) => W.Enabled(s.worker, W.Post(|s.received|))
    case ReceiveInline(_) => true
    case Worker(step) => !step.Post? && W.Enabled(s.worker, step)
  }

  function Apply(dispatch: Dispatcher, s: State, step: Step): State {
    match step
    case Receive(message) =>
      s.(received := s.received + [message], worker := W.Apply(s.worker, W.Post(|s.received|)))
    case ReceiveInline(message) =>
      s.(received := s.received + [message], freed := s.freed + [|s.received|], sent := s.sent + dispatch(message))
    case Worker(step) =>
      var worker := W.Apply(s.worker, step);
      if step.CallbackReturns? && s.worker.phase.Running? then
        var b := s.worker.phase.task;
        s.(worker := worker, freed := s.freed + [b], sent := s.sent + RepliesAt(dispatch, s.received, b))
      else s.(worker := worker)
  }

  predicate Legal(dispatch: Dispatcher, s: State, steps: seq<Step>)
    decreases |steps|
  {
    steps != [] ==> Enabled(s, steps[0]) && Legal(dispatch, Apply(dispatch, s, steps[0]), steps[1..])
  }

  function Run(dispatch: Dispatcher, s: State, steps: seq<Step>): State
    decreases |steps|
  {
    if steps == [] then s else Run(dispatch, Apply(dispatch, s, steps[0]), steps[1..])
  }

  function Upto(n: nat): (r: seq<nat>)
    ensures |r| == n && forall i :: 0 <= i < n ==> r[i] == i
  {
    seq(n, i => i)
  }

  /** Buffers the worker still holds, or lost when it was torn down. */
  function Held(w: W.State<nat>): seq<nat> {
    W.InFlight(w.phase) + w.queue + w.dropped
  }

  /** Every buffer is freed or held, and only one of them, once. */
  ghost predicate EachOnce(s: State) {
    multiset(s.freed) + multiset(Held(s.worker)) == multiset(Upto(|s.received|))
  }

  ghost predicate Invariant(dispatch: Dispatcher, s: State) {
    && W.Invariant(s.worker)
    && EachOnce(s)
    && s.sent == AllReplies(dispatch, s.received, s.freed)
  }

  lemma {:induction false} MoreReceived(dispatch: Dispatcher, received: seq<Message>, more: seq<Message>, buffers: seq<nat>)
    requires forall i :: 0 <= i < |buffers| ==> buffers[i] < |received|
    ensures AllReplies(dispatch, received + more, buffers) == AllReplies(dispatch, received, buffers)
  {
    if buffers != [] {
      MoreReceived(dispatch, received, more, buffers[..|buffers| - 1]);
      assert buffers[|buffers| - 1] < |received|;
    }
  }

  lemma OneMoreFreed(dispatch: Dispatcher, received: seq<Message>, buffers: seq<nat>, b: nat)
    ensures AllReplies(dispatch, received, buffers + [b]) == AllReplies(dispatch, received, buffers) + RepliesAt(dispatch, received, b)
  {
  }

  lemma UptoNext(n: nat)
    ensures Upto(n + 1) == Upto(n) + [n]
  {
  }

  lemma FreedAreReceived(received: nat, freed: seq<nat>, held: seq<nat>, i: nat)
    requires multiset(freed) + multiset(held) == multiset(Upto(received)) && i < |freed|
    ensures freed[i] < received
  {
    assert freed[i] in multiset(freed);
    assert freed[i] in multiset(Upto(received));
    assert freed[i] in Upto(received);
  }

  /** The worker moves buffers it holds, keeps order, and lets go of one when its
      callback returns. */
  lemma WorkerHolds(w: W.State<nat>, step: W.Step<nat>)
    requires W.Invariant(w) && W.Enabled(w, step)
    ensures Held(W.Apply(w, step)) ==
            if step.Post? then Held(w) + [step.task]
            else if step.CallbackReturns? then Held(w)[1..]
            else Held(w)
    ensures step.CallbackReturns? ==> Held(w) == [w.phase.task] + Held(W.Apply(w, step))
  {
    if step.Look? && w.queue != [] {
      assert w.queue == [w.queue[0]] + w.queue[1..];
    }
  }

  /** A new message leaves the earlier replies as they are. */
  lemma ReceiveKeeps(dispatch: Dispatcher, s: State, message: Message)
    requires EachOnce(s) && s.sent == AllReplies(dispatch, s.received, s.freed)
    ensures s.sent == AllReplies(dispatch, s.received + [message], s.freed)
    ensures var n: nat := |s.received|; multiset(s.freed) + multiset(Held(s.worker)) + multiset([n]) == multiset(Upto(n + 1))
  {
    forall i | 0 <= i < |s.freed|
      ensures s.freed[i] < |s.received|
    {
      FreedAreReceived(|s.received|, s.freed, Held(s.worker), i);
    }
    MoreReceived(dispatch, s.received, [message], s.freed);
    UptoNext(|s.received|);
  }

  lemma ReceiveStepKeeps(dispatch: Dispatcher, s: State, message: Message)
    requires Invariant(dispatch, s) && Enabled(s, Receive(message))
    ensures Invariant(dispatch, Apply(dispatch, s, Receive(message)))
  {
    ReceiveKeeps(dispatch, s, message);
    W.StepKeepsInvariant(s.worker, W.Post(|s.received|));
    WorkerHolds(s.worker, W.Post(|s.received|));
  }

  lemma InlineStepKeeps(dispatch: Dispatcher, s: State, message: Message)
    requires Invariant(dispatch, s)
    ensures Invariant(dispatch, Apply(dispatch, s, ReceiveInline(message)))
  {
    ReceiveKeeps(dispatch, s, message);
    OneMoreFreed(dispatch, s.received + [message], s.freed, |s.received|);
  }

  lemma WorkerStepKeeps(dispatch: Dispatcher, s: State, step: W.Step<nat>)
    requires Invariant(dispatch, s) && Enabled(s, Worker(step))
    ensures Invariant(dispatch, Apply(dispatch, s, Worker(step)))
  {
    W.StepKeepsInvariant(s.worker, step);
    WorkerHolds(s.worker, step);
    if step.CallbackReturns? {
      var b := s.worker.phase.task;
      OneMoreFreed(dispatch, s.received, s.freed, b);
      assert multiset(Held(s.worker)) == multiset([b]) + multiset(Held(W.Apply(s.worker, step)));
    }
  }

  lemma StepKeepsInvariant(dispatch: Dispatcher, s: State, step: Step)
    requires Invariant(dispatch, s) && Enabled(s, step)
    ensures Invariant(dispatch, Apply(dispatch, s, step))
  {
    match step
    case Receive(message) => ReceiveStepKeeps(dispatch, s, message);
    case ReceiveInline(message) => InlineStepKeeps(dispatch, s, message);
    case Worker(w) => WorkerStepKeeps(dispatch, s, w);
  }

  lemma {:induction false} RunKeepsInvariant(dispatch: Dispatcher, s: State, steps: seq<Step>)
    requires Invariant(dispatch, s) && Legal(dispatch, s, steps)
    ensures Invariant(dispatch, Run(dispatch, s, steps))
    decreases |steps|
  {
    if steps != [] {
      StepKeepsInvariant(dispatch, s, steps[0]);
      RunKeepsInvariant(dispatch, Apply(dispatch, s, steps[0]), steps[1..]);
    }
  }

  /** On every run, worker or inline: no buffer is freed twice, and one that is
      not freed is held by the worker or was dropped by its teardown. */
  lemma BuffersFreedOnce(dispatch: Dispatcher, steps: seq<Step>, b: nat)
    requires Legal(dispatch, Initial(), steps)
    ensures var s := Run(dispatch, Initial(), steps);
            b < |s.received| ==> multiset(s.freed)[b] + multiset(Held(s.worker))[b] == 1
    ensures var s := Run(dispatch, Initial(), steps);
            b >= |s.received| ==> b !in s.freed && b !in Held(s.worker)
  {
    RunKeepsInvariant(dispatch, Initial(), steps);
    var s := Run(dispatch, Initial(), steps);
    UptoCounts(|s.received|, b);
    assert (multiset(s.freed) + multiset(Held(s.worker)))[b] == multiset(Upto(|s.received|))[b];
    assert b in s.freed ==> multiset(s.freed)[b] > 0;
    assert b in Held(s.worker) ==> multiset(Held(s.worker))[b] > 0;
  }

  lemma {:induction false} UptoCounts(n: nat, b: nat)
    ensures multiset(Upto(n))[b] == if b < n then 1 else 0
  {
    if n > 0 {
      UptoCounts(n - 1, b);
      UptoNext(n - 1);
    }
  }

  // Order.

  /** Buffers are freed, and so messages answered, in order of arrival. */
  predicate InOrder(s: State) {
    s.freed == Upto(|s.freed|)
  }

  /** Everything went through the worker. */
  ghost predicate AllPosted(s: State) {
    s.worker.posted == Upto(|s.received|) && s.freed == s.worker.finished
  }

  lemma WorkerOnlyPostsStep(dispatch: Dispatcher, s: State, step: Step)
    requires W.Invariant(s.worker) && AllPosted(s) && Enabled(s, step) && !step.ReceiveInline?
    ensures AllPosted(Apply(dispatch, s, step))
  {
  }

  lemma {:induction false} WorkerOnlyPosts(dispatch: Dispatcher, s: State, steps: seq<Step>)
    requires Invariant(dispatch, s) && AllPosted(s) && Legal(dispatch, s, steps)
    requires forall step <- steps :: !step.ReceiveInline?
    ensures AllPosted(Run(dispatch, s, steps))
    decreases |steps|
  {
    if steps != [] {
      StepKeepsInvariant(dispatch, s, steps[0]);
      WorkerOnlyPostsStep(dispatch, s, steps[0]);
      WorkerOnlyPosts(dispatch, Apply(dispatch, s, steps[0]), steps[1..]);
    }
  }

  /** The fallback to the receiving thread keeps the order in which buffers are
      freed exactly when the worker holds nothing at that moment. */
  lemma InlineKeepsFreeingOrderIffIdle(dispatch: Dispatcher, s: State, message: Message)
    requires Invariant(dispatch, s) && InOrder(s)
    ensures InOrder(Apply(dispatch, s, ReceiveInline(message))) <==> Held(s.worker) == []
  {
    var n := |s.received|;
    var s' := Apply(dispatch, s, ReceiveInline(message));
    assert |multiset(s.freed) + multiset(Held(s.worker))| == |multiset(Upto(n))|;
    assert |s.freed| + |Held(s.worker)| == n;
    assert s'.freed[|s.freed|] == n;
    UptoNext(|s.freed|);
  }

  /** The fixed server the messages are dispatched to. */
  datatype Server = Server(registry: Registry.State, name: string, size: Size)

  /** The dispatcher of a server. */
  function DispatcherOf(server: Server): Dispatcher {
    message => Replies(server.registry, server.name, server.size, message)
  }

  /** The messages a run receives, in order of arrival. */
  function Messages(steps: seq<Step>): seq<Message> {
    if steps == [] then []
    else (if steps[0].Worker? then [] else [steps[0].message]) + Messages(steps[1..])
  }

  lemma {:induction false} ReceivedIsMessages(dispatch: Dispatcher, s: State, steps: seq<Step>)
    ensures Run(dispatch, s, steps).received == s.received + Messages(steps)
    decreases |steps|
  {
    if steps != [] {
      ReceivedIsMessages(dispatch, Apply(dispatch, s, steps[0]), steps[1..]);
      Regroup(s.received, if steps[0].Worker? then [] else [steps[0].message], Messages(steps[1..]));
    }
  }

  /** What dispatching these messages one after the other sends. */
  function Sends(dispatch: Dispatcher, messages: seq<Message>): seq<Json> {
    if messages == [] then [] else Sends(dispatch, messages[..|messages| - 1]) + dispatch(messages[|messages| - 1])
  }

  lemma {:induction false} RepliesAreSends(dispatch: Dispatcher, received: seq<Message>, k: nat)
    requires k <= |received|
    ensures AllReplies(dispatch, received, Upto(k)) == Sends(dispatch, received[..k])
  {
    if k > 0 {
      RepliesAreSends(dispatch, received, k - 1);
      UptoNext(k - 1);
      assert Upto(k)[..k - 1] == Upto(k - 1);
      assert received[..k][..k - 1] == received[..k - 1];
    }
  }

  /** Every step but teardown is open to a receiver, and to the worker what it can do. */
  lemma CanGoOn(s: State, message: Message, step: W.Step<nat>)
    ensures s.worker.destroy != W.Freed ==> Enabled(s, Receive(message))
    ensures Enabled(s, ReceiveInline(message))
    ensures !step.Post? && W.Enabled(s.worker, step) ==> Enabled(s, Worker(step))
  {
  }

  /** End to end: when every message is handed to the worker, what has been sent is
      at all times what dispatching the first of the messages received sends, in
      order: all but those the worker holds. */
  lemma RepliesInOrder(server: Server, steps: seq<Step>)
    requires Legal(DispatcherOf(server), Initial(), steps) && forall step <- steps :: !step.ReceiveInline?
    ensures var s, messages := Run(DispatcherOf(server), Initial(), steps), Messages(steps);
            var k := |s.freed|;
            && s.freed == Upto(k) && k + |Held(s.worker)| == |messages|
            && s.sent == Sends(DispatcherOf(server), messages[..k])
            && (s.worker.phase.Exited? ==> k == s.worker.postedAtExit)
  {
    InOrderFor(DispatcherOf(server), steps);
  }

  lemma InOrderFor(dispatch: Dispatcher, steps: seq<Step>)
    requires Legal(dispatch, Initial(), steps) && forall step <- steps :: !step.ReceiveInline?
    ensures var s, messages := Run(dispatch, Initial(), steps), Messages(steps);
            var k := |s.freed|;
            && s.freed == Upto(k) && k + |Held(s.worker)| == |messages|
            && s.sent == Sends(dispatch, messages[..k])
            && (s.worker.phase.Exited? ==> k == s.worker.postedAtExit)
  {
    RunKeepsInvariant(dispatch, Initial(), steps);
    WorkerOnlyPosts(dispatch, Initial(), steps);
    ReceivedIsMessages(dispatch, Initial(), steps);
    var s := Run(dispatch, Initial(), steps);
    assert [] + Messages(steps) == Messages(steps);
    FreedFirst(s.worker, |s.received|);
    RepliesAreSends(dispatch, s.received, |s.freed|);
  }

  lemma FreedFirst(w: W.State<nat>, n: nat)
    requires W.Invariant(w) && w.posted == Upto(n)
    ensures var k := |w.finished|;
            && w.finished == Upto(k) && k + |Held(w)| == n
            && (w.phase.Exited? ==> k == w.postedAtExit)
  {
    assert w.posted == w.finished + Held(w);
    assert Upto(n)[..|w.finished|] == w.finished;
  }

  lemma {:induction false} RunInTwo(dispatch: Dispatcher, s: State, a: seq<Step>, b: seq<Step>)
    ensures Run(dispatch, s, a + b) == Run(dispatch, Run(dispatch, s, a), b)
    ensures Legal(dispatch, s, a + b) <==> Legal(dispatch, s, a) && Legal(dispatch, Run(dispatch, s, a), b)
    decreases |a|
  {
    if a == [] {
      assert a + b == b;
    } else {
      RunInTwo(dispatch, Apply(dispatch, s, a[0]), a[1..], b);
      assert (a + b)[1..] == a[1..] + b;
    }
  }

  lemma {:induction false} ExitedStays(dispatch: Dispatcher, s: State, steps: seq<Step>)
    requires Legal(dispatch, s, steps) && s.worker.phase.Exited?
    ensures var s' := Run(dispatch, s, steps);
            s'.worker.phase.Exited? && s'.worker.postedAtExit == s.worker.postedAtExit
    decreases |steps|
  {
    if steps != [] {
      ExitedStays(dispatch, Apply(dispatch, s, steps[0]), steps[1..]);
    }
  }

  /** And once the worker has left, it is what dispatching the messages handed over
      before that look sends, whatever came in later. */
  lemma RepliesAtExit(server: Server, before: seq<Step>, after: seq<Step>)
    requires var steps := before + [Worker(W.Look)] + after;
             Legal(DispatcherOf(server), Initial(), steps) && forall step <- steps :: !step.ReceiveInline?
    requires !Run(DispatcherOf(server), Initial(), before).worker.phase.Exited?
    requires Run(DispatcherOf(server), Initial(), before + [Worker(W.Look)]).worker.phase.Exited?
    ensures Run(DispatcherOf(server), Initial(), before + [Worker(W.Look)] + after).sent
         == Sends(DispatcherOf(server), Messages(before))
  {
    SentAtExit(DispatcherOf(server), before, after);
  }

  lemma SentAtExit(dispatch: Dispatcher, before: seq<Step>, after: seq<Step>)
    requires var steps := before + [Worker(W.Look)] + after;
             Legal(dispatch, Initial(), steps) && forall step <- steps :: !step.ReceiveInline?
    requires !Run(dispatch, Initial(), before).worker.phase.Exited?
    requires Run(dispatch, Initial(), before + [Worker(W.Look)]).worker.phase.Exited?
    ensures Run(dispatch, Initial(), before + [Worker(W.Look)] + after).sent == Sends(dispatch, Messages(before))
  {
    var look := [Worker(W.Look)];
    RunInTwo(dispatch, Initial(), before + look, after);
    InOrderFor(dispatch, before + look + after);
    ExitCounts(dispatch, before);
    ExitedStays(dispatch, Run(dispatch, Initial(), before + look), after);
    MessagesInTwo(before + look, after);
    MessagesInTwo(before, look);
    assert look[1..] == [] && Messages(before) + [] == Messages(before);
    assert (Messages(before) + Messages(after))[..|Messages(before)|] == Messages(before);
  }

  lemma ExitCounts(dispatch: Dispatcher, before: seq<Step>)
    requires Legal(dispatch, Initial(), before + [Worker(W.Look)]) && forall step <- before + [Worker(W.Look)] :: !step.ReceiveInline?
    requires !Run(dispatch, Initial(), before).worker.phase.Exited?
    requires Run(dispatch, Initial(), before + [Worker(W.Look)]).worker.phase.Exited?
    ensures Run(dispatch, Initial(), before + [Worker(W.Look)]).worker.postedAtExit == |Messages(before)|
  {
    var look := [Worker(W.Look)];
    RunInTwo(dispatch, Initial(), before, look);
    var s := Run(dispatch, Initial(), before);
    assert look[1..] == [] && Run(dispatch, s, look) == Apply(dispatch, s, look[0]);
    assert forall step <- before :: step in before + look;
    WorkerOnlyPosts(dispatch, Initial(), before);
    ReceivedIsMessages(dispatch, Initial(), before);
    assert [] + Messages(before) == Messages(before);
  }

  lemma {:induction false} MessagesInTwo(a: seq<Step>, b: seq<Step>)
    ensures Messages(a + b) == Messages(a) + Messages(b)
  {
    if a == [] {
      assert a + b == b;
    } else {
      MessagesInTwo(a[1..], b);
      assert (a + b)[1..] == a[1..] + b;
      Regroup(if a[0].Worker? then [] else [a[0].message], Messages(a[1..]), Messages(b));
    }
  }

  /** A message has one reply exactly when, its envelope keys spelt exactly, it is a
      request with a number for its id, and otherwise none; with exactly spelt
      keys, the reply carries the request's id exactly when a C int holds it. */
  lemma RepliesPerMessage(server: Server, message: Message)
    ensures var replies := DispatcherOf(server)(message);
            if message.Some? && NumberedEnvelope(Respelt(message.value)) then
              && |replies| == 1
              && GetExact(replies[0], "id") == Some(Number(ValueInt(GetExact(Respelt(message.value), "id").value.v) as real))
              && (HasMember(replies[0], "result") <==> !HasMember(replies[0], "error"))
            else replies == []
    ensures var replies := DispatcherOf(server)(message);
            message.Some? && ExactEnvelope(message.value) ==>
              && (|replies| == 1 <==> NumberedEnvelope(message.value))
              && (|replies| == 1 ==>
                    var id := GetExact(message.value, "id").value.v;
                    GetExact(replies[0], "id") == Some(Number(id)) <==> Integral(id) && INT_MIN as real <= id <= INT_MAX as real)
  {
    if message.Some? {
      AnsweredIffEnvelope(server.registry, server.name, server.size, message.value);
      if ExactEnvelope(message.value) {
        RespellingExact(message.value);
        if NumberedEnvelope(message.value) {
          IdEchoed(server.registry, server.name, server.size, message.value);
        }
      }
    }
  }
}
