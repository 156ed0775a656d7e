/** The order of replies when some messages are handled by the worker and some by
    the receiving thread (core/mcp/mcp_server.c). */
module ReplyOrder {
  import opened Json
  import opened Pipeline
  import W = WorkerProtocol

  /** The buffers among these whose message gets a reply. */
  function Answering(dispatch: Dispatcher, received: seq<Message>, buffers: seq<nat>): seq<nat> {
    if buffers == [] then []
    else
      var last := buffers[|buffers| - 1];
      Answering(dispatch, received, buffers[..|buffers| - 1]) + if RepliesAt(dispatch, received, last) == [] then [] else [last]
  }

  /** Replies come in order of arrival: the messages answered so far, then those
      whose answer the worker still holds, are the answered ones as they arrived.
      A message lost in the worker's teardown counts as still to be answered. */
  predicate RepliesOrdered(dispatch: Dispatcher, s: State) {
    Answering(dispatch, s.received, s.freed + Held(s.worker)) == Answering(dispatch, s.received, Upto(|s.received|))
  }

  lemma {:induction false} AnsweringConcat(dispatch: Dispatcher, received: seq<Message>, a: seq<nat>, b: seq<nat>)
    ensures Answering(dispatch, received, a + b) == Answering(dispatch, received, a) + Answering(dispatch, received, b)
  {
    if b == [] {
      assert a + b == a;
    } else {
      AnsweringConcat(dispatch, received, a, b[..|b| - 1]);
      assert (a + b)[..|a + b| - 1] == a + b[..|b| - 1] && (a + b)[|a + b| - 1] == b[|b| - 1];
      Regroup(Answering(dispatch, received, a), Answering(dispatch, received, b[..|b| - 1]),
              if RepliesAt(dispatch, received, b[|b| - 1]) == [] then [] else [b[|b| - 1]]);
    }
  }

  lemma {:induction false} AnsweringMore(dispatch: Dispatcher, received: seq<Message>, more: seq<Message>, buffers: seq<nat>)
    requires forall i :: 0 <= i < |buffers| ==> buffers[i] < |received|
    ensures Answering(dispatch, received + more, buffers) == Answering(dispatch, received, buffers)
    ensures forall b <- Answering(dispatch, received, buffers) :: b < |received|
  {
    if buffers != [] {
      AnsweringMore(dispatch, received, more, buffers[..|buffers| - 1]);
      assert buffers[|buffers| - 1] < |received|;
    }
  }

  /** A reply log in order is the replies to the first so many messages, and when
      the worker holds no message that gets one, to all of them. */
  lemma OrderedLog(dispatch: Dispatcher, s: State)
    requires Invariant(dispatch, s) && RepliesOrdered(dispatch, s)
    ensures s.sent <= AllReplies(dispatch, s.received, Upto(|s.received|))
    ensures Answering(dispatch, s.received, Held(s.worker)) == [] ==> s.sent == AllReplies(dispatch, s.received, Upto(|s.received|))
  {
    var freed, held := Answering(dispatch, s.received, s.freed), Answering(dispatch, s.received, Held(s.worker));
    AnsweringConcat(dispatch, s.received, s.freed, Held(s.worker));
    RepliesOfAnswering(dispatch, s.received, s.freed);
    RepliesOfAnswering(dispatch, s.received, Upto(|s.received|));
    RepliesConcat(dispatch, s.received, freed, held);
    assert held == [] ==> freed + held == freed;
  }

  lemma {:induction false} RepliesOfAnswering(dispatch: Dispatcher, received: seq<Message>, buffers: seq<nat>)
    ensures AllReplies(dispatch, received, Answering(dispatch, received, buffers)) == AllReplies(dispatch, received, buffers)
  {
    if buffers != [] {
      var init, last := buffers[..|buffers| - 1], buffers[|buffers| - 1];
      RepliesOfAnswering(dispatch, received, init);
      OneMoreFreed(dispatch, received, Answering(dispatch, received, init), last);
      var answering := Answering(dispatch, received, init);
      assert answering + [] == answering && AllReplies(dispatch, received, init) + [] == AllReplies(dispatch, received, init);
    }
  }

  lemma {:induction false} RepliesConcat(dispatch: Dispatcher, received: seq<Message>, a: seq<nat>, b: seq<nat>)
    ensures AllReplies(dispatch, received, a) <= AllReplies(dispatch, received, a + b)
  {
    if b == [] {
      assert a + b == a;
    } else {
      RepliesConcat(dispatch, received, a, b[..|b| - 1]);
      assert (a + b)[..|a + b| - 1] == a + b[..|b| - 1];
    }
  }

  lemma AllReceived(s: State)
    requires EachOnce(s)
    ensures forall i :: 0 <= i < |s.freed + Held(s.worker)| ==> (s.freed + Held(s.worker))[i] < |s.received|
  {
    var all := s.freed + Held(s.worker);
    assert multiset(all) == multiset(s.freed) + multiset(Held(s.worker));
    forall i | 0 <= i < |all|
      ensures all[i] < |s.received|
    {
      FreedAreReceived(|s.received|, all, [], i);
    }
  }

  /** The answered among the buffers so far, by how they are dealt with and by arrival. */
  function Dealt(dispatch: Dispatcher, s: State): seq<nat> {
    Answering(dispatch, s.received, s.freed) + Answering(dispatch, s.received, Held(s.worker))
  }

  function Arrived(dispatch: Dispatcher, s: State): seq<nat> {
    Answering(dispatch, s.received, Upto(|s.received|))
  }

  lemma OrderedIffDealt(dispatch: Dispatcher, s: State)
    ensures RepliesOrdered(dispatch, s) <==> Dealt(dispatch, s) == Arrived(dispatch, s)
  {
    AnsweringConcat(dispatch, s.received, s.freed, Held(s.worker));
  }

  /** What one more message adds to the answered buffers. */
  function Own(dispatch: Dispatcher, s: State, message: Message): seq<nat> {
    if dispatch(message) == [] then [] else [|s.received|]
  }

  lemma OwnAnswering(dispatch: Dispatcher, s: State, message: Message)
    ensures Answering(dispatch, s.received + [message], [|s.received|]) == Own(dispatch, s, message)
  {
    var buffers: seq<nat> := [|s.received|];
    assert buffers[..0] == [];
  }

  lemma OneMoreArrived(dispatch: Dispatcher, s: State, message: Message)
    ensures Answering(dispatch, s.received + [message], Upto(|s.received| + 1)) == Arrived(dispatch, s) + Own(dispatch, s, message)
    ensures forall b <- Arrived(dispatch, s) :: b < |s.received|
  {
    var n: nat := |s.received|;
    AnsweringMore(dispatch, s.received, [message], Upto(n));
    UptoNext(n);
    AnsweringConcat(dispatch, s.received + [message], Upto(n), [n]);
    OwnAnswering(dispatch, s, message);
  }

  lemma EarlierAnswering(dispatch: Dispatcher, s: State, message: Message)
    requires EachOnce(s)
    ensures Answering(dispatch, s.received + [message], s.freed) == Answering(dispatch, s.received, s.freed)
    ensures Answering(dispatch, s.received + [message], Held(s.worker)) == Answering(dispatch, s.received, Held(s.worker))
    ensures forall b <- Dealt(dispatch, s) :: b < |s.received|
  {
    var all := s.freed + Held(s.worker);
    AllReceived(s);
    assert forall i :: 0 <= i < |s.freed| ==> all[i] == s.freed[i];
    assert forall i :: 0 <= i < |Held(s.worker)| ==> all[|s.freed| + i] == Held(s.worker)[i];
    AnsweringMore(dispatch, s.received, [message], s.freed);
    AnsweringMore(dispatch, s.received, [message], Held(s.worker));
  }

  lemma InlineDealt(dispatch: Dispatcher, s: State, message: Message)
    requires EachOnce(s)
    ensures Dealt(dispatch, Apply(dispatch, s, ReceiveInline(message)))
         == Answering(dispatch, s.received, s.freed) + Own(dispatch, s, message) + Answering(dispatch, s.received, Held(s.worker))
  {
    EarlierAnswering(dispatch, s, message);
    OwnAnswering(dispatch, s, message);
    AnsweringConcat(dispatch, s.received + [message], s.freed, [|s.received|]);
  }

  /** The fallback keeps the order of replies exactly when its message gets no
      reply, or the worker holds no message that gets one. */
  lemma InlineKeepsReplyOrderIff(dispatch: Dispatcher, s: State, message: Message)
    requires Invariant(dispatch, s)
    ensures RepliesOrdered(dispatch, Apply(dispatch, s, ReceiveInline(message)))
       <==> RepliesOrdered(dispatch, s) && (dispatch(message) == [] || Answering(dispatch, s.received, Held(s.worker)) == [])
  {
    OrderedIffDealt(dispatch, s);
    OrderedIffDealt(dispatch, Apply(dispatch, s, ReceiveInline(message)));
    EarlierAnswering(dispatch, s, message);
    InlineDealt(dispatch, s, message);
    OneMoreArrived(dispatch, s, message);
    Inserted(Answering(dispatch, s.received, s.freed), Answering(dispatch, s.received, Held(s.worker)),
             Arrived(dispatch, s), |s.received|, Own(dispatch, s, message));
  }

  lemma Inserted(freed: seq<nat>, held: seq<nat>, arrived: seq<nat>, n: nat, own: seq<nat>)
    requires forall b <- freed + held :: b < n
    requires own == [] || own == [n]
    ensures freed + own + held == arrived + own <==> freed + held == arrived && (own == [] || held == [])
  {
    if own == [] {
      assert freed + own + held == freed + held && arrived + own == arrived;
    } else if held == [] {
      assert freed + own + held == freed + [n] && freed + held == freed;
      assert (freed + [n])[..|freed|] == freed && (arrived + [n])[..|arrived|] == arrived;
    } else {
      var b := held[|held| - 1];
      assert b in freed + held;
      assert (freed + own + held)[|freed + own + held| - 1] == b && (arrived + own)[|arrived + own| - 1] == n;
    }
  }

  /** Handing a message to the worker, and what the worker does, keep the order as
      it is. */
  lemma ReceiveKeepsReplyOrder(dispatch: Dispatcher, s: State, message: Message)
    requires Invariant(dispatch, s) && Enabled(s, Receive(message))
    ensures RepliesOrdered(dispatch, Apply(dispatch, s, Receive(message))) <==> RepliesOrdered(dispatch, s)
  {
    var s' := Apply(dispatch, s, Receive(message));
    OrderedIffDealt(dispatch, s);
    OrderedIffDealt(dispatch, s');
    EarlierAnswering(dispatch, s, message);
    OwnAnswering(dispatch, s, message);
    OneMoreArrived(dispatch, s, message);
    WorkerHolds(s.worker, W.Post(|s.received|));
    AnsweringConcat(dispatch, s'.received, Held(s.worker), [|s.received|]);
    Appended(Answering(dispatch, s.received, s.freed), Answering(dispatch, s.received, Held(s.worker)),
             Arrived(dispatch, s), Own(dispatch, s, message));
  }

  lemma Appended(freed: seq<nat>, held: seq<nat>, arrived: seq<nat>, own: seq<nat>)
    ensures freed + (held + own) == arrived + own <==> freed + held == arrived
  {
    assert freed + (held + own) == freed + held + own;
    assert freed + held + own == arrived + own ==> |freed + held| == |arrived|;
    assert (freed + held + own)[..|freed + held|] == freed + held && (arrived + own)[..|arrived|] == arrived;
  }

  lemma WorkerKeepsReplyOrder(dispatch: Dispatcher, s: State, step: W.Step<nat>)
    requires Invariant(dispatch, s) && Enabled(s, Worker(step))
    ensures RepliesOrdered(dispatch, Apply(dispatch, s, Worker(step))) <==> RepliesOrdered(dispatch, s)
  {
    WorkerHolds(s.worker, step);
    var s' := Apply(dispatch, s, Worker(step));
    assert s'.freed + Held(s'.worker) == s.freed + Held(s.worker);
  }

  /** Whether every message handled inline gets no reply, or meets a worker that
      holds no message that gets one. */
  predicate InlineHarmless(dispatch: Dispatcher, s: State, steps: seq<Step>)
    decreases |steps|
  {
    steps != [] ==>
      && (steps[0].ReceiveInline? ==> dispatch(steps[0].message) == [] || Answering(dispatch, s.received, Held(s.worker)) == [])
      && InlineHarmless(dispatch, Apply(dispatch, s, steps[0]), steps[1..])
  }

  /** Over whole runs: replies come in order exactly when every inline message was
      harmless; an order once lost stays lost. */
  lemma {:induction false} ReplyOrderIff(dispatch: Dispatcher, s: State, steps: seq<Step>)
    requires Invariant(dispatch, s) && Legal(dispatch, s, steps)
    ensures RepliesOrdered(dispatch, Run(dispatch, s, steps)) <==> RepliesOrdered(dispatch, s) && InlineHarmless(dispatch, s, steps)
    decreases |steps|
  {
    if steps != [] {
      StepKeepsInvariant(dispatch, s, steps[0]);
      ReplyOrderIff(dispatch, Apply(dispatch, s, steps[0]), steps[1..]);
      match steps[0]
      case Receive(message) => ReceiveKeepsReplyOrder(dispatch, s, message);
      case ReceiveInline(message) => InlineKeepsReplyOrderIff(dispatch, s, message);
      case Worker(step) => WorkerKeepsReplyOrder(dispatch, s, step);
    }
  }

  /** In figures: over a run whose inline messages were harmless, what has been sent
      begins what dispatching the messages received sends, and is all of it when
      the worker holds none that gets a reply. */
  lemma HarmlessRunSends(dispatch: Dispatcher, steps: seq<Step>)
    requires Legal(dispatch, Initial(), steps) && InlineHarmless(dispatch, Initial(), steps)
    ensures var s := Run(dispatch, Initial(), steps);
            && s.received == Messages(steps)
            && s.sent <= Sends(dispatch, Messages(steps))
            && (Answering(dispatch, Messages(steps), Held(s.worker)) == [] ==> s.sent == Sends(dispatch, Messages(steps)))
  {
    var s := Run(dispatch, Initial(), steps);
    RunKeepsInvariant(dispatch, Initial(), steps);
    ReplyOrderIff(dispatch, Initial(), steps);
    OrderedLog(dispatch, s);
    ReceivedIsMessages(dispatch, Initial(), steps);
    assert [] + Messages(steps) == Messages(steps);
    RepliesAreSends(dispatch, s.received, |s.received|);
    assert s.received[..|s.received|] == s.received;
  }
}
