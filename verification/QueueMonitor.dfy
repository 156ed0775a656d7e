/** queue_send, queue_recv and queue_reset as the steps of any number of threads
    under one lock (core/posix/queue.c). */
module QueueMonitor {
  import opened Json
  import opened RingQueue

  type Tid = nat

  /** Where a thread inside queue_send or queue_recv is.  A thread that is in
      neither has no entry.  A woken thread has yet to get the lock back. */
  datatype Pc<T> =
    | SendAsleep(item: T)
    | SendWoken(item: T)
    | RecvAsleep(timed: bool)
    | RecvWoken(timed: bool, expired: bool)

  /** `sent` and `received` count from the last reset. */
  datatype State<T> = State(size: nat, contents: seq<T>, pc: map<Tid, Pc<T>>, sent: seq<T>, received: seq<T>)

  /** timeout_ms == 0, < 0 and > 0. */
  datatype Wait = NoWait | Forever | Timed

  /** `wake` is whom the signal of a completed pass wakes. */
  datatype Step<T> =
    | SendEnter(t: Tid, item: T, wake: set<Tid>)
    | SendResume(t: Tid, wake: set<Tid>)
    | RecvEnter(t: Tid, wait: Wait, wake: set<Tid>)
    | RecvResume(t: Tid, wake: set<Tid>)
    | Spurious(t: Tid)
    | Timeout(t: Tid)
    | LateTimeout(t: Tid) // a signalled timed wait may still report ETIMEDOUT
    | Reset

  ghost function SleepingReceivers<T>(pc: map<Tid, Pc<T>>): set<Tid> { set t | t in pc && pc[t].RecvAsleep? }
  ghost function WokenReceivers<T>(pc: map<Tid, Pc<T>>): set<Tid> { set t | t in pc && pc[t].RecvWoken? }
  ghost function SleepingSenders<T>(pc: map<Tid, Pc<T>>): set<Tid> { set t | t in pc && pc[t].SendAsleep? }
  ghost function WokenSenders<T>(pc: map<Tid, Pc<T>>): set<Tid> { set t | t in pc && pc[t].SendWoken? }

  function WokenPc<T>(p: Pc<T>): Pc<T> {
    match p
    case SendAsleep(item) => SendWoken(item)
    case RecvAsleep(timed) => RecvWoken(timed, false)
    case _ => p
  }

  function Wake<T>(pc: map<Tid, Pc<T>>, wake: set<Tid>): map<Tid, Pc<T>> {
    map t | t in pc :: if t in wake then WokenPc(pc[t]) else pc[t]
  }

  /** pthread_cond_signal: at least one of the waiters, if there are any. */
  ghost predicate Signals(wake: set<Tid>, waiters: set<Tid>) {
    wake <= waiters && (waiters != {} ==> wake != {})
  }

  /** One pass of queue_send: store and signal, or go to sleep. */
  ghost predicate MayPass<T>(s: State<T>, t: Tid, wake: set<Tid>, receiving: bool) {
    Signals(wake, if receiving then SleepingSenders(s.pc - {t}) else SleepingReceivers(s.pc - {t}))
  }

  function SendPass<T>(s: State<T>, t: Tid, item: T, wake: set<Tid>): State<T> {
    match Put(s.contents, s.size, item)
    case Some(contents) => s.(contents := contents, sent := s.sent + [item], pc := Wake(s.pc - {t}, wake))
    case None => s.(pc := s.pc[t := SendAsleep(item)])
  }

  /** One pass of queue_recv: take and signal, or give up, or go (back) to sleep. */
  function RecvPass<T>(s: State<T>, t: Tid, wait: Wait, expired: bool, wake: set<Tid>): State<T> {
    match Take(s.contents)
    case Some((item, rest)) => s.(contents := rest, received := s.received + [item], pc := Wake(s.pc - {t}, wake))
    case None =>
      if wait.NoWait? || expired then s.(pc := s.pc - {t})
      else s.(pc := s.pc[t := RecvAsleep(wait.Timed?)])
  }

  ghost predicate Enabled<T>(s: State<T>, step: Step<T>) {
    match step
    case SendEnter(t, item, wake) => t !in s.pc && MayPass(s, t, wake, false)
    case SendResume(t, wake) => t in s.pc && s.pc[t].SendWoken? && MayPass(s, t, wake, false)
    case RecvEnter(t, _, wake) => t !in s.pc && MayPass(s, t, wake, true)
    case RecvResume(t, wake) => t in s.pc && s.pc[t].RecvWoken? && MayPass(s, t, wake, true)
    case Spurious(t) => t in s.pc && (s.pc[t].SendAsleep? || s.pc[t].RecvAsleep?)
    case Timeout(t) => t in s.pc && s.pc[t] == RecvAsleep(true)
    case LateTimeout(t) => t in s.pc && s.pc[t] == RecvWoken(true, false)
    case Reset => true
  }

  function Apply<T>(s: State<T>, step: Step<T>): State<T> {
    match step
    case SendEnter(t, item, wake) => SendPass(s, t, item, wake)
    case SendResume(t, wake) => if t in s.pc && s.pc[t].SendWoken? then SendPass(s, t, s.pc[t].item, wake) else s
    case RecvEnter(t, wait, wake) => RecvPass(s, t, wait, false, wake)
    case RecvResume(t, wake) =>
      if t in s.pc && s.pc[t].RecvWoken?
      then RecvPass(s, t, if s.pc[t].timed then Timed else Forever, s.pc[t].expired, wake) else s
    case Spurious(t) => s.(pc := Wake(s.pc, {t}))
    case Timeout(t) => s.(pc := s.pc[t := RecvWoken(true, true)])
    case LateTimeout(t) => s.(pc := s.pc[t := RecvWoken(true, true)])
    case Reset => State(s.size, [], Wake(s.pc, s.pc.Keys), [], [])
  }

  /** A run: every step is enabled where it happens. */
  ghost predicate Legal<T>(s: State<T>, steps: seq<Step<T>>)
    decreases |steps|
  {
    steps != [] ==> Enabled(s, steps[0]) && Legal(Apply(s, steps[0]), steps[1..])
  }

  function Run<T>(s: State<T>, steps: seq<Step<T>>): State<T>
    decreases |steps|
  {
    if steps == [] then s else Run(Apply(s, steps[0]), steps[1..])
  }

  function Initial<T>(size: nat): State<T> {
    State(size, [], map[], [], [])
  }

  /** No stranded waiter, and the queue is a FIFO. */
  ghost predicate Invariant<T>(s: State<T>) {
    && |s.contents| <= s.size
    && s.sent == s.received + s.contents
    && (SleepingReceivers(s.pc) != {} ==> |s.contents| <= |WokenReceivers(s.pc)|)
    && (SleepingSenders(s.pc) != {} ==> s.size - |s.contents| <= |WokenSenders(s.pc)|)
  }

  /** How waking changes the four sets. */
  lemma WakeSets<T>(pc: map<Tid, Pc<T>>, wake: set<Tid>)
    requires wake <= pc.Keys
    ensures var after := Wake(pc, wake);
            && SleepingReceivers(after) == SleepingReceivers(pc) - wake
            && WokenReceivers(after) == WokenReceivers(pc) + wake * SleepingReceivers(pc)
            && SleepingSenders(after) == SleepingSenders(pc) - wake
            && WokenSenders(after) == WokenSenders(pc) + wake * SleepingSenders(pc)
  {
  }

  /** The four sets a thread that leaves while waking others produces. */
  lemma LeaveSets<T>(pc: map<Tid, Pc<T>>, t: Tid, wake: set<Tid>)
    requires wake <= (pc - {t}).Keys
    ensures var after := Wake(pc - {t}, wake);
            && SleepingReceivers(after) == SleepingReceivers(pc) - {t} - wake
            && WokenReceivers(after) == WokenReceivers(pc) - {t} + wake * SleepingReceivers(pc)
            && SleepingSenders(after) == SleepingSenders(pc) - {t} - wake
            && WokenSenders(after) == WokenSenders(pc) - {t} + wake * SleepingSenders(pc)
  {
  }

  lemma RemoveSets<T>(pc: map<Tid, Pc<T>>, t: Tid)
    ensures SleepingReceivers(pc - {t}) == SleepingReceivers(pc) - {t}
    ensures SleepingSenders(pc - {t}) == SleepingSenders(pc) - {t}
  {
  }

  lemma DisjointSets<T>(pc: map<Tid, Pc<T>>)
    ensures SleepingReceivers(pc) !! WokenReceivers(pc) !! SleepingSenders(pc) !! WokenSenders(pc)
  {
  }

  lemma SubsetSize<T>(a: set<T>, b: set<T>)
    requires a <= b
    ensures |a| <= |b|
  {
    assert b == a + (b - a);
  }

  /** Thread `t` leaves, waking `wake` of the sleepers `asleep` across: that side
      gains a woken thread while it has sleepers left, and t's own side, whose
      sleepers stay asleep, loses a woken one at most. */
  lemma LeaveCounts(asleep: set<Tid>, woken: set<Tid>, ownAsleep: set<Tid>, ownWoken: set<Tid>, t: Tid, wake: set<Tid>)
    requires asleep !! woken !! ownAsleep !! ownWoken
    requires t !in asleep + woken + ownAsleep && wake <= asleep
    ensures asleep - {t} - wake != {} ==> asleep != {}
    ensures |woken - {t} + wake * asleep| >= |woken| + (if wake != {} then 1 else 0)
    ensures ownAsleep - {t} - wake == ownAsleep && |ownWoken - {t} + wake * ownAsleep| >= |ownWoken| - 1
  {
  }

  /** A sender completes. */
  lemma SenderLeaves<T>(pc: map<Tid, Pc<T>>, t: Tid, wake: set<Tid>)
    requires (t !in pc || pc[t].SendWoken?) && Signals(wake, SleepingReceivers(pc - {t}))
    ensures var after := Wake(pc - {t}, wake);
            && (SleepingReceivers(after) != {} ==> SleepingReceivers(pc) != {} && |WokenReceivers(after)| >= |WokenReceivers(pc)| + 1)
            && SleepingSenders(after) == SleepingSenders(pc) && |WokenSenders(after)| >= |WokenSenders(pc)| - 1
  {
    LeaveSets(pc, t, wake);
    RemoveSets(pc, t);
    DisjointSets(pc);
    LeaveCounts(SleepingReceivers(pc), WokenReceivers(pc), SleepingSenders(pc), WokenSenders(pc), t, wake);
  }

  /** A receiver completes, or gives up and wakes nobody. */
  lemma ReceiverLeaves<T>(pc: map<Tid, Pc<T>>, t: Tid, wake: set<Tid>)
    requires (t !in pc || pc[t].RecvWoken?) && wake <= SleepingSenders(pc - {t})
    ensures var after := Wake(pc - {t}, wake);
            && (SleepingSenders(after) != {} ==> SleepingSenders(pc - {t}) != {} && SleepingSenders(pc) != {})
            && |WokenSenders(after)| >= |WokenSenders(pc)| + (if wake != {} then 1 else 0)
            && SleepingReceivers(after) == SleepingReceivers(pc) && |WokenReceivers(after)| >= |WokenReceivers(pc)| - 1
  {
    LeaveSets(pc, t, wake);
    RemoveSets(pc, t);
    DisjointSets(pc);
    LeaveCounts(SleepingSenders(pc), WokenSenders(pc), SleepingReceivers(pc), WokenReceivers(pc), t, wake);
  }

  /** Going (back) to sleep leaves the other side alone. */
  lemma FallsAsleep<T>(pc: map<Tid, Pc<T>>, t: Tid, p: Pc<T>)
    requires (p.SendAsleep? && (t !in pc || pc[t].SendWoken?)) || (p.RecvAsleep? && (t !in pc || pc[t].RecvWoken?))
    ensures p.SendAsleep? ==> SleepingReceivers(pc[t := p]) == SleepingReceivers(pc) && WokenReceivers(pc[t := p]) == WokenReceivers(pc)
    ensures p.RecvAsleep? ==> SleepingSenders(pc[t := p]) == SleepingSenders(pc) && WokenSenders(pc[t := p]) == WokenSenders(pc)
  {
  }

  lemma SendPassKeeps<T>(s: State<T>, t: Tid, item: T, wake: set<Tid>)
    requires Invariant(s) && MayPass(s, t, wake, false)
    requires t !in s.pc || s.pc[t].SendWoken?
    ensures Invariant(SendPass(s, t, item, wake))
  {
    if |s.contents| < s.size {
      SenderLeaves(s.pc, t, wake);
    } else {
      FallsAsleep(s.pc, t, SendAsleep(item));
    }
  }

  lemma RecvPassKeeps<T>(s: State<T>, t: Tid, wait: Wait, expired: bool, wake: set<Tid>)
    requires Invariant(s) && MayPass(s, t, wake, true)
    requires t !in s.pc || s.pc[t].RecvWoken?
    ensures Invariant(RecvPass(s, t, wait, expired, wake))
  {
    if s.contents != [] {
      ReceiverLeaves(s.pc, t, wake);
    } else if wait.NoWait? || expired {
      ReceiverLeaves(s.pc, t, {});
      assert Wake(s.pc - {t}, {}) == s.pc - {t};
    } else {
      FallsAsleep(s.pc, t, RecvAsleep(wait.Timed?));
    }
  }

  lemma StepKeepsInvariant<T>(s: State<T>, step: Step<T>)
    requires Invariant(s) && Enabled(s, step)
    ensures Invariant(Apply(s, step))
  {
    match step
    case SendEnter(t, item, wake) => SendPassKeeps(s, t, item, wake);
    case SendResume(t, wake) => SendPassKeeps(s, t, s.pc[t].item, wake);
    case RecvEnter(t, wait, wake) => RecvPassKeeps(s, t, wait, false, wake);
    case RecvResume(t, wake) => RecvPassKeeps(s, t, if s.pc[t].timed then Timed else Forever, s.pc[t].expired, wake);
    case Spurious(t) =>
      WakeSets(s.pc, {t});
      SubsetSize(WokenReceivers(s.pc), WokenReceivers(Wake(s.pc, {t})));
      SubsetSize(WokenSenders(s.pc), WokenSenders(Wake(s.pc, {t})));
    case Timeout(t) => ExpiryKeeps(s, t);
    case LateTimeout(t) => ExpiryKeeps(s, t);
    case Reset => WakeSets(s.pc, s.pc.Keys);
  }

  lemma ExpiryKeeps<T>(s: State<T>, t: Tid)
    requires Invariant(s) && t in s.pc && (s.pc[t].RecvAsleep? || s.pc[t].RecvWoken?)
    ensures Invariant(s.(pc := s.pc[t := RecvWoken(true, true)]))
  {
    var pc := s.pc[t := RecvWoken(true, true)];
    assert SleepingReceivers(pc) == SleepingReceivers(s.pc) - {t};
    assert SleepingSenders(pc) == SleepingSenders(s.pc) && WokenSenders(pc) == WokenSenders(s.pc);
    SubsetSize(WokenReceivers(s.pc), WokenReceivers(pc));
  }

  /** Over every interleaving of senders, receivers, timeouts, spurious wakeups
      and resets: a receiver sleeps only while the woken receivers can take all
      that is queued, a sender only while the woken senders can fill all that is
      free, and what was sent is what was received followed by what is queued. */
  lemma {:induction false} RunKeepsInvariant<T>(s: State<T>, steps: seq<Step<T>>)
    requires Invariant(s) && Legal(s, steps)
    ensures Invariant(Run(s, steps)) && Run(s, steps).size == s.size
    decreases |steps|
  {
    if steps != [] {
      StepKeepsInvariant(s, steps[0]);
      RunKeepsInvariant(Apply(s, steps[0]), steps[1..]);
    }
  }

  /** A queue of at least one slot never deadlocks on itself: when no thread has
      been woken, sleeping receivers mean an empty queue, sleeping senders a full
      one, and so not both. */
  lemma NobodyStranded<T>(size: nat, steps: seq<Step<T>>)
    requires size >= 1 && Legal(Initial(size), steps)
    ensures var s := Run(Initial<T>(size), steps);
            WokenReceivers(s.pc) == {} && WokenSenders(s.pc) == {} ==>
              && (SleepingReceivers(s.pc) != {} ==> s.contents == [] && SleepingSenders(s.pc) == {})
              && (SleepingSenders(s.pc) != {} ==> |s.contents| == size && SleepingReceivers(s.pc) == {})
  {
    RunKeepsInvariant(Initial<T>(size), steps);
  }

  /** What a thread asked for when it last entered, and whether a receiver's wait has
      expired since. */
  datatype Ask<T> = Sending(item: T) | Receiving(wait: Wait, expired: bool)

  function AskedNext<T>(asked: map<Tid, Ask<T>>, step: Step<T>): map<Tid, Ask<T>> {
    match step
    case SendEnter(t, item, _) => asked[t := Sending(item)]
    case RecvEnter(t, wait, _) => asked[t := Receiving(wait, false)]
    case Timeout(t) => if t in asked && asked[t].Receiving? then asked[t := asked[t].(expired := true)] else asked
    case LateTimeout(t) => if t in asked && asked[t].Receiving? then asked[t := asked[t].(expired := true)] else asked
    case _ => asked
  }

  /** By the steps of a run alone. */
  function AskedAfter<T>(asked: map<Tid, Ask<T>>, steps: seq<Step<T>>): map<Tid, Ask<T>>
    decreases |steps|
  {
    if steps == [] then asked else AskedAfter(AskedNext(asked, steps[0]), steps[1..])
  }

  /** A thread inside waits as it asked to. */
  ghost predicate WaitsAsAsked<T>(p: Pc<T>, ask: Ask<T>) {
    match p
    case SendAsleep(item) => ask == Sending(item)
    case SendWoken(item) => ask == Sending(item)
    case RecvAsleep(timed) => ask.Receiving? && !ask.expired && ask.wait == if timed then Timed else Forever
    case RecvWoken(timed, expired) =>
      ask.Receiving? && ask.expired == expired && (expired ==> timed) && ask.wait == if timed then Timed else Forever
  }

  ghost predicate AllAsAsked<T>(pc: map<Tid, Pc<T>>, asked: map<Tid, Ask<T>>) {
    forall t <- pc :: t in asked && WaitsAsAsked(pc[t], asked[t])
  }

  lemma PassAsAsked<T>(pc: map<Tid, Pc<T>>, asked: map<Tid, Ask<T>>, t: Tid, wake: set<Tid>)
    requires forall u <- pc :: u != t ==> u in asked && WaitsAsAsked(pc[u], asked[u])
    ensures AllAsAsked(Wake(pc - {t}, wake), asked)
    ensures forall p: Pc<T> :: t in asked && WaitsAsAsked(p, asked[t]) ==> AllAsAsked(pc[t := p], asked)
  {
  }

  lemma StepAsAsked<T>(s: State<T>, asked: map<Tid, Ask<T>>, step: Step<T>)
    requires AllAsAsked(s.pc, asked) && Enabled(s, step)
    ensures AllAsAsked(Apply(s, step).pc, AskedNext(asked, step))
  {
    var asked' := AskedNext(asked, step);
    match step
    case SendEnter(t, item, wake) => PassAsAsked(s.pc, asked', t, wake);
    case SendResume(t, wake) => PassAsAsked(s.pc, asked', t, wake);
    case RecvEnter(t, wait, wake) =>
      PassAsAsked(s.pc, asked', t, wake);
      PassAsAsked(s.pc, asked', t, {});
    case RecvResume(t, wake) =>
      PassAsAsked(s.pc, asked', t, wake);
      PassAsAsked(s.pc, asked', t, {});
    case Spurious(t) =>
    case Timeout(t) =>
    case LateTimeout(t) =>
    case Reset =>
  }

  lemma {:induction false} RunAsAsked<T>(s: State<T>, asked: map<Tid, Ask<T>>, steps: seq<Step<T>>)
    requires AllAsAsked(s.pc, asked) && Legal(s, steps)
    ensures AllAsAsked(Run(s, steps).pc, AskedAfter(asked, steps))
    decreases |steps|
  {
    if steps != [] {
      StepAsAsked(s, asked, steps[0]);
      RunAsAsked(Apply(s, steps[0]), AskedNext(asked, steps[0]), steps[1..]);
    }
  }

  /** A pass of a thread through the lock, entering or resuming. */
  predicate Passes<T>(step: Step<T>) {
    step.SendEnter? || step.SendResume? || step.RecvEnter? || step.RecvResume?
  }

  /** How a pass ends for a thread that asked for `ask`: a sender leaves exactly when
      there is a free slot, which its own item then takes; a receiver takes the
      oldest item when there is one, and otherwise leaves exactly when it was not
      to wait or its timed wait has expired. */
  ghost predicate EndsAs<T>(s: State<T>, s': State<T>, t: Tid, ask: Ask<T>) {
    match ask
    case Sending(item) =>
      && (t !in s'.pc <==> |s.contents| < s.size)
      && s'.contents == (if |s.contents| < s.size then s.contents + [item] else s.contents)
    case Receiving(wait, expired) =>
      && (t !in s'.pc <==> s.contents != [] || wait.NoWait? || (wait.Timed? && expired))
      && if s.contents == [] then s'.contents == [] && s'.received == s.received
         else [s.contents[0]] + s'.contents == s.contents && s'.received == s.received + [s.contents[0]]
  }

  /** Over every run, by what the steps asked for: so a receiver told to wait for ever
      leaves only with an item, and one told not to wait never sleeps; and a step
      makes nobody leave but the thread that passes. */
  lemma LeaveOnlyServed<T>(size: nat, steps: seq<Step<T>>, step: Step<T>)
    requires Legal(Initial(size), steps) && Enabled(Run(Initial<T>(size), steps), step)
    ensures var s := Run(Initial<T>(size), steps);
            var s', asked := Apply(s, step), AskedNext(AskedAfter(map[], steps), step);
            && (Passes(step) ==> step.t in asked && EndsAs(s, s', step.t, asked[step.t]))
            && (forall t <- s.pc :: t !in s'.pc ==> Passes(step) && step.t == t)
  {
    RunKeepsInvariant(Initial<T>(size), steps);
    RunAsAsked(Initial<T>(size), map[], steps);
    var s := Run(Initial<T>(size), steps);
    if s.contents != [] {
      assert s.contents == [s.contents[0]] + s.contents[1..];
    }
  }

  /** The difference the kind of wait makes: on an empty queue, a timed wait can expire
      and end empty-handed, and one for ever cannot expire. */
  lemma OnlyTimedExpires<T>(size: nat)
    ensures var timed: seq<Step<T>> := [RecvEnter(0, Timed, {}), Timeout(0), RecvResume(0, {})];
            Legal(Initial(size), timed) && 0 !in Run(Initial<T>(size), timed).pc && Run(Initial<T>(size), timed).received == []
    ensures var forever: seq<Step<T>> := [RecvEnter(0, Forever, {}), Timeout(0)];
            !Legal(Initial(size), forever)
  {
    var timed: seq<Step<T>> := [RecvEnter(0, Timed, {}), Timeout(0), RecvResume(0, {})];
    var forever: seq<Step<T>> := [RecvEnter(0, Forever, {}), Timeout(0)];
    var s := Initial<T>(size);
    assert SleepingSenders(s.pc - {0}) == {};
    var s1 := Apply(s, timed[0]);
    var s2 := Apply(s1, timed[1]);
    assert s1.pc == map[0 := RecvAsleep(true)] && s2.pc == map[0 := RecvWoken(true, true)];
    assert SleepingSenders(s2.pc - {0}) == {};
    assert timed[1..][1..] == timed[2..] && timed[2..][1..] == [];
    assert Legal(s2, timed[2..]) && Run(s2, timed[2..]) == Apply(s2, timed[2]);
    assert Legal(s1, timed[1..]) && Run(s1, timed[1..]) == Run(s2, timed[2..]);
    assert Apply(s, forever[0]).pc == map[0 := RecvAsleep(false)] && forever[1..][0] == Timeout(0);
  }

  /** What can happen next, in any state: a thread outside can enter, a woken one
      resume, a sleeping one wake without a signal, a timed one expire, signalled or
      not, and anyone reset. */
  lemma CanGoOn<T>(s: State<T>, t: Tid, item: T, wait: Wait)
    ensures Enabled(s, Step<T>.Reset)
    ensures t !in s.pc ==> exists wake :: Enabled(s, SendEnter(t, item, wake))
    ensures t !in s.pc ==> exists wake :: Enabled(s, Step<T>.RecvEnter(t, wait, wake))
    ensures t in s.pc && s.pc[t].SendWoken? ==> exists wake :: Enabled(s, Step<T>.SendResume(t, wake))
    ensures t in s.pc && s.pc[t].RecvWoken? ==> exists wake :: Enabled(s, Step<T>.RecvResume(t, wake))
    ensures t in s.pc && (s.pc[t].SendAsleep? || s.pc[t].RecvAsleep?) ==> Enabled(s, Step<T>.Spurious(t))
    ensures t in s.pc && s.pc[t] == RecvAsleep(true) ==> Enabled(s, Step<T>.Timeout(t))
    ensures t in s.pc && s.pc[t] == RecvWoken(true, false) ==> Enabled(s, Step<T>.LateTimeout(t))
  {
    var receivers, senders := SleepingReceivers(s.pc - {t}), SleepingSenders(s.pc - {t});
    assert Signals(receivers, receivers) && Signals(senders, senders);
    if t !in s.pc {
      assert Enabled(s, SendEnter(t, item, receivers)) && Enabled(s, Step<T>.RecvEnter(t, wait, senders));
    } else if s.pc[t].SendWoken? {
      assert Enabled(s, Step<T>.SendResume(t, receivers));
    } else if s.pc[t].RecvWoken? {
      assert Enabled(s, Step<T>.RecvResume(t, senders));
    }
  }

  /** A reset empties the queue and leaves everybody inside, and nobody asleep. */
  lemma ResetEmpties<T>(s: State<T>)
    ensures var s' := Apply(s, Step<T>.Reset);
            && s'.contents == [] && s'.sent == [] && s'.received == [] && s'.size == s.size
            && s'.pc.Keys == s.pc.Keys && forall t <- s'.pc :: s'.pc[t].SendWoken? || s'.pc[t].RecvWoken?
  {
  }

  /** A queue of no slots never stores anything: every sender sleeps. */
  lemma NoSlotsNoItems<T>(steps: seq<Step<T>>)
    requires Legal(Initial(0), steps)
    ensures Run(Initial<T>(0), steps).contents == [] && Run(Initial<T>(0), steps).sent == []
  {
    RunKeepsInvariant(Initial<T>(0), steps);
    NothingSent(Initial<T>(0), steps);
  }

  lemma OneItemStored<T>(size: nat, item: T) returns (steps: seq<Step<T>>)
    requires size >= 1
    ensures Legal(Initial<T>(size), steps) && Run(Initial<T>(size), steps).sent == [item]
  {
    var step := SendEnter(0, item, {});
    var s := Initial<T>(size);
    var s' := Apply(s, step);
    assert SleepingReceivers(s.pc - {0}) == {};
    assert Enabled(s, step) && s'.sent == [item];
    steps := [step];
    assert steps[1..] == [] && Legal(s', []) && Run(s', []) == s';
  }

  ghost predicate Stores<T>(size: nat, steps: seq<Step<T>>) {
    Legal(Initial<T>(size), steps) && Run(Initial<T>(size), steps).sent != []
  }

  /** And it is the only one that does not. */
  lemma StoresIffSlots<T>(size: nat, item: T)
    ensures (exists steps: seq<Step<T>> :: Stores(size, steps)) <==> size >= 1
  {
    if size >= 1 {
      var steps := OneItemStored(size, item);
      assert Stores(size, steps);
    } else {
      forall steps: seq<Step<T>>
        ensures !Stores(size, steps)
      {
        if Stores(size, steps) {
          NoSlotsNoItems(steps);
        }
      }
    }
  }

  lemma {:induction false} NothingSent<T>(s: State<T>, steps: seq<Step<T>>)
    requires s.size == 0 && s.contents == [] && s.sent == []
    ensures Run(s, steps).sent == []
    decreases |steps|
  {
    if steps != [] {
      NothingSent(Apply(s, steps[0]), steps[1..]);
    }
  }
}
