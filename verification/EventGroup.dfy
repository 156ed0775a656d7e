/** Event bits with waiting threads (core/posix/event_group.c). */
module EventGroup {

  /** The condition a waiter is after: all of its bits, or any of them. */
  predicate ConditionMet(bits: bv8, wait: bv8, all: bool) {
    if all then bits & wait == wait else bits & wait != 0
  }

  datatype Pass = Took(matched: bv8) | GaveUp(remaining: bv8) | Sleeps

  /** The group under its lock: each method is one pass through the locked region. */
  class Group {
    var bits: bv8

    constructor ()
      ensures bits == 0
    {
      bits := 0;
    }

    method SetBit(eventBit: bv8)
      modifies this
      ensures forall wait, all :: old(ConditionMet(bits, wait, all)) ==> ConditionMet(bits, wait, all)
      ensures bits & eventBit == eventBit && bits & !eventBit == old(bits) & !eventBit
    {
      bits := bits | eventBit;
    }

    method ClearBit(eventBit: bv8)
      modifies this
      ensures forall wait, all :: ConditionMet(bits, wait, all) ==> old(ConditionMet(bits, wait, all))
      ensures bits & eventBit == 0 && bits & !eventBit == old(bits) & !eventBit
    {
      bits := bits & !eventBit;
    }

    /** Nonzero where a wait for any of these bits would not sleep, and whole where
        a wait for all of them would not; but nothing for a mask with the top bit. */
    method GetBit(eventBit: bv8) returns (value: bv8)
      ensures value == GetResult(bits, eventBit)
      ensures value != 0 <==> eventBit & 0x80 == 0 && ConditionMet(bits, eventBit, false)
      ensures eventBit & 0x80 == 0 ==> (value == eventBit <==> ConditionMet(bits, eventBit, true))
    {
      if eventBit & 0x80 != 0 {
        return 0;
      }
      return bits & eventBit;
    }

    method Take(clearBits: bv8)
      modifies this
      ensures bits == old(bits) & !clearBits
    {
      if clearBits != 0 {
        bits := bits & !clearBits;
      }
    }

    /** One round of the loop in event_group_wait. */
    method WaitPass(waitBits: bv8, clearBits: bv8, waitAll: bool, noWait: bool) returns (r: Pass)
      modifies this
      ensures (bits, r) == Check(old(bits), waitBits, clearBits, waitAll, noWait)
    {
      var current := bits;
      var matched := current & waitBits;
      if if waitAll then matched == waitBits else matched != 0 {
        Take(clearBits);
        return Took(matched);
      }
      if noWait {
        return GaveUp(current & waitBits);
      }
      return Sleeps;
    }
  }

  function GetResult(bits: bv8, eventBit: bv8): bv8 {
    if eventBit & 0x80 != 0 then 0 else bits & eventBit
  }

  function Check(bits: bv8, wait: bv8, clear: bv8, all: bool, noWait: bool): (bv8, Pass) {
    if ConditionMet(bits, wait, all) then (bits & !clear, Took(bits & wait))
    else if noWait then (bits, GaveUp(bits & wait))
    else (bits, Sleeps)
  }

  /** Reading back what was just set works exactly for masks without the top bit:
      setting accepts all eight, reading refuses the eighth. */
  lemma GetAfterSet(bits: bv8, eventBit: bv8)
    ensures GetResult(bits | eventBit, eventBit) == eventBit <==> eventBit & 0x80 == 0
  {
  }

  type Tid = nat

  datatype Phase = Asleep | Woken | Expired

  /** A thread inside event_group_wait. */
  datatype Waiter = Waiter(wait: bv8, clear: bv8, all: bool, phase: Phase)

  /** What has happened: sets, and returns from wait with and without the condition. */
  datatype Event = WasSet(b: bv8) | Returned(t: Tid, how: Pass)

  datatype State = State(bits: bv8, waiters: map<Tid, Waiter>, log: seq<Event>)

  datatype Step =
    | SetBit(b: bv8)
    | ClearBit(b: bv8)
    | Enter(t: Tid, wait: bv8, clear: bv8, all: bool, noWait: bool)
    | Resume(t: Tid)
    | Spurious(t: Tid)
    | Timeout(t: Tid) // also of a thread the broadcast has woken already

  function WakeAll(waiters: map<Tid, Waiter>): map<Tid, Waiter> {
    map t | t in waiters :: if waiters[t].phase.Asleep? then waiters[t].(phase := Woken) else waiters[t]
  }

  predicate Enabled(s: State, step: Step) {
    match step
    case SetBit(_) => true
    case ClearBit(_) => true
    case Enter(t, _, _, _, _) => t !in s.waiters
    case Resume(t) => t in s.waiters && !s.waiters[t].phase.Asleep?
    case Spurious(t) => t in s.waiters && s.waiters[t].phase.Asleep?
    case Timeout(t) => t in s.waiters && !s.waiters[t].phase.Expired?
  }

  /** A pass of thread `t`, entering or resuming. */
  function Round(s: State, t: Tid, w: Waiter, noWait: bool): State {
    match Check(s.bits, w.wait, w.clear, w.all, noWait)
    case (_, Sleeps) => s.(waiters := s.waiters[t := w.(phase := Asleep)])
    case (bits, how) => State(bits, s.waiters - {t}, s.log + [Returned(t, how)])
  }

  function Apply(s: State, step: Step): State {
    match step
    case SetBit(b) => State(s.bits | b, WakeAll(s.waiters), s.log + [WasSet(b)])
    case ClearBit(b) => s.(bits := s.bits & !b)
    case Enter(t, wait, clear, all, noWait) => Round(s, t, Waiter(wait, clear, all, Woken), noWait)
    case Resume(t) =>
      if t !in s.waiters then s
      else if s.waiters[t].phase.Expired? then
        // the condition is not looked at again, and nothing is cleared
        s.(waiters := s.waiters - {t}, log := s.log + [Returned(t, GaveUp(s.bits & s.waiters[t].wait))])
      else Round(s, t, s.waiters[t], false)
    case Spurious(t) => if t in s.waiters then s.(waiters := s.waiters[t := s.waiters[t].(phase := Woken)]) else s
    case Timeout(t) => if t in s.waiters then s.(waiters := s.waiters[t := s.waiters[t].(phase := Expired)]) else s
  }

  ghost predicate Legal(s: State, steps: seq<Step>)
    decreases |steps|
  {
    steps != [] ==> Enabled(s, steps[0]) && Legal(Apply(s, steps[0]), steps[1..])
  }

  function Run(s: State, steps: seq<Step>): State
    decreases |steps|
  {
    if steps == [] then s else Run(Apply(s, steps[0]), steps[1..])
  }

  const INITIAL := State(0, map[], [])

  predicate Unmet(bits: bv8, w: Waiter) {
    w.phase.Asleep? ==> !ConditionMet(bits, w.wait, w.all)
  }

  /** Nobody sleeps on a condition that holds. */
  ghost predicate SleepersUnmet(bits: bv8, waiters: map<Tid, Waiter>) {
    forall t <- waiters :: Unmet(bits, waiters[t])
  }

  /** Clearing bits makes no condition true. */
  lemma ClearKeepsAll(bits: bv8, clear: bv8, waiters: map<Tid, Waiter>)
    requires SleepersUnmet(bits, waiters)
    ensures SleepersUnmet(bits & !clear, waiters)
  {
  }

  lemma LeavingKeepsUnmet(bits: bv8, waiters: map<Tid, Waiter>, t: Tid)
    requires SleepersUnmet(bits, waiters)
    ensures SleepersUnmet(bits, waiters - {t})
  {
  }

  lemma JoiningKeepsUnmet(bits: bv8, waiters: map<Tid, Waiter>, t: Tid, w: Waiter)
    requires SleepersUnmet(bits, waiters) && Unmet(bits, w)
    ensures SleepersUnmet(bits, waiters[t := w])
  {
  }

  lemma RoundKeepsSleepersUnmet(s: State, t: Tid, w: Waiter, noWait: bool)
    requires SleepersUnmet(s.bits, s.waiters)
    ensures var s' := Round(s, t, w, noWait); SleepersUnmet(s'.bits, s'.waiters)
  {
    LeavingKeepsUnmet(s.bits, s.waiters, t);
    if ConditionMet(s.bits, w.wait, w.all) {
      ClearKeepsAll(s.bits, w.clear, s.waiters - {t});
    } else {
      JoiningKeepsUnmet(s.bits, s.waiters, t, w.(phase := Asleep));
    }
  }

  lemma StepKeepsSleepersUnmet(s: State, step: Step)
    requires SleepersUnmet(s.bits, s.waiters) && Enabled(s, step)
    ensures var s' := Apply(s, step); SleepersUnmet(s'.bits, s'.waiters)
  {
    match step
    case SetBit(b) => SetKeepsUnmet(s, b);
    case ClearBit(b) => ClearKeepsAll(s.bits, b, s.waiters);
    case Enter(t, wait, clear, all, noWait) =>
      RoundKeepsSleepersUnmet(s, t, Waiter(wait, clear, all, Woken), noWait);
    case Resume(t) =>
      if s.waiters[t].phase.Expired? {
        LeavingKeepsUnmet(s.bits, s.waiters, t);
      } else {
        RoundKeepsSleepersUnmet(s, t, s.waiters[t], false);
      }
    case Spurious(t) => JoiningKeepsUnmet(s.bits, s.waiters, t, s.waiters[t].(phase := Woken));
    case Timeout(t) => JoiningKeepsUnmet(s.bits, s.waiters, t, s.waiters[t].(phase := Expired));
  }

  lemma SetKeepsUnmet(s: State, b: bv8)
    ensures var s' := Apply(s, SetBit(b)); SleepersUnmet(s'.bits, s'.waiters)
  {
    var woken := WakeAll(s.waiters);
    assert forall t <- woken :: !woken[t].phase.Asleep?;
  }

  /** Over every interleaving of sets, clears, waits, spurious wakeups and
      timeouts, a sleeping waiter's condition is false. */
  lemma {:induction false} NoMissedWakeup(s: State, steps: seq<Step>)
    requires SleepersUnmet(s.bits, s.waiters) && Legal(s, steps)
    ensures var s' := Run(s, steps); SleepersUnmet(s'.bits, s'.waiters)
    decreases |steps|
  {
    if steps != [] {
      StepKeepsSleepersUnmet(s, steps[0]);
      NoMissedWakeup(Apply(s, steps[0]), steps[1..]);
    }
  }

  // What a wait returns.

  /** What a thread asked for when it last entered, and whether its wait has expired since. */
  datatype Ask = Ask(wait: bv8, clear: bv8, all: bool, noWait: bool, expired: bool)

  function AskedNext(asked: map<Tid, Ask>, step: Step): map<Tid, Ask> {
    match step
    case Enter(t, wait, clear, all, noWait) => asked[t := Ask(wait, clear, all, noWait, false)]
    case Timeout(t) => if t in asked then asked[t := asked[t].(expired := true)] else asked
    case _ => asked
  }

  /** By the steps of a run alone. */
  function AskedAfter(asked: map<Tid, Ask>, steps: seq<Step>): map<Tid, Ask>
    decreases |steps|
  {
    if steps == [] then asked else AskedAfter(AskedNext(asked, steps[0]), steps[1..])
  }

  /** A thread inside waits as it asked to. */
  predicate WaitsAsAsked(w: Waiter, ask: Ask) {
    w.wait == ask.wait && w.clear == ask.clear && w.all == ask.all && !ask.noWait && (w.phase.Expired? <==> ask.expired)
  }

  ghost predicate AllAsAsked(waiters: map<Tid, Waiter>, asked: map<Tid, Ask>) {
    forall t <- waiters :: t in asked && WaitsAsAsked(waiters[t], asked[t])
  }

  lemma PassAsAsked(waiters: map<Tid, Waiter>, asked: map<Tid, Ask>, t: Tid, w: Waiter)
    requires forall u <- waiters :: u != t ==> u in asked && WaitsAsAsked(waiters[u], asked[u])
    ensures AllAsAsked(waiters - {t}, asked)
    ensures t in asked && WaitsAsAsked(w, asked[t]) ==> AllAsAsked(waiters[t := w], asked)
  {
  }

  lemma RoundAsAsked(s: State, asked: map<Tid, Ask>, t: Tid, w: Waiter, noWait: bool)
    requires forall u <- s.waiters :: u != t ==> u in asked && WaitsAsAsked(s.waiters[u], asked[u])
    requires t in asked && asked[t] == Ask(w.wait, w.clear, w.all, noWait, false)
    ensures AllAsAsked(Round(s, t, w, noWait).waiters, asked)
  {
    PassAsAsked(s.waiters, asked, t, w.(phase := Asleep));
  }

  lemma StepAsAsked(s: State, asked: map<Tid, Ask>, step: Step)
    requires AllAsAsked(s.waiters, asked) && Enabled(s, step)
    ensures AllAsAsked(Apply(s, step).waiters, AskedNext(asked, step))
  {
    var asked' := AskedNext(asked, step);
    match step
    case SetBit(b) =>
    case ClearBit(b) =>
    case Enter(t, wait, clear, all, noWait) => RoundAsAsked(s, asked', t, Waiter(wait, clear, all, Woken), noWait);
    case Resume(t) =>
      if s.waiters[t].phase.Expired? {
        PassAsAsked(s.waiters, asked, t, s.waiters[t]);
      } else {
        RoundAsAsked(s, asked, t, s.waiters[t], false);
      }
    case Spurious(t) => PassAsAsked(s.waiters, asked, t, s.waiters[t].(phase := Woken));
    case Timeout(t) => PassAsAsked(s.waiters, asked', t, s.waiters[t].(phase := Expired));
  }

  lemma {:induction false} RunAsAsked(s: State, asked: map<Tid, Ask>, steps: seq<Step>)
    requires AllAsAsked(s.waiters, asked) && Legal(s, steps)
    ensures AllAsAsked(Run(s, steps).waiters, AskedAfter(asked, steps))
    decreases |steps|
  {
    if steps != [] {
      StepAsAsked(s, asked, steps[0]);
      RunAsAsked(Apply(s, steps[0]), AskedNext(asked, steps[0]), steps[1..]);
    }
  }

  /** How a pass ends for a thread that asked for `ask`: after an expiry it returns
      its bits as they are; with its condition met it returns them and clears just
      what it was to clear; otherwise it returns if it was not to wait, and sleeps
      if it was, and changes no bit. */
  predicate EndsAs(s: State, s': State, t: Tid, ask: Ask) {
    var matched := s.bits & ask.wait;
    if !ask.expired && (if ask.all then matched == ask.wait else matched != 0) then
      t !in s'.waiters && s'.bits == s.bits & !ask.clear && s'.log == s.log + [Returned(t, Took(matched))]
    else
      && s'.bits == s.bits
      && if ask.expired || ask.noWait then t !in s'.waiters && s'.log == s.log + [Returned(t, GaveUp(matched))]
         else t in s'.waiters && s'.waiters[t].phase.Asleep? && s'.log == s.log
  }

  predicate Passes(step: Step) {
    step.Enter? || step.Resume?
  }

  lemma CheckWhenMet(bits: bv8, wait: bv8, clear: bv8, all: bool, noWait: bool)
    requires if all then bits & wait == wait else bits & wait != 0
    ensures Check(bits, wait, clear, all, noWait) == (bits & !clear, Took(bits & wait))
  {
  }

  lemma RoundWhenMet(s: State, t: Tid, w: Waiter, noWait: bool)
    requires if w.all then s.bits & w.wait == w.wait else s.bits & w.wait != 0
    ensures Round(s, t, w, noWait) == State(s.bits & !w.clear, s.waiters - {t}, s.log + [Returned(t, Took(s.bits & w.wait))])
  {
    CheckWhenMet(s.bits, w.wait, w.clear, w.all, noWait);
  }

  lemma RoundWhenUnmet(s: State, t: Tid, w: Waiter, noWait: bool)
    requires if w.all then s.bits & w.wait != w.wait else s.bits & w.wait == 0
    ensures Round(s, t, w, noWait)
         == if noWait then State(s.bits, s.waiters - {t}, s.log + [Returned(t, GaveUp(s.bits & w.wait))])
            else s.(waiters := s.waiters[t := w.(phase := Asleep)])
  {
  }

  lemma MetEndsAs(s: State, t: Tid, w: Waiter, noWait: bool)
    requires if w.all then s.bits & w.wait == w.wait else s.bits & w.wait != 0
    ensures EndsAs(s, Round(s, t, w, noWait), t, Ask(w.wait, w.clear, w.all, noWait, false))
  {
    RoundWhenMet(s, t, w, noWait);
  }

  lemma UnmetEndsAs(s: State, t: Tid, w: Waiter, noWait: bool)
    requires if w.all then s.bits & w.wait != w.wait else s.bits & w.wait == 0
    ensures EndsAs(s, Round(s, t, w, noWait), t, Ask(w.wait, w.clear, w.all, noWait, false))
  {
    RoundWhenUnmet(s, t, w, noWait);
  }

  lemma RoundEndsAs(s: State, t: Tid, w: Waiter, noWait: bool)
    ensures EndsAs(s, Round(s, t, w, noWait), t, Ask(w.wait, w.clear, w.all, noWait, false))
  {
    if if w.all then s.bits & w.wait == w.wait else s.bits & w.wait != 0 {
      MetEndsAs(s, t, w, noWait);
    } else {
      UnmetEndsAs(s, t, w, noWait);
    }
  }

  lemma RoundKeepsOthers(s: State, t: Tid, w: Waiter, noWait: bool)
    ensures forall u <- s.waiters :: u != t ==> u in Round(s, t, w, noWait).waiters
  {
  }

  lemma ExpiryEndsAs(s: State, t: Tid, ask: Ask)
    requires t in s.waiters && s.waiters[t].phase.Expired? && ask.expired && ask.wait == s.waiters[t].wait
    ensures EndsAs(s, Apply(s, Resume(t)), t, ask)
  {
  }

  lemma PassEndsAs(s: State, asked: map<Tid, Ask>, step: Step)
    requires AllAsAsked(s.waiters, asked) && Enabled(s, step) && Passes(step)
    ensures step.t in AskedNext(asked, step) && EndsAs(s, Apply(s, step), step.t, AskedNext(asked, step)[step.t])
  {
    match step
    case Enter(t, wait, clear, all, noWait) => RoundEndsAs(s, t, Waiter(wait, clear, all, Woken), noWait);
    case Resume(t) =>
      if s.waiters[t].phase.Expired? {
        ExpiryEndsAs(s, t, asked[t]);
      } else {
        RoundEndsAs(s, t, s.waiters[t], false);
      }
  }

  lemma OthersStay(s: State, step: Step, t: Tid)
    requires t in s.waiters && t !in Apply(s, step).waiters
    ensures Passes(step) && step.t == t
  {
    match step
    case Enter(u, wait, clear, all, noWait) => RoundKeepsOthers(s, u, Waiter(wait, clear, all, Woken), noWait);
    case Resume(u) =>
      if u in s.waiters && !s.waiters[u].phase.Expired? {
        RoundKeepsOthers(s, u, s.waiters[u], false);
      }
    case _ =>
  }

  /** Over every run, by what the steps asked for; and a step makes nobody leave but
      the thread that passes. */
  lemma WaitEndsAsAsked(steps: seq<Step>, step: Step)
    requires Legal(INITIAL, steps) && Enabled(Run(INITIAL, steps), step)
    ensures var s := Run(INITIAL, steps);
            var s', asked := Apply(s, step), AskedNext(AskedAfter(map[], steps), step);
            && (Passes(step) ==> step.t in asked && EndsAs(s, s', step.t, asked[step.t]))
            && (forall t <- s.waiters :: t !in s'.waiters ==> Passes(step) && step.t == t)
  {
    RunAsAsked(INITIAL, map[], steps);
    var s := Run(INITIAL, steps);
    if Passes(step) {
      PassEndsAs(s, AskedAfter(map[], steps), step);
    }
    forall t | t in s.waiters && t !in Apply(s, step).waiters
      ensures Passes(step) && step.t == t
    {
      OthersStay(s, step, t);
    }
  }

  /** Setting sets just those bits, ... */
  lemma SetSets(s: State, b: bv8)
    ensures Apply(s, SetBit(b)).bits & b == b && Apply(s, SetBit(b)).bits & !b == s.bits & !b
  {
  }

  /** ... and leaves everybody inside and nobody asleep; ... */
  lemma SetWakes(s: State, b: bv8)
    ensures var s' := Apply(s, SetBit(b));
            && s'.log == s.log + [WasSet(b)]
            && s'.waiters.Keys == s.waiters.Keys && forall t <- s'.waiters :: !s'.waiters[t].phase.Asleep?
  {
  }

  /** ... clearing clears just those. */
  lemma ClearClears(s: State, b: bv8)
    ensures Apply(s, ClearBit(b)).bits & b == 0 && Apply(s, ClearBit(b)).bits & !b == s.bits & !b
    ensures Apply(s, ClearBit(b)).log == s.log && Apply(s, ClearBit(b)).waiters == s.waiters
  {
    assert (s.bits & !b) & b == 0;
    assert (s.bits & !b) & !b == s.bits & !b;
  }

  /** What can happen next, in any state. */
  lemma CanGoOn(s: State, t: Tid, wait: bv8, clear: bv8, all: bool, noWait: bool)
    ensures Enabled(s, SetBit(wait)) && Enabled(s, ClearBit(wait))
    ensures t !in s.waiters ==> Enabled(s, Enter(t, wait, clear, all, noWait))
    ensures t in s.waiters && !s.waiters[t].phase.Asleep? ==> Enabled(s, Resume(t))
    ensures t in s.waiters && s.waiters[t].phase.Asleep? ==> Enabled(s, Spurious(t)) && Enabled(s, Timeout(t))
    ensures t in s.waiters && s.waiters[t].phase.Woken? ==> Enabled(s, Timeout(t))
  {
  }

  // One bit used as a token: every waiter on it waits for just it and clears it.

  predicate SingleBit(b: bv8) {
    b != 0 && b & (b - 1) == 0
  }

  predicate UsesAsToken(b: bv8, wait: bv8, clear: bv8) {
    wait & b != 0 ==> wait == b && clear & b == b
  }

  predicate TokenStep(b: bv8, step: Step) {
    step.Enter? ==> UsesAsToken(b, step.wait, step.clear)
  }

  function Sets(log: seq<Event>, b: bv8): nat {
    if log == [] then 0
    else Sets(log[..|log| - 1], b) + (if log[|log| - 1].WasSet? && log[|log| - 1].b & b != 0 then 1 else 0)
  }

  predicate TookBit(e: Event, b: bv8) {
    e.Returned? && e.how.Took? && e.how.matched & b != 0
  }

  function Takes(log: seq<Event>, b: bv8): nat {
    if log == [] then 0
    else Takes(log[..|log| - 1], b) + (if TookBit(log[|log| - 1], b) then 1 else 0)
  }

  /** The tokens handed out and the one in the group were all put in by a set. */
  ghost predicate TokensConserved(s: State, b: bv8) {
    && Takes(s.log, b) + (if s.bits & b != 0 then 1 else 0) <= Sets(s.log, b)
    && forall t <- s.waiters :: UsesAsToken(b, s.waiters[t].wait, s.waiters[t].clear)
  }

  lemma RoundKeepsTokens(s: State, t: Tid, w: Waiter, noWait: bool, b: bv8)
    requires SingleBit(b) && TokensConserved(s, b) && UsesAsToken(b, w.wait, w.clear)
    ensures TokensConserved(Round(s, t, w, noWait), b)
  {
    var s' := Round(s, t, w, noWait);
    if s'.log != s.log {
      assert s'.log[..|s.log|] == s.log;
      assert (s.bits & !w.clear) & b != 0 ==> s.bits & b != 0;
      if TookBit(s'.log[|s.log|], b) {
        assert s.bits & w.wait & b != 0 ==> w.wait & b != 0 && s.bits & b != 0;
        assert w.clear & b == b ==> (s.bits & !w.clear) & b == 0;
      }
    }
  }

  lemma SetKeepsTokens(s: State, x: bv8, b: bv8)
    requires TokensConserved(s, b)
    ensures TokensConserved(Apply(s, SetBit(x)), b)
  {
  }

  lemma ExpiryKeepsTokens(s: State, t: Tid, b: bv8)
    requires TokensConserved(s, b) && t in s.waiters && s.waiters[t].phase.Expired?
    ensures TokensConserved(Apply(s, Resume(t)), b)
  {
  }

  lemma StepKeepsTokens(s: State, step: Step, b: bv8)
    requires SingleBit(b) && TokensConserved(s, b) && TokenStep(b, step)
    ensures TokensConserved(Apply(s, step), b)
  {
    match step
    case SetBit(x) => SetKeepsTokens(s, x, b);
    case ClearBit(x) =>
      assert (s.bits & !x) & b != 0 ==> s.bits & b != 0;
    case Enter(t, wait, clear, all, noWait) =>
      RoundKeepsTokens(s, t, Waiter(wait, clear, all, Woken), noWait, b);
    case Resume(t) =>
      if t in s.waiters {
        if s.waiters[t].phase.Expired? {
          ExpiryKeepsTokens(s, t, b);
        } else {
          RoundKeepsTokens(s, t, s.waiters[t], false, b);
        }
      }
    case Spurious(t) =>
    case Timeout(t) =>
  }

  /** One set releases at most one clearing waiter. */
  lemma {:induction false} TokensNeverMultiply(s: State, steps: seq<Step>, b: bv8)
    requires SingleBit(b) && TokensConserved(s, b) && forall step <- steps :: TokenStep(b, step)
    ensures TokensConserved(Run(s, steps), b)
    decreases |steps|
  {
    if steps != [] {
      StepKeepsTokens(s, steps[0], b);
      TokensNeverMultiply(Apply(s, steps[0]), steps[1..], b);
    }
  }

  predicate LeftUntaken(events: seq<Event>, b: bv8) {
    events != [] && events[0].Returned? && events[0].how.GaveUp? && events[0].how.remaining & b != 0
  }

  /** The other nonzero returns: a waiter on the token comes back with it untaken
      exactly when it had timed out and the bit is set by the time it looks. */
  lemma UntakenOnlyOnExpiry(s: State, step: Step, b: bv8)
    requires SingleBit(b) && TokensConserved(s, b) && TokenStep(b, step) && Enabled(s, step)
    ensures LeftUntaken(Apply(s, step).log[|s.log|..], b) <==>
              step.Resume? && s.waiters[step.t].phase.Expired? && s.waiters[step.t].wait & b != 0 && s.bits & b != 0
  {
  }

  /** The returned value does not tell the two exits apart: a wait that times out
      while a set is coming in returns the bit without clearing it, and the next
      waiter gets it too.  One set, two nonzero returns. */
  lemma TimeoutReturnsUntakenBit()
    ensures var steps := [Enter(1, 1, 1, false, false), Timeout(1), SetBit(1), Resume(1), Enter(2, 1, 1, false, false)];
            && Legal(INITIAL, steps)
            && Run(INITIAL, steps).log == [WasSet(1), Returned(1, GaveUp(1)), Returned(2, Took(1))]
  {
  }
}
