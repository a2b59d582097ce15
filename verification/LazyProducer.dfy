/**
 The dead-letter producers' lazy connection, shared by any number of concurrent publishes. The code
 between two awaits runs undivided, so a step is one such segment, or the client library settling
 what was awaited; nothing is assumed about the order in which they happen.
 */
module LazyProducer {
  import opened Common
  import opened Sums

  /** One `producer.connect()` and the two callbacks chained to it; `Finished` once both have run. */
  datatype Stage = Outstanding | Resolved | Rejected | Adopted | Finished(ok: bool)

  /** Where one `publish` call is: awaiting an attempt, about to test the field, sending, settled. */
  datatype Phase = Waiting(attempt: nat) | Ready | Sending(attempt: nat) | Settled(ok: bool)

  /** What happens to a client producer, named by the attempt that connects it. */
  datatype Event = Adopt(attempt: nat) | Send(attempt: nat) | Disconnect(attempt: nat)

  /** The two fields, and around them every attempt, every call, and the history. */
  datatype State = State(
    producer: Option<nat>,
    connecting: Option<nat>,
    attempts: seq<Stage>,
    publishers: seq<Phase>,
    trace: seq<Event>)

  datatype Step =
    | Call
    | ConnectSettles(a: nat, ok: bool)
    | Then(a: nat)
    | Finally(a: nat)
    | Wake(p: nat)
    | Resume(p: nat)
    | SendSettles(p: nat, ok: bool)
    | Destroy

  const FRESH: State := State(None, None, [], [], [])

  predicate Enabled(s: State, step: Step) {
    match step
    case Call => true
    case ConnectSettles(a, _) => a < |s.attempts| && s.attempts[a] == Outstanding
    case Then(a) => a < |s.attempts| && s.attempts[a] == Resolved
    case Finally(a) => a < |s.attempts| && s.attempts[a] in {Adopted, Rejected}
    case Wake(p) =>
      p < |s.publishers| && s.publishers[p].Waiting?
      && s.publishers[p].attempt < |s.attempts| && s.attempts[s.publishers[p].attempt].Finished?
    case Resume(p) => p < |s.publishers| && s.publishers[p] == Ready
    case SendSettles(p, _) => p < |s.publishers| && s.publishers[p].Sending?
    case Destroy => true
  }

  function Next(s: State, step: Step): State
    requires Enabled(s, step)
  {
    match step
    case Call =>
      if s.producer.Some? then s.(publishers := s.publishers + [Ready])
      else if s.connecting.Some? then s.(publishers := s.publishers + [Waiting(s.connecting.value)])
      else s.(connecting := Some(|s.attempts|), attempts := s.attempts + [Outstanding],
              publishers := s.publishers + [Waiting(|s.attempts|)])
    case ConnectSettles(a, ok) => s.(attempts := s.attempts[a := if ok then Resolved else Rejected])
    case Then(a) =>
      s.(producer := Some(a), attempts := s.attempts[a := Adopted], trace := s.trace + [Adopt(a)])
    case Finally(a) =>
      s.(connecting := None, attempts := s.attempts[a := Finished(s.attempts[a] == Adopted)])
    case Wake(p) =>
      s.(publishers := s.publishers[p :=
        if s.attempts[s.publishers[p].attempt].ok then Ready else Settled(false)])
    case Resume(p) =>
      if s.producer.None? then s.(publishers := s.publishers[p := Settled(false)])
      else s.(publishers := s.publishers[p := Sending(s.producer.value)],
              trace := s.trace + [Send(s.producer.value)])
    case SendSettles(p, ok) => s.(publishers := s.publishers[p := Settled(ok)])
    case Destroy =>
      if s.producer.None? then s
      else s.(producer := None, trace := s.trace + [Disconnect(s.producer.value)])
  }

  predicate Feasible(s: State, steps: seq<Step>)
    decreases |steps|, 0
  {
    steps == [] ||
    (Feasible(s, steps[..|steps| - 1]) && Enabled(After(s, steps[..|steps| - 1]), steps[|steps| - 1]))
  }

  function After(s: State, steps: seq<Step>): State
    requires Feasible(s, steps)
    decreases |steps|, 1
  {
    if steps == [] then s else Next(After(s, steps[..|steps| - 1]), steps[|steps| - 1])
  }

  // --- The invariant -------------------------------------------------------------------------------

  predicate InFlight(s: State, a: nat) {
    a < |s.attempts| && !s.attempts[a].Finished?
  }

  predicate Succeeded(s: State, a: nat) {
    a < |s.attempts| && s.attempts[a] in {Adopted, Finished(true)}
  }

  /** `connecting` is the one attempt in flight; until it is adopted there is no producer. */
  ghost predicate ConnectingOk(s: State) {
    && (s.connecting.Some? ==> InFlight(s, s.connecting.value))
    && (forall a: nat :: InFlight(s, a) ==> s.connecting == Some(a))
    && (s.connecting.Some? && s.attempts[s.connecting.value] != Adopted ==> s.producer == None)
  }

  ghost predicate PublishersOk(s: State) {
    forall p :: 0 <= p < |s.publishers| ==>
      match s.publishers[p]
      case Waiting(a) => a < |s.attempts|
      case Sending(a) => Succeeded(s, a)
      case _ => true
  }

  /** The producer is the one adopted and not yet disconnected; no other is in that position. */
  ghost predicate TraceOk(s: State) {
    && (forall a: nat :: Adopt(a) in s.trace <==> Succeeded(s, a))
    && (forall a: nat :: Disconnect(a) in s.trace ==> Adopt(a) in s.trace)
    && (forall a: nat :: s.producer == Some(a) <==> Adopt(a) in s.trace && Disconnect(a) !in s.trace)
  }

  /** A producer is sent through only between its adoption and its disconnection. */
  ghost predicate SendsConnected(trace: seq<Event>) {
    forall j :: 0 <= j < |trace| && trace[j].Send? ==>
      Adopt(trace[j].attempt) in trace[..j] && Disconnect(trace[j].attempt) !in trace[..j]
  }

  ghost predicate Invariant(s: State) {
    ConnectingOk(s) && PublishersOk(s) && TraceOk(s) && SendsConnected(s.trace)
  }

  lemma StepInFlight(s: State, step: Step, a: nat)
    requires Invariant(s) && Enabled(s, step) && InFlight(Next(s, step), a)
    ensures Next(s, step).connecting == Some(a)
  {
    var s' := Next(s, step);
    if a < |s.attempts| {
      assert InFlight(s, a);
    }
    if step.Finally? {
      assert InFlight(s, step.a);
    }
  }

  lemma StepConnecting(s: State, step: Step)
    requires Invariant(s) && Enabled(s, step)
    ensures ConnectingOk(Next(s, step))
  {
    var s' := Next(s, step);
    forall a: nat | InFlight(s', a)
      ensures s'.connecting == Some(a)
    {
      StepInFlight(s, step, a);
    }
    if step.Finally? || step.Then? || step.ConnectSettles? { assert InFlight(s, step.a); }
  }

  lemma StepPublishers(s: State, step: Step)
    requires Invariant(s) && Enabled(s, step)
    ensures PublishersOk(Next(s, step))
  {
    var s' := Next(s, step);
    assert forall a: nat :: Succeeded(s, a) ==> Succeeded(s', a);
  }

  lemma StepTrace(s: State, step: Step)
    requires Invariant(s) && Enabled(s, step)
    ensures TraceOk(Next(s, step))
  {
    var s' := Next(s, step);
    if step.Then? { assert InFlight(s, step.a) && !Succeeded(s, step.a); }
    assert forall a: nat :: Succeeded(s', a) <==> Succeeded(s, a) || (step.Then? && step.a == a);
    assert s.trace <= s'.trace;
  }

  lemma SendsAppend(trace: seq<Event>, e: Event)
    requires SendsConnected(trace)
    requires e.Send? ==> Adopt(e.attempt) in trace && Disconnect(e.attempt) !in trace
    ensures SendsConnected(trace + [e])
  {
    var longer := trace + [e];
    forall j | 0 <= j < |longer| && longer[j].Send?
      ensures Adopt(longer[j].attempt) in longer[..j] && Disconnect(longer[j].attempt) !in longer[..j]
    {
      assert longer[..j] == trace[..j];
      assert trace[..|trace|] == trace;
    }
  }

  lemma StepInvariant(s: State, step: Step)
    requires Invariant(s) && Enabled(s, step)
    ensures Invariant(Next(s, step))
  {
    StepConnecting(s, step);
    StepPublishers(s, step);
    StepTrace(s, step);
    var s' := Next(s, step);
    if s'.trace != s.trace {
      SendsAppend(s.trace, s'.trace[|s.trace|]);
    }
  }

  lemma FreshInvariant()
    ensures Invariant(FRESH)
  {
  }

  lemma {:induction false} RunInvariant(s: State, steps: seq<Step>)
    requires Invariant(s) && Feasible(s, steps)
    ensures Invariant(After(s, steps))
  {
    if steps == [] {
    } else {
      RunInvariant(s, steps[..|steps| - 1]);
      StepInvariant(After(s, steps[..|steps| - 1]), steps[|steps| - 1]);
    }
  }

  // --- Safety --------------------------------------------------------------------------------------

  function Adoptions(trace: seq<Event>): nat {
    if trace == [] then 0
    else Adoptions(trace[..|trace| - 1]) + (if trace[|trace| - 1].Adopt? then 1 else 0)
  }

  function Disconnections(trace: seq<Event>): nat {
    if trace == [] then 0
    else Disconnections(trace[..|trace| - 1]) + (if trace[|trace| - 1].Disconnect? then 1 else 0)
  }

  function Destroys(steps: seq<Step>): nat {
    if steps == [] then 0
    else Destroys(steps[..|steps| - 1]) + (if steps[|steps| - 1].Destroy? then 1 else 0)
  }

  /** Every adopted producer is the current one or was handed to `disconnect`: none is overwritten. */
  ghost predicate Conserved(s: State) {
    Adoptions(s.trace) == Disconnections(s.trace) + (if s.producer.Some? then 1 else 0)
  }

  lemma CountsAppend(trace: seq<Event>, e: Event)
    ensures Adoptions(trace + [e]) == Adoptions(trace) + (if e.Adopt? then 1 else 0)
    ensures Disconnections(trace + [e]) == Disconnections(trace) + (if e.Disconnect? then 1 else 0)
  {
    assert (trace + [e])[..|trace|] == trace;
  }

  lemma ConservedThen(s: State, a: nat)
    requires Invariant(s) && Conserved(s) && Enabled(s, Then(a))
    ensures Conserved(Next(s, Then(a))) && Disconnections(Next(s, Then(a)).trace) == Disconnections(s.trace)
  {
    assert InFlight(s, a);
    CountsAppend(s.trace, Adopt(a));
  }

  lemma ConservedDestroy(s: State)
    requires Conserved(s)
    ensures Conserved(Next(s, Destroy)) && Disconnections(Next(s, Destroy).trace) <= Disconnections(s.trace) + 1
  {
    if s.producer.Some? { CountsAppend(s.trace, Disconnect(s.producer.value)); }
  }

  lemma ConservedOther(s: State, step: Step)
    requires Conserved(s) && Enabled(s, step) && !step.Then? && !step.Destroy?
    ensures Conserved(Next(s, step)) && Disconnections(Next(s, step).trace) == Disconnections(s.trace)
  {
    if step.Resume? && s.producer.Some? { CountsAppend(s.trace, Send(s.producer.value)); }
  }

  lemma ConservedStep(s: State, step: Step)
    requires Invariant(s) && Conserved(s) && Enabled(s, step)
    ensures Conserved(Next(s, step))
    ensures Disconnections(Next(s, step).trace)
         <= Disconnections(s.trace) + (if step.Destroy? then 1 else 0)
  {
    match step
    case Then(a) => ConservedThen(s, a);
    case Destroy => ConservedDestroy(s);
    case _ => ConservedOther(s, step);
  }

  lemma {:induction false} ConservedRun(steps: seq<Step>)
    requires Feasible(FRESH, steps)
    ensures Invariant(After(FRESH, steps)) && Conserved(After(FRESH, steps))
    ensures Disconnections(After(FRESH, steps).trace) <= Destroys(steps)
  {
    FreshInvariant();
    if steps == [] {
    } else {
      var front := steps[..|steps| - 1];
      ConservedRun(front);
      StepInvariant(After(FRESH, front), steps[|steps| - 1]);
      ConservedStep(After(FRESH, front), steps[|steps| - 1]);
    }
  }

  /**
   Under any interleaving: attempts never overlap, `connecting` is the one in flight; without a
   destroy at most one producer is ever adopted, and each destroy allows one more; a producer is
   sent through only after its connect succeeded and before it is disconnected.
   */
  lemma LazyConnect(steps: seq<Step>)
    requires Feasible(FRESH, steps)
    ensures var s := After(FRESH, steps);
      && (forall a: nat, b: nat :: InFlight(s, a) && InFlight(s, b) ==> a == b)
      && (forall a: nat :: InFlight(s, a) <==> s.connecting == Some(a))
      && Adoptions(s.trace) == Disconnections(s.trace) + (if s.producer.Some? then 1 else 0)
      && Adoptions(s.trace) <= 1 + Destroys(steps)
      && (forall a: nat :: Adopt(a) in s.trace <==> Succeeded(s, a))
      && (forall j :: 0 <= j < |s.trace| && s.trace[j].Send? ==>
            Adopt(s.trace[j].attempt) in s.trace[..j] && Disconnect(s.trace[j].attempt) !in s.trace[..j])
  {
    ConservedRun(steps);
  }

  // --- After a failure -----------------------------------------------------------------------------

  predicate NoCalls(steps: seq<Step>) {
    forall k :: 0 <= k < |steps| ==> !steps[k].Call?
  }

  ghost predicate Clean(s: State) {
    s.producer == None && s.connecting == None && forall a: nat :: !InFlight(s, a)
  }

  lemma {:induction false} CleanRun(s: State, steps: seq<Step>)
    requires Clean(s) && Feasible(s, steps) && NoCalls(steps)
    ensures Clean(After(s, steps))
  {
    if steps == [] {
    } else {
      var front, step := steps[..|steps| - 1], steps[|steps| - 1];
      CleanRun(s, front);
      var at := After(s, front);
      if step.ConnectSettles? || step.Then? || step.Finally? { assert InFlight(at, step.a); }
      assert forall a: nat :: InFlight(Next(at, step), a) ==> InFlight(at, a);
    }
  }

  /**
   A failed attempt clears the way: once its last callback has run neither field is set, and whatever
   follows, up to the next publish, leaves it so; that publish starts an attempt of its own.
   */
  lemma FailureAllowsRetry(steps: seq<Step>, a: nat, more: seq<Step>)
    requires Feasible(FRESH, steps)
    requires a < |After(FRESH, steps).attempts| && After(FRESH, steps).attempts[a] == Rejected
    requires Feasible(Next(After(FRESH, steps), Finally(a)), more) && NoCalls(more)
    ensures var s := After(Next(After(FRESH, steps), Finally(a)), more);
      && s.producer == None && s.connecting == None
      && Next(s, Call).attempts == s.attempts + [Outstanding]
      && Next(s, Call).connecting == Some(|s.attempts|)
      && Next(s, Call).publishers == s.publishers + [Waiting(|s.attempts|)]
  {
    FailureIsClean(steps, a);
    CleanRun(Next(After(FRESH, steps), Finally(a)), more);
  }

  lemma FailureIsClean(steps: seq<Step>, a: nat)
    requires Feasible(FRESH, steps)
    requires a < |After(FRESH, steps).attempts| && After(FRESH, steps).attempts[a] == Rejected
    ensures Clean(Next(After(FRESH, steps), Finally(a)))
  {
    FreshInvariant();
    RunInvariant(FRESH, steps);
    var s := After(FRESH, steps);
    assert InFlight(s, a);
    StepInvariant(s, Finally(a));
  }

  // --- Destroying while connecting -----------------------------------------------------------------

  /**
   Destroying leaves no producer behind, with no later publish, exactly when no attempt that can
   still succeed is in flight: such an attempt goes on, and its producer is adopted afterwards.
   */
  lemma DestroyLeavesNothing(before: seq<Step>)
    requires Feasible(FRESH, before)
    ensures var s := Next(After(FRESH, before), Destroy);
      (forall steps :: Feasible(s, steps) && NoCalls(steps) ==> After(s, steps).producer == None)
      <==> !exists a: nat :: a < |s.attempts| && s.attempts[a] in {Outstanding, Resolved}
  {
    FreshInvariant();
    RunInvariant(FRESH, before);
    StepInvariant(After(FRESH, before), Destroy);
    var s := Next(After(FRESH, before), Destroy);
    if a: nat :| a < |s.attempts| && s.attempts[a] in {Outstanding, Resolved} {
      LateAdoption(s, a);
    } else {
      forall steps | Feasible(s, steps) && NoCalls(steps)
        ensures After(s, steps).producer == None
      {
        SettlingRun(s, steps);
      }
    }
  }

  lemma LateAdoption(s: State, a: nat)
    requires a < |s.attempts| && s.attempts[a] in {Outstanding, Resolved}
    ensures exists steps :: Feasible(s, steps) && NoCalls(steps) && After(s, steps).producer == Some(a)
  {
    var first := if s.attempts[a] == Resolved then [] else [ConnectSettles(a, true)];
    if s.attempts[a] == Outstanding {
      AfterOneMore(s, [], ConnectSettles(a, true));
      assert [] + [ConnectSettles(a, true)] == first;
    }
    AfterOneMore(s, first, Then(a));
    assert NoCalls(first + [Then(a)]);
  }

  lemma AfterOneMore(s: State, steps: seq<Step>, step: Step)
    requires Feasible(s, steps) && Enabled(After(s, steps), step)
    ensures Feasible(s, steps + [step])
    ensures After(s, steps + [step]) == Next(After(s, steps), step)
  {
    assert (steps + [step])[..|steps|] == steps;
  }

  ghost predicate Settling(s: State) {
    s.producer == None && forall a: nat :: 0 <= a < |s.attempts| ==> s.attempts[a] !in {Outstanding, Resolved}
  }

  lemma {:induction false} SettlingRun(s: State, steps: seq<Step>)
    requires Settling(s) && Feasible(s, steps) && NoCalls(steps)
    ensures Settling(After(s, steps))
  {
    if steps == [] {
    } else {
      SettlingRun(s, steps[..|steps| - 1]);
      assert !steps[|steps| - 1].Call?;
    }
  }

  // --- Every publish settles -----------------------------------------------------------------------

  function StageWork(stage: Stage): int {
    match stage
    case Outstanding => 3
    case Resolved => 2
    case Rejected => 1
    case Adopted => 1
    case Finished(_) => 0
  }

  function PhaseWork(phase: Phase): int {
    match phase
    case Waiting(_) => 3
    case Ready => 2
    case Sending(_) => 1
    case Settled(_) => 0
  }

  function AttemptWork(s: State): int {
    Sum(StageWork, s.attempts)
  }

  function PublisherWork(s: State): int {
    Sum(PhaseWork, s.publishers)
  }

  /** What a step adds to the work left; every other one takes some away. */
  function Demand(step: Step): nat {
    match step
    case Call => 7
    case Destroy => 1
    case _ => 0
  }

  function TotalDemand(steps: seq<Step>): nat {
    if steps == [] then 0 else TotalDemand(steps[..|steps| - 1]) + Demand(steps[|steps| - 1])
  }

  lemma StepAttemptWork(s: State, step: Step)
    requires Enabled(s, step)
    ensures AttemptWork(Next(s, step)) + (if step.ConnectSettles? || step.Then? || step.Finally? then 1 else 0)
         <= AttemptWork(s) + (if step.Call? then 3 else 0)
  {
    if step.Call? {
      SumAppend(StageWork, s.attempts, Outstanding);
    } else if step.ConnectSettles? || step.Then? || step.Finally? {
      SumUpdate(StageWork, s.attempts, step.a, Next(s, step).attempts[step.a]);
    }
  }

  lemma StepPublisherWork(s: State, step: Step)
    requires Enabled(s, step)
    ensures PublisherWork(Next(s, step)) + (if step.Wake? || step.Resume? || step.SendSettles? then 1 else 0)
         <= PublisherWork(s) + (if step.Call? then 3 else 0)
  {
    if step.Call? {
      SumAppend(PhaseWork, s.publishers, Ready);
      SumAppend(PhaseWork, s.publishers, Waiting(|s.attempts|));
      if s.connecting.Some? { SumAppend(PhaseWork, s.publishers, Waiting(s.connecting.value)); }
    } else if step.Wake? || step.Resume? || step.SendSettles? {
      SumUpdate(PhaseWork, s.publishers, step.p, Next(s, step).publishers[step.p]);
    }
  }

  lemma StepWork(s: State, step: Step)
    requires Enabled(s, step)
    ensures AttemptWork(Next(s, step)) + PublisherWork(Next(s, step)) + 1
         <= AttemptWork(s) + PublisherWork(s) + Demand(step)
  {
    StepAttemptWork(s, step);
    StepPublisherWork(s, step);
  }

  lemma {:induction false} RunWork(steps: seq<Step>)
    requires Feasible(FRESH, steps)
    ensures |steps| + AttemptWork(After(FRESH, steps)) + PublisherWork(After(FRESH, steps))
         <= TotalDemand(steps)
  {
    if steps == [] {
    } else {
      RunWork(steps[..|steps| - 1]);
      StepWork(After(FRESH, steps[..|steps| - 1]), steps[|steps| - 1]);
    }
  }

  lemma WorkNonNegative(s: State)
    ensures AttemptWork(s) >= 0 && PublisherWork(s) >= 0
  {
    SumBounds(StageWork, s.attempts, 3);
    SumBounds(PhaseWork, s.publishers, 3);
  }

  predicate IsDemand(step: Step) {
    step.Call? || step.Destroy?
  }

  /** The step that takes a call further, or the attempt it waits for. */
  function Onward(s: State, p: nat): Step
    requires p < |s.publishers| && !s.publishers[p].Settled?
    requires s.publishers[p].Waiting? ==> s.publishers[p].attempt < |s.attempts|
  {
    match s.publishers[p]
    case Ready => Resume(p)
    case Sending(_) => SendSettles(p, true)
    case Waiting(a) =>
      match s.attempts[a]
      case Outstanding => ConnectSettles(a, false)
      case Resolved => Then(a)
      case Finished(_) => Wake(p)
      case _ => Finally(a)
  }

  lemma OnwardEnabled(s: State, p: nat)
    requires Invariant(s) && p < |s.publishers| && !s.publishers[p].Settled?
    ensures s.publishers[p].Waiting? ==> s.publishers[p].attempt < |s.attempts|
    ensures Enabled(s, Onward(s, p)) && !IsDemand(Onward(s, p))
  {
  }

  lemma RunIsBounded(steps: seq<Step>)
    requires Feasible(FRESH, steps)
    ensures |steps| <= TotalDemand(steps)
  {
    RunWork(steps);
    WorkNonNegative(After(FRESH, steps));
  }

  /**
   No publish hangs once the client settles what it was asked: the steps of a run are at most seven
   for each publish and one for each destroy, and when only new ones could follow all have settled.
   */
  lemma EveryPublishSettles(steps: seq<Step>)
    requires Feasible(FRESH, steps)
    ensures |steps| <= TotalDemand(steps)
    ensures (forall step :: Enabled(After(FRESH, steps), step) ==> IsDemand(step)) ==>
              forall p :: 0 <= p < |After(FRESH, steps).publishers| ==> After(FRESH, steps).publishers[p].Settled?
  {
    RunIsBounded(steps);
    FreshInvariant();
    RunInvariant(FRESH, steps);
    var s := After(FRESH, steps);
    if p: nat :| p < |s.publishers| && !s.publishers[p].Settled? {
      OnwardEnabled(s, p);
    }
  }

  // --- How a publish ends --------------------------------------------------------------------------

  /** The client has said that the attempt succeeded, or failed, and it has not been lost on the way. */
  predicate SaidGood(s: State, a: nat) {
    a < |s.attempts| && s.attempts[a] in {Resolved, Adopted, Finished(true)}
  }

  predicate SaidBad(s: State, a: nat) {
    a < |s.attempts| && s.attempts[a] in {Rejected, Finished(false)}
  }

  lemma AttemptStep(s: State, step: Step, a: nat)
    requires Enabled(s, step)
    ensures SaidGood(Next(s, step), a) <==> SaidGood(s, a) || step == ConnectSettles(a, true)
    ensures SaidBad(Next(s, step), a) <==> SaidBad(s, a) || step == ConnectSettles(a, false)
  {
  }

  /** What has become of attempt `a` is what the client said of it. */
  lemma {:induction false} AttemptFollowsClient(steps: seq<Step>, a: nat)
    requires Feasible(FRESH, steps)
    ensures ConnectSettles(a, true) in steps <==> SaidGood(After(FRESH, steps), a)
    ensures ConnectSettles(a, false) in steps <==> SaidBad(After(FRESH, steps), a)
  {
    if steps == [] {
    } else {
      var front, last := steps[..|steps| - 1], steps[|steps| - 1];
      AttemptFollowsClient(front, a);
      AttemptStep(After(FRESH, front), last, a);
      assert steps == front + [last];
    }
  }

  /** Step `j` sends for publish `p` through `a`, whose connect succeeded and which is not disconnected. */
  ghost predicate SendsAt(steps: seq<Step>, j: nat, p: nat, a: nat) {
    && j < |steps| && steps[j] == Resume(p)
    && Feasible(FRESH, steps[..j]) && Feasible(FRESH, steps[..j + 1])
    && var trace := After(FRESH, steps[..j]).trace;
       && ConnectSettles(a, true) in steps[..j] && Adopt(a) in trace && Disconnect(a) !in trace
       && After(FRESH, steps[..j + 1]).trace == trace + [Send(a)]
  }

  /** At step `i` publish `p` began, and found attempt `a` in flight or started it. */
  ghost predicate JoinsAt(steps: seq<Step>, i: nat, p: nat, a: nat) {
    && i < |steps| && steps[i] == Call
    && Feasible(FRESH, steps[..i]) && Feasible(FRESH, steps[..i + 1])
    && |After(FRESH, steps[..i]).publishers| == p && InFlight(After(FRESH, steps[..i + 1]), a)
  }

  ghost predicate AllDisconnected(trace: seq<Event>) {
    forall a: nat :: Adopt(a) in trace ==> Disconnect(a) in trace
  }

  /**
   At step `j` publish `p` fails: the attempt it joined was rejected, or it finds every adopted producer
   disconnected, or its send fails.
   */
  ghost predicate FailsAt(steps: seq<Step>, j: nat, p: nat) {
    && j < |steps| && Feasible(FRESH, steps[..j])
    && match steps[j]
       case Wake(q) =>
         q == p && exists i: nat, a: nat :: JoinsAt(steps[..j], i, p, a) && ConnectSettles(a, false) in steps[..j]
       case Resume(q) => q == p && AllDisconnected(After(FRESH, steps[..j]).trace)
       case SendSettles(q, ok) => q == p && !ok
       case _ => false
  }

  predicate About(step: Step, p: nat) {
    match step
    case Wake(q) => q == p
    case Resume(q) => q == p
    case SendSettles(q, _) => q == p
    case _ => false
  }

  /** What the history of a run says about publish `p`, given where it is. */
  ghost predicate Story(steps: seq<Step>, p: nat)
    requires Feasible(FRESH, steps)
  {
    var s := After(FRESH, steps);
    if p >= |s.publishers| then forall j :: 0 <= j < |steps| ==> !About(steps[j], p)
    else
      && (s.publishers[p].Waiting? ==> HasJoined(steps, p, s.publishers[p].attempt))
      && (s.publishers[p].Sending? || s.publishers[p] == Settled(true) ==> HasSent(steps, p))
      && (s.publishers[p] == Settled(true) <==> SendSettles(p, true) in steps)
      && (s.publishers[p] == Settled(false) <==> HasFailed(steps, p))
  }

  lemma {:induction false} PublishersGrow(steps: seq<Step>, i: nat)
    requires Feasible(FRESH, steps) && i <= |steps| && Feasible(FRESH, steps[..i])
    ensures |After(FRESH, steps[..i]).publishers| <= |After(FRESH, steps).publishers|
  {
    if i == |steps| {
      assert steps[..i] == steps;
    } else {
      assert steps[..|steps| - 1][..i] == steps[..i];
      PublishersGrow(steps[..|steps| - 1], i);
    }
  }

  /** A publish begins at one step only, and joins one attempt. */
  lemma JoinsOnce(steps: seq<Step>, i: nat, a: nat, k: nat, b: nat, p: nat)
    requires JoinsAt(steps, i, p, a) && JoinsAt(steps, k, p, b)
    ensures a == b
  {
    if i < k {
      BeginsBefore(steps, i, k, p);
    } else if k < i {
      BeginsBefore(steps, k, i, p);
    } else {
      FreshInvariant();
      RunInvariant(FRESH, steps[..i + 1]);
    }
  }

  lemma BeginsBefore(steps: seq<Step>, i: nat, k: nat, p: nat)
    requires i < k < |steps| && steps[i] == Call
    requires Feasible(FRESH, steps[..i]) && Feasible(FRESH, steps[..i + 1]) && Feasible(FRESH, steps[..k])
    requires |After(FRESH, steps[..i]).publishers| == p
    ensures |After(FRESH, steps[..k]).publishers| > p
  {
    assert steps[..i + 1][..i] == steps[..i] && steps[..k][..i + 1] == steps[..i + 1];
    PublishersGrow(steps[..k], i + 1);
  }

  /** What an earlier step did does not depend on how the run goes on. */
  lemma Earlier(front: seq<Step>, last: Step, j: nat, p: nat, a: nat)
    requires j < |front|
    ensures var steps := front + [last];
      && (SendsAt(steps, j, p, a) <==> SendsAt(front, j, p, a))
      && (JoinsAt(steps, j, p, a) <==> JoinsAt(front, j, p, a))
      && (FailsAt(steps, j, p) <==> FailsAt(front, j, p))
  {
    var steps := front + [last];
    assert steps[..j] == front[..j] && steps[..j + 1] == front[..j + 1] && steps[j] == front[j];
  }

  ghost predicate HasFailed(steps: seq<Step>, p: nat) {
    exists j: nat :: FailsAt(steps, j, p)
  }

  ghost predicate HasSent(steps: seq<Step>, p: nat) {
    exists j: nat, a: nat :: SendsAt(steps, j, p, a)
  }

  ghost predicate HasJoined(steps: seq<Step>, p: nat, a: nat) {
    exists i: nat :: JoinsAt(steps, i, p, a)
  }

  lemma HistoryGrows(front: seq<Step>, last: Step, p: nat, a: nat)
    ensures var steps := front + [last];
      && (HasJoined(front, p, a) ==> HasJoined(steps, p, a))
      && (HasSent(front, p) ==> HasSent(steps, p))
      && (HasFailed(steps, p) <==> HasFailed(front, p) || FailsAt(steps, |front|, p))
  {
    var steps := front + [last];
    if i: nat :| JoinsAt(front, i, p, a) {
      Earlier(front, last, i, p, a);
    }
    if j: nat, b: nat :| SendsAt(front, j, p, b) {
      Earlier(front, last, j, p, b);
    }
    if j: nat :| FailsAt(front, j, p) {
      Earlier(front, last, j, p, a);
    }
    if j: nat :| FailsAt(steps, j, p) {
      if j < |front| { Earlier(front, last, j, p, a); }
    }
  }

  lemma LastStep(front: seq<Step>, last: Step)
    requires Feasible(FRESH, front) && Enabled(After(FRESH, front), last)
    ensures var steps := front + [last];
      && Feasible(FRESH, steps) && After(FRESH, steps) == Next(After(FRESH, front), last)
      && steps[..|front|] == front && steps[..|front| + 1] == steps
  {
    AfterOneMore(FRESH, front, last);
  }

  lemma WokenStory(front: seq<Step>, p: nat)
    requires Feasible(FRESH, front) && Enabled(After(FRESH, front), Wake(p)) && Story(front, p)
    ensures var steps := front + [Wake(p)];
      Feasible(FRESH, steps) &&
      (After(FRESH, steps).publishers[p] == Settled(false) <==> FailsAt(steps, |front|, p))
  {
    var steps, a := front + [Wake(p)], After(FRESH, front).publishers[p].attempt;
    LastStep(front, Wake(p));
    AttemptFollowsClient(front, a);
    var i: nat :| JoinsAt(front, i, p, a);
    if FailsAt(steps, |front|, p) {
      var k: nat, b: nat :| JoinsAt(front, k, p, b) && ConnectSettles(b, false) in front;
      JoinsOnce(front, i, a, k, b, p);
    }
  }

  lemma ResumedStory(front: seq<Step>, p: nat)
    requires Feasible(FRESH, front) && Enabled(After(FRESH, front), Resume(p))
    ensures var steps := front + [Resume(p)];
      && Feasible(FRESH, steps)
      && (After(FRESH, steps).publishers[p] == Settled(false) <==> FailsAt(steps, |front|, p))
      && (After(FRESH, steps).publishers[p].Sending? ==> HasSent(steps, p))
  {
    var steps, s := front + [Resume(p)], After(FRESH, front);
    LastStep(front, Resume(p));
    FreshInvariant();
    RunInvariant(FRESH, front);
    if s.producer.Some? {
      AttemptFollowsClient(front, s.producer.value);
      assert SendsAt(steps, |front|, p, s.producer.value);
    }
  }

  lemma JoinedStory(front: seq<Step>)
    requires Feasible(FRESH, front)
    ensures var steps, p := front + [Call], |After(FRESH, front).publishers|;
      && Feasible(FRESH, steps) && p < |After(FRESH, steps).publishers|
      && var phase := After(FRESH, steps).publishers[p];
         phase.Ready? || (phase.Waiting? && HasJoined(steps, p, phase.attempt))
  {
    var steps, p := front + [Call], |After(FRESH, front).publishers|;
    LastStep(front, Call);
    FreshInvariant();
    RunInvariant(FRESH, front);
    if After(FRESH, steps).publishers[p].Waiting? {
      assert JoinsAt(steps, |front|, p, After(FRESH, steps).publishers[p].attempt);
    }
  }

  lemma NothingYet(steps: seq<Step>, p: nat)
    requires forall j :: 0 <= j < |steps| ==> !About(steps[j], p)
    ensures !HasFailed(steps, p) && SendSettles(p, true) !in steps
  {
  }

  /** A step about other publishes, or none, leaves this one where it is. */
  lemma QuietStep(front: seq<Step>, last: Step, p: nat)
    requires Feasible(FRESH, front) && Enabled(After(FRESH, front), last)
    requires p < |After(FRESH, front).publishers| && !About(last, p)
    ensures Feasible(FRESH, front + [last])
    ensures var s' := After(FRESH, front + [last]);
      p < |s'.publishers| && s'.publishers[p] == After(FRESH, front).publishers[p]
    ensures !FailsAt(front + [last], |front|, p)
    ensures SendSettles(p, true) in front + [last] <==> SendSettles(p, true) in front
  {
    LastStep(front, last);
  }

  lemma QuietStory(front: seq<Step>, last: Step, p: nat)
    requires Feasible(FRESH, front) && Enabled(After(FRESH, front), last) && Story(front, p)
    requires p < |After(FRESH, front).publishers| && !About(last, p)
    ensures Feasible(FRESH, front + [last]) && Story(front + [last], p)
  {
    var phase := After(FRESH, front).publishers[p];
    QuietStep(front, last, p);
    HistoryGrows(front, last, p, if phase.Waiting? then phase.attempt else 0);
  }

  lemma OwnStory(front: seq<Step>, last: Step, p: nat)
    requires Feasible(FRESH, front) && Enabled(After(FRESH, front), last) && Story(front, p)
    requires p < |After(FRESH, front).publishers| && About(last, p)
    ensures Feasible(FRESH, front + [last]) && Story(front + [last], p)
  {
    LastStep(front, last);
    HistoryGrows(front, last, p, 0);
    if last == Wake(p) {
      WokenStory(front, p);
    } else if last == Resume(p) {
      ResumedStory(front, p);
    }
  }

  lemma NothingAbout(front: seq<Step>, last: Step, p: nat)
    requires Feasible(FRESH, front) && Enabled(After(FRESH, front), last) && Story(front, p)
    requires p >= |After(FRESH, front).publishers|
    ensures forall j :: 0 <= j < |front + [last]| ==> !About((front + [last])[j], p)
  {
  }

  lemma UntouchedStory(steps: seq<Step>, p: nat)
    requires Feasible(FRESH, steps) && forall j :: 0 <= j < |steps| ==> !About(steps[j], p)
    requires p < |After(FRESH, steps).publishers| ==>
               var phase := After(FRESH, steps).publishers[p];
               phase.Ready? || (phase.Waiting? && HasJoined(steps, p, phase.attempt))
    ensures Story(steps, p)
  {
    NothingYet(steps, p);
  }

  lemma PublishersAfter(s: State, step: Step)
    requires Enabled(s, step)
    ensures |Next(s, step).publishers| == |s.publishers| + (if step == Call then 1 else 0)
  {
  }

  lemma BegunStory(front: seq<Step>)
    requires Feasible(FRESH, front) && Story(front, |After(FRESH, front).publishers|)
    ensures Feasible(FRESH, front + [Call]) && Story(front + [Call], |After(FRESH, front).publishers|)
  {
    JoinedStory(front);
    NothingAbout(front, Call, |After(FRESH, front).publishers|);
    UntouchedStory(front + [Call], |After(FRESH, front).publishers|);
  }

  lemma StillNewStory(front: seq<Step>, last: Step, p: nat)
    requires Feasible(FRESH, front) && Enabled(After(FRESH, front), last) && Story(front, p)
    requires p >= |After(FRESH, front).publishers| + (if last == Call then 1 else 0)
    ensures Feasible(FRESH, front + [last]) && Story(front + [last], p)
  {
    LastStep(front, last);
    PublishersAfter(After(FRESH, front), last);
    NothingAbout(front, last, p);
    UntouchedStory(front + [last], p);
  }

  lemma NewStory(front: seq<Step>, last: Step, p: nat)
    requires Feasible(FRESH, front) && Enabled(After(FRESH, front), last) && Story(front, p)
    requires p >= |After(FRESH, front).publishers|
    ensures Feasible(FRESH, front + [last]) && Story(front + [last], p)
  {
    if last == Call && p == |After(FRESH, front).publishers| {
      BegunStory(front);
    } else {
      StillNewStory(front, last, p);
    }
  }

  lemma StoryStep(front: seq<Step>, last: Step, p: nat)
    requires Feasible(FRESH, front) && Enabled(After(FRESH, front), last) && Story(front, p)
    ensures Feasible(FRESH, front + [last]) && Story(front + [last], p)
  {
    if p >= |After(FRESH, front).publishers| {
      NewStory(front, last, p);
    } else if About(last, p) {
      OwnStory(front, last, p);
    } else {
      QuietStory(front, last, p);
    }
  }

  lemma {:induction false} RunStory(steps: seq<Step>, p: nat)
    requires Feasible(FRESH, steps)
    ensures Story(steps, p)
  {
    if steps == [] {
    } else {
      var front, last := steps[..|steps| - 1], steps[|steps| - 1];
      RunStory(front, p);
      StoryStep(front, last, p);
      assert front + [last] == steps;
    }
  }

  /**
   Over every run: a publish has succeeded if and only if the client said that its send did, after a step
   that sent for it through a producer whose connect had succeeded and which was not disconnected. It has
   failed if and only if the attempt it joined was rejected, it found no producer when it went on, or its
   send failed.
   */
  lemma PublishOutcome(steps: seq<Step>, p: nat)
    requires Feasible(FRESH, steps) && p < |After(FRESH, steps).publishers|
    ensures var phase := After(FRESH, steps).publishers[p];
      && (phase == Settled(true) <==> SendSettles(p, true) in steps)
      && (phase == Settled(true) ==> exists j: nat, a: nat :: SendsAt(steps, j, p, a))
      && (phase == Settled(false) <==> exists j: nat :: FailsAt(steps, j, p))
  {
    RunStory(steps, p);
  }

  // --- The producer --------------------------------------------------------------------------------

  /**
   One method per segment. The code has the two fields and nothing else to decide on; the promises
   around it, and what has happened so far, are ghost. A client producer is named by its attempt.
   */
  class DlqProducer {
    var producer: Option<nat>
    var connecting: Option<nat>
    ghost var attempts: seq<Stage>
    ghost var publishers: seq<Phase>
    ghost var trace: seq<Event>

    ghost function View(): State
      reads this
    {
      State(producer, connecting, attempts, publishers, trace)
    }

    constructor ()
      ensures View() == FRESH
    {
      producer, connecting, attempts, publishers, trace := None, None, [], [], [];
    }

    /**
     `publish` up to its first await: reuse the producer, join the attempt, or start one with the
     client's `next` producer. What it then awaits is an attempt, or nothing.
     */
    method Publish(next: nat) returns (awaited: Option<nat>)
      requires next == |attempts|
      modifies this
      ensures View() == Next(old(View()), Call)
      ensures awaited == if old(producer).Some? then None else connecting
    {
      if producer.Some? {
        publishers := publishers + [Ready];
        return None;
      }
      if connecting.None? {
        connecting := Some(next);
        attempts := attempts + [Outstanding];
      }
      publishers := publishers + [Waiting(connecting.value)];
      awaited := connecting;
    }

    /** The `then` callback of attempt `a`. */
    method Adopted(a: nat)
      requires Enabled(View(), Then(a))
      modifies this
      ensures View() == Next(old(View()), Then(a))
    {
      producer := Some(a);
      attempts := attempts[a := Stage.Adopted];
      trace := trace + [Adopt(a)];
    }

    /** The `finally` callback of attempt `a`. */
    method Settle(ghost a: nat)
      requires Enabled(View(), Finally(a))
      modifies this
      ensures View() == Next(old(View()), Finally(a))
    {
      connecting := None;
      attempts := attempts[a := Finished(attempts[a] == Stage.Adopted)];
    }

    /** `publish` when the attempt it awaits is over: a rejection is passed on. */
    method ResumeConnect(ghost p: nat, ok: bool) returns (rejected: bool)
      requires p < |publishers| && publishers[p].Waiting?
      requires publishers[p].attempt < |attempts| && attempts[publishers[p].attempt] == Finished(ok)
      modifies this
      ensures View() == Next(old(View()), Wake(p))
      ensures publishers == old(publishers)[p := if ok then Ready else Settled(false)] && rejected == !ok
    {
      publishers := publishers[p := if ok then Ready else Settled(false)];
      rejected := !ok;
    }

    /** `publish` when its send is over: a failure is passed on. */
    method ResumeSend(ghost p: nat, ok: bool) returns (rejected: bool)
      requires p < |publishers| && publishers[p].Sending?
      modifies this
      ensures View() == Next(old(View()), SendSettles(p, ok))
      ensures publishers == old(publishers)[p := Settled(ok)] && rejected == !ok
    {
      publishers := publishers[p := Settled(ok)];
      rejected := !ok;
    }

    /** `publish` after its await of `connect` returned: throw, or send through the producer. */
    method ResumePublish(ghost p: nat) returns (through: Option<nat>)
      requires Enabled(View(), Resume(p))
      modifies this
      ensures View() == Next(old(View()), Resume(p))
      ensures through == old(producer)
    {
      through := producer;
      if producer.None? {
        publishers := publishers[p := Settled(false)];
      } else {
        publishers := publishers[p := Sending(producer.value)];
        trace := trace + [Send(producer.value)];
      }
    }

    /** Hands the current producer, if any, to `disconnect`. */
    method OnModuleDestroy() returns (disconnected: Option<nat>)
      modifies this
      ensures View() == Next(old(View()), Destroy)
      ensures disconnected == old(producer)
    {
      disconnected := producer;
      producer := None;
      if disconnected.Some? {
        trace := trace + [Disconnect(disconnected.value)];
      }
    }
  }
}
