/**
 One partition of the reward-tracking topic, consumed by any number of instances of one group: a
 state machine whose steps are the points between awaits, with crashes, redelivery and calls that
 report a failure after taking effect.
 */
module RewardPartition {
  import opened Retry
  import opened RewardEvents

  const MAX_SCHEMA_VALIDATION_ATTEMPTS: nat := 3

  /** A log entry as the schema sees it. */
  datatype Message = Valid(input: ApplyInput) | Poison

  type Ledger = map<string, ApplyInput>

  datatype Phase = Idle | Validating(attempt: nat) | Applying | Publishing | Committing

  /** One consumer instance: its next offset, and how far it is with the message there. */
  datatype Instance = Instance(position: nat, phase: Phase)

  /** `settled` is one past the highest offset whose effect has become durable. */
  datatype State = State(
    instances: seq<Instance>,
    committed: nat,
    settled: nat,
    ledger: Ledger,
    dlq: seq<nat>)

  datatype Config = Config(log: seq<Message>, start: nat, ledger: Ledger)

  datatype Step =
    | Deliver(i: nat)
    | Validate(i: nat)
    | Apply(i: nat, fate: Fate)
    | Publish(i: nat, fate: Fate)
    | Commit(i: nat, fate: Fate)
    | Restart(i: nat)

  // --- The domain call -----------------------------------------------------------------------------

  /** The contract of `applyRewardTrackingEvent`: the first event of an entry id wins. */
  function FirstWins(ledger: Ledger, input: ApplyInput): Ledger {
    if input.rewardEntryId in ledger then ledger else ledger[input.rewardEntryId := input]
  }

  function Settle(ledger: Ledger, m: Message): Ledger {
    if m.Valid? then FirstWins(ledger, m.input) else ledger
  }

  /** What a log prefix means: its valid events, first-wins, in order. */
  function Fold(ledger: Ledger, log: seq<Message>): Ledger {
    if log == [] then ledger else Settle(Fold(ledger, log[..|log| - 1]), log[|log| - 1])
  }

  // --- Steps ---------------------------------------------------------------------------------------

  predicate Enabled(c: Config, s: State, step: Step) {
    step.i < |s.instances| &&
    var inst := s.instances[step.i];
    match step
    case Deliver(_) => inst.phase == Idle && inst.position < |c.log|
    case Validate(_) => inst.phase.Validating? && inst.position < |c.log|
    case Apply(_, _) => inst.phase == Applying && inst.position < |c.log| && c.log[inst.position].Valid?
    case Publish(_, _) => inst.phase == Publishing && inst.position < |c.log|
    case Commit(_, _) => inst.phase == Committing
    case Restart(_) => true
  }

  function Max(a: nat, b: nat): nat {
    if a < b then b else a
  }

  function WithInstance(s: State, i: nat, inst: Instance): State
    requires i < |s.instances|
  {
    s.(instances := s.instances[i := inst])
  }

  function Next(c: Config, s: State, step: Step): (s': State)
    requires Enabled(c, s, step)
    ensures |s'.instances| == |s.instances|
  {
    var i, inst := step.i, s.instances[step.i];
    match step
    case Deliver(_) => WithInstance(s, i, inst.(phase := Validating(1)))
    case Validate(_) =>
      // Every attempt re-parses the same text, so only a poison message is tried again.
      WithInstance(s, i, inst.(phase :=
        if c.log[inst.position].Valid? then Applying
        else if inst.phase.attempt < MAX_SCHEMA_VALIDATION_ATTEMPTS then Validating(inst.phase.attempt + 1)
        else Publishing))
    case Apply(_, fate) =>
      var after := WithInstance(s, i, inst.(phase := if fate == Succeeds then Committing else Idle));
      if !fate.Takes() then after
      else after.(ledger := FirstWins(s.ledger, c.log[inst.position].input),
                  settled := Max(s.settled, inst.position + 1))
    case Publish(_, fate) =>
      var after := WithInstance(s, i, inst.(phase := if fate == Succeeds then Committing else Idle));
      if !fate.Takes() then after
      else after.(dlq := s.dlq + [inst.position], settled := Max(s.settled, inst.position + 1))
    case Commit(_, fate) =>
      var after := WithInstance(s, i,
        if fate == Succeeds then Instance(inst.position + 1, Idle) else inst.(phase := Idle));
      if !fate.Takes() then after else after.(committed := inst.position + 1)
    case Restart(_) => WithInstance(s, i, Instance(s.committed, Idle))
  }

  predicate Initial(c: Config, s: State) {
    && c.start <= |c.log|
    && s.committed == s.settled == c.start
    && s.ledger == c.ledger && s.dlq == []
    && forall i :: 0 <= i < |s.instances| ==> s.instances[i] == Instance(c.start, Idle)
  }

  /** `steps` can be taken one after the other from `s`. */
  predicate Feasible(c: Config, s: State, steps: seq<Step>)
    decreases |steps|, 0
  {
    steps == [] ||
    (Feasible(c, s, steps[..|steps| - 1]) &&
     Enabled(c, After(c, s, steps[..|steps| - 1]), steps[|steps| - 1]))
  }

  function After(c: Config, s: State, steps: seq<Step>): (s': State)
    requires Feasible(c, s, steps)
    ensures |s'.instances| == |s.instances|
    decreases |steps|, 1
  {
    if steps == [] then s
    else Next(c, After(c, s, steps[..|steps| - 1]), steps[|steps| - 1])
  }

  lemma AfterOneMore(c: Config, s: State, steps: seq<Step>, step: Step)
    requires Feasible(c, s, steps) && Enabled(c, After(c, s, steps), step)
    ensures Feasible(c, s, steps + [step])
    ensures After(c, s, steps + [step]) == Next(c, After(c, s, steps), step)
  {
    assert (steps + [step])[..|steps|] == steps;
  }

  /** An instance may crash at any point. It loses its place alone, and goes on at the committed offset. */
  lemma CrashAnywhere(c: Config, s: State, steps: seq<Step>, i: nat)
    requires Feasible(c, s, steps) && i < |s.instances|
    ensures Feasible(c, s, steps + [Restart(i)])
    ensures var before := After(c, s, steps);
      After(c, s, steps + [Restart(i)])
      == before.(instances := before.instances[i := Instance(before.committed, Idle)])
  {
    AfterOneMore(c, s, steps, Restart(i));
  }

  /** What one apply leaves: it may fail with its effect or without; the message is then handed out again. */
  lemma ApplyLeaves(c: Config, s: State, i: nat, fate: Fate)
    requires Enabled(c, s, Apply(i, fate))
    ensures var p, s' := s.instances[i].position, Next(c, s, Apply(i, fate));
      && s'.ledger == (if fate == FailsBefore then s.ledger else FirstWins(s.ledger, c.log[p].input))
      && s'.instances[i] == Instance(p, if fate == Succeeds then Committing else Idle)
      && (s'.committed, s'.dlq) == (s.committed, s.dlq)
  {
  }

  /** So with a publish, which then leaves one record more each time. */
  lemma PublishLeaves(c: Config, s: State, i: nat, fate: Fate)
    requires Enabled(c, s, Publish(i, fate))
    ensures var p, s' := s.instances[i].position, Next(c, s, Publish(i, fate));
      && s'.dlq == s.dlq + (if fate == FailsBefore then [] else [p])
      && s'.instances[i] == Instance(p, if fate == Succeeds then Committing else Idle)
      && (s'.committed, s'.ledger) == (s.committed, s.ledger)
  {
  }

  // --- The invariant -------------------------------------------------------------------------------

  ghost predicate InstanceOk(c: Config, s: State, inst: Instance) {
    && c.start <= inst.position <= s.settled
    && (inst.phase == Committing ==> inst.position < s.settled)
    && (inst.phase.Validating? ==> 1 <= inst.phase.attempt <= MAX_SCHEMA_VALIDATION_ATTEMPTS)
    && (inst.phase != Idle ==> inst.position < |c.log|)
    && (inst.phase == Applying ==> c.log[inst.position].Valid?)
    && (inst.phase == Publishing ==> c.log[inst.position].Poison?)
  }

  ghost predicate Invariant(c: Config, s: State) {
    && c.start <= s.committed <= s.settled <= |c.log|
    && s.ledger == Fold(c.ledger, c.log[c.start..s.settled])
    && (forall o :: c.start <= o < s.settled && c.log[o].Poison? ==> o in s.dlq)
    && (forall o :: o in s.dlq ==> c.start <= o < s.settled && c.log[o].Poison?)
    && (forall i :: 0 <= i < |s.instances| ==> InstanceOk(c, s, s.instances[i]))
  }

  lemma InitialInvariant(c: Config, s: State)
    requires Initial(c, s)
    ensures Invariant(c, s)
  {
    assert c.log[c.start..c.start] == [];
  }

  lemma {:induction false} FoldKeeps(ledger: Ledger, log: seq<Message>, id: string)
    requires id in ledger
    ensures id in Fold(ledger, log) && Fold(ledger, log)[id] == ledger[id]
  {
    if log == [] {
    } else {
      FoldKeeps(ledger, log[..|log| - 1], id);
    }
  }

  /** Every valid event of the prefix has its entry id in the fold. */
  lemma {:induction false} FoldCovers(ledger: Ledger, log: seq<Message>, k: nat)
    requires k < |log| && log[k].Valid?
    ensures log[k].input.rewardEntryId in Fold(ledger, log)
  {
    if k < |log| - 1 { FoldCovers(ledger, log[..|log| - 1], k); }
  }

  /** The entry of an id is the initial one if there is one, otherwise the first valid event's. */
  lemma {:induction false} FoldIsFirst(ledger: Ledger, log: seq<Message>, k: nat)
    requires k < |log| && log[k].Valid?
    requires forall j :: 0 <= j < k && log[j].Valid? ==>
               log[j].input.rewardEntryId != log[k].input.rewardEntryId
    ensures var id := log[k].input.rewardEntryId;
      && id in Fold(ledger, log)
      && Fold(ledger, log)[id] == if id in ledger then ledger[id] else log[k].input
  {
    if log[k].input.rewardEntryId in ledger {
      FoldKeeps(ledger, log, log[k].input.rewardEntryId);
    } else if k < |log| - 1 {
      FoldIsFirst(ledger, log[..|log| - 1], k);
    } else {
      FoldAddsNothing(ledger, log[..k], log[k].input.rewardEntryId);
    }
  }

  lemma {:induction false} FoldAddsNothing(ledger: Ledger, log: seq<Message>, id: string)
    requires id !in ledger
    requires forall j :: 0 <= j < |log| && log[j].Valid? ==> log[j].input.rewardEntryId != id
    ensures id !in Fold(ledger, log)
  {
    if log == [] {
    } else {
      FoldAddsNothing(ledger, log[..|log| - 1], id);
    }
  }

  /** Making the message at `p` durable, for the first time or again. */
  lemma SettlingKeepsFold(c: Config, s: State, p: nat)
    requires Invariant(c, s) && p < |c.log| && c.start <= p <= s.settled
    ensures Settle(s.ledger, c.log[p]) == Fold(c.ledger, c.log[c.start..Max(s.settled, p + 1)])
    ensures p < s.settled ==> Settle(s.ledger, c.log[p]) == s.ledger
  {
    if p < s.settled {
      var prefix := c.log[c.start..s.settled];
      assert prefix[p - c.start] == c.log[p];
      if c.log[p].Valid? { FoldCovers(c.ledger, prefix, p - c.start); }
    } else {
      var longer := c.log[c.start..p + 1];
      assert longer[..|longer| - 1] == c.log[c.start..p];
    }
  }

  lemma StepLedger(c: Config, s: State, step: Step)
    requires Invariant(c, s) && Enabled(c, s, step)
    ensures var s' := Next(c, s, step);
      && c.start <= s'.committed <= s'.settled <= |c.log|
      && s'.ledger == Fold(c.ledger, c.log[c.start..s'.settled])
  {
    var inst := s.instances[step.i];
    assert InstanceOk(c, s, inst);
    if (step.Apply? || step.Publish?) && step.fate.Takes() {
      SettlingKeepsFold(c, s, inst.position);
    }
  }

  lemma StepDeadLetters(c: Config, s: State, step: Step)
    requires Invariant(c, s) && Enabled(c, s, step)
    ensures var s' := Next(c, s, step);
      && (forall o :: c.start <= o < s'.settled <= |c.log| && c.log[o].Poison? ==> o in s'.dlq)
      && (forall o :: o in s'.dlq ==> c.start <= o < s'.settled && o < |c.log| && c.log[o].Poison?)
  {
    assert InstanceOk(c, s, s.instances[step.i]);
  }

  lemma StepInvariant(c: Config, s: State, step: Step)
    requires Invariant(c, s) && Enabled(c, s, step)
    ensures Invariant(c, Next(c, s, step))
  {
    StepLedger(c, s, step);
    StepDeadLetters(c, s, step);
    StepKeepsInstances(c, s, step);
  }

  /** The other instances notice at most that more is settled. */
  lemma StepKeepsInstances(c: Config, s: State, step: Step)
    requires Invariant(c, s) && Enabled(c, s, step)
    ensures var s' := Next(c, s, step);
            forall i :: 0 <= i < |s'.instances| ==> InstanceOk(c, s', s'.instances[i])
  {
    var s' := Next(c, s, step);
    assert InstanceOk(c, s, s.instances[step.i]);
    assert InstanceOk(c, s', s'.instances[step.i]);
    assert s'.settled >= s.settled;
    forall i | 0 <= i < |s.instances| && i != step.i
      ensures InstanceOk(c, s', s'.instances[i])
    {
      assert InstanceOk(c, s, s.instances[i]);
    }
  }

  lemma {:induction false} RunInvariant(c: Config, s: State, steps: seq<Step>)
    requires Invariant(c, s) && Feasible(c, s, steps)
    ensures Invariant(c, After(c, s, steps))
  {
    if steps == [] {
    } else {
      RunInvariant(c, s, steps[..|steps| - 1]);
      StepInvariant(c, After(c, s, steps[..|steps| - 1]), steps[|steps| - 1]);
    }
  }

  // --- Exactly-once effect and no loss -------------------------------------------------------------

  /**
   Exactly-once effect: whatever crashes, fails or is redelivered, the ledger is the first-wins
   fold of a contiguous prefix of the log, and dealing again with any message of that prefix would
   change nothing.
   */
  lemma ExactlyOnceEffect(c: Config, s0: State, steps: seq<Step>)
    requires Initial(c, s0) && Feasible(c, s0, steps)
    ensures var s := After(c, s0, steps);
            && c.start <= s.committed <= s.settled <= |c.log|
            && s.ledger == Fold(c.ledger, c.log[c.start..s.settled])
            && forall p :: c.start <= p < s.settled ==> Settle(s.ledger, c.log[p]) == s.ledger
  {
    InitialInvariant(c, s0);
    RunInvariant(c, s0, steps);
    var s := After(c, s0, steps);
    forall p | c.start <= p < s.settled
      ensures Settle(s.ledger, c.log[p]) == s.ledger
    {
      SettlingKeepsFold(c, s, p);
    }
  }

  /**
   No loss, and nothing dead-lettered without cause: a committed offset is in the ledger or has a
   dead-letter record, and only poison messages have one.
   */
  lemma NoLoss(c: Config, s0: State, steps: seq<Step>, o: nat)
    requires Initial(c, s0) && Feasible(c, s0, steps)
    ensures var s := After(c, s0, steps);
            && s.committed <= s.settled <= |c.log|
            && (c.start <= o < s.committed ==>
                  if c.log[o].Valid? then c.log[o].input.rewardEntryId in s.ledger else o in s.dlq)
            && (o in s.dlq ==> c.start <= o < s.settled && c.log[o].Poison?)
  {
    InitialInvariant(c, s0);
    RunInvariant(c, s0, steps);
    var s := After(c, s0, steps);
    if c.start <= o < s.committed && c.log[o].Valid? {
      var prefix := c.log[c.start..s.settled];
      assert prefix[o - c.start] == c.log[o];
      FoldCovers(c.ledger, prefix, o - c.start);
    }
  }
}
