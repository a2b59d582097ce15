/**
 What whole runs of a reward-tracking partition do: they refine a machine that settles each message
 once, they stop at a message that is never acknowledged, they end with everything committed when
 faults are finite, and with one instance they repeat work only because of faults.
 */
module RewardProgress {
  import opened Numbers
  import opened Retry
  import opened RewardPartition
  import opened Sums

  // --- Refinement ----------------------------------------------------------------------------------

  /** The ideal consumer: it settles the next message, exactly once, and never fails. */
  datatype Spec = Spec(settled: nat, ledger: Ledger, dlq: set<nat>)

  function SpecNext(c: Config, a: Spec): Spec
    requires a.settled < |c.log|
  {
    var m := c.log[a.settled];
    Spec(a.settled + 1, Settle(a.ledger, m), if m.Poison? then a.dlq + {a.settled} else a.dlq)
  }

  function SpecAfter(c: Config, n: nat): (a: Spec)
    requires c.start + n <= |c.log|
    ensures a.settled == c.start + n
  {
    if n == 0 then Spec(c.start, c.ledger, {}) else SpecNext(c, SpecAfter(c, n - 1))
  }

  function View(s: State): Spec {
    Spec(s.settled, s.ledger, set o | o in s.dlq)
  }

  /** Every step is one step of the ideal consumer, or none. */
  lemma StepRefines(c: Config, s: State, step: Step)
    requires Invariant(c, s) && Enabled(c, s, step)
    ensures View(Next(c, s, step)) == View(s)
            || (s.settled < |c.log| && View(Next(c, s, step)) == SpecNext(c, View(s)))
  {
    var p := s.instances[step.i].position;
    assert InstanceOk(c, s, s.instances[step.i]);
    if (step.Apply? || step.Publish?) && step.fate.Takes() && p < s.settled {
      SettlingKeepsFold(c, s, p);
    }
  }

  /** What the outside sees of `s` is what the ideal consumer shows after as many messages. */
  ghost predicate Refines(c: Config, s: State) {
    && c.start <= s.settled <= |c.log|
    && View(s) == SpecAfter(c, s.settled - c.start)
  }

  lemma RefinesStep(c: Config, s: State, step: Step)
    requires Invariant(c, s) && Enabled(c, s, step) && Refines(c, s)
    ensures Refines(c, Next(c, s, step))
  {
    StepRefines(c, s, step);
    var a, a' := View(s), View(Next(c, s, step));
    assert a'.settled == a.settled || (a.settled < |c.log| && a' == SpecNext(c, a));
  }

  lemma {:induction false} RefinesRun(c: Config, s0: State, steps: seq<Step>)
    requires Invariant(c, s0) && Refines(c, s0) && Feasible(c, s0, steps)
    ensures Refines(c, After(c, s0, steps))
  {
    if steps == [] {
    } else {
      var front, last := steps[..|steps| - 1], steps[|steps| - 1];
      RefinesRun(c, s0, front);
      RunInvariant(c, s0, front);
      RefinesStep(c, After(c, s0, front), last);
    }
  }

  /** A run of any instances with any faults shows the outside what some ideal run shows. */
  lemma RunRefines(c: Config, s0: State, steps: seq<Step>)
    requires Initial(c, s0) && Feasible(c, s0, steps)
    ensures var s := After(c, s0, steps);
            && c.start <= s.settled <= |c.log|
            && View(s) == SpecAfter(c, s.settled - c.start)
  {
    InitialInvariant(c, s0);
    assert View(s0).dlq == {};
    RefinesRun(c, s0, steps);
  }

  // --- A message that is never acknowledged --------------------------------------------------------

  /** `step` takes the message at `q` past its apply or its dead-letter publish without an error. */
  predicate Acknowledges(s: State, step: Step, q: nat) {
    && (step.Apply? || step.Publish?) && step.fate == Succeeds
    && step.i < |s.instances| && s.instances[step.i].position == q
  }

  predicate NeverAcknowledged(c: Config, s0: State, steps: seq<Step>, q: nat)
    requires Feasible(c, s0, steps)
    decreases |steps|
  {
    steps == [] ||
    var front := steps[..|steps| - 1];
    NeverAcknowledged(c, s0, front, q) && !Acknowledges(After(c, s0, front), steps[|steps| - 1], q)
  }

  ghost predicate Behind(s: State, q: nat) {
    && s.committed <= q
    && forall i :: 0 <= i < |s.instances| ==>
         s.instances[i].position <= q && (s.instances[i].position == q ==> s.instances[i].phase != Committing)
  }

  /**
   A message whose apply keeps failing, or whose dead-letter publish does, holds the commit at or
   below its own offset, however long the run.
   */
  lemma {:induction false} UnacknowledgedBlocks(c: Config, s0: State, steps: seq<Step>, q: nat)
    requires Initial(c, s0) && Feasible(c, s0, steps) && c.start <= q
    requires NeverAcknowledged(c, s0, steps, q)
    ensures Behind(After(c, s0, steps), q)
  {
    if steps == [] {
    } else {
      var front, last := steps[..|steps| - 1], steps[|steps| - 1];
      UnacknowledgedBlocks(c, s0, front, q);
      BehindStep(c, After(c, s0, front), last, q);
    }
  }

  lemma BehindStep(c: Config, s: State, step: Step, q: nat)
    requires Enabled(c, s, step) && Behind(s, q) && !Acknowledges(s, step, q)
    ensures Behind(Next(c, s, step), q)
  {
    assert s.instances[step.i].position <= q;
  }

  // --- Progress ------------------------------------------------------------------------------------

  predicate IsFault(step: Step) {
    match step
    case Apply(_, fate) => fate != Succeeds
    case Publish(_, fate) => fate != Succeeds
    case Commit(_, fate) => fate != Succeeds
    case Restart(_) => true
    case _ => false
  }

  function FaultOf(step: Step): nat {
    if IsFault(step) then 1 else 0
  }

  function Faults(steps: seq<Step>): nat {
    if steps == [] then 0 else Faults(steps[..|steps| - 1]) + FaultOf(steps[|steps| - 1])
  }

  function Advance(phase: Phase): int {
    match phase
    case Idle => 0
    case Validating(k) => k
    case Applying => 4
    case Publishing => 4
    case Committing => 5
  }

  /** Steps an instance has left when nothing fails, at most. */
  function Rank(c: Config, inst: Instance): int {
    6 * (|c.log| - inst.position) - Advance(inst.phase)
  }

  function Ranks(c: Config): Instance -> int {
    inst => Rank(c, inst)
  }

  function Work(c: Config, instances: seq<Instance>): int {
    Sum(Ranks(c), instances)
  }

  function MaxRank(c: Config): int {
    6 * (|c.log| - c.start)
  }

  lemma WorkBounds(c: Config, s: State)
    requires Invariant(c, s)
    ensures 0 <= Work(c, s.instances) <= |s.instances| * MaxRank(c)
  {
    forall i | 0 <= i < |s.instances|
      ensures 0 <= Ranks(c)(s.instances[i]) <= MaxRank(c)
    {
      assert InstanceOk(c, s, s.instances[i]);
    }
    SumBounds(Ranks(c), s.instances, MaxRank(c));
  }

  /** A step without a fault uses work up; a fault adds at most one pass over the log. */
  lemma StepWork(c: Config, s: State, step: Step)
    requires Invariant(c, s) && Enabled(c, s, step)
    ensures !IsFault(step) ==> Work(c, Next(c, s, step).instances) <= Work(c, s.instances) - 1
    ensures IsFault(step) ==> Work(c, Next(c, s, step).instances) <= Work(c, s.instances) + MaxRank(c)
  {
    var s' := Next(c, s, step);
    RankStep(c, s, step);
    assert s'.instances == s.instances[step.i := s'.instances[step.i]];
    SumUpdate(Ranks(c), s.instances, step.i, s'.instances[step.i]);
  }

  lemma RankStep(c: Config, s: State, step: Step)
    requires Invariant(c, s) && Enabled(c, s, step)
    ensures var rank, rank' := Rank(c, s.instances[step.i]), Rank(c, Next(c, s, step).instances[step.i]);
            if IsFault(step) then rank' <= rank + MaxRank(c) else rank' <= rank - 1
  {
    assert InstanceOk(c, s, s.instances[step.i]);
  }

  /** What the faults of a run can add to the work. */
  function Allowance(c: Config, steps: seq<Step>): int {
    if steps == [] then 0
    else Allowance(c, steps[..|steps| - 1]) + (if IsFault(steps[|steps| - 1]) then MaxRank(c) + 1 else 0)
  }

  lemma {:induction false} AllowanceByFaults(c: Config, steps: seq<Step>)
    ensures Allowance(c, steps) == Faults(steps) * (MaxRank(c) + 1)
  {
    if steps == [] {
    } else {
      var front := steps[..|steps| - 1];
      AllowanceByFaults(c, front);
      MulDistributes(Faults(front), Faults(steps) - Faults(front), MaxRank(c) + 1);
    }
  }

  lemma {:induction false} RunWork(c: Config, s0: State, steps: seq<Step>)
    requires Invariant(c, s0) && Feasible(c, s0, steps)
    ensures |steps| + Work(c, After(c, s0, steps).instances) <= Work(c, s0.instances) + Allowance(c, steps)
  {
    if steps == [] {
    } else {
      var front := steps[..|steps| - 1];
      RunWork(c, s0, front);
      RunInvariant(c, s0, front);
      StepWork(c, After(c, s0, front), steps[|steps| - 1]);
    }
  }

  /** Runs with finitely many faults are finite: this is how long they can be. */
  lemma RunsAreBounded(c: Config, s0: State, steps: seq<Step>)
    requires Initial(c, s0) && Feasible(c, s0, steps)
    ensures |steps| <= |s0.instances| * MaxRank(c) + Faults(steps) * (MaxRank(c) + 1)
  {
    InitialInvariant(c, s0);
    RunInvariant(c, s0, steps);
    RunWork(c, s0, steps);
    AllowanceByFaults(c, steps);
    WorkBounds(c, s0);
    WorkBounds(c, After(c, s0, steps));
  }

  /** Until the whole log is committed, some instance has messages before it. */
  ghost predicate SomeoneHasWork(c: Config, s: State) {
    s.committed == |c.log| || exists i :: 0 <= i < |s.instances| && s.instances[i].position < |c.log|
  }

  /** An instance with messages before it keeps them, or passes the last one and has committed it. */
  lemma StepKeepsWork(c: Config, s: State, step: Step)
    requires Invariant(c, s) && Enabled(c, s, step)
    ensures var inst, inst' := s.instances[step.i], Next(c, s, step).instances[step.i];
      inst.position < |c.log| && Next(c, s, step).committed != |c.log| ==> inst'.position < |c.log|
  {
    assert InstanceOk(c, s, s.instances[step.i]);
  }

  /** Whoever moves the committed offset, forwards or back, is not past it afterwards. */
  lemma StepMovesCommit(c: Config, s: State, step: Step)
    requires Invariant(c, s) && Enabled(c, s, step)
    ensures var s' := Next(c, s, step);
      s'.committed == s.committed || s'.instances[step.i].position <= s'.committed <= |c.log|
  {
    assert InstanceOk(c, s, s.instances[step.i]);
  }

  lemma StepKeepsWorkInSight(c: Config, s: State, step: Step)
    requires Invariant(c, s) && SomeoneHasWork(c, s) && Enabled(c, s, step)
    ensures SomeoneHasWork(c, Next(c, s, step))
  {
    var s' := Next(c, s, step);
    StepKeepsWork(c, s, step);
    StepMovesCommit(c, s, step);
    if s.committed != |c.log| {
      var i :| 0 <= i < |s.instances| && s.instances[i].position < |c.log|;
      assert i != step.i ==> s'.instances[i] == s.instances[i];
    }
  }

  lemma {:induction false} RunKeepsWorkInSight(c: Config, s0: State, steps: seq<Step>)
    requires Initial(c, s0) && |s0.instances| > 0 && Feasible(c, s0, steps)
    ensures SomeoneHasWork(c, After(c, s0, steps))
  {
    InitialInvariant(c, s0);
    if steps == [] {
      assert s0.instances[0].position == c.start;
    } else {
      var front := steps[..|steps| - 1];
      RunKeepsWorkInSight(c, s0, front);
      RunInvariant(c, s0, front);
      StepKeepsWorkInSight(c, After(c, s0, front), steps[|steps| - 1]);
    }
  }

  /** The step an instance takes next when nothing fails. */
  function NextStep(c: Config, s: State, i: nat): Step
    requires i < |s.instances|
  {
    match s.instances[i].phase
    case Idle => Deliver(i)
    case Validating(_) => Validate(i)
    case Applying => Apply(i, Succeeds)
    case Publishing => Publish(i, Succeeds)
    case Committing => Commit(i, Succeeds)
  }

  lemma ProgressPossible(c: Config, s: State) returns (step: Step)
    requires Invariant(c, s) && SomeoneHasWork(c, s) && s.committed != |c.log|
    ensures Enabled(c, s, step) && !IsFault(step)
  {
    var i :| 0 <= i < |s.instances| && s.instances[i].position < |c.log|;
    assert InstanceOk(c, s, s.instances[i]);
    step := NextStep(c, s, i);
  }

  /**
   Progress: a run in which only faults are left to happen has committed the whole log, poison
   messages included. With `RunsAreBounded`, finitely many faults always lead there.
   */
  lemma MaximalRunCommitsAll(c: Config, s0: State, steps: seq<Step>)
    requires Initial(c, s0) && |s0.instances| > 0 && Feasible(c, s0, steps)
    requires forall step :: Enabled(c, After(c, s0, steps), step) ==> IsFault(step)
    ensures After(c, s0, steps).committed == |c.log|
  {
    var s := After(c, s0, steps);
    InitialInvariant(c, s0);
    RunInvariant(c, s0, steps);
    RunKeepsWorkInSight(c, s0, steps);
    if s.committed != |c.log| {
      var step := ProgressPossible(c, s);
    }
  }

  // --- One instance: work is repeated only because of faults ---------------------------------------

  function EffectOf(step: Step): nat {
    if (step.Apply? || step.Publish?) && step.fate.Takes() then 1 else 0
  }

  /** Applies and publishes that took effect. */
  function Effects(steps: seq<Step>): nat {
    if steps == [] then 0 else Effects(steps[..|steps| - 1]) + EffectOf(steps[|steps| - 1])
  }

  function PoisonCount(log: seq<Message>): nat {
    if log == [] then 0
    else PoisonCount(log[..|log| - 1]) + (if log[|log| - 1].Poison? then 1 else 0)
  }

  /** One instance, whose position is the committed offset or, after an unclear commit, just below. */
  ghost predicate Alone(c: Config, s: State) {
    && |s.instances| == 1
    && var inst := s.instances[0];
       && c.start <= inst.position <= s.committed <= inst.position + 1
       && s.committed <= |c.log|
       && (inst.phase == Committing ==> inst.position < |c.log|)
  }

  lemma AloneStep(c: Config, s: State, step: Step)
    requires Invariant(c, s) && Enabled(c, s, step) && Alone(c, s)
    ensures Alone(c, Next(c, s, step))
  {
    assert InstanceOk(c, s, s.instances[0]);
  }

  /** What one instance may have done so far, given how many faults there were. */
  ghost predicate EffectsAccounted(c: Config, s: State, effects: nat, faults: nat)
    requires Alone(c, s)
  {
    var inst := s.instances[0];
    effects <= inst.position - c.start + faults + (if inst.phase == Committing then 1 else 0)
  }

  ghost predicate RecordsAccounted(c: Config, s: State, faults: nat)
    requires Alone(c, s)
  {
    var inst := s.instances[0];
    |s.dlq| <= PoisonCount(c.log[c.start..inst.position]) + faults
             + (if inst.phase == Committing && c.log[inst.position].Poison? then 1 else 0)
  }

  lemma PoisonCountNext(c: Config, p: nat)
    requires c.start <= p < |c.log|
    ensures PoisonCount(c.log[c.start..p + 1])
         == PoisonCount(c.log[c.start..p]) + (if c.log[p].Poison? then 1 else 0)
  {
    assert c.log[c.start..p + 1][..p - c.start] == c.log[c.start..p];
  }

  lemma EffectsStep(c: Config, s: State, step: Step, effects: nat, faults: nat)
    requires Invariant(c, s) && Enabled(c, s, step)
    requires Alone(c, s) && Alone(c, Next(c, s, step)) && EffectsAccounted(c, s, effects, faults)
    ensures EffectsAccounted(c, Next(c, s, step), effects + EffectOf(step), faults + FaultOf(step))
  {
    assert InstanceOk(c, s, s.instances[0]);
  }

  lemma RecordsStep(c: Config, s: State, step: Step, faults: nat)
    requires Invariant(c, s) && Enabled(c, s, step)
    requires Alone(c, s) && Alone(c, Next(c, s, step)) && RecordsAccounted(c, s, faults)
    ensures RecordsAccounted(c, Next(c, s, step), faults + FaultOf(step))
  {
    match step
    case Commit(_, fate) => RecordsCommit(c, s, fate, faults);
    case Restart(_) => RecordsRestart(c, s, faults);
    case _ => assert InstanceOk(c, s, s.instances[0]);
  }

  lemma RecordsCommit(c: Config, s: State, fate: Fate, faults: nat)
    requires Invariant(c, s) && Alone(c, s) && Enabled(c, s, Commit(0, fate))
    requires Alone(c, Next(c, s, Commit(0, fate))) && RecordsAccounted(c, s, faults)
    ensures RecordsAccounted(c, Next(c, s, Commit(0, fate)), faults + FaultOf(Commit(0, fate)))
  {
    PoisonCountNext(c, s.instances[0].position);
  }

  lemma RecordsRestart(c: Config, s: State, faults: nat)
    requires Invariant(c, s) && Alone(c, s)
    requires Alone(c, Next(c, s, Restart(0))) && RecordsAccounted(c, s, faults)
    ensures RecordsAccounted(c, Next(c, s, Restart(0)), faults + 1)
  {
    var p := s.instances[0].position;
    if s.committed > p { PoisonCountNext(c, p); }
  }

  lemma {:induction false} RunAccounted(c: Config, s0: State, steps: seq<Step>)
    requires Initial(c, s0) && |s0.instances| == 1 && Feasible(c, s0, steps)
    ensures Alone(c, After(c, s0, steps))
    ensures EffectsAccounted(c, After(c, s0, steps), Effects(steps), Faults(steps))
    ensures RecordsAccounted(c, After(c, s0, steps), Faults(steps))
  {
    InitialInvariant(c, s0);
    if steps == [] {
    } else {
      var front, last := steps[..|steps| - 1], steps[|steps| - 1];
      var s := After(c, s0, front);
      RunAccounted(c, s0, front);
      RunInvariant(c, s0, front);
      AloneStep(c, s, last);
      EffectsStep(c, s, last, Effects(front), Faults(front));
      RecordsStep(c, s, last, Faults(front));
    }
  }

  lemma {:induction false} PoisonCountMonotone(log: seq<Message>, p: nat)
    requires p <= |log|
    ensures PoisonCount(log[..p]) <= PoisonCount(log)
    decreases |log|
  {
    if p < |log| {
      PoisonCountMonotone(log[..|log| - 1], p);
      assert log[..|log| - 1][..p] == log[..p];
    } else {
      assert log[..p] == log;
    }
  }

  /**
   Replay bound, for one instance: completed processings are at most messages plus faults, and
   dead-letter records at most poison messages plus faults.
   */
  lemma ReplayBound(c: Config, s0: State, steps: seq<Step>)
    requires Initial(c, s0) && |s0.instances| == 1 && Feasible(c, s0, steps)
    ensures Effects(steps) <= |c.log| - c.start + Faults(steps)
    ensures |After(c, s0, steps).dlq| <= PoisonCount(c.log[c.start..]) + Faults(steps)
  {
    RunAccounted(c, s0, steps);
    var s := After(c, s0, steps);
    var p := s.instances[0].position;
    var rest := c.log[c.start..];
    assert rest[..p - c.start] == c.log[c.start..p];
    PoisonCountMonotone(rest, p - c.start);
    if p < |c.log| {
      PoisonCountNext(c, p);
      assert rest[..p + 1 - c.start] == c.log[c.start..p + 1];
      PoisonCountMonotone(rest, p + 1 - c.start);
    }
  }
}
