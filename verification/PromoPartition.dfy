/**
 One partition of the promo-code request topic under any number of consumer instances. The whole
 pipeline is attempted three times, any exhausted failure is dead-lettered, and the client library
 commits resolved offsets by itself, at moments of its own choosing.
 */
module PromoPartition {
  import opened Common
  import opened Numbers
  import opened Retry
  import opened Sums

  const MAX_PROCESSING_ATTEMPTS: nat := 3

  /** The identity under which at most one code may exist. */
  type CodeKey = string

  /** A log entry: a request whose envelope and payload parse, or one that never will. */
  datatype Message = Request(key: CodeKey) | Malformed

  datatype Row = Row(key: CodeKey, code: string)

  /**
   One call of `generateCode`: it returns or throws, and it may have a code to insert; a business
   failure returns without one, a lost connection may throw after inserting it.
   */
  datatype Generation = Generation(completes: bool, code: Option<string>)

  datatype Phase = Idle | Attempting(attempt: nat) | Publishing

  /** `resolved` is the next offset; `dirty` says it has not been committed since it moved. */
  datatype Instance = Instance(resolved: nat, phase: Phase, dirty: bool)

  datatype State = State(
    instances: seq<Instance>,
    committed: nat,
    acked: set<nat>,
    dlq: seq<nat>,
    rows: seq<Row>)

  /** The log, where the group starts in it, and the codes the service has issued before. */
  datatype Config = Config(log: seq<Message>, start: nat, rows: seq<Row>)

  datatype Step =
    | Deliver(i: nat)
    | Attempt(i: nat, g: Generation)
    | Publish(i: nat, fate: Fate)
    | AutoCommit(i: nat, fate: Fate)
    | Restart(i: nat)

  predicate HasRow(rows: seq<Row>, key: CodeKey) {
    exists k :: 0 <= k < |rows| && rows[k].key == key
  }

  /** The unique index on the correlation id: an insert for a key that has a row finds that row. */
  function Issue(rows: seq<Row>, key: CodeKey, g: Generation): seq<Row> {
    if g.code.None? || HasRow(rows, key) then rows else rows + [Row(key, g.code.value)]
  }

  predicate Enabled(c: Config, s: State, step: Step) {
    step.i < |s.instances| &&
    var inst := s.instances[step.i];
    match step
    case Deliver(_) => inst.phase == Idle && inst.resolved < |c.log|
    case Attempt(_, g) =>
      // A malformed message throws before `generateCode` is reached.
      inst.phase.Attempting? && inst.resolved < |c.log|
      && (c.log[inst.resolved].Malformed? ==> g == Generation(false, None))
    case Publish(_, _) => inst.phase == Publishing && inst.resolved < |c.log|
    case AutoCommit(_, _) => inst.dirty
    case Restart(_) => true
  }

  function WithInstance(s: State, i: nat, inst: Instance): State
    requires i < |s.instances|
  {
    s.(instances := s.instances[i := inst])
  }

  function Next(c: Config, s: State, step: Step): (s': State)
    requires Enabled(c, s, step)
    ensures |s'.instances| == |s.instances|
  {
    var i, inst := step.i, s.instances[step.i];
    var onward := Instance(inst.resolved + 1, Idle, true);
    match step
    case Deliver(_) => WithInstance(s, i, inst.(phase := Attempting(1)))
    case Attempt(_, g) =>
      var m := c.log[inst.resolved];
      var issued := if m.Request? then s.(rows := Issue(s.rows, m.key, g)) else s;
      if g.completes then WithInstance(issued, i, onward).(acked := s.acked + {inst.resolved})
      else if inst.phase.attempt < MAX_PROCESSING_ATTEMPTS
      then WithInstance(issued, i, inst.(phase := Attempting(inst.phase.attempt + 1)))
      else WithInstance(issued, i, inst.(phase := Publishing))
    case Publish(_, fate) =>
      var after := WithInstance(s, i, if fate == Succeeds then onward else inst.(phase := Idle));
      if fate.Takes() then after.(dlq := s.dlq + [inst.resolved]) else after
    case AutoCommit(_, fate) =>
      var after := WithInstance(s, i, inst.(dirty := fate != Succeeds));
      if fate.Takes() then after.(committed := inst.resolved) else after
    case Restart(_) => WithInstance(s, i, Instance(s.committed, Idle, false))
  }

  ghost predicate Initial(c: Config, s: State) {
    && c.start <= |c.log| && s.committed == c.start
    && s.acked == {} && s.dlq == [] && s.rows == c.rows && RowsUnique(c.rows)
    && forall i :: 0 <= i < |s.instances| ==> s.instances[i] == Instance(c.start, Idle, false)
  }

  predicate Feasible(c: Config, s: State, steps: seq<Step>)
    decreases |steps|, 0
  {
    steps == [] ||
    (Feasible(c, s, steps[..|steps| - 1]) &&
     Enabled(c, After(c, s, steps[..|steps| - 1]), steps[|steps| - 1]))
  }

  function After(c: Config, s: State, steps: seq<Step>): (s': State)
    requires Feasible(c, s, steps)
    ensures |s'.instances| == |s.instances|
    decreases |steps|, 1
  {
    if steps == [] then s
    else Next(c, After(c, s, steps[..|steps| - 1]), steps[|steps| - 1])
  }

  lemma AfterOneMore(c: Config, s: State, steps: seq<Step>, step: Step)
    requires Feasible(c, s, steps) && Enabled(c, After(c, s, steps), step)
    ensures Feasible(c, s, steps + [step])
    ensures After(c, s, steps + [step]) == Next(c, After(c, s, steps), step)
  {
    assert (steps + [step])[..|steps|] == steps;
  }

  /** An instance may crash at any point. It loses its place alone, and goes on at the committed offset. */
  lemma CrashAnywhere(c: Config, s: State, steps: seq<Step>, i: nat)
    requires Feasible(c, s, steps) && i < |s.instances|
    ensures Feasible(c, s, steps + [Restart(i)])
    ensures var before := After(c, s, steps);
      After(c, s, steps + [Restart(i)])
      == before.(instances := before.instances[i := Instance(before.committed, Idle, false)])
  {
    AfterOneMore(c, s, steps, Restart(i));
  }

  /** An instance that moved may have its offset committed at any point, also while it is busy. */
  lemma CommitAnywhere(c: Config, s: State, steps: seq<Step>, i: nat, fate: Fate)
    requires Feasible(c, s, steps) && i < |s.instances| && After(c, s, steps).instances[i].dirty
    ensures Feasible(c, s, steps + [AutoCommit(i, fate)])
    ensures var before := After(c, s, steps);
      After(c, s, steps + [AutoCommit(i, fate)])
      == before.(instances := before.instances[i := before.instances[i].(dirty := fate != Succeeds)],
                 committed := if fate.Takes() then before.instances[i].resolved else before.committed)
  {
    AfterOneMore(c, s, steps, AutoCommit(i, fate));
  }

  /** A publish may fail with its effect or without; the message is then handed out again. */
  lemma PublishLeaves(c: Config, s: State, i: nat, fate: Fate)
    requires Enabled(c, s, Publish(i, fate))
    ensures var p, s' := s.instances[i].resolved, Next(c, s, Publish(i, fate));
      && s'.dlq == s.dlq + (if fate == FailsBefore then [] else [p])
      && s'.instances[i] == (if fate == Succeeds then Instance(p + 1, Idle, true) else s.instances[i].(phase := Idle))
      && (s'.committed, s'.acked, s'.rows) == (s.committed, s.acked, s.rows)
  {
  }

  // --- The invariant -------------------------------------------------------------------------------

  /** Acknowledged by a returned call, or recorded on the dead-letter topic. */
  ghost predicate SettledBelow(c: Config, s: State, p: nat) {
    && c.start <= p <= |c.log|
    && forall o :: c.start <= o < p ==> o in s.acked || o in s.dlq
  }

  ghost predicate InstanceOk(c: Config, s: State, inst: Instance) {
    && SettledBelow(c, s, inst.resolved)
    && (inst.phase != Idle ==> inst.resolved < |c.log|)
    && (inst.phase.Attempting? ==> 1 <= inst.phase.attempt <= MAX_PROCESSING_ATTEMPTS)
  }

  ghost predicate RowsUnique(rows: seq<Row>) {
    forall j, k :: 0 <= j < k < |rows| ==> rows[j].key != rows[k].key
  }

  /** There was a code under `key` before, or some message of the log asked for one. */
  ghost predicate Requested(c: Config, key: CodeKey) {
    HasRow(c.rows, key) || exists o :: c.start <= o < |c.log| && c.log[o] == Request(key)
  }

  ghost predicate RowsOk(c: Config, rows: seq<Row>) {
    RowsUnique(rows) && forall k :: 0 <= k < |rows| ==> Requested(c, rows[k].key)
  }

  ghost predicate Invariant(c: Config, s: State) {
    && SettledBelow(c, s, s.committed)
    && (forall i :: 0 <= i < |s.instances| ==> InstanceOk(c, s, s.instances[i]))
    && (forall o :: o in s.acked ==> c.start <= o < |c.log| && c.log[o].Request?)
    && (forall o :: o in s.dlq ==> c.start <= o < |c.log|)
    && RowsOk(c, s.rows)
  }

  lemma SettledGrows(c: Config, s: State, step: Step, p: nat)
    requires Enabled(c, s, step) && SettledBelow(c, s, p)
    ensures SettledBelow(c, Next(c, s, step), p)
  {
    var s' := Next(c, s, step);
    assert s.acked <= s'.acked;
    assert forall o :: o in s.dlq ==> o in s'.dlq;
  }

  lemma StepMovesOne(c: Config, s: State, step: Step)
    requires Invariant(c, s) && Enabled(c, s, step)
    ensures InstanceOk(c, Next(c, s, step), Next(c, s, step).instances[step.i])
    ensures SettledBelow(c, Next(c, s, step), Next(c, s, step).committed)
  {
    var inst := s.instances[step.i];
    assert InstanceOk(c, s, inst);
    SettledGrows(c, s, step, inst.resolved);
    SettledGrows(c, s, step, s.committed);
  }

  lemma IssueKeepsRows(c: Config, rows: seq<Row>, key: CodeKey, g: Generation)
    requires RowsOk(c, rows) && Requested(c, key)
    ensures RowsOk(c, Issue(rows, key, g))
    ensures rows <= Issue(rows, key, g)
  {
  }

  lemma StepRows(c: Config, s: State, step: Step)
    requires Invariant(c, s) && Enabled(c, s, step)
    ensures RowsOk(c, Next(c, s, step).rows)
    ensures s.rows <= Next(c, s, step).rows
  {
    var inst := s.instances[step.i];
    assert InstanceOk(c, s, inst);
    if step.Attempt? && c.log[inst.resolved].Request? {
      assert Requested(c, c.log[inst.resolved].key);
      IssueKeepsRows(c, s.rows, c.log[inst.resolved].key, step.g);
    }
  }

  lemma StepInvariant(c: Config, s: State, step: Step)
    requires Invariant(c, s) && Enabled(c, s, step)
    ensures Invariant(c, Next(c, s, step))
    ensures s.rows <= Next(c, s, step).rows
  {
    var s', inst := Next(c, s, step), s.instances[step.i];
    assert InstanceOk(c, s, inst);
    StepMovesOne(c, s, step);
    StepRows(c, s, step);
    forall i | 0 <= i < |s.instances| && i != step.i
      ensures InstanceOk(c, s', s'.instances[i])
    {
      assert InstanceOk(c, s, s.instances[i]);
      SettledGrows(c, s, step, s.instances[i].resolved);
    }
  }

  lemma InitialInvariant(c: Config, s: State)
    requires Initial(c, s)
    ensures Invariant(c, s)
  {
    assert forall k :: 0 <= k < |c.rows| ==> HasRow(c.rows, c.rows[k].key);
  }

  lemma {:induction false} RunInvariant(c: Config, s: State, steps: seq<Step>)
    requires Invariant(c, s) && Feasible(c, s, steps)
    ensures Invariant(c, After(c, s, steps))
    ensures s.rows <= After(c, s, steps).rows
  {
    if steps == [] {
    } else {
      RunInvariant(c, s, steps[..|steps| - 1]);
      StepInvariant(c, After(c, s, steps[..|steps| - 1]), steps[|steps| - 1]);
    }
  }

  // --- Safety --------------------------------------------------------------------------------------

  /**
   However often messages are redelivered and however calls fail, a committed offset was settled,
   only a request is ever acknowledged, the codes issued before stay, new ones exist only under
   correlation ids some message asked for, and no correlation id gets a second code or a changed one.
   */
  lemma Safety(c: Config, s0: State, steps: seq<Step>, more: seq<Step>)
    requires Initial(c, s0) && Feasible(c, s0, steps)
    requires Feasible(c, After(c, s0, steps), more)
    ensures var s, s' := After(c, s0, steps), After(c, After(c, s0, steps), more);
            && c.start <= s.committed <= |c.log|
            && (forall o :: c.start <= o < s.committed ==> o in s.acked || o in s.dlq)
            && (forall o :: o in s.acked ==> o < |c.log| && c.log[o].Request?)
            && c.rows <= s.rows && (forall j :: 0 <= j < |s.rows| ==> Requested(c, s.rows[j].key))
            && (forall j, k ::
                  0 <= j < |s.rows| && 0 <= k < |s'.rows| && s.rows[j].key == s'.rows[k].key ==>
                    j == k && s.rows[j] == s'.rows[k])
  {
    InitialInvariant(c, s0);
    RunInvariant(c, s0, steps);
    RunInvariant(c, After(c, s0, steps), more);
  }

  /** `step` settles the message at `q` without an error: a returned call or a published record. */
  predicate Resolves(s: State, step: Step, q: nat) {
    && step.i < |s.instances| && s.instances[step.i].resolved == q
    && ((step.Attempt? && step.g.completes) || (step.Publish? && step.fate == Succeeds))
  }

  predicate NeverResolved(c: Config, s0: State, steps: seq<Step>, q: nat)
    requires Feasible(c, s0, steps)
    decreases |steps|
  {
    steps == [] ||
    var front := steps[..|steps| - 1];
    NeverResolved(c, s0, front, q) && !Resolves(After(c, s0, front), steps[|steps| - 1], q)
  }

  ghost predicate Behind(s: State, q: nat) {
    s.committed <= q && forall i :: 0 <= i < |s.instances| ==> s.instances[i].resolved <= q
  }

  lemma BehindStep(c: Config, s: State, step: Step, q: nat)
    requires Enabled(c, s, step) && Behind(s, q) && !Resolves(s, step, q)
    ensures Behind(Next(c, s, step), q)
  {
    assert s.instances[step.i].resolved <= q;
  }

  /** A message whose calls all throw and whose publish fails stays unsettled and uncommitted. */
  lemma {:induction false} UnresolvedBlocks(c: Config, s0: State, steps: seq<Step>, q: nat)
    requires Initial(c, s0) && Feasible(c, s0, steps) && c.start <= q
    requires NeverResolved(c, s0, steps, q)
    ensures Behind(After(c, s0, steps), q)
  {
    if steps == [] {
    } else {
      var front := steps[..|steps| - 1];
      UnresolvedBlocks(c, s0, front, q);
      BehindStep(c, After(c, s0, front), steps[|steps| - 1], q);
    }
  }

  // --- Accounting of calls -------------------------------------------------------------------------

  function Attempts(steps: seq<Step>): nat {
    if steps == [] then 0
    else Attempts(steps[..|steps| - 1]) + (if steps[|steps| - 1].Attempt? then 1 else 0)
  }

  function Deliveries(steps: seq<Step>): nat {
    if steps == [] then 0
    else Deliveries(steps[..|steps| - 1]) + (if steps[|steps| - 1].Deliver? then 1 else 0)
  }

  function RemainingOf(inst: Instance): int {
    if inst.phase.Attempting? then MAX_PROCESSING_ATTEMPTS + 1 - inst.phase.attempt else 0
  }

  /** Attempts the deliveries in progress may still make. */
  function Remaining(s: State): int {
    Sum(RemainingOf, s.instances)
  }

  lemma AttemptsStep(c: Config, s: State, step: Step)
    requires Invariant(c, s) && Enabled(c, s, step)
    ensures Remaining(Next(c, s, step)) + (if step.Attempt? then 1 else 0)
         <= Remaining(s) + (if step.Deliver? then MAX_PROCESSING_ATTEMPTS else 0)
  {
    var s' := Next(c, s, step);
    assert InstanceOk(c, s, s.instances[step.i]);
    assert s'.instances == s.instances[step.i := s'.instances[step.i]];
    SumUpdate(RemainingOf, s.instances, step.i, s'.instances[step.i]);
  }

  lemma {:induction false} AttemptsRun(c: Config, s0: State, steps: seq<Step>)
    requires Initial(c, s0) && Feasible(c, s0, steps)
    ensures Attempts(steps) + Remaining(After(c, s0, steps))
         <= MAX_PROCESSING_ATTEMPTS * Deliveries(steps)
  {
    InitialInvariant(c, s0);
    if steps == [] {
      SumBounds(RemainingOf, s0.instances, 0);
    } else {
      var front := steps[..|steps| - 1];
      AttemptsRun(c, s0, front);
      RunInvariant(c, s0, front);
      AttemptsStep(c, After(c, s0, front), steps[|steps| - 1]);
    }
  }

  /** Over a whole run, the pipeline is attempted at most three times per delivery. */
  lemma AtMostThreePerDelivery(c: Config, s0: State, steps: seq<Step>)
    requires Initial(c, s0) && Feasible(c, s0, steps)
    ensures Attempts(steps) <= MAX_PROCESSING_ATTEMPTS * Deliveries(steps)
  {
    InitialInvariant(c, s0);
    AttemptsRun(c, s0, steps);
    RunInvariant(c, s0, steps);
    var s := After(c, s0, steps);
    forall i | 0 <= i < |s.instances|
      ensures 0 <= RemainingOf(s.instances[i]) <= MAX_PROCESSING_ATTEMPTS
    {
      assert InstanceOk(c, s, s.instances[i]);
    }
    SumBounds(RemainingOf, s.instances, MAX_PROCESSING_ATTEMPTS);
  }

  // --- Each single delivery ------------------------------------------------------------------------

  /** What instance `i` is dealing with: the offset it was handed, and its attempts since. */
  datatype Delivery = Nothing | Delivery(offset: nat, tries: seq<Generation>)

  function Current(c: Config, s0: State, steps: seq<Step>, i: nat): Delivery
    requires Feasible(c, s0, steps) && i < |s0.instances|
    decreases |steps|
  {
    if steps == [] then Nothing
    else
      var front, last := steps[..|steps| - 1], steps[|steps| - 1];
      var before := Current(c, s0, front, i);
      if last.i != i then before
      else
        match last
        case Deliver(_) => Delivery(After(c, s0, front).instances[i].resolved, [])
        case Attempt(_, g) => if before.Delivery? then before.(tries := before.tries + [g]) else before
        case Restart(_) => Nothing
        case _ => before
  }

  ghost predicate AllThrew(tries: seq<Generation>) {
    forall k :: 0 <= k < |tries| ==> !tries[k].completes
  }

  /** While an instance is busy, its delivery so far is a number of attempts that all threw. */
  ghost predicate DeliveryOk(inst: Instance, d: Delivery) {
    match inst.phase
    case Idle => true
    case Attempting(k) => d.Delivery? && d.offset == inst.resolved && |d.tries| + 1 == k && AllThrew(d.tries)
    case Publishing =>
      d.Delivery? && d.offset == inst.resolved && |d.tries| == MAX_PROCESSING_ATTEMPTS && AllThrew(d.tries)
  }

  lemma DeliveryStep(c: Config, s0: State, steps: seq<Step>, i: nat)
    requires steps != [] && Feasible(c, s0, steps) && i < |s0.instances|
    requires Invariant(c, After(c, s0, steps[..|steps| - 1]))
    requires DeliveryOk(After(c, s0, steps[..|steps| - 1]).instances[i], Current(c, s0, steps[..|steps| - 1], i))
    ensures DeliveryOk(After(c, s0, steps).instances[i], Current(c, s0, steps, i))
  {
    var front := steps[..|steps| - 1];
    var s := After(c, s0, front);
    assert InstanceOk(c, s, s.instances[i]);
    if steps[|steps| - 1].i != i {
      assert After(c, s0, steps).instances[i] == s.instances[i];
    }
  }

  lemma {:induction false} DeliveryRun(c: Config, s0: State, steps: seq<Step>, i: nat)
    requires Initial(c, s0) && Feasible(c, s0, steps) && i < |s0.instances|
    ensures DeliveryOk(After(c, s0, steps).instances[i], Current(c, s0, steps, i))
  {
    if steps == [] {
    } else {
      var front := steps[..|steps| - 1];
      DeliveryRun(c, s0, front, i);
      InitialInvariant(c, s0);
      RunInvariant(c, s0, front);
      DeliveryStep(c, s0, steps, i);
    }
  }

  lemma {:induction false} FeasiblePrefix(c: Config, s0: State, steps: seq<Step>, j: nat)
    requires Feasible(c, s0, steps) && j <= |steps|
    ensures Feasible(c, s0, steps[..j])
    ensures j < |steps| ==> Enabled(c, After(c, s0, steps[..j]), steps[j])
  {
    if j == |steps| {
      assert steps[..j] == steps;
    } else if j == |steps| - 1 {
    } else {
      FeasiblePrefix(c, s0, steps[..|steps| - 1], j);
      assert steps[..|steps| - 1][..j] == steps[..j];
    }
  }

  /**
   At every point of a run with crashes and redelivery: a delivery makes an attempt only after fewer
   than three, none of which returned, and a publish only after exactly three that threw.
   */
  lemma EachDelivery(c: Config, s0: State, steps: seq<Step>, j: nat)
    requires Initial(c, s0) && Feasible(c, s0, steps) && j < |steps|
    ensures Feasible(c, s0, steps[..j]) && steps[j].i < |s0.instances|
    ensures var d, at := Current(c, s0, steps[..j], steps[j].i), After(c, s0, steps[..j]).instances[steps[j].i];
      && (steps[j].Attempt? ==>
            d.Delivery? && d.offset == at.resolved && |d.tries| < MAX_PROCESSING_ATTEMPTS && AllThrew(d.tries))
      && (steps[j].Publish? ==>
            d.Delivery? && d.offset == at.resolved && |d.tries| == MAX_PROCESSING_ATTEMPTS && AllThrew(d.tries))
  {
    FeasiblePrefix(c, s0, steps, j);
    DeliveryRun(c, s0, steps[..j], steps[j].i);
    InitialInvariant(c, s0);
    RunInvariant(c, s0, steps[..j]);
    var s := After(c, s0, steps[..j]);
    assert InstanceOk(c, s, s.instances[steps[j].i]);
  }

  /** Step `j` publishes a record for `o`, or acknowledges it. */
  ghost predicate Records(c: Config, s0: State, steps: seq<Step>, j: nat, o: nat)
    requires Feasible(c, s0, steps)
  {
    && j < |steps| && steps[j].Publish? && steps[j].fate.Takes() && Feasible(c, s0, steps[..j])
    && steps[j].i < |s0.instances| && After(c, s0, steps[..j]).instances[steps[j].i].resolved == o
  }

  ghost predicate Acknowledges(c: Config, s0: State, steps: seq<Step>, j: nat, o: nat)
    requires Feasible(c, s0, steps)
  {
    && j < |steps| && steps[j].Attempt? && steps[j].g.completes && Feasible(c, s0, steps[..j])
    && steps[j].i < |s0.instances| && After(c, s0, steps[..j]).instances[steps[j].i].resolved == o
  }

  lemma {:induction false} RecordHasStep(c: Config, s0: State, steps: seq<Step>, o: nat) returns (j: nat)
    requires Initial(c, s0) && Feasible(c, s0, steps) && o in After(c, s0, steps).dlq
    ensures Records(c, s0, steps, j, o)
  {
    var front, last := steps[..|steps| - 1], steps[|steps| - 1];
    if o in After(c, s0, front).dlq {
      j := RecordHasStep(c, s0, front, o);
      assert front[..j] == steps[..j];
    } else {
      j := |steps| - 1;
    }
  }

  lemma {:induction false} AckHasStep(c: Config, s0: State, steps: seq<Step>, o: nat) returns (j: nat)
    requires Initial(c, s0) && Feasible(c, s0, steps) && o in After(c, s0, steps).acked
    ensures Acknowledges(c, s0, steps, j, o)
  {
    var front, last := steps[..|steps| - 1], steps[|steps| - 1];
    if o in After(c, s0, front).acked {
      j := AckHasStep(c, s0, front, o);
      assert front[..j] == steps[..j];
    } else {
      j := |steps| - 1;
    }
  }

  /**
   What stands on the dead-letter topic had a delivery of its own message all of whose three attempts
   threw; what was acknowledged had one whose last attempt returned, after at most two that threw.
   */
  lemma SettledByDelivery(c: Config, s0: State, steps: seq<Step>, o: nat)
    requires Initial(c, s0) && Feasible(c, s0, steps)
    ensures o in After(c, s0, steps).dlq ==>
      exists j: nat :: Records(c, s0, steps, j, o) &&
        var d := Current(c, s0, steps[..j], steps[j].i);
        d.Delivery? && d.offset == o && |d.tries| == MAX_PROCESSING_ATTEMPTS && AllThrew(d.tries)
    ensures o in After(c, s0, steps).acked ==>
      exists j: nat :: Acknowledges(c, s0, steps, j, o) &&
        var d := Current(c, s0, steps[..j], steps[j].i);
        d.Delivery? && d.offset == o && |d.tries| < MAX_PROCESSING_ATTEMPTS && AllThrew(d.tries)
  {
    if o in After(c, s0, steps).dlq {
      var j := RecordHasStep(c, s0, steps, o);
      EachDelivery(c, s0, steps, j);
    }
    if o in After(c, s0, steps).acked {
      var j := AckHasStep(c, s0, steps, o);
      EachDelivery(c, s0, steps, j);
    }
  }

  // --- Progress ------------------------------------------------------------------------------------

  /** Failing attempts are not faults here: they end on the dead-letter topic. */
  predicate IsFault(step: Step) {
    match step
    case Publish(_, fate) => fate != Succeeds
    case AutoCommit(_, fate) => fate != Succeeds
    case Restart(_) => true
    case _ => false
  }

  function Faults(steps: seq<Step>): nat {
    if steps == [] then 0
    else Faults(steps[..|steps| - 1]) + (if IsFault(steps[|steps| - 1]) then 1 else 0)
  }

  /** Steps an instance has left when nothing fails, at most. */
  function Rank(c: Config, inst: Instance): int {
    6 * (|c.log| - inst.resolved) + (if inst.dirty then 1 else 0)
    - (match inst.phase case Idle => 0 case Attempting(k) => k case Publishing => 4)
  }

  function Ranks(c: Config): Instance -> int {
    inst => Rank(c, inst)
  }

  function Work(c: Config, s: State): int {
    Sum(Ranks(c), s.instances)
  }

  function MaxRank(c: Config): int {
    6 * (|c.log| - c.start) + 1
  }

  lemma RankStep(c: Config, s: State, step: Step)
    requires Invariant(c, s) && Enabled(c, s, step)
    ensures var rank, rank' := Rank(c, s.instances[step.i]), Rank(c, Next(c, s, step).instances[step.i]);
            if IsFault(step) then rank' <= rank + MaxRank(c) else rank' <= rank - 1
  {
    assert InstanceOk(c, s, s.instances[step.i]);
  }

  /** A step without a fault uses work up; a fault adds at most one pass over the log. */
  lemma StepWork(c: Config, s: State, step: Step)
    requires Invariant(c, s) && Enabled(c, s, step)
    ensures !IsFault(step) ==> Work(c, Next(c, s, step)) <= Work(c, s) - 1
    ensures IsFault(step) ==> Work(c, Next(c, s, step)) <= Work(c, s) + MaxRank(c)
  {
    var s' := Next(c, s, step);
    RankStep(c, s, step);
    assert s'.instances == s.instances[step.i := s'.instances[step.i]];
    SumUpdate(Ranks(c), s.instances, step.i, s'.instances[step.i]);
  }

  lemma WorkBounds(c: Config, s: State)
    requires Invariant(c, s)
    ensures 0 <= Work(c, s) <= |s.instances| * MaxRank(c)
  {
    forall i | 0 <= i < |s.instances|
      ensures 0 <= Ranks(c)(s.instances[i]) <= MaxRank(c)
    {
      assert InstanceOk(c, s, s.instances[i]);
    }
    SumBounds(Ranks(c), s.instances, MaxRank(c));
  }

  /** What the faults of a run can add to the work. */
  function Allowance(c: Config, steps: seq<Step>): int {
    if steps == [] then 0
    else Allowance(c, steps[..|steps| - 1]) + (if IsFault(steps[|steps| - 1]) then MaxRank(c) + 1 else 0)
  }

  lemma {:induction false} AllowanceByFaults(c: Config, steps: seq<Step>)
    ensures Allowance(c, steps) == Faults(steps) * (MaxRank(c) + 1)
  {
    if steps == [] {
    } else {
      var front := steps[..|steps| - 1];
      AllowanceByFaults(c, front);
      MulDistributes(Faults(front), Faults(steps) - Faults(front), MaxRank(c) + 1);
    }
  }

  lemma {:induction false} RunWork(c: Config, s0: State, steps: seq<Step>)
    requires Invariant(c, s0) && Feasible(c, s0, steps)
    ensures |steps| + Work(c, After(c, s0, steps)) <= Work(c, s0) + Allowance(c, steps)
  {
    if steps == [] {
    } else {
      var front := steps[..|steps| - 1];
      RunWork(c, s0, front);
      RunInvariant(c, s0, front);
      StepWork(c, After(c, s0, front), steps[|steps| - 1]);
    }
  }

  /** Until everything is committed, some instance has messages ahead or a commit outstanding. */
  ghost predicate SomeoneHasWork(c: Config, s: State) {
    s.committed == |c.log| ||
    exists i :: 0 <= i < |s.instances| && HasWork(c, s.instances[i])
  }

  predicate HasWork(c: Config, inst: Instance) {
    inst.resolved < |c.log| || inst.dirty
  }

  /** An instance loses its work only by committing the whole log. */
  lemma StepKeepsWork(c: Config, s: State, step: Step)
    requires Invariant(c, s) && Enabled(c, s, step)
    ensures var s' := Next(c, s, step);
      HasWork(c, s.instances[step.i]) && s'.committed != |c.log| ==> HasWork(c, s'.instances[step.i])
  {
    assert InstanceOk(c, s, s.instances[step.i]);
  }

  /** Whoever moves the committed offset, forwards or back, is at it afterwards. */
  lemma StepMovesCommit(c: Config, s: State, step: Step)
    requires Invariant(c, s) && Enabled(c, s, step)
    ensures var s' := Next(c, s, step);
      s'.committed == s.committed || s'.instances[step.i].resolved == s'.committed <= |c.log|
  {
    assert InstanceOk(c, s, s.instances[step.i]);
  }

  lemma StepKeepsWorkInSight(c: Config, s: State, step: Step)
    requires Invariant(c, s) && SomeoneHasWork(c, s) && Enabled(c, s, step)
    ensures SomeoneHasWork(c, Next(c, s, step))
  {
    var s' := Next(c, s, step);
    StepKeepsWork(c, s, step);
    StepMovesCommit(c, s, step);
    if s.committed != |c.log| {
      var i :| 0 <= i < |s.instances| && HasWork(c, s.instances[i]);
      assert i != step.i ==> s'.instances[i] == s.instances[i];
    }
    assert step.i < |s'.instances|;
  }

  lemma {:induction false} RunKeepsWorkInSight(c: Config, s0: State, steps: seq<Step>)
    requires Initial(c, s0) && |s0.instances| > 0 && Feasible(c, s0, steps)
    ensures SomeoneHasWork(c, After(c, s0, steps))
  {
    InitialInvariant(c, s0);
    if steps == [] {
      assert s0.committed != |c.log| ==> HasWork(c, s0.instances[0]);
    } else {
      var front := steps[..|steps| - 1];
      RunKeepsWorkInSight(c, s0, front);
      RunInvariant(c, s0, front);
      StepKeepsWorkInSight(c, After(c, s0, front), steps[|steps| - 1]);
    }
  }

  function NextStep(c: Config, s: State, i: nat): Step
    requires i < |s.instances|
  {
    match s.instances[i].phase
    case Idle => if s.instances[i].resolved < |c.log| then Deliver(i) else AutoCommit(i, Succeeds)
    case Attempting(_) => Attempt(i, Generation(false, None))
    case Publishing => Publish(i, Succeeds)
  }

  lemma ProgressPossible(c: Config, s: State) returns (step: Step)
    requires Invariant(c, s) && SomeoneHasWork(c, s) && s.committed != |c.log|
    ensures Enabled(c, s, step) && !IsFault(step)
  {
    var i :| 0 <= i < |s.instances| && HasWork(c, s.instances[i]);
    assert InstanceOk(c, s, s.instances[i]);
    step := NextStep(c, s, i);
  }

  /**
   Progress, whatever `generateCode` does: runs with finitely many faults are finite, however many
   attempts throw, and a run in which only faults are left to happen has committed the whole log.
   */
  lemma Progress(c: Config, s0: State, steps: seq<Step>)
    requires Initial(c, s0) && |s0.instances| > 0 && Feasible(c, s0, steps)
    ensures |steps| <= |s0.instances| * MaxRank(c) + Faults(steps) * (MaxRank(c) + 1)
    ensures (forall step :: Enabled(c, After(c, s0, steps), step) ==> IsFault(step)) ==>
              After(c, s0, steps).committed == |c.log|
  {
    var s := After(c, s0, steps);
    InitialInvariant(c, s0);
    RunInvariant(c, s0, steps);
    RunWork(c, s0, steps);
    AllowanceByFaults(c, steps);
    WorkBounds(c, s0);
    WorkBounds(c, s);
    RunKeepsWorkInSight(c, s0, steps);
    if s.committed != |c.log| {
      var step := ProgressPossible(c, s);
    }
  }
}
