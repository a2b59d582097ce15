/**
 The change-event publisher: one tenant's governance transitions go to that tenant's subscriptions,
 and a subscription is dropped once its failed deliveries reach a bound. `failing` says whose
 listener throws; the logs record what every subscription ever begun was handed.
 */
module ChangeEvents {
  import opened Common

  const WATCH_MAX_QUEUE: nat := 256

  datatype ChangeType = UPDATED | PAUSED | ENDED

  datatype ConfigChangeEvent = ConfigChangeEvent(campaignId: int, campaignCode: string, tenantId: int,
                                                 changeType: ChangeType, etag: string, occurredAt: string)

  datatype Subscription = Subscription(tenantId: int, dropped: nat)

  /** One listener call: it returned, or it threw. */
  datatype Outcome = Delivered(event: ConfigChangeEvent) | Failed(event: ConfigChangeEvent)

  /** Subscriptions are numbered as they are begun; `logs` has an entry for each, closed ones too. */
  datatype State = State(subscriptions: map<nat, Subscription>, logs: seq<seq<Outcome>>)

  datatype Action =
    | Subscribe(tenantId: int)
    | Unsubscribe(id: nat)
    | Publish(event: ConfigChangeEvent, failing: set<nat>)

  const QUIET: State := State(map[], [])

  function Hand(event: ConfigChangeEvent, fails: bool): Outcome {
    if fails then Failed(event) else Delivered(event)
  }

  function Told(sub: Subscription, event: ConfigChangeEvent, fails: bool): Subscription {
    if sub.tenantId == event.tenantId && fails then sub.(dropped := sub.dropped + 1) else sub
  }

  predicate CutLoose(sub: Subscription, event: ConfigChangeEvent, fails: bool) {
    sub.tenantId == event.tenantId && fails && sub.dropped + 1 >= WATCH_MAX_QUEUE
  }

  function LogAfter(s: State, id: nat, event: ConfigChangeEvent, fails: bool): seq<Outcome>
    requires id < |s.logs|
  {
    if id in s.subscriptions && s.subscriptions[id].tenantId == event.tenantId
    then s.logs[id] + [Hand(event, fails)] else s.logs[id]
  }

  function Next(s: State, a: Action): (s': State)
    ensures |s.logs| <= |s'.logs|
  {
    match a
    case Subscribe(tenantId) =>
      State(s.subscriptions[|s.logs| := Subscription(tenantId, 0)], s.logs + [[]])
    case Unsubscribe(id) => s.(subscriptions := s.subscriptions - {id})
    case Publish(event, failing) =>
      State(
        map id | id in s.subscriptions && !CutLoose(s.subscriptions[id], event, id in failing)
          :: Told(s.subscriptions[id], event, id in failing),
        seq(|s.logs|, id requires 0 <= id < |s.logs| => LogAfter(s, id, event, id in failing)))
  }

  function After(actions: seq<Action>): State {
    if actions == [] then QUIET else Next(After(actions[..|actions| - 1]), actions[|actions| - 1])
  }

  // --- One subscription on its own -----------------------------------------------------------------

  /** A subscription as if no other existed. */
  datatype Watch = Unopened | Watch(tenantId: int, open: bool, log: seq<Outcome>)

  function Opened(actions: seq<Action>): nat {
    if actions == [] then 0
    else Opened(actions[..|actions| - 1]) + (if actions[|actions| - 1].Subscribe? then 1 else 0)
  }

  function Failures(log: seq<Outcome>): nat {
    if log == [] then 0 else Failures(log[..|log| - 1]) + (if log[|log| - 1].Failed? then 1 else 0)
  }

  function Events(log: seq<Outcome>): seq<ConfigChangeEvent> {
    Map((o: Outcome) => o.event, log)
  }

  function WatchNext(w: Watch, a: Action, id: nat, begun: nat): Watch {
    match a
    case Subscribe(tenantId) => if begun == id then Watch(tenantId, true, []) else w
    case Unsubscribe(other) => if other == id && w.Watch? then w.(open := false) else w
    case Publish(event, failing) =>
      if w.Unopened? || !w.open || w.tenantId != event.tenantId then w
      else
        var log := w.log + [Hand(event, id in failing)];
        Watch(w.tenantId, Failures(log) < WATCH_MAX_QUEUE, log)
  }

  function Alone(actions: seq<Action>, id: nat): Watch {
    if actions == [] then Unopened
    else
      var front := actions[..|actions| - 1];
      WatchNext(Alone(front, id), actions[|actions| - 1], id, Opened(front))
  }

  /** The publisher's view of subscription `id` is `w`. */
  predicate Shows(s: State, id: nat, w: Watch) {
    match w
    case Unopened => id >= |s.logs| && id !in s.subscriptions
    case Watch(tenantId, open, log) =>
      && id < |s.logs| && s.logs[id] == log
      && (open <==> id in s.subscriptions)
      && (open ==> s.subscriptions[id] == Subscription(tenantId, Failures(log)) && Failures(log) < WATCH_MAX_QUEUE)
  }

  lemma ShowsStep(s: State, a: Action, id: nat, w: Watch)
    requires Shows(s, id, w)
    ensures Shows(Next(s, a), id, WatchNext(w, a, id, |s.logs|))
  {
    if a.Publish? && w.Watch? && w.open && w.tenantId == a.event.tenantId {
      var log := w.log + [Hand(a.event, id in a.failing)];
      assert log[..|log| - 1] == w.log;
    }
  }

  /** Subscriptions do not influence each other: each one's state is what it would be alone. */
  lemma {:induction false} Isolated(actions: seq<Action>, id: nat)
    ensures |After(actions).logs| == Opened(actions)
    ensures Shows(After(actions), id, Alone(actions, id))
  {
    if actions == [] {
    } else {
      var front := actions[..|actions| - 1];
      Isolated(front, id);
      ShowsStep(After(front), actions[|actions| - 1], id, Alone(front, id));
    }
  }

  // --- Conservation --------------------------------------------------------------------------------

  /** The events of the subscription's tenant published since it was opened, in order. */
  function Offered(actions: seq<Action>, id: nat): seq<ConfigChangeEvent> {
    if actions == [] then []
    else
      var front, last := actions[..|actions| - 1], actions[|actions| - 1];
      var w := Alone(front, id);
      if last.Publish? && w.Watch? && w.tenantId == last.event.tenantId
      then Offered(front, id) + [last.event] else Offered(front, id)
  }

  /** The events of its tenant published while the subscription was open, in order. */
  function WhileOpen(actions: seq<Action>, id: nat): seq<ConfigChangeEvent> {
    if actions == [] then []
    else
      var front, last := actions[..|actions| - 1], actions[|actions| - 1];
      var w := Alone(front, id);
      if last.Publish? && w.Watch? && w.open && w.tenantId == last.event.tenantId
      then WhileOpen(front, id) + [last.event] else WhileOpen(front, id)
  }

  function Handed(w: Watch): seq<ConfigChangeEvent> {
    if w.Watch? then Events(w.log) else []
  }

  lemma HandedStep(w: Watch, a: Action, id: nat, begun: nat)
    requires w.Unopened? <==> begun <= id
    ensures Handed(WatchNext(w, a, id, begun)) ==
      if a.Publish? && w.Watch? && w.open && w.tenantId == a.event.tenantId
      then Handed(w) + [a.event] else Handed(w)
  {
    if a.Publish? && w.Watch? {
      EventsAppend(w.log, Hand(a.event, id in a.failing));
    }
  }

  lemma {:induction false} HandedWhileOpen(actions: seq<Action>, id: nat)
    ensures Handed(Alone(actions, id)) == WhileOpen(actions, id)
  {
    if actions == [] {
    } else {
      var front := actions[..|actions| - 1];
      HandedWhileOpen(front, id);
      OpenedInOrder(front, id);
      HandedStep(Alone(front, id), actions[|actions| - 1], id, Opened(front));
    }
  }

  ghost predicate Accounted(w: Watch, offered: seq<ConfigChangeEvent>, unsubscribed: bool) {
    match w
    case Unopened => offered == []
    case Watch(_, open, log) =>
      && Events(log) <= offered
      && (open ==> Events(log) == offered && Failures(log) < WATCH_MAX_QUEUE)
      && Failures(log) <= WATCH_MAX_QUEUE
      && (Failures(log) == WATCH_MAX_QUEUE ==> !open && log != [] && log[|log| - 1].Failed?)
      && (!open && !unsubscribed ==> Failures(log) == WATCH_MAX_QUEUE)
  }

  lemma EventsAppend(log: seq<Outcome>, o: Outcome)
    ensures Events(log + [o]) == Events(log) + [o.event]
    ensures Failures(log + [o]) == Failures(log) + (if o.Failed? then 1 else 0)
  {
    assert (log + [o])[..|log|] == log;
  }

  /** No number is opened before it is reached, or twice. */
  lemma {:induction false} OpenedInOrder(actions: seq<Action>, id: nat)
    ensures Alone(actions, id).Unopened? <==> Opened(actions) <= id
  {
    if actions == [] {
    } else {
      OpenedInOrder(actions[..|actions| - 1], id);
    }
  }

  lemma AccountedStep(w: Watch, a: Action, id: nat, begun: nat, offered: seq<ConfigChangeEvent>, unsubscribed: bool)
    requires Accounted(w, offered, unsubscribed)
    requires w.Unopened? <==> begun <= id
    ensures var grown := if a.Publish? && w.Watch? && w.tenantId == a.event.tenantId
                         then offered + [a.event] else offered;
      Accounted(WatchNext(w, a, id, begun), grown, unsubscribed || a == Unsubscribe(id))
  {
    if a.Publish? && w.Watch? {
      EventsAppend(w.log, Hand(a.event, id in a.failing));
    }
  }

  lemma AccountedAppend(actions: seq<Action>, a: Action, id: nat)
    requires Accounted(Alone(actions, id), Offered(actions, id), Unsubscribe(id) in actions)
    ensures Accounted(Alone(actions + [a], id), Offered(actions + [a], id), Unsubscribe(id) in actions + [a])
  {
    assert (actions + [a])[..|actions|] == actions;
    OpenedInOrder(actions, id);
    AccountedStep(Alone(actions, id), a, id, Opened(actions), Offered(actions, id), Unsubscribe(id) in actions);
    assert Unsubscribe(id) in actions + [a] <==> Unsubscribe(id) in actions || a == Unsubscribe(id);
  }

  lemma {:induction false} AccountedRun(actions: seq<Action>, id: nat)
    ensures Accounted(Alone(actions, id), Offered(actions, id), Unsubscribe(id) in actions)
  {
    if actions == [] {
    } else {
      var front, last := actions[..|actions| - 1], actions[|actions| - 1];
      assert front + [last] == actions;
      AccountedRun(front, id);
      AccountedAppend(front, last, id);
    }
  }

  /**
   Conservation over whole runs: what a subscription was handed, delivered and failed together, is
   exactly its tenant's events published while it was open, in publication order; as long as it is
   open these are all since it was opened. It stays open while it has fewer than the bound of failures
   in all, and, unless it was unsubscribed, is closed by the very delivery that brings them to the bound.
   */
  lemma Conservation(actions: seq<Action>, id: nat)
    requires id < Opened(actions)
    ensures var s := After(actions);
      && |s.logs| == Opened(actions)
      && Events(s.logs[id]) == WhileOpen(actions, id) <= Offered(actions, id)
      && (id in s.subscriptions ==>
            WhileOpen(actions, id) == Offered(actions, id)
            && s.subscriptions[id].dropped == Failures(s.logs[id]) < 256)
      && (id !in s.subscriptions && Unsubscribe(id) !in actions ==>
            Failures(s.logs[id]) == 256 && s.logs[id] != []
            && s.logs[id][|s.logs[id]| - 1].Failed?)
  {
    Isolated(actions, id);
    OpenedInOrder(actions, id);
    AccountedRun(actions, id);
    HandedWhileOpen(actions, id);
  }

  // --- Falling behind ------------------------------------------------------------------------------

  /** How far behind a subscriber is: the deliveries failed since the last that succeeded. */
  function Backlog(log: seq<Outcome>): nat {
    if log == [] || log[|log| - 1].Delivered? then 0 else Backlog(log[..|log| - 1]) + 1
  }

  ghost predicate FailsOnlyAtEnd(log: seq<Outcome>) {
    forall i, j :: 0 <= i < j < |log| && log[i].Failed? ==> log[j].Failed?
  }

  lemma {:induction false} BacklogCountsAll(log: seq<Outcome>)
    ensures Backlog(log) <= Failures(log)
    ensures Backlog(log) == Failures(log) <==> FailsOnlyAtEnd(log)
  {
    if log == [] {
    } else {
      var front, last := log[..|log| - 1], log[|log| - 1];
      BacklogCountsAll(front);
      if last.Failed? {
        assert FailsOnlyAtEnd(log) <==> FailsOnlyAtEnd(front);
      } else {
        NoFailures(front);
        assert FailsOnlyAtEnd(log) <==> forall i :: 0 <= i < |front| ==> !front[i].Failed?;
      }
    }
  }

  lemma {:induction false} NoFailures(log: seq<Outcome>)
    ensures Failures(log) == 0 <==> forall i :: 0 <= i < |log| ==> !log[i].Failed?
  {
    if log == [] {
    } else {
      NoFailures(log[..|log| - 1]);
    }
  }

  /**
   A subscription is said to be dropped when it has fallen behind by the bound. The code counts every
   failure since it was opened, so that is true of a dropped one if and only if no delivery to it
   succeeded after one had failed.
   */
  lemma DroppedForFallingBehind(actions: seq<Action>, id: nat)
    requires id < Opened(actions)
    requires id !in After(actions).subscriptions && Unsubscribe(id) !in actions
    ensures id < |After(actions).logs|
    ensures Backlog(After(actions).logs[id]) == WATCH_MAX_QUEUE <==> FailsOnlyAtEnd(After(actions).logs[id])
  {
    Conservation(actions, id);
    BacklogCountsAll(After(actions).logs[id]);
  }

  /** `n` times a failed delivery and then a successful one. */
  function FailThenRecover(event: ConfigChangeEvent, n: nat): seq<Action> {
    if n == 0 then [Subscribe(event.tenantId)]
    else FailThenRecover(event, n - 1) + [Publish(event, {0})] + [Publish(event, {})]
  }

  lemma AloneAppend(actions: seq<Action>, a: Action, id: nat)
    ensures Alone(actions + [a], id) == WatchNext(Alone(actions, id), a, id, Opened(actions))
  {
    assert (actions + [a])[..|actions|] == actions;
  }

  /** An open subscription that has just succeeded, if ever tried, after `n` failures. */
  predicate Recovered(w: Watch, tenantId: int, n: nat) {
    && w.Watch? && w.open && w.tenantId == tenantId && Failures(w.log) == n
    && (n > 0 ==> w.log != [] && w.log[|w.log| - 1].Delivered?)
  }

  lemma RecoverOnce(actions: seq<Action>, event: ConfigChangeEvent, n: nat)
    requires n + 1 < WATCH_MAX_QUEUE && Recovered(Alone(actions, 0), event.tenantId, n)
    ensures Recovered(Alone(actions + [Publish(event, {0})] + [Publish(event, {})], 0), event.tenantId, n + 1)
  {
    var log := Alone(actions, 0).log;
    AloneAppend(actions, Publish(event, {0}), 0);
    EventsAppend(log, Failed(event));
    AloneAppend(actions + [Publish(event, {0})], Publish(event, {}), 0);
    EventsAppend(log + [Failed(event)], Delivered(event));
  }

  lemma {:induction false} RecoveringLog(event: ConfigChangeEvent, n: nat)
    requires n < WATCH_MAX_QUEUE
    ensures Recovered(Alone(FailThenRecover(event, n), 0), event.tenantId, n)
  {
    if n == 0 {
      AloneAppend([], Subscribe(event.tenantId), 0);
      assert [] + [Subscribe(event.tenantId)] == [Subscribe(event.tenantId)];
    } else {
      RecoveringLog(event, n - 1);
      RecoverOnce(FailThenRecover(event, n - 1), event, n - 1);
    }
  }

  /** A subscriber that recovers after every failure is dropped all the same, one event behind. */
  lemma DroppedWithoutFallingBehind(event: ConfigChangeEvent)
    ensures var w := Alone(FailThenRecover(event, WATCH_MAX_QUEUE - 1) + [Publish(event, {0})], 0);
      w.Watch? && !w.open && Backlog(w.log) == 1
  {
    var before := FailThenRecover(event, WATCH_MAX_QUEUE - 1);
    RecoveringLog(event, WATCH_MAX_QUEUE - 1);
    AloneAppend(before, Publish(event, {0}), 0);
    var log := Alone(before, 0).log;
    EventsAppend(log, Failed(event));
    assert (log + [Failed(event)])[..|log|] == log;
  }

  /** Once closed, by either way, a subscription stays closed and is handed nothing more. */
  lemma {:induction false} ClosedIsFinal(actions: seq<Action>, more: seq<Action>, id: nat)
    requires Alone(actions, id).Watch? && !Alone(actions, id).open
    ensures Alone(actions + more, id) == Alone(actions, id)
  {
    if more == [] {
      assert actions + more == actions;
    } else {
      var front, last := more[..|more| - 1], more[|more| - 1];
      ClosedIsFinal(actions, front, id);
      assert (actions + more)[..|actions + more| - 1] == actions + front;
      OpenedInOrder(actions + front, id);
    }
  }

  /** A closed subscription's log at one step. */
  lemma ClosedStep(s: State, a: Action, id: nat)
    requires id < |s.logs| && id !in s.subscriptions
    ensures id !in Next(s, a).subscriptions && Next(s, a).logs[id] == s.logs[id]
  {
  }

  // --- The publisher -------------------------------------------------------------------------------

  predicate Same(a: map<nat, Subscription>, b: map<nat, Subscription>, k: nat) {
    (k in a <==> k in b) && (k in a ==> a[k] == b[k])
  }

  lemma SameEverywhere(a: map<nat, Subscription>, b: map<nat, Subscription>)
    requires forall k: nat :: Same(a, b, k)
    ensures a == b
  {
    forall k: nat
      ensures (k in a <==> k in b) && (k in a ==> a[k] == b[k])
    {
      assert Same(a, b, k);
    }
    assert a.Keys == b.Keys;
  }

  class ChangeEventPublisher {
    var subscriptions: map<nat, Subscription>
    var logs: seq<seq<Outcome>>

    function View(): State
      reads this
    {
      State(subscriptions, logs)
    }

    ghost predicate Valid()
      reads this
    {
      forall id :: id in subscriptions ==> id < |logs|
    }

    constructor ()
      ensures Valid() && View() == QUIET
    {
      subscriptions, logs := map[], [];
    }

    method Subscribe(tenantId: int) returns (id: nat)
      requires Valid()
      modifies this
      ensures Valid() && View() == Next(old(View()), Action.Subscribe(tenantId))
      ensures id == |old(logs)|
    {
      id := |logs|;
      subscriptions := subscriptions[id := Subscription(tenantId, 0)];
      logs := logs + [[]];
    }

    method Unsubscribe(id: nat)
      requires Valid()
      modifies this
      ensures Valid() && View() == Next(old(View()), Action.Unsubscribe(id))
    {
      subscriptions := subscriptions - {id};
    }

    /** Visits the subscriptions in the order they were begun, removing some on the way. */
    method Publish(event: ConfigChangeEvent, failing: set<nat>)
      requires Valid()
      modifies this
      ensures Valid() && View() == Next(old(View()), Action.Publish(event, failing))
    {
      ghost var before := View();
      ghost var after := Next(before, Action.Publish(event, failing));
      var id := 0;
      while id < |logs|
        invariant 0 <= id <= |logs| == |before.logs|
        invariant forall k :: 0 <= k < id ==> logs[k] == after.logs[k]
        invariant forall k :: id <= k < |logs| ==> logs[k] == before.logs[k]
        invariant forall k :: 0 <= k < id ==> Same(subscriptions, after.subscriptions, k)
        invariant forall k :: id <= k ==> Same(subscriptions, before.subscriptions, k)
      {
        ghost var current := subscriptions;
        assert Same(current, before.subscriptions, id) && logs[id] == before.logs[id];
        if id in subscriptions && subscriptions[id].tenantId == event.tenantId {
          logs := logs[id := logs[id] + [Hand(event, id in failing)]];
          if id in failing {
            var dropped := subscriptions[id].dropped + 1;
            subscriptions := subscriptions[id := subscriptions[id].(dropped := dropped)];
            if dropped >= WATCH_MAX_QUEUE {
              subscriptions := subscriptions - {id};
            }
          }
        }
        assert Same(subscriptions, after.subscriptions, id);
        assert forall k :: k != id && Same(current, before.subscriptions, k) ==>
                             Same(subscriptions, before.subscriptions, k);
        assert forall k :: k != id && Same(current, after.subscriptions, k) ==>
                             Same(subscriptions, after.subscriptions, k);
        id := id + 1;
      }
      assert logs == after.logs;
      forall k: nat
        ensures Same(subscriptions, after.subscriptions, k)
      {
        assert k >= |logs| ==> Same(subscriptions, before.subscriptions, k);
      }
      SameEverywhere(subscriptions, after.subscriptions);
    }
  }
}
