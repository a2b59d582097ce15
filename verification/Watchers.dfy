/**
 The watch call over the change-event publisher: who may watch, what a watcher is sent, and the end
 of a watch when its call is aborted, at once or later.
 */
module Watchers {
  import opened Common
  import ConfigFetch
  import ConfigAnswer
  import Feed = ChangeEvents

  /** A change as it goes to the client. */
  datatype WireEvent = WireEvent(campaignId: int, campaignCode: string, tenantId: int, changeType: nat,
                                 etag: string, occurredAt: string)

  function ChangeTypeNumber(t: Feed.ChangeType): nat {
    match t
    case UPDATED => 1
    case PAUSED => 2
    case ENDED => 3
  }

  function ToWireEvent(e: Feed.ConfigChangeEvent): WireEvent {
    WireEvent(e.campaignId, e.campaignCode, e.tenantId, ChangeTypeNumber(e.changeType), e.etag, e.occurredAt)
  }

  /** The change types in the order of the wire enum, which numbers them from one on. */
  const CHANGE_TYPES: seq<Feed.ChangeType> := [Feed.UPDATED, Feed.PAUSED, Feed.ENDED]

  /** What a client reads in a wire event. */
  ghost predicate Tells(w: WireEvent, e: Feed.ConfigChangeEvent) {
    && 1 <= w.changeType <= |CHANGE_TYPES| && CHANGE_TYPES[w.changeType - 1] == e.changeType
    && (w.campaignId, w.campaignCode, w.tenantId) == (e.campaignId, e.campaignCode, e.tenantId)
    && (w.etag, w.occurredAt) == (e.etag, e.occurredAt)
  }

  /** The wire event tells the event published, and no other. */
  lemma WireEventTellsAll(e: Feed.ConfigChangeEvent, e': Feed.ConfigChangeEvent)
    ensures Tells(ToWireEvent(e), e') <==> e == e'
  {
  }

  /** Whether the call passes the limiter, whose verdict is `admitted`, and the scope guard. */
  predicate MayWatch(tenantId: int, admitted: bool, grants: seq<ConfigFetch.Grant>) {
    admitted && ConfigFetch.GrantFor(grants, tenantId).Some?
  }

  /** A call may watch a tenant if and only if it is within its limit and has a grant that governs the tenant. */
  lemma MayWatchExactly(tenantId: int, admitted: bool, grants: seq<ConfigFetch.Grant>)
    ensures MayWatch(tenantId, admitted, grants) <==>
              admitted && exists i: nat :: ConfigAnswer.Governs(grants, tenantId, i)
  {
    var i := ConfigAnswer.GrantExactly(grants, tenantId);
  }

  /** Watches are numbered like their subscriptions; `listening` have an abort listener, `ended` resolved. */
  datatype State = State(events: Feed.State, listening: set<nat>, ended: set<nat>)

  datatype Action =
    | Watch(tenantId: int, admitted: bool, grants: seq<ConfigFetch.Grant>, aborted: bool)
    | Abort(id: nat)
    | Publish(event: Feed.ConfigChangeEvent, failing: set<nat>)

  const IDLE: State := State(Feed.QUIET, {}, {})

  /** The end of a watch: unsubscribe, then resolve. */
  function Finish(s: State, id: nat): State {
    State(Feed.Next(s.events, Feed.Unsubscribe(id)), s.listening - {id}, s.ended + {id})
  }

  function Next(s: State, a: Action): State {
    match a
    case Watch(tenantId, admitted, grants, aborted) =>
      if !MayWatch(tenantId, admitted, grants) then s
      else
        var id := |s.events.logs|;
        var begun := s.(events := Feed.Next(s.events, Feed.Subscribe(tenantId)));
        if aborted then Finish(begun, id) else begun.(listening := s.listening + {id})
    case Abort(id) => if id in s.listening then Finish(s, id) else s
    case Publish(event, failing) => s.(events := Feed.Next(s.events, Feed.Publish(event, failing)))
  }

  function After(s: State, actions: seq<Action>): State {
    if actions == [] then s else Next(After(s, actions[..|actions| - 1]), actions[|actions| - 1])
  }

  // --- What a watcher is sent ----------------------------------------------------------------------

  /** What a step means for the publisher. */
  function PublisherActions(s: State, a: Action): seq<Feed.Action> {
    match a
    case Watch(tenantId, admitted, grants, aborted) =>
      if !MayWatch(tenantId, admitted, grants) then []
      else [Feed.Subscribe(tenantId)] + (if aborted then [Feed.Unsubscribe(|s.events.logs|)] else [])
    case Abort(id) => if id in s.listening then [Feed.Unsubscribe(id)] else []
    case Publish(event, failing) => [Feed.Publish(event, failing)]
  }

  function Projected(actions: seq<Action>): seq<Feed.Action> {
    if actions == [] then []
    else
      var front := actions[..|actions| - 1];
      Projected(front) + PublisherActions(After(IDLE, front), actions[|actions| - 1])
  }

  lemma EventsAppend(actions: seq<Feed.Action>, a: Feed.Action)
    ensures Feed.After(actions + [a]) == Feed.Next(Feed.After(actions), a)
  {
    assert (actions + [a])[..|actions|] == actions;
  }

  lemma ProjectedStep(s: State, a: Action, actions: seq<Feed.Action>)
    requires s.events == Feed.After(actions)
    ensures Next(s, a).events == Feed.After(actions + PublisherActions(s, a))
  {
    var more := PublisherActions(s, a);
    if more == [] {
      assert actions + more == actions;
    } else {
      EventsAppend(actions, more[0]);
      if |more| == 1 {
        assert more == [more[0]];
      } else {
        EventsAppend(actions + [more[0]], more[1]);
        assert actions + more == actions + [more[0]] + [more[1]];
      }
    }
  }

  lemma {:induction false} RunIsProjected(actions: seq<Action>)
    ensures After(IDLE, actions).events == Feed.After(Projected(actions))
  {
    if actions == [] {
    } else {
      var front := actions[..|actions| - 1];
      RunIsProjected(front);
      ProjectedStep(After(IDLE, front), actions[|actions| - 1], Projected(front));
    }
  }

  /** What watch `id` was sent, in order. */
  function Sent(s: State, id: nat): seq<WireEvent>
    requires id < |s.events.logs|
  {
    Map(ToWireEvent, Feed.Events(s.events.logs[id]))
  }

  /**
   Over any run of watches, aborts and publishes, a watch is sent exactly its tenant's events published
   while its subscription was open, in order.
   */
  lemma SentWhileOpen(actions: seq<Action>, id: nat)
    requires id < |After(IDLE, actions).events.logs|
    ensures Sent(After(IDLE, actions), id) == Map(ToWireEvent, Feed.WhileOpen(Projected(actions), id))
  {
    RunIsProjected(actions);
    Feed.Isolated(Projected(actions), id);
    Feed.Conservation(Projected(actions), id);
  }

  // --- Aborts --------------------------------------------------------------------------------------

  /** Every watch either waits for its abort or has ended, and one that has ended is unsubscribed. */
  ghost predicate Invariant(s: State) {
    && (forall id: nat :: id in s.listening || id in s.ended <==> id < |s.events.logs|)
    && (forall id :: id in s.ended ==> id !in s.listening && id !in s.events.subscriptions)
  }

  lemma StepInvariant(s: State, a: Action)
    requires Invariant(s)
    ensures Invariant(Next(s, a))
  {
    var s' := Next(s, a);
    assert |s.events.logs| <= |s'.events.logs| <= |s.events.logs| + 1;
    forall id | id in s.ended
      ensures id !in s'.events.subscriptions
    {
      assert id < |s.events.logs|;
      Feed.ClosedStep(s.events, Feed.Unsubscribe(id), id);
    }
  }

  lemma {:induction false} RunInvariantFrom(s: State, more: seq<Action>)
    requires Invariant(s)
    ensures Invariant(After(s, more))
  {
    if more == [] {
    } else {
      RunInvariantFrom(s, more[..|more| - 1]);
      StepInvariant(After(s, more[..|more| - 1]), more[|more| - 1]);
    }
  }

  lemma RunInvariant(actions: seq<Action>)
    ensures Invariant(After(IDLE, actions))
  {
    RunInvariantFrom(IDLE, actions);
  }

  lemma EndedStep(s: State, a: Action, id: nat)
    requires Invariant(s) && id in s.ended
    ensures id in Next(s, a).ended && id < |Next(s, a).events.logs|
    ensures Next(s, a).events.logs[id] == s.events.logs[id]
  {
    StepInvariant(s, a);
    assert id < |s.events.logs| && id !in s.events.subscriptions;
  }

  lemma {:induction false} EndedIsFinal(s: State, actions: seq<Action>, id: nat)
    requires Invariant(s) && id in s.ended
    ensures var s' := After(s, actions);
      Invariant(s') && id in s'.ended && id < |s'.events.logs| && s'.events.logs[id] == s.events.logs[id]
  {
    if actions == [] {
    } else {
      var front := actions[..|actions| - 1];
      EndedIsFinal(s, front, id);
      StepInvariant(After(s, front), actions[|actions| - 1]);
      EndedStep(After(s, front), actions[|actions| - 1], id);
    }
  }

  /**
   From its abort on a watch is sent nothing, whatever is published; the abort ends it, for the first
   time only, and a watch whose call was aborted before it subscribed is never sent anything.
   */
  lemma AbortedGetsNothing(actions: seq<Action>, id: nat, more: seq<Action>)
    requires id < |After(IDLE, actions).events.logs|
    ensures var s := After(IDLE, actions);
      var s' := After(Next(s, Abort(id)), more);
      id in s'.ended && id < |s'.events.logs| && Sent(s', id) == Sent(s, id)
  {
    RunInvariant(actions);
    var s := After(IDLE, actions);
    StepInvariant(s, Abort(id));
    EndedIsFinal(Next(s, Abort(id)), more, id);
  }

  lemma AbortedBeforeGetsNothing(actions: seq<Action>, tenantId: int, admitted: bool,
                                 grants: seq<ConfigFetch.Grant>, more: seq<Action>)
    requires MayWatch(tenantId, admitted, grants)
    ensures var s := After(IDLE, actions);
      var s' := After(Next(s, Watch(tenantId, admitted, grants, true)), more);
      var id := |s.events.logs|;
      id in s'.ended && id < |s'.events.logs| && Sent(s', id) == []
  {
    RunInvariant(actions);
    var s := After(IDLE, actions);
    StepInvariant(s, Watch(tenantId, admitted, grants, true));
    EndedIsFinal(Next(s, Watch(tenantId, admitted, grants, true)), more, |s.events.logs|);
  }

  /** Without an abort of its own, a dropped watch goes on listening. */
  lemma {:induction false} DroppedKeepsListening(s: State, more: seq<Action>, id: nat)
    requires id < |s.events.logs| && id in s.listening && id !in s.events.subscriptions
    requires Abort(id) !in more
    ensures var s' := After(s, more);
      && id < |s'.events.logs| && id in s'.listening && id !in s'.events.subscriptions
      && s'.events.logs[id] == s.events.logs[id]
  {
    if more == [] {
    } else {
      var front, last := more[..|more| - 1], more[|more| - 1];
      assert last in more && forall a :: a in front ==> a in more;
      DroppedKeepsListening(s, front, id);
      DroppedStep(After(s, front), last, id);
    }
  }

  lemma DroppedStep(s: State, a: Action, id: nat)
    requires id < |s.events.logs| && id in s.listening && id !in s.events.subscriptions && a != Abort(id)
    ensures var s' := Next(s, a);
      && id < |s'.events.logs| && id in s'.listening && id !in s'.events.subscriptions
      && s'.events.logs[id] == s.events.logs[id]
  {
  }

  /**
   A watch dropped at the bound is said to have to reconnect, but nothing ends its call: it has not
   ended, and is sent nothing, until its own abort.
   */
  lemma DroppedIsNotTold(actions: seq<Action>, id: nat, more: seq<Action>)
    requires id in After(IDLE, actions).listening && id !in After(IDLE, actions).events.subscriptions
    requires Abort(id) !in more
    ensures var s, s' := After(IDLE, actions), After(After(IDLE, actions), more);
      && id < |s.events.logs| && id < |s'.events.logs|
      && id in s'.listening && id !in s'.ended && Sent(s', id) == Sent(s, id)
  {
    RunInvariant(actions);
    DroppedKeepsListening(After(IDLE, actions), more, id);
    RunInvariantFrom(After(IDLE, actions), more);
  }

  // --- The service ---------------------------------------------------------------------------------

  class WatchService {
    const publisher: Feed.ChangeEventPublisher
    var listening: set<nat>
    ghost var ended: set<nat>

    ghost function View(): State
      reads this, publisher
    {
      State(publisher.View(), listening, ended)
    }

    constructor (publisher: Feed.ChangeEventPublisher)
      ensures this.publisher == publisher && listening == {} && ended == {}
    {
      this.publisher := publisher;
      listening, ended := {}, {};
    }

    /** Subscribes, and then either ends at once or leaves it to the abort listener. */
    method WatchCampaignConfig(tenantId: int, admitted: bool, grants: seq<ConfigFetch.Grant>, aborted: bool)
      returns (rejected: bool)
      requires publisher.Valid()
      modifies this, publisher
      ensures publisher.Valid()
      ensures rejected == !MayWatch(tenantId, admitted, grants)
      ensures View() == Next(old(View()), Watch(tenantId, admitted, grants, aborted))
    {
      rejected := !admitted || ConfigFetch.GrantFor(grants, tenantId).None?;
      if rejected {
        return;
      }
      var id := publisher.Subscribe(tenantId);
      if aborted {
        publisher.Unsubscribe(id);
        listening, ended := listening - {id}, ended + {id};
      } else {
        listening := listening + {id};
      }
    }

    /** The abort signal of call `id`; its listener runs once. */
    method OnAbort(id: nat)
      requires publisher.Valid()
      modifies this, publisher
      ensures publisher.Valid()
      ensures View() == Next(old(View()), Abort(id))
    {
      if id in listening {
        publisher.Unsubscribe(id);
        listening, ended := listening - {id}, ended + {id};
      }
    }
  }
}
