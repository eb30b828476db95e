/**
  The class of apps/api/src/lib/contract-router.ts, its methods proved to do what module
  ContractRouter says.
 */
module ContractRouterCode {
  import opened Wrappers
  import Spec = ContractRouter

  datatype LimitError = ContractLimitError(contract: string)

  /** The calls of handlers that an event leads to. */
  function Calls(handlers: seq<string>, event: Spec.Event): (r: seq<(string, Spec.Event)>)
    ensures |r| == |handlers| && forall i :: 0 <= i < |r| ==> r[i] == (handlers[i], event)
  {
    seq(|handlers|, i requires 0 <= i < |handlers| => (handlers[i], event))
  }

  /** The handlers to call for an event. */
  function Handlers(subscriptions: map<string, seq<Spec.Subscription>>, event: Spec.Event): seq<string> {
    if event.contract in subscriptions then Spec.Matching(subscriptions[event.contract], event.topic) else []
  }

  /** How many of the handlers do not throw. */
  function Successes(handlers: seq<string>, works: string -> bool): nat {
    if handlers == [] then 0
    else Successes(handlers[..|handlers| - 1], works) + (if works(handlers[|handlers| - 1]) then 1 else 0)
  }

  /** The calls that a list of events leads to, event after event. */
  function AllCalls(subscriptions: map<string, seq<Spec.Subscription>>, events: seq<Spec.Event>): seq<(string, Spec.Event)> {
    if events == [] then []
    else
      var front, e := events[..|events| - 1], events[|events| - 1];
      AllCalls(subscriptions, front) + Calls(Handlers(subscriptions, e), e)
  }

  /** How many of those calls do not throw. */
  function AllSuccesses(subscriptions: map<string, seq<Spec.Subscription>>, events: seq<Spec.Event>, works: string -> bool): nat {
    if events == [] then 0
    else
      var front, e := events[..|events| - 1], events[|events| - 1];
      AllSuccesses(subscriptions, front, works) + Successes(Handlers(subscriptions, e), works)
  }

  lemma AllCallsNone(subscriptions: map<string, seq<Spec.Subscription>>, works: string -> bool)
    ensures AllCalls(subscriptions, []) == [] && AllSuccesses(subscriptions, [], works) == 0
  {
  }

  /** One more event, after whatever calls came before. */
  lemma AllCallsSnoc(subscriptions: map<string, seq<Spec.Subscription>>, past: seq<(string, Spec.Event)>, events: seq<Spec.Event>, e: Spec.Event, works: string -> bool)
    ensures past + AllCalls(subscriptions, events + [e]) == past + AllCalls(subscriptions, events) + Calls(Handlers(subscriptions, e), e)
    ensures AllSuccesses(subscriptions, events + [e], works)
         == AllSuccesses(subscriptions, events, works) + Successes(Handlers(subscriptions, e), works)
  {
    hide Calls, Successes, Handlers;
    assert (events + [e])[..|events|] == events;
  }

  class ContractRouter {
    var subscriptions: map<string, seq<Spec.Subscription>>
    var channels: map<string, string>
    var latestLedger: map<string, nat>
    /** History: the events dispatched, and the calls made to handlers. */
    ghost var log: seq<Spec.Event>
    ghost var calls: seq<(string, Spec.Event)>

    ghost function View(): Spec.Router
      reads this
    {
      Spec.Router(subscriptions, latestLedger)
    }

    constructor ()
      ensures View() == Spec.Fresh.router && channels == map[] && log == [] && calls == []
    {
      subscriptions, channels, latestLedger := map[], map[], map[];
      log, calls := [], [];
    }

    method Subscribe(contract: string, handler: string, topic: string := Spec.ANY_TOPIC) returns (r: Result<(), LimitError>)
      modifies this`subscriptions
      ensures View() == Spec.Subscribed(old(View()), contract, Spec.Subscription(topic, handler))
      ensures r.Err? <==> contract !in old(subscriptions) && |old(subscriptions)| >= 100
      ensures r.Ok? ==> contract in subscriptions && Spec.Subscription(topic, handler) in subscriptions[contract]
    {
      if contract !in subscriptions && |subscriptions| >= Spec.MAX_ROUTER_CONTRACTS {
        return Err(ContractLimitError(contract));
      }
      var list := if contract in subscriptions then subscriptions[contract] else [];
      list := list + [Spec.Subscription(topic, handler)];
      subscriptions := subscriptions[contract := list];
      return Ok(());
    }

    method Unsubscribe(contract: string)
      modifies this`subscriptions, this`latestLedger
      ensures View() == Spec.Unsubscribed(old(View()), contract)
    {
      subscriptions := subscriptions - {contract};
      latestLedger := latestLedger - {contract};
    }

    method RegisterChannel(name: string, handler: string)
      modifies this`channels
      ensures channels == old(channels)[name := handler]
    {
      channels := channels[name := handler];
    }

    method UnregisterChannel(name: string)
      modifies this`channels
      ensures channels == old(channels) - {name}
    {
      channels := channels - {name};
    }

    /** Every handler whose topic matches is called once, in order, whether or not earlier ones throw. */
    method DispatchEvent(event: Spec.Event, works: string -> bool) returns (dispatched: nat)
      modifies this`log, this`calls
      ensures log == old(log) + [event]
      ensures var handlers := Handlers(subscriptions, event);
              calls == old(calls) + Calls(handlers, event) && dispatched == Successes(handlers, works)
    {
      log := log + [event];
      dispatched := 0;
      if event.contract !in subscriptions {
        assert calls == calls + Calls([], event);
        return;
      }
      var subs := subscriptions[event.contract];
      ghost var called := [];
      for i := 0 to |subs|
        invariant called == Spec.Matching(subs[..i], event.topic)
        invariant dispatched == Successes(called, works)
      {
        assert subs[..i + 1][..i] == subs[..i];
        if subs[i].topic == Spec.ANY_TOPIC || subs[i].topic == event.topic {
          assert (called + [subs[i].handler])[..|called|] == called;
          called := called + [subs[i].handler];
          if works(subs[i].handler) {
            dispatched := dispatched + 1;
          }
        }
      }
      assert subs[..|subs|] == subs;
      calls := calls + Calls(called, event);
    }

    /** The cursor of every registered contract, and the oldest of them. */
    method TakeCursors(startLedger: nat) returns (cursors: map<string, nat>, from: nat)
      requires subscriptions != map[]
      ensures cursors == Spec.Cursors(View(), startLedger) && Spec.IsOldest(cursors, from)
    {
      cursors, from := map[], 0;
      var todo := subscriptions.Keys;
      assert subscriptions.Keys != {};
      while todo != {}
        invariant todo <= subscriptions.Keys
        invariant cursors.Keys == subscriptions.Keys - todo
        invariant forall c :: c in cursors ==> cursors[c] == Spec.Cursor(View(), startLedger, c)
        invariant cursors != map[] ==> Spec.IsOldest(cursors, from)
        invariant cursors == map[] ==> todo == subscriptions.Keys
        decreases todo
      {
        var id :| id in todo;
        todo := todo - {id};
        var cursor := if id in latestLedger then latestLedger[id] else startLedger;
        from := if cursors == map[] || cursor < from then cursor else from;
        cursors := cursors[id := cursor];
        assert cursors[id] == cursor;
      }
    }

    method PollOnce(startLedger: nat, fetch: (set<string>, nat) -> seq<Spec.Event>, works: string -> bool)
      returns (dispatched: nat, ghost from: nat)
      modifies this`latestLedger, this`log, this`calls
      ensures subscriptions == map[] ==> latestLedger == old(latestLedger) && log == old(log) && calls == old(calls) && dispatched == 0
      ensures subscriptions != map[] ==>
        var cursors := Spec.Cursors(old(View()), startLedger);
        var kept := Spec.Kept(cursors, fetch(subscriptions.Keys, from));
        && Spec.IsOldest(cursors, from)
        && View() == Spec.Polled(old(View()), startLedger, fetch(subscriptions.Keys, from))
        && log == old(log) + kept
        && calls == old(calls) + AllCalls(subscriptions, kept)
        && dispatched == AllSuccesses(subscriptions, kept, works)
    {
      hide Handlers, Calls, Successes, AllCalls, AllSuccesses, Spec.Kept, Spec.Advanced, Spec.Cursors;
      dispatched, from := 0, 0;
      if |subscriptions| == 0 {
        return;
      }
      var cursors, fromLedger := TakeCursors(startLedger);
      from := fromLedger;
      var events := fetch(subscriptions.Keys, fromLedger);
      Spec.PollStart(latestLedger, cursors, events);
      ghost var kept: seq<Spec.Event> := [];
      AllCallsNone(subscriptions, works);
      for i := 0 to |events|
        invariant latestLedger == Spec.Advanced(old(latestLedger), cursors, events[..i])
        invariant log == old(log) + kept && kept == Spec.Kept(cursors, events[..i])
        invariant calls == old(calls) + AllCalls(subscriptions, kept) && dispatched == AllSuccesses(subscriptions, kept, works)
      {
        Spec.PollStep(old(latestLedger), cursors, events, i);
        var event := events[i];
        if event.contract !in cursors { continue; }
        var cursor := cursors[event.contract];
        if event.ledger > 0 && event.ledger < cursor { continue; }
        if event.ledger > 0 {
          var next := Spec.Max(if event.contract in latestLedger then latestLedger[event.contract] else cursor, event.ledger + 1);
          latestLedger := latestLedger[event.contract := next];
        }
        var n := DispatchEvent(event, works);
        dispatched := dispatched + n;
        AllCallsSnoc(subscriptions, old(calls), kept, event, works);
        kept := kept + [event];
      }
      assert events[..|events|] == events;
    }
  }
}
