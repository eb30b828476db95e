/**
  The event router of apps/api/src/lib/contract-router.ts: one poll for all contracts from
  the oldest cursor, one cursor per contract. Polls follow one another; the events a poll
  fetches are a parameter, about which theorems assume what the RPC node promises.
 */
module ContractRouter {
  import opened Wrappers

  const MAX_ROUTER_CONTRACTS := 100
  const ANY_TOPIC := "*"

  /** A ledger of 0 stands for an event without one. */
  datatype Event = Event(id: nat, contract: string, ledger: nat, topic: string)

  datatype Subscription = Subscription(topic: string, handler: string)
  datatype Router = Router(subscriptions: map<string, seq<Subscription>>, latest: map<string, nat>)

  function Max(a: nat, b: nat): nat {
    if a < b then b else a
  }

  // ---------------------------------------------------------------------------
  // One poll
  // ---------------------------------------------------------------------------

  function Cursor(r: Router, start: nat, contract: string): nat {
    if contract in r.latest then r.latest[contract] else start
  }

  function Cursors(r: Router, start: nat): map<string, nat> {
    map c | c in r.subscriptions :: Cursor(r, start, c)
  }

  ghost predicate IsOldest(cursors: map<string, nat>, from: nat) {
    (exists c :: c in cursors && cursors[c] == from) && (forall c :: c in cursors ==> from <= cursors[c])
  }

  predicate Skips(cursors: map<string, nat>, e: Event) {
    e.contract !in cursors || 0 < e.ledger < cursors[e.contract]
  }

  /** The events of a fetch that are dispatched. */
  function Kept(cursors: map<string, nat>, events: seq<Event>): seq<Event> {
    if events == [] then []
    else
      var front, e := Kept(cursors, events[..|events| - 1]), events[|events| - 1];
      if Skips(cursors, e) then front else front + [e]
  }

  /** The cursors after a fetch: past every event dispatched. */
  function Advanced(latest: map<string, nat>, cursors: map<string, nat>, events: seq<Event>): map<string, nat> {
    if events == [] then latest
    else
      var l, e := Advanced(latest, cursors, events[..|events| - 1]), events[|events| - 1];
      if Skips(cursors, e) || e.ledger == 0 then l
      else l[e.contract := Max(if e.contract in l then l[e.contract] else cursors[e.contract], e.ledger + 1)]
  }

  function Polled(r: Router, start: nat, events: seq<Event>): Router {
    r.(latest := Advanced(r.latest, Cursors(r, start), events))
  }

  predicate Full(r: Router, contract: string) {
    contract !in r.subscriptions && |r.subscriptions| >= MAX_ROUTER_CONTRACTS
  }

  function Subscribed(r: Router, contract: string, sub: Subscription): Router {
    if Full(r, contract) then r
    else r.(subscriptions := r.subscriptions[contract := (if contract in r.subscriptions then r.subscriptions[contract] else []) + [sub]])
  }

  function Unsubscribed(r: Router, contract: string): Router {
    Router(r.subscriptions - {contract}, r.latest - {contract})
  }

  /** The handlers dispatchEvent calls, in their order. */
  function Matching(subs: seq<Subscription>, topic: string): seq<string> {
    if subs == [] then []
    else
      var front, s := Matching(subs[..|subs| - 1], topic), subs[|subs| - 1];
      if s.topic != ANY_TOPIC && s.topic != topic then front else front + [s.handler]
  }

  /** Going through a fetch event by event. */
  lemma PollStep(latest: map<string, nat>, cursors: map<string, nat>, events: seq<Event>, i: nat)
    requires i < |events|
    ensures var l, e := Advanced(latest, cursors, events[..i]), events[i];
            && Kept(cursors, events[..i + 1]) == Kept(cursors, events[..i]) + (if Skips(cursors, e) then [] else [e])
            && Advanced(latest, cursors, events[..i + 1]) ==
               if Skips(cursors, e) || e.ledger == 0 then l
               else l[e.contract := Max(if e.contract in l then l[e.contract] else cursors[e.contract], e.ledger + 1)]
  {
    hide Skips;
    assert events[..i + 1][..i] == events[..i];
    SkipsOutside(cursors, events[i]);
  }

  lemma PollStart(latest: map<string, nat>, cursors: map<string, nat>, events: seq<Event>)
    ensures Kept(cursors, events[..0]) == [] && Advanced(latest, cursors, events[..0]) == latest
  {
  }

  lemma KeptStep(cursors: map<string, nat>, events: seq<Event>)
    requires events != []
    ensures var front, last := events[..|events| - 1], events[|events| - 1];
            Kept(cursors, events) == Kept(cursors, front) + if Skips(cursors, last) then [] else [last]
  {
  }

  lemma {:induction false} KeptCount(cursors: map<string, nat>, events: seq<Event>, e: Event)
    ensures multiset(Kept(cursors, events))[e] == if Skips(cursors, e) then 0 else multiset(events)[e]
  {
    if events != [] {
      hide Skips, Kept;
      var front, last := events[..|events| - 1], events[|events| - 1];
      KeptCount(cursors, front, e);
      KeptStep(cursors, events);
      assert events == front + [last];
      assert multiset(events) == multiset(front) + multiset{last};
    }
  }

  lemma {:induction false} AdvancedPast(latest: map<string, nat>, cursors: map<string, nat>, events: seq<Event>, c: string)
    ensures var l := Advanced(latest, cursors, events);
            && (c in latest ==> c in l && latest[c] <= l[c])
            && (forall i :: 0 <= i < |events| && events[i].contract == c && events[i].ledger > 0 && !Skips(cursors, events[i])
                  ==> c in l && events[i].ledger < l[c])
  {
    hide Skips;
    if events != [] {
      AdvancedPast(latest, cursors, events[..|events| - 1], c);
    }
  }

  /** A cursor moves only to just behind an event that was dispatched. */
  lemma {:induction false} AdvancedFrom(latest: map<string, nat>, cursors: map<string, nat>, events: seq<Event>, c: string, head: nat)
    requires c in cursors && (c in latest ==> latest[c] == cursors[c])
    requires forall i :: 0 <= i < |events| && events[i].contract == c ==> events[i].ledger <= head
    ensures var l := Advanced(latest, cursors, events);
            && (c in l && !(c in latest && l[c] == latest[c]) ==>
                  l[c] <= head + 1 && exists i :: 0 <= i < |events| && events[i].contract == c && !Skips(cursors, events[i]))
            && (c in l ==> cursors[c] <= l[c])
  {
    if events != [] {
      var n := |events| - 1;
      AdvancedFrom(latest, cursors, events[..n], c, head);
      if events[n].contract == c && !Skips(cursors, events[n]) {
      } else {
        SameCursor(latest, cursors, events, c);
      }
    }
  }

  lemma SameCursor(latest: map<string, nat>, cursors: map<string, nat>, events: seq<Event>, c: string)
    requires events != [] && (events[|events| - 1].contract != c || Skips(cursors, events[|events| - 1]))
    ensures var l, k := Advanced(latest, cursors, events), Advanced(latest, cursors, events[..|events| - 1]);
            (c in l <==> c in k) && (c in l ==> l[c] == k[c])
  {
  }

  // ---------------------------------------------------------------------------
  // Runs
  // ---------------------------------------------------------------------------

  /**
    log is the history of dispatched events; heads the last ledger any answer about a
    contract has reached, and seen the same since the contract was last unsubscribed.
   */
  datatype World = World(router: Router, log: seq<Event>, heads: map<string, nat>, seen: map<string, nat>)

  /** A poll: for every contract it gets an answer about, the head of that answer; and the events of all answers. */
  datatype Step =
    | Subscribe(contract: string, sub: Subscription)
    | Unsubscribe(contract: string)
    | Poll(heads: map<string, nat>, fetched: seq<Event>)

  function Next(w: World, start: nat, step: Step): World {
    match step
    case Subscribe(c, sub) => w.(router := Subscribed(w.router, c, sub))
    case Unsubscribe(c) => w.(router := Unsubscribed(w.router, c), seen := w.seen - {c})
    case Poll(heads, fetched) =>
      World(Polled(w.router, start, fetched), w.log + Kept(Cursors(w.router, start), fetched), w.heads + heads, w.seen + heads)
  }

  /**
    What the node promises: for the contracts it answers about, every event from the
    requested ledger to the head of the answer, once each, and no head that goes back.
    Contracts are requested in batches: their heads may differ, and a failing batch leaves
    its contracts unanswered.
   */
  ghost predicate Possible(w: World, chain: set<Event>, start: nat, step: Step) {
    step.Poll? ==>
      && step.heads.Keys <= w.router.subscriptions.Keys
      && (forall c :: c in step.heads && c in w.heads ==> w.heads[c] <= step.heads[c])
      && exists from :: (step.heads != map[] ==> IsOldest(Cursors(w.router, start), from)) && Fetched(chain, step, from)
  }

  ghost predicate Fetched(chain: set<Event>, step: Step, from: nat)
    requires step.Poll?
  {
    forall e :: multiset(step.fetched)[e]
      == if e in chain && e.contract in step.heads && from <= e.ledger <= step.heads[e.contract] then 1 else 0
  }

  function Run(w: World, start: nat, steps: seq<Step>): World {
    if steps == [] then w else Next(Run(w, start, steps[..|steps| - 1]), start, steps[|steps| - 1])
  }

  ghost predicate PossibleRun(w: World, chain: set<Event>, start: nat, steps: seq<Step>) {
    steps == []
    || (PossibleRun(w, chain, start, steps[..|steps| - 1])
        && Possible(Run(w, start, steps[..|steps| - 1]), chain, start, steps[|steps| - 1]))
  }

  const Fresh := World(Router(map[], map[]), [], map[], map[])

  // ---------------------------------------------------------------------------
  // How often an event is dispatched
  // ---------------------------------------------------------------------------

  /** The head of the last answer about the contract since it was last unsubscribed. */
  function SeenTo(steps: seq<Step>, c: string): Option<nat> {
    if steps == [] then None
    else
      var step := steps[|steps| - 1];
      if step.Poll? && c in step.heads then Some(step.heads[c])
      else if step == Unsubscribe(c) then None
      else SeenTo(steps[..|steps| - 1], c)
  }

  predicate Covers(start: nat, seen: Option<nat>, ledger: nat) {
    seen.Some? && start <= ledger <= seen.value
  }

  /** How many polls bring the event's ledger in sight anew. */
  function Times(steps: seq<Step>, start: nat, e: Event): nat {
    if steps == [] then 0
    else
      var front := steps[..|steps| - 1];
      Times(front, start, e)
      + if Covers(start, SeenTo(steps, e.contract), e.ledger) && !Covers(start, SeenTo(front, e.contract), e.ledger) then 1 else 0
  }

  function Lookup(m: map<string, nat>, c: string): Option<nat> {
    if c in m then Some(m[c]) else None
  }

  lemma {:induction false} SeenIs(start: nat, steps: seq<Step>, c: string)
    ensures Lookup(Run(Fresh, start, steps).seen, c) == SeenTo(steps, c)
  {
    hide Kept, Advanced, Subscribed, Unsubscribed;
    if steps != [] {
      SeenIs(start, steps[..|steps| - 1], c);
    }
  }

  /** The cursor stands behind every event in sight, and not beyond the head. */
  ghost predicate CursorExact(w: World, chain: set<Event>, start: nat, c: string) {
    && (c in w.seen ==> c in w.heads && w.seen[c] <= w.heads[c])
    && (c in w.router.latest ==> c in w.seen && start <= w.router.latest[c] <= w.seen[c] + 1)
    && (forall e: Event :: e.contract == c && e in chain && Covers(start, Lookup(w.seen, c), e.ledger) ==> e.ledger < Cursor(w.router, start, c))
  }

  ghost predicate LedgersPositive(chain: set<Event>) {
    forall e :: e in chain ==> e.ledger > 0
  }

  /** The poll brings the event's ledger in sight anew. */
  predicate NewlySeen(w: World, start: nat, step: Step, e: Event) {
    Covers(start, Lookup(Next(w, start, step).seen, e.contract), e.ledger) && !Covers(start, Lookup(w.seen, e.contract), e.ledger)
  }

  /** A poll dispatches an event of the chain exactly when it comes in sight anew, and then once. */
  lemma KeptExactly(w: World, chain: set<Event>, start: nat, step: Step, e: Event)
    requires CursorExact(w, chain, start, e.contract) && LedgersPositive(chain)
    requires step.Poll? && Possible(w, chain, start, step)
    ensures multiset(Kept(Cursors(w.router, start), step.fetched))[e] == if e in chain && NewlySeen(w, start, step, e) then 1 else 0
  {
    hide Kept, Advanced;
    var cursors := Cursors(w.router, start);
    KeptCount(cursors, step.fetched, e);
    var from: nat :| (step.heads != map[] ==> IsOldest(cursors, from)) && Fetched(chain, step, from);
    assert multiset(step.fetched)[e] == if e in chain && e.contract in step.heads && from <= e.ledger <= step.heads[e.contract] then 1 else 0;
    if e.contract in step.heads {
      assert e.contract in cursors && from <= cursors[e.contract] == Cursor(w.router, start, e.contract);
    }
  }

  lemma CursorStep(w: World, chain: set<Event>, start: nat, step: Step, c: string)
    requires CursorExact(w, chain, start, c) && LedgersPositive(chain)
    requires step.Poll? && Possible(w, chain, start, step)
    ensures CursorExact(Next(w, start, step), chain, start, c)
  {
    hide Kept, Advanced;
    var v := Next(w, start, step);
    var cursors := Cursors(w.router, start);
    var from: nat :| (step.heads != map[] ==> IsOldest(cursors, from)) && Fetched(chain, step, from);
    AdvancedPast(w.router.latest, cursors, step.fetched, c);
    if c in cursors {
      FetchedOf(chain, step, from, c);
      AdvancedFrom(w.router.latest, cursors, step.fetched, c, if c in step.heads then step.heads[c] else 0);
      forall e: Event | e.contract == c && e in chain && Covers(start, Lookup(v.seen, c), e.ledger)
        ensures e.ledger < Cursor(v.router, start, c)
      {
        PastDue(w, chain, start, step, from, e);
      }
    } else {
      NotPolled(w.router.latest, cursors, step.fetched, c);
    }
  }

  lemma FetchedOf(chain: set<Event>, step: Step, from: nat, c: string)
    requires step.Poll? && Fetched(chain, step, from)
    ensures forall i :: 0 <= i < |step.fetched| && step.fetched[i].contract == c ==> c in step.heads && step.fetched[i].ledger <= step.heads[c]
  {
    forall i | 0 <= i < |step.fetched| && step.fetched[i].contract == c
      ensures c in step.heads && step.fetched[i].ledger <= step.heads[c]
    {
      assert step.fetched[i] in multiset(step.fetched);
    }
  }

  lemma PastDue(w: World, chain: set<Event>, start: nat, step: Step, from: nat, e: Event)
    requires CursorExact(w, chain, start, e.contract) && LedgersPositive(chain) && e in chain
    requires step.Poll? && e.contract in w.router.subscriptions && step.heads.Keys <= w.router.subscriptions.Keys
    requires (step.heads != map[] ==> IsOldest(Cursors(w.router, start), from)) && Fetched(chain, step, from)
    requires Covers(start, Lookup(Next(w, start, step).seen, e.contract), e.ledger)
    ensures e.ledger < Cursor(Next(w, start, step).router, start, e.contract)
  {
    hide Kept, Advanced;
    var cursors := Cursors(w.router, start);
    AdvancedPast(w.router.latest, cursors, step.fetched, e.contract);
    if e.contract in step.heads {
      assert from <= cursors[e.contract];
      if cursors[e.contract] <= e.ledger {
        assert multiset(step.fetched)[e] == 1;
        assert e in step.fetched;
        assert !Skips(cursors, e);
      }
    }
    if e.ledger < cursors[e.contract] {
      CursorGrows(w.router, start, step.fetched, e.contract);
    }
  }

  lemma CursorGrows(r: Router, start: nat, events: seq<Event>, c: string)
    requires c in r.subscriptions
    ensures Cursor(r, start, c) <= Cursor(Polled(r, start, events), start, c)
  {
    hide Advanced;
    var cursors := Cursors(r, start);
    AdvancedPast(r.latest, cursors, events, c);
    AdvancedAtLeast(r.latest, cursors, events, c);
  }

  lemma {:induction false} AdvancedAtLeast(latest: map<string, nat>, cursors: map<string, nat>, events: seq<Event>, c: string)
    requires c in cursors && (c in latest ==> latest[c] == cursors[c])
    ensures var l := Advanced(latest, cursors, events); c in l ==> cursors[c] <= l[c]
  {
    hide Skips;
    if events != [] {
      AdvancedAtLeast(latest, cursors, events[..|events| - 1], c);
      assert Skips(cursors, events[|events| - 1]) || events[|events| - 1].contract in cursors by { SkipsOutside(cursors, events[|events| - 1]); }
    }
  }

  lemma SkipsOutside(cursors: map<string, nat>, e: Event)
    ensures e.contract !in cursors ==> Skips(cursors, e)
  {
  }

  lemma {:induction false} NotPolled(latest: map<string, nat>, cursors: map<string, nat>, events: seq<Event>, c: string)
    requires c !in cursors
    ensures var l := Advanced(latest, cursors, events);
            (c in l <==> c in latest) && (c in l ==> l[c] == latest[c])
  {
    hide Skips;
    if events != [] {
      NotPolled(latest, cursors, events[..|events| - 1], c);
      SkipsOutside(cursors, events[|events| - 1]);
    }
  }

  lemma CursorKept(w: World, chain: set<Event>, start: nat, step: Step, c: string)
    requires CursorExact(w, chain, start, c) && LedgersPositive(chain) && Possible(w, chain, start, step)
    ensures CursorExact(Next(w, start, step), chain, start, c)
  {
    match step {
      case Poll(_, _) => CursorStep(w, chain, start, step, c);
      case Subscribe(k, sub) =>
      case Unsubscribe(k) =>
    }
  }

  lemma {:induction false} CursorRun(chain: set<Event>, start: nat, steps: seq<Step>, c: string)
    requires LedgersPositive(chain) && PossibleRun(Fresh, chain, start, steps)
    ensures CursorExact(Run(Fresh, start, steps), chain, start, c)
  {
    hide Next, Possible, LedgersPositive;
    if steps != [] {
      CursorRun(chain, start, steps[..|steps| - 1], c);
      CursorKept(Run(Fresh, start, steps[..|steps| - 1]), chain, start, steps[|steps| - 1], c);
    }
  }

  /** One step adds to the log's count of an event what it adds to Times. */
  lemma LogStep(w: World, chain: set<Event>, start: nat, step: Step, e: Event)
    requires CursorExact(w, chain, start, e.contract) && LedgersPositive(chain) && Possible(w, chain, start, step)
    ensures multiset(Next(w, start, step).log)[e] == multiset(w.log)[e] + if e in chain && NewlySeen(w, start, step, e) then 1 else 0
  {
    hide Kept, Advanced, Possible, CursorExact;
    if step.Poll? {
      KeptExactly(w, chain, start, step, e);
      assert Next(w, start, step).log == w.log + Kept(Cursors(w.router, start), step.fetched);
    }
  }

  /**
    Over any sequence of polls, failed batches included, with contracts subscribed and
    unsubscribed at any time: an event is dispatched once for every poll that brings its
    ledger, from the start ledger on, in sight anew, and nothing else ever is.
   */
  lemma {:induction false} DispatchedTimes(chain: set<Event>, start: nat, steps: seq<Step>, e: Event)
    requires LedgersPositive(chain) && PossibleRun(Fresh, chain, start, steps)
    ensures multiset(Run(Fresh, start, steps).log)[e] == if e in chain then Times(steps, start, e) else 0
  {
    hide Next, Possible, LedgersPositive, CursorExact, SeenTo, Covers;
    if steps != [] {
      var front, last := steps[..|steps| - 1], steps[|steps| - 1];
      var w := Run(Fresh, start, front);
      DispatchedTimes(chain, start, front, e);
      CursorRun(chain, start, front, e.contract);
      LogStep(w, chain, start, last, e);
      SeenIs(start, front, e.contract);
      SeenIs(start, steps, e.contract);
    }
  }

  /** Exactly the events in sight: without an unsubscription in between, heads never go back, so none comes in sight twice. */
  lemma {:induction false} TimesOnce(chain: set<Event>, start: nat, steps: seq<Step>, e: Event)
    requires PossibleRun(Fresh, chain, start, steps) && CursorExact(Run(Fresh, start, steps), chain, start, e.contract)
    requires forall i :: 0 <= i < |steps| ==> steps[i] != Unsubscribe(e.contract)
    requires LedgersPositive(chain)
    ensures Times(steps, start, e) == if Covers(start, SeenTo(steps, e.contract), e.ledger) then 1 else 0
  {
    hide Next, Possible, LedgersPositive, CursorExact;
    if steps != [] {
      var front, last := steps[..|steps| - 1], steps[|steps| - 1];
      assert forall i :: 0 <= i < |front| ==> front[i] == steps[i];
      CursorRun(chain, start, front, e.contract);
      TimesOnce(chain, start, front, e);
      HeadsGrow(Run(Fresh, start, front), chain, start, last, e.contract);
      SeenIs(start, front, e.contract);
    }
  }

  lemma HeadsGrow(w: World, chain: set<Event>, start: nat, step: Step, c: string)
    requires Possible(w, chain, start, step) && CursorExact(w, chain, start, c)
    ensures step.Poll? && c in step.heads && c in w.seen ==> w.seen[c] <= step.heads[c]
  {
  }

  /**
    As long as a contract is not unsubscribed, each of its events from the start ledger to
    the last head seen for it has been dispatched exactly once, and no other event of it has.
   */
  lemma ExactlyOnce(chain: set<Event>, start: nat, steps: seq<Step>, e: Event)
    requires LedgersPositive(chain) && PossibleRun(Fresh, chain, start, steps)
    requires forall i :: 0 <= i < |steps| ==> steps[i] != Unsubscribe(e.contract)
    ensures multiset(Run(Fresh, start, steps).log)[e]
         == if e in chain && Covers(start, SeenTo(steps, e.contract), e.ledger) then 1 else 0
  {
    hide Run, PossibleRun, Times, SeenTo, CursorExact, LedgersPositive;
    CursorRun(chain, start, steps, e.contract);
    DispatchedTimes(chain, start, steps, e);
    TimesOnce(chain, start, steps, e);
  }

  /** Cursors never go back: over any further steps, whatever is fetched, unless the contract is unsubscribed. */
  lemma {:induction false} CursorsNeverBack(w: World, start: nat, steps: seq<Step>, c: string)
    requires c in w.router.latest
    requires forall i :: 0 <= i < |steps| ==> steps[i] != Unsubscribe(c)
    ensures c in Run(w, start, steps).router.latest && w.router.latest[c] <= Run(w, start, steps).router.latest[c]
  {
    hide Next;
    if steps != [] {
      var front := steps[..|steps| - 1];
      assert forall i :: 0 <= i < |front| ==> front[i] == steps[i];
      CursorsNeverBack(w, start, front, c);
      CursorOneStep(Run(w, start, front), start, steps[|steps| - 1], c);
    }
  }

  lemma CursorOneStep(w: World, start: nat, step: Step, c: string)
    requires c in w.router.latest && step != Unsubscribe(c)
    ensures c in Next(w, start, step).router.latest && w.router.latest[c] <= Next(w, start, step).router.latest[c]
  {
    hide Advanced, Kept;
    if step.Poll? {
      AdvancedPast(w.router.latest, Cursors(w.router, start), step.fetched, c);
    }
  }

  /** Never more contracts than the limit. */
  lemma {:induction false} AtMostLimit(start: nat, steps: seq<Step>)
    ensures |Run(Fresh, start, steps).router.subscriptions| <= 100
  {
    hide Advanced, Kept;
    if steps != [] {
      var w := Run(Fresh, start, steps[..|steps| - 1]);
      AtMostLimit(start, steps[..|steps| - 1]);
      LimitStep(w, start, steps[|steps| - 1]);
    }
  }

  lemma LimitStep(w: World, start: nat, step: Step)
    requires |w.router.subscriptions| <= 100
    ensures |Next(w, start, step).router.subscriptions| <= 100
  {
    hide Advanced, Kept;
    match step {
      case Unsubscribe(c) =>
        var m := w.router.subscriptions;
        assert (m - {c}).Keys == m.Keys - {c};
      case Subscribe(c, sub) =>
        var m := w.router.subscriptions;
        assert Next(w, start, step).router.subscriptions.Keys <= m.Keys + {c};
      case Poll(_, _) =>
    }
  }

  // ---------------------------------------------------------------------------
  // Unsubscribing forgets the cursor
  // ---------------------------------------------------------------------------

  lemma RunSnoc(chain: set<Event>, start: nat, steps: seq<Step>, step: Step)
    requires PossibleRun(Fresh, chain, start, steps) && Possible(Run(Fresh, start, steps), chain, start, step)
    ensures PossibleRun(Fresh, chain, start, steps + [step])
    ensures Run(Fresh, start, steps + [step]) == Next(Run(Fresh, start, steps), start, step)
  {
    hide Next, Possible;
    assert (steps + [step])[..|steps|] == steps;
  }

  lemma OneFetched(e: Event, start: nat)
    requires 0 < start <= e.ledger
    ensures var cursors := map[e.contract := start];
            && Kept(cursors, [e]) == [e]
            && Advanced(map[], cursors, [e]) == map[e.contract := e.ledger + 1]
            && IsOldest(cursors, start)
            && Fetched({e}, Poll(map[e.contract := e.ledger], [e]), start)
  {
    var cursors := map[e.contract := start];
    assert cursors[e.contract] == start;
    assert [e][..0] == [];
    assert Kept(cursors, []) == [] && Advanced(map[], cursors, []) == map[];
  }

  /** The whole chain is one event, and a poll that reaches it finds its contract without a cursor. */
  lemma PollOfOne(w: World, e: Event, sub: Subscription, start: nat)
    requires 0 < start <= e.ledger && (e.contract in w.heads ==> w.heads[e.contract] <= e.ledger)
    requires w.router == Router(map[e.contract := [sub]], map[])
    ensures var step := Poll(map[e.contract := e.ledger], [e]);
            && Possible(w, {e}, start, step)
            && Next(w, start, step).router.subscriptions == w.router.subscriptions
            && Next(w, start, step).log == w.log + [e]
            && Next(w, start, step).heads == w.heads[e.contract := e.ledger]
            && Next(w, start, step).router.latest.Keys == {e.contract}
  {
    hide Kept, Advanced, Fetched, IsOldest;
    OneFetched(e, start);
    assert Cursors(w.router, start) == map[e.contract := start];
  }

  /** Subscribing, reaching the event and unsubscribing, n times over. */
  function Rounds(e: Event, sub: Subscription, n: nat): seq<Step> {
    if n == 0 then []
    else Rounds(e, sub, n - 1) + [Subscribe(e.contract, sub), Poll(map[e.contract := e.ledger], [e]), Unsubscribe(e.contract)]
  }

  /**
    A contract that is unsubscribed and subscribed again starts over: every such round
    dispatches its events anew, so there is no bound on how often.
   */
  lemma {:induction false} ReplayAfterUnsubscribe(e: Event, sub: Subscription, start: nat, n: nat)
    requires 0 < start <= e.ledger
    ensures PossibleRun(Fresh, {e}, start, Rounds(e, sub, n))
    ensures var w := Run(Fresh, start, Rounds(e, sub, n));
            && multiset(w.log)[e] == n
            && w.router == Router(map[], map[])
            && (e.contract in w.heads ==> w.heads[e.contract] == e.ledger)
  {
    hide Run, PossibleRun, Kept, Advanced, Possible, Next;
    if n == 0 {
      EmptyRun({e}, start);
    } else {
      var c := e.contract;
      var poll := Poll(map[c := e.ledger], [e]);
      var so := Rounds(e, sub, n - 1);
      ReplayAfterUnsubscribe(e, sub, start, n - 1);
      var w0 := Run(Fresh, start, so);
      UserSteps(w0, {e}, start, c, sub);
      RunSnoc({e}, start, so, Subscribe(c, sub));
      var w1 := Next(w0, start, Subscribe(c, sub));
      PollOfOne(w1, e, sub, start);
      RunSnoc({e}, start, so + [Subscribe(c, sub)], poll);
      var w2 := Next(w1, start, poll);
      UserSteps(w2, {e}, start, c, sub);
      RunSnoc({e}, start, so + [Subscribe(c, sub)] + [poll], Unsubscribe(c));
      assert Rounds(e, sub, n) == so + [Subscribe(c, sub)] + [poll] + [Unsubscribe(c)];
    }
  }

  lemma EmptyRun(chain: set<Event>, start: nat)
    ensures PossibleRun(Fresh, chain, start, []) && Run(Fresh, start, []) == Fresh
  {
  }

  lemma UserSteps(w: World, chain: set<Event>, start: nat, c: string, sub: Subscription)
    ensures Possible(w, chain, start, Subscribe(c, sub)) && Possible(w, chain, start, Unsubscribe(c))
    ensures var v := Next(w, start, Subscribe(c, sub));
            && v.log == w.log && v.heads == w.heads && v.router.latest == w.router.latest
            && (w.router.subscriptions == map[] ==> v.router.subscriptions == map[c := [sub]])
    ensures var v := Next(w, start, Unsubscribe(c));
            && v.log == w.log && v.heads == w.heads
            && (w.router.subscriptions.Keys == {c} ==> v.router.subscriptions == map[])
            && (w.router.latest.Keys == {c} ==> v.router.latest == map[])
  {
    hide Kept, Advanced, Cursors, Polled, Subscribed, Fetched;
    FirstSubscribed(w.router, c, sub);
  }

  lemma FirstSubscribed(r: Router, c: string, sub: Subscription)
    ensures Subscribed(r, c, sub).latest == r.latest
    ensures r.subscriptions == map[] ==> Subscribed(r, c, sub).subscriptions == map[c := [sub]]
  {
    assert [] + [sub] == [sub];
    if r.subscriptions == map[] {
      assert |r.subscriptions| == 0;
    }
  }

  // ---------------------------------------------------------------------------
  // Which handlers an event reaches
  // ---------------------------------------------------------------------------

  lemma {:induction false} MatchingConcat(a: seq<Subscription>, b: seq<Subscription>, topic: string)
    ensures Matching(a + b, topic) == Matching(a, topic) + Matching(b, topic)
  {
    if b == [] {
      assert a + b == a;
    } else {
      var front, last := b[..|b| - 1], b[|b| - 1];
      MatchingConcat(a, front, topic);
      assert (a + b)[..|a + b| - 1] == a + front;
    }
  }

  /**
    Wherever a subscription stands in the list, it adds one call of its handler, at its
    place, for events of its topic, or of any topic if it asks for all; and none for others.
   */
  lemma MatchingExactly(a: seq<Subscription>, sub: Subscription, b: seq<Subscription>, topic: string)
    ensures Matching(a + [sub] + b, topic)
         == Matching(a, topic) + (if sub.topic == "*" || sub.topic == topic then [sub.handler] else []) + Matching(b, topic)
  {
    MatchingConcat(a + [sub], b, topic);
    MatchingConcat(a, [sub], topic);
    assert [sub][..0] == [];
  }

  /** The subscriptions accepted for a contract since it was last unsubscribed; a new contract needs a free place. */
  ghost function Registered(steps: seq<Step>, start: nat, c: string): seq<Subscription> {
    if steps == [] then []
    else
      var front, step := steps[..|steps| - 1], steps[|steps| - 1];
      var before := Registered(front, start, c);
      if step == Unsubscribe(c) then []
      else if step.Subscribe? && step.contract == c && (before != [] || |Run(Fresh, start, front).router.subscriptions| < 100)
      then before + [step.sub]
      else before
  }

  /** The subscriptions for a contract, none standing for a contract that is not there. */
  predicate Holds(r: Router, c: string, subs: seq<Subscription>) {
    (c in r.subscriptions <==> subs != []) && (c in r.subscriptions ==> r.subscriptions[c] == subs)
  }

  lemma HoldsSubscribed(r: Router, c: string, subs: seq<Subscription>, k: string, sub: Subscription)
    requires Holds(r, c, subs)
    ensures Holds(Subscribed(r, k, sub), c, if k == c && (subs != [] || |r.subscriptions| < 100) then subs + [sub] else subs)
  {
  }

  lemma HoldsUnsubscribed(r: Router, c: string, subs: seq<Subscription>, k: string)
    requires Holds(r, c, subs)
    ensures Holds(Unsubscribed(r, k), c, if k == c then [] else subs)
  {
  }

  /** In every run the subscriptions for a contract are those registered, in their order. */
  lemma {:induction false} RegisteredExactly(steps: seq<Step>, start: nat, c: string)
    ensures Holds(Run(Fresh, start, steps).router, c, Registered(steps, start, c))
  {
    hide Polled, Subscribed, Unsubscribed, Holds;
    if steps == [] {
      assert Holds(Fresh.router, c, []) by { NoneHeld(c); }
    } else {
      var front, step := steps[..|steps| - 1], steps[|steps| - 1];
      var w, subs := Run(Fresh, start, front), Registered(front, start, c);
      RegisteredExactly(front, start, c);
      match step {
        case Subscribe(k, sub) => HoldsSubscribed(w.router, c, subs, k, sub);
        case Unsubscribe(k) => HoldsUnsubscribed(w.router, c, subs, k);
        case Poll(heads, fetched) => HoldsPolled(w.router, start, fetched, c, subs);
      }
    }
  }

  lemma NoneHeld(c: string)
    ensures Holds(Fresh.router, c, [])
  {
  }

  lemma HoldsPolled(r: Router, start: nat, fetched: seq<Event>, c: string, subs: seq<Subscription>)
    requires Holds(r, c, subs)
    ensures Holds(Polled(r, start, fetched), c, subs)
  {
  }

  /** An event without a ledger is dispatched whenever it is fetched for a subscribed contract. */
  lemma WithoutLedger(r: Router, start: nat, fetched: seq<Event>, e: Event)
    requires e.ledger == 0
    ensures multiset(Kept(Cursors(r, start), fetched))[e] == if e.contract in r.subscriptions then multiset(fetched)[e] else 0
  {
    KeptCount(Cursors(r, start), fetched, e);
  }
}
