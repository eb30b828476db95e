/**
  The failover controller of apps/api/src/lib/db-failover.ts as a protocol: health probes,
  one guarded replay at a time, handlers that may fail, and any number of callers of
  bufferMutation act on one Redis list, each operation on the list being one atomic step.
 */
module DbFailover {
  datatype Mutation = Mutation(id: string, kind: string, payload: string)

  /** An element of the list: a serialized mutation, or text that does not parse. */
  datatype Raw = Json(mutation: Mutation) | Garbage(text: string)

  datatype Mode = Healthy | DegradedReadOnly
  datatype Target = Primary | Replica

  /**
    Where the replay stands. Drained remembers how many mutations had been accepted when it
    saw the list empty; Ending and Throwing are a replay on its way out.
   */
  datatype Pc = Idle | Shifting | Shifted(raw: Raw) | Handling(raw: Raw) | PuttingBack(raw: Raw) | Drained(seen: nat) | Ending | Throwing

  /** What became of an element: applied, dropped for one of two reasons, or lost to a Redis error. */
  datatype How = Applied | NoHandler | Unparseable | Lost
  datatype Done = Done(raw: Raw, how: How)

  datatype Config = Config(failureThreshold: int, recoveryThreshold: int, maxBufferSize: int)

  /** pending holds the mutations of callers that found room and have not pushed yet; accepted and done are history. */
  datatype World = World(
    mode: Mode, target: Target, failures: nat, successes: nat, replaying: bool, pc: Pc, handlers: set<string>,
    buffer: seq<Raw>, pending: seq<Mutation>, accepted: seq<Raw>, done: seq<Done>)

  /** How a Redis command fares: carried out and answered, not carried out, or carried out with its answer lost. */
  datatype Fate = Works | Fails | AnswerLost

  datatype Event =
    | ProbeOk
    | ProbeFailed
    | Register(kind: string)
    | Shift(fate: Fate)
    | Decide
    | Handle(works: bool)
    | PutBack(fate: Fate)
    | Finish
    | Settle
    | Length(mutation: Mutation)
    | Push(index: nat, fate: Fate)

  /** The catch block of check. */
  function Failure(w: World, config: Config): World {
    var v := w.(successes := 0, failures := w.failures + 1);
    if v.mode.Healthy? && v.failures >= config.failureThreshold then v.(mode := DegradedReadOnly, target := Replica) else v
  }

  function ProbedOk(w: World, config: Config): World {
    var v := w.(failures := 0, successes := w.successes + 1);
    if v.mode.DegradedReadOnly? && v.successes >= config.recoveryThreshold && !v.replaying then v.(replaying := true, pc := Shifting) else v
  }

  function AfterShift(w: World, fate: Fate): World {
    if fate.Fails? then w.(pc := Throwing)
    else if w.buffer == [] then w.(pc := if fate.Works? then Drained(|w.accepted|) else Throwing)
    else
      var v := w.(buffer := w.buffer[1..]);
      if fate.Works? then v.(pc := Shifted(w.buffer[0])) else v.(pc := Throwing, done := w.done + [Done(w.buffer[0], Lost)])
  }

  function Drop(w: World, raw: Raw, how: How): World {
    w.(pc := Shifting, done := w.done + [Done(raw, how)])
  }

  function AfterDecide(w: World, raw: Raw): World {
    match raw
    case Garbage(_) => Drop(w, raw, Unparseable)
    case Json(m) => if m.kind !in w.handlers then Drop(w, raw, NoHandler) else w.(pc := Handling(raw))
  }

  function AfterPutBack(w: World, raw: Raw, fate: Fate): World {
    match fate
    case Works => w.(buffer := [raw] + w.buffer, successes := 0, pc := Ending)
    case Fails => w.(done := w.done + [Done(raw, Lost)], pc := Throwing)
    case AnswerLost => w.(buffer := [raw] + w.buffer, pc := Throwing)
  }

  /** The finally block of recover, and what check does with an exception that comes out of it. */
  function Settled(w: World, config: Config): World {
    var v := w.(replaying := false, pc := Idle);
    if w.pc.Throwing? then Failure(v, config) else v
  }

  function AfterPush(w: World, index: nat, fate: Fate): World
    requires index < |w.pending|
  {
    var raw := Json(w.pending[index]);
    var v := w.(pending := w.pending[..index] + w.pending[index + 1..]);
    if fate.Fails? then v else v.(buffer := v.buffer + [raw], accepted := v.accepted + [raw])
  }

  /** An event that is not enabled changes nothing. */
  function Step(w: World, config: Config, e: Event): World {
    match e
    case ProbeOk => ProbedOk(w, config)
    case ProbeFailed => Failure(w, config)
    case Register(kind) => w.(handlers := w.handlers + {kind})
    case Shift(fate) => if w.pc.Shifting? then AfterShift(w, fate) else w
    case Decide => if w.pc.Shifted? then AfterDecide(w, w.pc.raw) else w
    case Handle(works) =>
      if !w.pc.Handling? then w
      else if works then w.(pc := Shifting, done := w.done + [Done(w.pc.raw, Applied)])
      else w.(pc := PuttingBack(w.pc.raw))
    case PutBack(fate) => if w.pc.PuttingBack? then AfterPutBack(w, w.pc.raw, fate) else w
    case Finish => if w.pc.Drained? then w.(mode := Healthy, target := Replica, pc := Ending) else w
    case Settle => if w.pc.Ending? || w.pc.Throwing? then Settled(w, config) else w
    case Length(m) => if |w.buffer| < config.maxBufferSize then w.(pending := w.pending + [m]) else w
    case Push(i, fate) => if i < |w.pending| then AfterPush(w, i, fate) else w
  }

  function Run(w: World, config: Config, events: seq<Event>): World {
    if events == [] then w else Step(Run(w, config, events[..|events| - 1]), config, events[|events| - 1])
  }

  lemma RunSnoc(w: World, config: Config, events: seq<Event>, e: Event)
    ensures Run(w, config, events + [e]) == Step(Run(w, config, events), config, e)
  {
    assert (events + [e])[..|events|] == events;
  }

  /** The world after the first n events. */
  function After(w: World, config: Config, events: seq<Event>, n: nat): World
    requires n <= |events|
  {
    if n == 0 then w else Step(After(w, config, events, n - 1), config, events[n - 1])
  }

  lemma {:induction false} RunAfter(w: World, config: Config, events: seq<Event>, n: nat)
    requires n <= |events|
    ensures Run(w, config, events[..n]) == After(w, config, events, n)
    ensures n == |events| ==> Run(w, config, events) == After(w, config, events, n)
  {
    hide Step;
    if n > 0 {
      RunAfter(w, config, events, n - 1);
      assert events[..n][..n - 1] == events[..n - 1];
    }
    assert events[..|events|] == events;
  }

  /** The controller starts with a list that an earlier process may have left. */
  function Start(handlers: set<string>, buffer: seq<Raw>): World {
    World(Healthy, Primary, 0, 0, false, Idle, handlers, buffer, [], buffer, [])
  }

  // ---------------------------------------------------------------------------
  // Nothing is lost, doubled or overtaken
  // ---------------------------------------------------------------------------

  function Raws(done: seq<Done>): (r: seq<Raw>)
    ensures |r| == |done| && forall i :: 0 <= i < |r| ==> r[i] == done[i].raw
  {
    seq(|done|, i requires 0 <= i < |done| => done[i].raw)
  }

  function InFlight(pc: Pc): seq<Raw> {
    if pc.Shifted? || pc.Handling? || pc.PuttingBack? then [pc.raw] else []
  }

  predicate Working(pc: Pc) {
    !pc.Idle? && !pc.Ending? && !pc.Throwing?
  }

  predicate Inv(w: World) {
    && (w.replaying <==> !w.pc.Idle?)
    && (Working(w.pc) ==> w.mode.DegradedReadOnly?)
    && Raws(w.done) + InFlight(w.pc) + w.buffer == w.accepted
    && (w.pc.Drained? ==> w.pc.seen == |w.done|)
  }

  lemma RawsSnoc(done: seq<Done>, d: Done)
    ensures Raws(done + [d]) == Raws(done) + [d.raw]
  {
  }

  lemma ShiftKeeps(w: World, fate: Fate)
    requires Inv(w) && w.pc.Shifting?
    ensures Inv(AfterShift(w, fate))
  {
    hide Raws;
    if w.buffer != [] {
      RawsSnoc(w.done, Done(w.buffer[0], Lost));
      assert w.buffer == [w.buffer[0]] + w.buffer[1..];
      assert Raws(w.done) + [] + w.buffer == Raws(w.done) + [w.buffer[0]] + w.buffer[1..];
      assert Raws(w.done) + [w.buffer[0]] + w.buffer[1..] == Raws(w.done) + [w.buffer[0]] + [] + w.buffer[1..];
    } else {
      assert Raws(w.done) + [] + [] == Raws(w.done);
    }
  }

  lemma DecideKeeps(w: World)
    requires Inv(w) && w.pc.Shifted?
    ensures Inv(AfterDecide(w, w.pc.raw))
  {
    hide Raws;
    RawsSnoc(w.done, Done(w.pc.raw, Unparseable));
    RawsSnoc(w.done, Done(w.pc.raw, NoHandler));
    assert Raws(w.done) + [w.pc.raw] + w.buffer == Raws(w.done) + [w.pc.raw] + [] + w.buffer;
  }

  lemma HandleKeeps(w: World, config: Config, works: bool)
    requires Inv(w) && w.pc.Handling?
    ensures Inv(Step(w, config, Handle(works)))
  {
    hide Raws;
    RawsSnoc(w.done, Done(w.pc.raw, Applied));
    assert Raws(w.done) + [w.pc.raw] + w.buffer == Raws(w.done) + [w.pc.raw] + [] + w.buffer;
  }

  lemma PutBackKeeps(w: World, fate: Fate)
    requires Inv(w) && w.pc.PuttingBack?
    ensures Inv(AfterPutBack(w, w.pc.raw, fate))
  {
    hide Raws;
    RawsSnoc(w.done, Done(w.pc.raw, Lost));
    assert Raws(w.done) + [w.pc.raw] + w.buffer == Raws(w.done) + [w.pc.raw] + [] + w.buffer;
    assert Raws(w.done) + [w.pc.raw] + w.buffer == Raws(w.done) + [] + ([w.pc.raw] + w.buffer);
  }

  lemma PushKeeps(w: World, index: nat, fate: Fate)
    requires Inv(w) && index < |w.pending|
    ensures Inv(AfterPush(w, index, fate))
  {
    hide Raws;
    var raw := Json(w.pending[index]);
    assert Raws(w.done) + InFlight(w.pc) + w.buffer + [raw] == Raws(w.done) + InFlight(w.pc) + (w.buffer + [raw]);
  }

  lemma StepKeeps(w: World, config: Config, e: Event)
    requires Inv(w)
    ensures Inv(Step(w, config, e))
  {
    hide Raws, AfterShift, AfterDecide, AfterPutBack, AfterPush;
    match e {
      case Shift(fate) => if w.pc.Shifting? { ShiftKeeps(w, fate); }
      case Decide => if w.pc.Shifted? { DecideKeeps(w); }
      case Handle(works) => if w.pc.Handling? { HandleKeeps(w, config, works); }
      case PutBack(fate) => if w.pc.PuttingBack? { PutBackKeeps(w, fate); }
      case Push(i, fate) => if i < |w.pending| { PushKeeps(w, i, fate); }
      case _ =>
    }
  }

  lemma {:induction false} RunKeeps(w: World, config: Config, events: seq<Event>)
    requires Inv(w)
    ensures Inv(Run(w, config, events))
  {
    hide Inv, Step;
    if events != [] {
      RunKeeps(w, config, events[..|events| - 1]);
      StepKeeps(Run(w, config, events[..|events| - 1]), config, events[|events| - 1]);
    }
  }

  /** The mutations handed to handlers that succeeded, in the order of their success. */
  function AppliedOf(done: seq<Done>): seq<Raw> {
    if done == [] then []
    else AppliedOf(done[..|done| - 1]) + (if done[|done| - 1].how.Applied? then [done[|done| - 1].raw] else [])
  }

  /** A sequence without those of its first elements that were dropped or lost. */
  function Without(accepted: seq<Raw>, done: seq<Done>): seq<Raw>
    requires |done| <= |accepted|
  {
    if done == [] then accepted
    else
      var n := |done| - 1;
      if done[n].how.Applied? then Without(accepted, done[..n]) else Without(accepted[..n] + accepted[n + 1..], done[..n])
  }

  lemma {:induction false} AppliedWithout(done: seq<Done>, rest: seq<Raw>)
    ensures Without(Raws(done) + rest, done) == AppliedOf(done) + rest
  {
    hide Raws;
    if done == [] {
      assert Raws(done) + rest == rest;
    } else {
      var n := |done| - 1;
      var all := Raws(done) + rest;
      var front := done[..n];
      assert done == front + [done[n]];
      RawsSnoc(front, done[n]);
      if done[n].how.Applied? {
        assert all == Raws(front) + ([done[n].raw] + rest);
        AppliedWithout(front, [done[n].raw] + rest);
        assert AppliedOf(done) + rest == AppliedOf(front) + ([done[n].raw] + rest);
      } else {
        assert all[..n] + all[n + 1..] == Raws(front) + rest;
        AppliedWithout(front, rest);
        assert AppliedOf(done) == AppliedOf(front);
      }
    }
  }

  /**
    In every interleaving: the mutations applied so far, then the one in flight, then the
    list are the accepted mutations in their order, without those that were dropped or lost.
   */
  lemma Conservation(config: Config, handlers: set<string>, buffer: seq<Raw>, events: seq<Event>)
    ensures var w := Run(Start(handlers, buffer), config, events);
            && |w.done| <= |w.accepted|
            && Raws(w.done) == w.accepted[..|w.done|]
            && AppliedOf(w.done) + InFlight(w.pc) + w.buffer == Without(w.accepted, w.done)
  {
    hide Raws, Run, Without;
    var w := Run(Start(handlers, buffer), config, events);
    StartOk(handlers, buffer);
    RunKeeps(Start(handlers, buffer), config, events);
    var rest := InFlight(w.pc) + w.buffer;
    assert w.accepted == Raws(w.done) + rest;
    AppliedWithout(w.done, rest);
    assert AppliedOf(w.done) + rest == AppliedOf(w.done) + InFlight(w.pc) + w.buffer;
  }

  // ---------------------------------------------------------------------------
  // Why an element can be missing
  // ---------------------------------------------------------------------------

  /** A Redis error that takes an element away: out of the list without telling the replay, or on its way back. */
  predicate Takes(w: World, e: Event) {
    || (e == Shift(AnswerLost) && w.pc.Shifting? && w.buffer != [])
    || (e == PutBack(Fails) && w.pc.PuttingBack?)
  }

  /** The replay drops the element in its hands: it does not parse, or nothing handles its kind yet. */
  predicate Drops(w: World, e: Event) {
    e.Decide? && w.pc.Shifted? && (w.pc.raw.Garbage? || w.pc.raw.mutation.kind !in w.handlers)
  }

  ghost predicate SomeMissing(done: seq<Done>) {
    exists i :: 0 <= i < |done| && !done[i].how.Applied?
  }

  ghost predicate SomeLost(done: seq<Done>) {
    exists i :: 0 <= i < |done| && done[i].how.Lost?
  }

  lemma MissingStep(w: World, config: Config, e: Event)
    ensures var v := Step(w, config, e);
            && (SomeLost(v.done) <==> SomeLost(w.done) || Takes(w, e))
            && (SomeMissing(v.done) <==> SomeMissing(w.done) || Takes(w, e) || Drops(w, e))
  {
    var v := Step(w, config, e);
    assert v.done == w.done || (|v.done| == |w.done| + 1 && v.done[..|w.done|] == w.done);
    assert forall i :: 0 <= i < |w.done| ==> v.done[i] == w.done[i];
    if v.done != w.done {
      assert !v.done[|w.done|].how.Applied? <==> Takes(w, e) || Drops(w, e);
      assert v.done[|w.done|].how.Lost? <==> Takes(w, e);
    }
  }

  /** Step n of the run takes an element away. */
  predicate TakesAt(w: World, config: Config, events: seq<Event>, n: int)
    requires 0 <= n < |events|
  {
    Takes(Run(w, config, events[..n]), events[n])
  }

  /** Step n of the run drops an element. */
  predicate DropsAt(w: World, config: Config, events: seq<Event>, n: int)
    requires 0 <= n < |events|
  {
    Drops(Run(w, config, events[..n]), events[n])
  }

  lemma SamePlaces(w: World, config: Config, events: seq<Event>, n: nat)
    requires n < |events| - 1
    ensures TakesAt(w, config, events[..|events| - 1], n) == TakesAt(w, config, events, n)
    ensures DropsAt(w, config, events[..|events| - 1], n) == DropsAt(w, config, events, n)
  {
    assert events[..|events| - 1][..n] == events[..n];
  }

  lemma {:induction false} MissingRun(w: World, config: Config, events: seq<Event>)
    ensures SomeLost(Run(w, config, events).done)
            <==> SomeLost(w.done) || exists n :: 0 <= n < |events| && TakesAt(w, config, events, n)
    ensures SomeMissing(Run(w, config, events).done)
            <==> SomeMissing(w.done) || exists n :: 0 <= n < |events| && (TakesAt(w, config, events, n) || DropsAt(w, config, events, n))
  {
    hide Step, Takes, Drops, SomeLost, SomeMissing;
    if events != [] {
      var last := |events| - 1;
      var front := events[..last];
      MissingRun(w, config, front);
      MissingStep(Run(w, config, front), config, events[last]);
      assert TakesAt(w, config, events, last) == Takes(Run(w, config, front), events[last]);
      assert DropsAt(w, config, events, last) == Drops(Run(w, config, front), events[last]);
      hide TakesAt, DropsAt;
      forall n: nat | n < last
        ensures TakesAt(w, config, front, n) == TakesAt(w, config, events, n)
        ensures DropsAt(w, config, front, n) == DropsAt(w, config, events, n)
      {
        SamePlaces(w, config, events, n);
      }
    }
  }

  lemma {:induction false} AppliedCount(done: seq<Done>)
    ensures |AppliedOf(done)| <= |done|
    ensures SomeMissing(done) <==> |AppliedOf(done)| < |done|
    ensures !SomeMissing(done) ==> AppliedOf(done) == Raws(done)
  {
    hide Raws;
    if done == [] {
      assert |Raws(done)| == 0;
    } else {
      var n := |done| - 1;
      AppliedCount(done[..n]);
      assert done == done[..n] + [done[n]];
      RawsSnoc(done[..n], done[n]);
      assert SomeMissing(done) <==> SomeMissing(done[..n]) || !done[n].how.Applied?;
    }
  }

  /** Applied, in flight and buffered are all that was accepted exactly when nothing is marked as missing. */
  lemma CompleteExactly(w: World)
    requires Inv(w)
    ensures AppliedOf(w.done) + InFlight(w.pc) + w.buffer == w.accepted <==> !SomeMissing(w.done)
  {
    hide SomeMissing, AppliedOf;
    AppliedCount(w.done);
    if SomeMissing(w.done) {
      assert |AppliedOf(w.done) + InFlight(w.pc) + w.buffer| < |w.accepted|;
    }
  }

  /**
    In every interleaving, every accepted element is applied once and in order, or still in
    flight or buffered, exactly when no step of the run took an element away or dropped one.
   */
  lemma EverythingApplied(config: Config, handlers: set<string>, buffer: seq<Raw>, events: seq<Event>)
    ensures var start := Start(handlers, buffer);
            var w := Run(start, config, events);
            AppliedOf(w.done) + InFlight(w.pc) + w.buffer == w.accepted
            <==> forall n :: 0 <= n < |events| ==>
                   !TakesAt(start, config, events, n) && !DropsAt(start, config, events, n)
  {
    hide Run, Inv, TakesAt, DropsAt, AppliedOf;
    StartOk(handlers, buffer);
    RunKeeps(Start(handlers, buffer), config, events);
    MissingRun(Start(handlers, buffer), config, events);
    CompleteExactly(Run(Start(handlers, buffer), config, events));
  }

  lemma StartOk(handlers: set<string>, buffer: seq<Raw>)
    ensures Inv(Start(handlers, buffer))
  {
    assert |Raws([])| == 0;
    assert Raws([]) + [] + buffer == buffer;
  }

  /** Every reason recorded is a true one, as far as these kinds had handlers from the start. */
  predicate Justified(d: Done, handlers: set<string>) {
    match d.how
    case Applied => d.raw.Json?
    case NoHandler => d.raw.Json? && d.raw.mutation.kind !in handlers
    case Unparseable => d.raw.Garbage?
    case Lost => true
  }

  predicate AllJustified(w: World, handlers: set<string>) {
    && handlers <= w.handlers
    && (w.pc.Handling? || w.pc.PuttingBack? ==> w.pc.raw.Json?)
    && (forall i :: 0 <= i < |w.done| ==> Justified(w.done[i], handlers))
  }

  lemma JustifiedStep(w: World, config: Config, e: Event, handlers: set<string>)
    requires AllJustified(w, handlers)
    ensures AllJustified(Step(w, config, e), handlers)
  {
  }

  lemma {:induction false} JustifiedRun(w: World, config: Config, events: seq<Event>, handlers: set<string>)
    requires AllJustified(w, handlers)
    ensures AllJustified(Run(w, config, events), handlers)
  {
    hide AllJustified, Step;
    if events != [] {
      JustifiedRun(w, config, events[..|events| - 1], handlers);
      JustifiedStep(Run(w, config, events[..|events| - 1]), config, events[|events| - 1], handlers);
    }
  }

  /**
    When every accepted element parses and has a handler from the start, the accepted
    mutations are applied exactly once each and in order, however often handlers fail,
    exactly when no Redis error takes one away.
   */
  lemma ExactlyOnce(config: Config, handlers: set<string>, buffer: seq<Raw>, events: seq<Event>)
    requires var w := Run(Start(handlers, buffer), config, events);
             forall i :: 0 <= i < |w.accepted| ==> w.accepted[i].Json? && w.accepted[i].mutation.kind in handlers
    ensures var start := Start(handlers, buffer);
            var w := Run(start, config, events);
            AppliedOf(w.done) + InFlight(w.pc) + w.buffer == w.accepted
            <==> forall n :: 0 <= n < |events| ==> !TakesAt(start, config, events, n)
  {
    hide Run, TakesAt, DropsAt, AppliedOf;
    var start := Start(handlers, buffer);
    var w := Run(start, config, events);
    StartOk(handlers, buffer);
    RunKeeps(start, config, events);
    JustifiedRun(start, config, events, handlers);
    MissingRun(start, config, events);
    CompleteExactly(w);
    forall i | 0 <= i < |w.done|
      ensures w.done[i].how.Applied? || w.done[i].how.Lost?
    {
      assert Raws(w.done)[i] == w.accepted[i];
      assert Justified(w.done[i], handlers);
    }
  }

  /** What is taken away never comes back: in no continuation are all accepted elements accounted for again. */
  lemma LossIsFinal(w: World, config: Config, e: Event, later: seq<Event>)
    requires Inv(w) && Takes(w, e)
    ensures var v := Run(Step(w, config, e), config, later);
            AppliedOf(v.done) + InFlight(v.pc) + v.buffer != v.accepted
  {
    hide Run, Inv, Takes, TakesAt, DropsAt, AppliedOf, Step;
    MissingStep(w, config, e);
    StepKeeps(w, config, e);
    RunKeeps(Step(w, config, e), config, later);
    MissingRun(Step(w, config, e), config, later);
    CompleteExactly(Run(Step(w, config, e), config, later));
  }

  /** The next successful probe starts a replay of a list that is not empty. */
  predicate ReplayDue(w: World, config: Config) {
    w.mode.DegradedReadOnly? && w.pc.Idle? && !w.replaying && w.buffer != [] && w.successes + 1 >= config.recoveryThreshold
  }

  /** Nothing is left of the list's first element but the note that it was lost. */
  predicate HeadLost(w: World, v: World)
    requires w.buffer != []
  {
    v.buffer == w.buffer[1..] && v.done == w.done + [Done(w.buffer[0], Lost)] && v.accepted == w.accepted && v.pc.Idle?
  }

  /**
    Both kinds of Redis error do lose an accepted mutation, whenever a replay is due: an
    answer lost on the way out takes any element, a failing command on the way back any
    element whose handler fails.
   */
  lemma LossIsReal(w: World, config: Config)
    requires ReplayDue(w, config)
    ensures HeadLost(w, Run(w, config, [ProbeOk, Shift(AnswerLost), Settle]))
    ensures w.buffer[0].Json? && w.buffer[0].mutation.kind in w.handlers ==>
              HeadLost(w, Run(w, config, [ProbeOk, Shift(Works), Decide, Handle(false), PutBack(Fails), Settle]))
  {
    hide Run, HeadLost;
    LossOnShift(w, config);
    if w.buffer[0].Json? && w.buffer[0].mutation.kind in w.handlers {
      LossOnPutBack(w, config);
    }
  }

  lemma LossOnShift(w: World, config: Config)
    requires ReplayDue(w, config)
    ensures HeadLost(w, Run(w, config, [ProbeOk, Shift(AnswerLost), Settle]))
  {
    hide Run;
    var events := [ProbeOk, Shift(AnswerLost), Settle];
    RunAfter(w, config, events, |events|);
    var v := w.(failures := 0, successes := w.successes + 1, replaying := true, pc := Shifting);
    assert After(w, config, events, 1) == v;
    assert After(w, config, events, 2) == v.(buffer := w.buffer[1..], pc := Throwing, done := w.done + [Done(w.buffer[0], Lost)]);
  }

  lemma LossOnPutBack(w: World, config: Config)
    requires ReplayDue(w, config) && w.buffer[0].Json? && w.buffer[0].mutation.kind in w.handlers
    ensures HeadLost(w, Run(w, config, [ProbeOk, Shift(Works), Decide, Handle(false), PutBack(Fails), Settle]))
  {
    hide Run;
    var events := [ProbeOk, Shift(Works), Decide, Handle(false), PutBack(Fails), Settle];
    RunAfter(w, config, events, |events|);
    var v := w.(failures := 0, successes := w.successes + 1, replaying := true, pc := Shifting);
    assert After(w, config, events, 1) == v;
    assert After(w, config, events, 2) == v.(buffer := w.buffer[1..], pc := Shifted(w.buffer[0]));
    assert After(w, config, events, 3) == v.(buffer := w.buffer[1..], pc := Handling(w.buffer[0]));
    assert After(w, config, events, 4) == v.(buffer := w.buffer[1..], pc := PuttingBack(w.buffer[0]));
    assert After(w, config, events, 5) == v.(buffer := w.buffer[1..], pc := Throwing, done := w.done + [Done(w.buffer[0], Lost)]);
  }

  // ---------------------------------------------------------------------------
  // The way back to normal operation
  // ---------------------------------------------------------------------------

  /**
    Normal operation resumes only when a replay has seen the list empty, with everything
    accepted up to then applied or given up; what the list holds is what came in since.
   */
  lemma HealthyAfterDrain(config: Config, handlers: set<string>, buffer: seq<Raw>, events: seq<Event>, e: Event)
    requires var w := Run(Start(handlers, buffer), config, events);
             w.mode.DegradedReadOnly? && Step(w, config, e).mode.Healthy?
    ensures var w := Run(Start(handlers, buffer), config, events);
            && e.Finish? && w.pc.Drained? && w.pc.seen <= |w.accepted|
            && Raws(w.done) == w.accepted[..w.pc.seen]
            && w.buffer == w.accepted[w.pc.seen..]
  {
    hide Run, Raws;
    StartOk(handlers, buffer);
    RunKeeps(Start(handlers, buffer), config, events);
    var w := Run(Start(handlers, buffer), config, events);
    OnlyFinishHeals(w, config, e);
    assert Raws(w.done) + [] + w.buffer == w.accepted;
  }

  lemma OnlyFinishHeals(w: World, config: Config, e: Event)
    requires w.mode.DegradedReadOnly? && Step(w, config, e).mode.Healthy?
    ensures e.Finish? && w.pc.Drained?
  {
  }

  /** The list may be filled again between the two: normal operation can resume with a mutation still buffered. */
  lemma HealthyWithBacklog(m: Mutation)
    ensures var w := Run(Start({m.kind}, []), Config(1, 1, 10), [ProbeFailed, ProbeOk, Length(m), Shift(Works), Push(0, Works), Finish]);
            w.mode.Healthy? && w.buffer == [Json(m)]
  {
    hide Run;
    var config := Config(1, 1, 10);
    var start := Start({m.kind}, []);
    var events := [ProbeFailed, ProbeOk, Length(m), Shift(Works), Push(0, Works), Finish];
    RunAfter(start, config, events, |events|);
    assert After(start, config, events, 1) == World(DegradedReadOnly, Replica, 1, 0, false, Idle, {m.kind}, [], [], [], []);
    assert After(start, config, events, 2) == World(DegradedReadOnly, Replica, 0, 1, true, Shifting, {m.kind}, [], [], [], []);
    assert After(start, config, events, 3) == World(DegradedReadOnly, Replica, 0, 1, true, Shifting, {m.kind}, [], [m], [], []);
    assert After(start, config, events, 4) == World(DegradedReadOnly, Replica, 0, 1, true, Drained(0), {m.kind}, [], [m], [], []);
    assert After(start, config, events, 5) == World(DegradedReadOnly, Replica, 0, 1, true, Drained(0), {m.kind}, [Json(m)], [], [Json(m)], []);
    assert After(start, config, events, 6) == World(Healthy, Replica, 0, 1, true, Ending, {m.kind}, [Json(m)], [], [Json(m)], []);
  }

  /**
    Reads go to the primary only until the controller first degrades: recovery routes them
    to the replica once more, so they stay there whatever happens later.
   */
  lemma {:induction false} ReadsStayOnReplica(config: Config, handlers: set<string>, buffer: seq<Raw>, events: seq<Event>)
    ensures var w := Run(Start(handlers, buffer), config, events);
            w.target.Replica? <==> exists n :: 0 <= n <= |events| && Run(Start(handlers, buffer), config, events[..n]).mode.DegradedReadOnly?
  {
    hide Run, Step;
    var start := Start(handlers, buffer);
    assert events[..|events|] == events;
    if events == [] {
      RunNothing(start, config);
    } else {
      var front := events[..|events| - 1];
      assert forall n :: 0 <= n <= |front| ==> front[..n] == events[..n];
      ReadsStayOnReplica(config, handlers, buffer, front);
      assert events == front + [events[|events| - 1]];
      RunSnoc(start, config, front, events[|events| - 1]);
      NotYetDegraded(config, handlers, buffer, front);
      ReadsStep(Run(start, config, front), config, events[|events| - 1]);
    }
  }

  lemma ReadsStep(w: World, config: Config, e: Event)
    requires w.target.Primary? ==> w.mode.Healthy? && !w.pc.Drained?
    ensures var v := Step(w, config, e); v.target.Replica? <==> w.target.Replica? || v.mode.DegradedReadOnly?
  {
  }

  lemma NotYetDegraded(config: Config, handlers: set<string>, buffer: seq<Raw>, events: seq<Event>)
    ensures var w := Run(Start(handlers, buffer), config, events);
            w.target.Primary? ==> w.mode.Healthy? && !w.pc.Drained?
  {
    hide Run, Raws, Step;
    var start := Start(handlers, buffer);
    StartOk(handlers, buffer);
    RunKeeps(start, config, events);
    var w := Run(start, config, events);
    RoutedRun(start, config, events);
  }

  lemma {:induction false} RoutedRun(w: World, config: Config, events: seq<Event>)
    requires w.mode.DegradedReadOnly? ==> w.target.Replica?
    ensures Run(w, config, events).mode.DegradedReadOnly? ==> Run(w, config, events).target.Replica?
  {
    hide Step;
    if events != [] {
      RoutedRun(w, config, events[..|events| - 1]);
      RoutedStep(Run(w, config, events[..|events| - 1]), config, events[|events| - 1]);
    }
  }

  lemma RoutedStep(w: World, config: Config, e: Event)
    requires w.mode.DegradedReadOnly? ==> w.target.Replica?
    ensures Step(w, config, e).mode.DegradedReadOnly? ==> Step(w, config, e).target.Replica?
  {
  }

  // ---------------------------------------------------------------------------
  // The size of the list
  // ---------------------------------------------------------------------------

  predicate Bounded(w: World, config: Config, callers: nat) {
    && |w.buffer| + |InFlight(w.pc)| + |w.pending| <= config.maxBufferSize + callers
    && |w.pending| <= callers
  }

  lemma BoundedStep(w: World, config: Config, e: Event, callers: nat)
    requires Bounded(w, config, callers) && |Step(w, config, e).pending| <= callers
    ensures Bounded(Step(w, config, e), config, callers)
  {
  }

  /**
    With at most that many calls of bufferMutation under way at any time, the list never
    holds more than maxBufferSize elements and one for each of them: maxBufferSize + 1 for a
    single caller, because a failed element comes back.
   */
  lemma {:induction false} BufferBound(config: Config, handlers: set<string>, buffer: seq<Raw>, events: seq<Event>, callers: nat)
    requires |buffer| <= config.maxBufferSize + callers
    requires forall n :: 0 <= n <= |events| ==> |Run(Start(handlers, buffer), config, events[..n]).pending| <= callers
    ensures Bounded(Run(Start(handlers, buffer), config, events), config, callers)
    ensures |Run(Start(handlers, buffer), config, events).buffer| <= config.maxBufferSize + callers
  {
    hide Step, Run;
    assert events[..|events|] == events;
    if events == [] {
      RunNothing(Start(handlers, buffer), config);
    } else {
      var front := events[..|events| - 1];
      assert forall n :: 0 <= n <= |front| ==> front[..n] == events[..n];
      BufferBound(config, handlers, buffer, front, callers);
      assert events == front + [events[|events| - 1]];
      RunSnoc(Start(handlers, buffer), config, front, events[|events| - 1]);
      BoundedStep(Run(Start(handlers, buffer), config, front), config, events[|events| - 1], callers);
    }
  }

  lemma RunNothing(w: World, config: Config)
    ensures Run(w, config, []) == w
  {
  }

  function Times(e: Event, k: nat): (r: seq<Event>)
    ensures |r| == k
  {
    seq(k, i requires 0 <= i < k => e)
  }

  lemma TimesSnoc(e: Event, k: nat)
    ensures Times(e, k + 1) == Times(e, k) + [e]
  {
  }

  lemma {:induction false} RunConcat(w: World, config: Config, a: seq<Event>, b: seq<Event>)
    ensures Run(w, config, a + b) == Run(Run(w, config, a), config, b)
  {
    hide Step;
    if b == [] {
      assert a + b == a;
    } else {
      var n := |b| - 1;
      RunConcat(w, config, a, b[..n]);
      assert a + b == (a + b[..n]) + [b[n]];
      RunSnoc(w, config, a + b[..n], b[n]);
    }
  }

  function Copies<T>(x: T, k: nat): (r: seq<T>)
    ensures |r| == k
  {
    seq(k, i requires 0 <= i < k => x)
  }

  lemma {:induction false} Lengths(w: World, config: Config, m: Mutation, k: nat)
    requires |w.buffer| < config.maxBufferSize && w.pending == []
    ensures Run(w, config, Times(Length(m), k)) == w.(pending := Copies(m, k))
  {
    if k == 0 {
      assert Times(Length(m), 0) == [];
    } else {
      Lengths(w, config, m, k - 1);
      TimesSnoc(Length(m), k - 1);
      RunSnoc(w, config, Times(Length(m), k - 1), Length(m));
      assert Copies(m, k) == Copies(m, k - 1) + [m];
    }
  }

  lemma {:induction false} Pushes(w: World, config: Config, m: Mutation, k: nat, done: nat)
    requires done <= k && w.pending == Copies(m, k)
    ensures var v := Run(w, config, Times(Push(0, Works), done));
            v.pending == Copies(m, k - done) && |v.buffer| == |w.buffer| + done
  {
    if done == 0 {
      assert Times(Push(0, Works), 0) == [];
    } else {
      Pushes(w, config, m, k, done - 1);
      var u := Run(w, config, Times(Push(0, Works), done - 1));
      TimesSnoc(Push(0, Works), done - 1);
      RunSnoc(w, config, Times(Push(0, Works), done - 1), Push(0, Works));
      assert u.pending[..0] + u.pending[1..] == Copies(m, k - done);
    }
  }

  /**
    The bound is met, for every size and every number of callers: while the first element of
    a full list is being handled, all of them find room; it fails and comes back; all push.
   */
  lemma BoundReached(m: Mutation, buffer: seq<Raw>, callers: nat)
    requires buffer != [] && buffer[0] == Json(m)
    ensures var events := [ProbeFailed, ProbeOk, Shift(Works), Decide] + Times(Length(m), callers)
                          + [Handle(false), PutBack(Works)] + Times(Push(0, Works), callers);
            |Run(Start({m.kind}, buffer), Config(1, 1, |buffer|), events).buffer| == |buffer| + callers
  {
    hide Run, Step;
    var config := Config(1, 1, |buffer|);
    var start := Start({m.kind}, buffer);
    var w := World(DegradedReadOnly, Replica, 0, 1, true, Handling(Json(m)), {m.kind}, buffer[1..], [], buffer, []);
    TakingFirst(m, buffer);
    Lengths(w, config, m, callers);
    RunConcat(start, config, [ProbeFailed, ProbeOk, Shift(Works), Decide], Times(Length(m), callers));
    var v := w.(pending := Copies(m, callers));
    Returning(v, config, m);
    var so := [ProbeFailed, ProbeOk, Shift(Works), Decide] + Times(Length(m), callers);
    RunConcat(start, config, so, [Handle(false), PutBack(Works)]);
    var u := v.(buffer := [Json(m)] + v.buffer, successes := 0, pc := Ending);
    Pushes(u, config, m, callers, callers);
    RunConcat(start, config, so + [Handle(false), PutBack(Works)], Times(Push(0, Works), callers));
  }

  lemma TakingFirst(m: Mutation, buffer: seq<Raw>)
    requires buffer != [] && buffer[0] == Json(m)
    ensures Run(Start({m.kind}, buffer), Config(1, 1, |buffer|), [ProbeFailed, ProbeOk, Shift(Works), Decide])
         == World(DegradedReadOnly, Replica, 0, 1, true, Handling(Json(m)), {m.kind}, buffer[1..], [], buffer, [])
  {
    hide Run;
    var config := Config(1, 1, |buffer|);
    var start := Start({m.kind}, buffer);
    var events := [ProbeFailed, ProbeOk, Shift(Works), Decide];
    RunAfter(start, config, events, |events|);
    assert After(start, config, events, 1) == World(DegradedReadOnly, Replica, 1, 0, false, Idle, {m.kind}, buffer, [], buffer, []);
    assert After(start, config, events, 2) == World(DegradedReadOnly, Replica, 0, 1, true, Shifting, {m.kind}, buffer, [], buffer, []);
    assert After(start, config, events, 3) == World(DegradedReadOnly, Replica, 0, 1, true, Shifted(Json(m)), {m.kind}, buffer[1..], [], buffer, []);
  }

  lemma Returning(w: World, config: Config, m: Mutation)
    requires w.pc == Handling(Json(m))
    ensures Run(w, config, [Handle(false), PutBack(Works)]) == w.(buffer := [Json(m)] + w.buffer, successes := 0, pc := Ending)
  {
    hide Run;
    var events := [Handle(false), PutBack(Works)];
    RunAfter(w, config, events, 2);
    assert After(w, config, events, 1) == w.(pc := PuttingBack(Json(m)));
  }
}
