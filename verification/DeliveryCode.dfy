/**
  The functions of apps/api/src/lib/delivery.ts as they stand in the source, each proved
  to perform a run of the protocol of module Delivery for one call.

  The field world is the protocol's state, with the place where every call stands; each
  operation on the stores moves it by one step. How an operation fares is decided by fates,
  and what all others do before it by others, functions of the place it is made from. Others
  act while a call waits for the gate and between its functions.
 */
module DeliveryCode {
  import opened Wrappers
  import opened Delivery
  import opened DeliveryOutcomes

  class Stores {
    const ttl: nat
    var now: int
    var gate: Option<Gate>
    var row: Option<Status>
    var attempts: seq<Attempt>
    var world: World

    ghost predicate Valid()
      reads this
    {
      world.now == now && world.gate == gate && world.row == row && world.attempts == attempts
    }

    /** Call c stands before the operation pc names. */
    ghost predicate At(c: nat, pc: Pc)
      reads this
    {
      Valid() && c < |world.calls| && world.calls[c] == pc
    }

    constructor (ttl: nat, now: int, row: Option<Status>)
      ensures Valid() && gate == None && attempts == [] && this.row == row && world.calls == [] && world.successes == []
    {
      this.ttl := ttl;
      this.now := now;
      gate := None;
      this.row := row;
      attempts := [];
      world := World(now, None, row, [], [], []);
    }

    /** Call c performs its next operation; the stores have been brought up to date already. */
    method Move(c: nat, fate: Fate, ghost so: seq<Event>, ghost from: World) returns (ghost events: seq<Event>)
      requires c < |world.calls| && !world.calls[c].Returned? && !world.calls[c].Crashed? && Leads(from, ttl, so, world)
      requires var after := Operate(world, c, ttl, fate).0;
               after.now == now && after.gate == gate && after.row == row && after.attempts == attempts
      modifies this`world
      ensures Valid() && world == Operate(old(world), c, ttl, fate).0.(calls := old(world).calls[c := Operate(old(world), c, ttl, fate).1])
      ensures events == so + [Advance(c, fate)] && Leads(from, ttl, events, world)
    {
      LeadsSnoc(from, ttl, so, world, Advance(c, fate));
      world := Step(world, ttl, Advance(c, fate));
      events := so + [Advance(c, fate)];
    }

    /** Other calls, the clock and whoever suppresses the delivery act before call c goes on. */
    method OthersAct(c: nat, others: Pc -> seq<Event>, ghost so: seq<Event>, ghost from: World) returns (ghost events: seq<Event>)
      requires Valid() && c < |world.calls| && Leads(from, ttl, so, world)
      modifies this
      ensures At(c, old(world.calls[c])) && Leads(from, ttl, events, world) && |attempts| >= |old(attempts)|
    {
      hide Leads, Step, Enabled;
      var deeds := others(world.calls[c]);
      events := so;
      for i := 0 to |deeds|
        invariant c < |world.calls| && world.calls[c] == old(world.calls[c]) && |world.attempts| >= |old(attempts)|
        invariant Leads(from, ttl, events, world)
      {
        if Enabled(world, deeds[i]) && !IsOf(deeds[i], c) {
          LeadsSnoc(from, ttl, events, world, deeds[i]);
          OthersLeave(world, ttl, deeds[i], c);
          world := Step(world, ttl, deeds[i]);
          events := events + [deeds[i]];
        }
      }
      now, gate, row, attempts := world.now, world.gate, world.row, world.attempts;
    }

    method AlreadyDelivered(c: nat, at: Pc, fates: Pc -> Fate, ghost so: seq<Event>, ghost from: World)
      returns (r: Result<bool, ()>, ghost events: seq<Event>)
      requires At(c, at) && (at.CheckRow? || at.LostCheckRow? || at.HeldCheckRow?) && Leads(from, ttl, so, world)
      modifies this`world
      ensures At(c, AfterCheck(at, r)) && Leads(from, ttl, events, world)
      ensures r == if fates(at).Works? && Finished(row) then Ok(true)
                   else if fates(AttemptsCheck(at)).Fails? then Err(()) else Ok(AnyDelivered(attempts))
      ensures world.successes == old(world.successes)
    {
      hide Leads;
      var fate := fates(at);
      var terminal := fate.Works? && row.Some? && IsTerminal(row.value);
      events := Move(c, fate, so, from);
      if terminal {
        return Ok(true), events;
      }
      fate := fates(AttemptsCheck(at));
      var found := AnyDelivered(attempts);
      events := Move(c, fate, events, from);
      return if fate.Fails? then Err(()) else Ok(found), events;
    }

    method AcquireDeliveryGate(c: nat, fates: Pc -> Fate, others: Pc -> seq<Event>, ghost so: seq<Event>, ghost from: World)
      returns (acquired: bool, ghost events: seq<Event>)
      requires At(c, Acquire(0)) && Leads(from, ttl, so, world)
      modifies this
      ensures At(c, if acquired then HeldCheckRow else LostCheckRow) && Leads(from, ttl, events, world)
    {
      hide Leads;
      events := so;
      for tries := 0 to GATE_RETRY + 1
        invariant At(c, if tries <= GATE_RETRY then Acquire(tries) else LostCheckRow) && Leads(from, ttl, events, world)
      {
        var fate := fates(Acquire(tries));
        if fate.Fails? {
          events := Move(c, fate, events, from);
          return true, events;
        }
        var taken := gate.Some? && now < gate.value.expires;
        if !taken {
          gate := Some(Gate(c, now + ttl));
          events := Move(c, fate, events, from);
          return true, events;
        }
        events := Move(c, fate, events, from);
        if tries < GATE_RETRY {
          events := OthersAct(c, others, events, from);
        }
      }
      return false, events;
    }

    method ReleaseDeliveryGate(c: nat, ghost outcome: Outcome, fate: Fate, ghost so: seq<Event>, ghost from: World)
      returns (ghost events: seq<Event>)
      requires At(c, ReleaseGate(outcome)) && Leads(from, ttl, so, world)
      modifies this`world, this`gate
      ensures At(c, Returned(outcome)) && Leads(from, ttl, events, world)
      ensures gate == if fate.Works? && old(gate).Some? && now < old(gate).value.expires && old(gate).value.owner == c
                      then None else old(gate)
    {
      hide Leads;
      if fate.Works? && gate.Some? && now < gate.value.expires && gate.value.owner == c {
        gate := None;
      }
      events := Move(c, fate, so, from);
    }

    method RecordDeliveryAttempt(c: nat, fates: Pc -> Fate, ghost so: seq<Event>, ghost from: World)
      returns (r: Result<nat, ()>, ghost events: seq<Event>)
      requires At(c, ReadRow) && Leads(from, ttl, so, world)
      modifies this`world, this`row, this`attempts
      ensures At(c, if r.Ok? then Dispatch(r.value) else ReleaseGate(Threw)) && Leads(from, ttl, events, world)
      ensures r.Ok? ==> r.value == |old(attempts)| && attempts == old(attempts) + [Attempt(r.value + 1, false)]
      ensures r.Err? ==> attempts == old(attempts)
      ensures fates(ReadRow).Works? && Finished(old(row)) ==> r.Err? && row == old(row)
    {
      hide Leads;
      var fate := fates(ReadRow);
      events := Move(c, fate, so, from);
      if fate.Works? && row.Some? && IsTerminal(row.value) {
        return Err(()), events;
      }
      fate := fates(CountAttempts);
      var prior := |attempts|;
      events := Move(c, fate, events, from);
      if fate.Fails? {
        return Err(()), events;
      }
      var inserted;
      inserted, events := WriteAttempt(c, prior + 1, fates, events, from);
      return if inserted then Ok(prior) else Err(()), events;
    }

    /** The writes of recordDeliveryAttempt: the delivery row, then the new attempt row. */
    method WriteAttempt(c: nat, nextAttempt: nat, fates: Pc -> Fate, ghost so: seq<Event>, ghost from: World)
      returns (inserted: bool, ghost events: seq<Event>)
      requires At(c, WriteRow(nextAttempt)) && Leads(from, ttl, so, world)
      modifies this`world, this`row, this`attempts
      ensures At(c, if inserted then Dispatch(|old(attempts)|) else ReleaseGate(Threw)) && Leads(from, ttl, events, world)
      ensures attempts == if inserted then old(attempts) + [Attempt(nextAttempt, false)] else old(attempts)
    {
      hide Leads, HasNumber;
      var fate := fates(WriteRow(nextAttempt));
      if fate.Works? {
        row := Some(InProgress);
      }
      events := Move(c, fate, so, from);
      fate := fates(InsertAttempt(nextAttempt));
      inserted := fate.Works? && !HasNumber(attempts, nextAttempt);
      if inserted {
        attempts := attempts + [Attempt(nextAttempt, false)];
      }
      events := Move(c, fate, events, from);
    }

    method MarkDeliveryDelivered(c: nat, attempt: nat, fates: Pc -> Fate, ghost so: seq<Event>, ghost from: World)
      returns (r: Result<(), ()>, ghost events: seq<Event>)
      requires At(c, MarkAttempt(attempt)) && attempt < |attempts| && Leads(from, ttl, so, world)
      modifies this`world, this`row, this`attempts
      ensures At(c, ReleaseGate(if r.Ok? then WasDispatched(attempt) else Threw)) && Leads(from, ttl, events, world)
      ensures attempts == if r.Ok? then old(attempts)[attempt := old(attempts)[attempt].(delivered := true)] else old(attempts)
    {
      hide Leads;
      var fate := fates(MarkAttempt(attempt));
      if fate.Fails? {
        events := Move(c, fate, so, from);
        return Err(()), events;
      }
      attempts := attempts[attempt := attempts[attempt].(delivered := true)];
      events := Move(c, fate, so, from);
      fate := fates(MarkRow(attempt));
      if fate.Works? && row.Some? {
        row := Some(Delivered);
      }
      events := Move(c, fate, events, from);
      return Ok(()), events;
    }

    /**
      One call, from its first look at the stores to its answer, is a run of the protocol
      that ends with that answer.
     */
    method DeliverWithIdempotency(c: nat, fates: Pc -> Fate, others: Pc -> seq<Event>) returns (outcome: Outcome, ghost events: seq<Event>)
      requires At(c, CheckRow)
      modifies this
      ensures At(c, Returned(outcome)) && Leads(old(world), ttl, events, world)
      ensures fates(CheckRow).Works? && Finished(old(row)) ==>
                outcome == WasSkipped && attempts == old(attempts) && row == old(row) && world.successes == old(world.successes)
    {
      hide Leads, Operate, Finished, AnyDelivered;
      ghost var from := world;
      LeadsNothing(world, ttl);
      var done;
      done, events := AlreadyDelivered(c, CheckRow, fates, [], from);
      if done.Err? { return Threw, events; }
      if done.value { return WasSkipped, events; }
      assert !(fates(CheckRow).Works? && Finished(old(row)));
      events := OthersAct(c, others, events, from);
      var acquired;
      acquired, events := AcquireDeliveryGate(c, fates, others, events, from);
      events := OthersAct(c, others, events, from);
      if acquired {
        outcome, events := DeliverHolding(c, fates, others, events, from);
      } else {
        outcome, events := DeliverLost(c, fates, events, from);
      }
    }

    /** Without the gate: one more look instead of a second request. */
    method DeliverLost(c: nat, fates: Pc -> Fate, ghost so: seq<Event>, ghost from: World)
      returns (outcome: Outcome, ghost events: seq<Event>)
      requires At(c, LostCheckRow) && Leads(from, ttl, so, world)
      modifies this`world
      ensures At(c, Returned(outcome)) && Leads(from, ttl, events, world)
      ensures fates(LostCheckRow).Works? && Finished(row) ==> outcome == WasDelivered
    {
      hide Leads, Operate, Finished, AnyDelivered;
      var done;
      done, events := AlreadyDelivered(c, LostCheckRow, fates, so, from);
      if done.Err? { return Threw, events; }
      return if done.value then WasDelivered else WasSkipped, events;
    }

    /** With the gate: the try block with the last look before it, and the finally block. */
    method DeliverHolding(c: nat, fates: Pc -> Fate, others: Pc -> seq<Event>, ghost so: seq<Event>, ghost from: World)
      returns (outcome: Outcome, ghost events: seq<Event>)
      requires At(c, HeldCheckRow) && Leads(from, ttl, so, world)
      modifies this
      ensures At(c, Returned(outcome)) && Leads(from, ttl, events, world)
      ensures fates(HeldCheckRow).Works? && Finished(old(row)) ==> outcome == WasSkipped
    {
      hide Leads, Operate, Finished, AnyDelivered;
      var done;
      done, events := AlreadyDelivered(c, HeldCheckRow, fates, so, from);
      if done.Err? {
        outcome := Threw;
      } else if done.value {
        outcome := WasSkipped;
      } else {
        events := OthersAct(c, others, events, from);
        outcome, events := RecordAndDispatch(c, fates, others, events, from);
      }
      events := OthersAct(c, others, events, from);
      events := ReleaseDeliveryGate(c, outcome, fates(ReleaseGate(outcome)), events, from);
    }

    /** The body of the try block. */
    method RecordAndDispatch(c: nat, fates: Pc -> Fate, others: Pc -> seq<Event>, ghost so: seq<Event>, ghost from: World)
      returns (outcome: Outcome, ghost events: seq<Event>)
      requires At(c, ReadRow) && Leads(from, ttl, so, world)
      modifies this
      ensures At(c, ReleaseGate(outcome)) && Leads(from, ttl, events, world)
      ensures outcome.WasDispatched? ==>
                outcome.attempt == |old(attempts)| && |old(attempts)| < |attempts| && attempts[|old(attempts)|].delivered
    {
      hide Leads;
      var attempt, marked;
      attempt, events := RecordDeliveryAttempt(c, fates, so, from);
      if attempt.Err? { return Threw, events; }
      events := OthersAct(c, others, events, from);
      var fate := fates(Dispatch(attempt.value));
      events := Move(c, fate, events, from);
      if fate.Fails? { return Threw, events; }
      events := OthersAct(c, others, events, from);
      marked, events := MarkDeliveryDelivered(c, attempt.value, fates, events, from);
      return if marked.Ok? then WasDispatched(attempt.value) else Threw, events;
    }
  }

  /** The second half of alreadyDelivered, by the place it is called from. */
  function AttemptsCheck(at: Pc): Pc {
    match at
    case CheckRow => CheckAttempts
    case LostCheckRow => LostCheckAttempts
    case _ => HeldCheckAttempts
  }

  /** Where a call goes after alreadyDelivered has answered or thrown. */
  function AfterCheck(at: Pc, r: Result<bool, ()>): Pc {
    match at
    case CheckRow => if r.Err? then Returned(Threw) else if r.value then Returned(WasSkipped) else Acquire(0)
    case LostCheckRow => if r.Err? then Returned(Threw) else if r.value then Returned(WasDelivered) else Returned(WasSkipped)
    case _ => if r.Err? then ReleaseGate(Threw) else if r.value then ReleaseGate(WasSkipped) else ReadRow
  }

  /** The events by which call c itself moves on or ends. */
  predicate IsOf(e: Event, c: nat) {
    (e.Advance? || e.Crash?) && e.call == c
  }

  lemma OthersLeave(w: World, ttl: nat, e: Event, c: nat)
    requires Enabled(w, e) && c < |w.calls| && !IsOf(e, c)
    ensures var v := Step(w, ttl, e);
            c < |v.calls| && v.calls[c] == w.calls[c] && |v.attempts| >= |w.attempts|
  {
  }

  lemma LeadsNothing(w: World, ttl: nat)
    ensures Leads(w, ttl, [], w)
  {
  }
}
