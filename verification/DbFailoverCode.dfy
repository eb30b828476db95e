/**
  The controller class of apps/api/src/lib/db-failover.ts, each method proved to perform a
  run of the protocol of module DbFailover.

  The ghost field world is the protocol's state. A method here runs on its own; between two
  of its operations on the list other callers may act in the protocol. How Redis commands
  and handlers fare, in their order within a call, is decided by the parameters.
 */
module DbFailoverCode {
  import opened Wrappers
  import opened DbFailover

  /** The Redis list. */
  class MutationBufferStore {
    var list: seq<Raw>

    constructor (list: seq<Raw>)
      ensures this.list == list
    {
      this.list := list;
    }

    method PushBack(raw: Raw, fate: Fate) returns (r: Result<(), ()>)
      modifies this
      ensures list == if fate.Fails? then old(list) else old(list) + [raw]
      ensures r.Ok? == fate.Works?
    {
      if !fate.Fails? { list := list + [raw]; }
      r := if fate.Works? then Ok(()) else Err(());
    }

    method TakeFirst(fate: Fate) returns (r: Result<Option<Raw>, ()>)
      modifies this
      ensures list == if fate.Fails? || old(list) == [] then old(list) else old(list)[1..]
      ensures r == if !fate.Works? then Err(()) else Ok(if old(list) == [] then None else Some(old(list)[0]))
    {
      var first := if list == [] then None else Some(list[0]);
      if !fate.Fails? && list != [] { list := list[1..]; }
      r := if fate.Works? then Ok(first) else Err(());
    }

    method PutFirst(raw: Raw, fate: Fate) returns (r: Result<(), ()>)
      modifies this
      ensures list == if fate.Fails? then old(list) else [raw] + old(list)
      ensures r.Ok? == fate.Works?
    {
      if !fate.Fails? { list := [raw] + list; }
      r := if fate.Works? then Ok(()) else Err(());
    }
  }

  class DbFailoverController {
    const config: Config
    const store: MutationBufferStore
    var mode: Mode
    var target: Target
    var failures: nat
    var successes: nat
    var replaying: bool
    var handlers: set<string>
    ghost var world: World

    /** The fields show the protocol's state. */
    ghost predicate Agrees()
      reads this, store
    {
      && AgreesOutside() && world.replaying == replaying
      && world.mode == mode && world.target == target && world.failures == failures && world.successes == successes
    }

    ghost predicate AgreesOutside()
      reads this, store
    {
      world.handlers == handlers && world.buffer == store.list
    }

    /** An exception is on its way from recover to check: only the flag has been cleared yet. */
    ghost predicate AgreesThrowing()
      reads this, store
    {
      && AgreesOutside() && world.pc.Throwing? && !replaying
      && world.mode == mode && world.target == target && world.failures == failures && world.successes == successes
    }

    constructor (config: Config, store: MutationBufferStore)
      ensures Agrees() && this.config == config && this.store == store && world == Start({}, store.list)
    {
      this.config, this.store := config, store;
      mode, target, failures, successes, replaying, handlers := Healthy, Primary, 0, 0, false, {};
      world := Start({}, store.list);
    }

    /** The fields have been brought up to date; the protocol follows by one event. */
    ghost method Move(e: Event, so: seq<Event>, from: World) returns (events: seq<Event>)
      requires world == Run(from, config, so)
      modifies this`world
      ensures world == Step(old(world), config, e) && world == Run(from, config, events) && events == so + [e]
    {
      hide Run, Step;
      RunSnoc(from, config, so, e);
      world := Step(world, config, e);
      events := so + [e];
    }

    method RegisterMutationHandler(kind: string) returns (ghost events: seq<Event>)
      requires Agrees()
      modifies this`handlers, this`world
      ensures Agrees() && world == Run(old(world), config, events) && events == [Register(kind)]
    {
      hide Run;
      RunNothing(world, config);
      handlers := handlers + {kind};
      events := Move(Register(kind), [], world);
    }

    method EnterDegradedMode()
      modifies this`mode, this`target
      ensures mode == DegradedReadOnly && target == Replica
    {
      mode := DegradedReadOnly;
      target := Replica;
    }

    /** One probe and everything it sets off. */
    method Check(probe: bool, shift: nat -> Fate, handles: nat -> bool, putBack: Fate) returns (ghost events: seq<Event>)
      requires Agrees() && (world.pc.Idle? <==> !replaying)
      modifies this`mode, this`target, this`failures, this`successes, this`replaying, this`world, store
      ensures Agrees() && world == Run(old(world), config, events)
      ensures old(mode).DegradedReadOnly? && mode.Healthy? ==> probe && store.list == []
      ensures !replaying == old(!replaying)
    {
      hide Run, Step;
      ghost var from := world;
      RunNothing(world, config);
      events := [];
      var failed := !probe;
      if probe {
        failures := 0;
        successes := successes + 1;
        ProbeOkFields(world, config);
        if mode.DegradedReadOnly? && successes >= config.recoveryThreshold {
          var r;
          r, events := Recover(shift, handles, putBack, from);
          failed := r.Err?;
        } else {
          events := Move(ProbeOk, events, from);
        }
      }
      if failed {
        ghost var e := if probe then Settle else ProbeFailed;
        FailureFields(world, config);
        successes := 0;
        failures := failures + 1;
        if mode.Healthy? && failures >= config.failureThreshold {
          EnterDegradedMode();
        }
        events := Move(e, events, from);
      }
    }

    /** Called with the probe's success counted already, which the protocol does in the same step. */
    method Recover(shift: nat -> Fate, handles: nat -> bool, putBack: Fate, ghost from: World)
      returns (r: Result<(), ()>, ghost events: seq<Event>)
      requires AgreesOutside() && world == from && (world.pc.Idle? <==> !replaying) && world.replaying == replaying
      requires mode == world.mode == DegradedReadOnly && target == world.target
      requires failures == 0 && successes == world.successes + 1 >= config.recoveryThreshold
      modifies this`mode, this`target, this`successes, this`replaying, this`world, store
      ensures world == Run(from, config, events)
      ensures r.Ok? ==> Agrees() && !replaying == old(!replaying)
      ensures r.Ok? && mode.Healthy? ==> store.list == []
      ensures r.Err? ==> AgreesThrowing() && !old(replaying) && mode.DegradedReadOnly?
    {
      hide Run, Step;
      RunNothing(world, config);
      ProbeOkFields(world, config);
      if replaying {
        events := Move(ProbeOk, [], from);
        return Ok(()), events;
      }
      replaying := true;
      events := Move(ProbeOk, [], from);
      var drained;
      drained, events := ReplayBuffered(shift, handles, putBack, events, from);
      if drained.Ok? {
        if drained.value {
          mode := Healthy;
          target := Replica;
          FinishFields(world, config);
          events := Move(Finish, events, from);
        }
        SettleFields(world, config);
        events := Move(Settle, events, from);
      }
      replaying := false;
      r := if drained.Ok? then Ok(()) else Err(());
    }

    method ReplayBuffered(shift: nat -> Fate, handles: nat -> bool, putBack: Fate, ghost so: seq<Event>, ghost from: World)
      returns (drained: Result<bool, ()>, ghost events: seq<Event>)
      requires Agrees() && world.pc.Shifting? && world == Run(from, config, so)
      modifies this`successes, this`world, store
      ensures Agrees() && world == Run(from, config, events)
      ensures drained == Ok(true) ==> world.pc.Drained? && store.list == []
      ensures drained == Ok(false) ==> world.pc.Ending?
      ensures drained.Err? ==> world.pc.Throwing?
    {
      hide Run, Step;
      events := so;
      var i := 0;
      while true
        invariant Agrees() && world.pc.Shifting? && world == Run(from, config, events)
        decreases |store.list|
      {
        ShiftFields(world, config, shift(i));
        var raw := store.TakeFirst(shift(i));
        events := Move(Shift(shift(i)), events, from);
        if raw.Err? { return Err(()), events; }
        if raw.value.None? { return Ok(true), events; }
        var outcome;
        outcome, events := ReplayEntry(raw.value.value, handles(i), putBack, events, from);
        if outcome.Some? { return outcome.value, events; }
        i := i + 1;
      }
    }

    /** One entry taken from the list: applied or dropped (None), or put back, which ends the replay. */
    method ReplayEntry(raw: Raw, works: bool, putBack: Fate, ghost so: seq<Event>, ghost from: World)
      returns (ended: Option<Result<bool, ()>>, ghost events: seq<Event>)
      requires Agrees() && world.pc == Shifted(raw) && world == Run(from, config, so)
      modifies this`successes, this`world, store
      ensures Agrees() && world == Run(from, config, events)
      ensures ended == None ==> world.pc.Shifting? && store.list == old(store.list)
      ensures ended.Some? ==> world.pc == (if ended.value.Ok? then Ending else Throwing) && ended.value != Ok(true)
      ensures ended.Some? && !putBack.Fails? ==> store.list == [raw] + old(store.list)
    {
      hide Run, Step;
      DecideFields(world, config);
      events := Move(Decide, so, from);
      if raw.Garbage? || raw.mutation.kind !in handlers {
        return None, events;
      }
      HandleFields(world, config, works);
      events := Move(Handle(works), events, from);
      if works {
        return None, events;
      }
      PutBackFields(world, config, putBack);
      var back := store.PutFirst(raw, putBack);
      if back.Ok? { successes := 0; }
      events := Move(PutBack(putBack), events, from);
      ended := Some(if back.Ok? then Ok(false) else Err(()));
    }

    /** Full at the look: refused. Otherwise pushed, unless the push fails. */
    method BufferMutation(mutation: Mutation, length: Fate, push: Fate) returns (r: Result<Mutation, ()>, ghost events: seq<Event>)
      requires Agrees() && world.pending == []
      modifies this`world, store
      ensures Agrees() && world == Run(old(world), config, events) && world.pending == []
      ensures r.Ok? <==> length.Works? && push.Works? && |old(store.list)| < config.maxBufferSize
      ensures r.Ok? ==> r.value == mutation && store.list == old(store.list) + [Json(mutation)]
    {
      hide Run;
      ghost var from := world;
      RunNothing(world, config);
      if !length.Works? || |store.list| >= config.maxBufferSize {
        return Err(()), [];
      }
      events := Move(Length(mutation), [], from);
      var pushed := store.PushBack(Json(mutation), push);
      events := Move(Push(0, push), events, from);
      r := if pushed.Ok? then Ok(mutation) else Err(());
    }
  }

  // ---------------------------------------------------------------------------
  // The fields that each event of the protocol changes
  // ---------------------------------------------------------------------------

  lemma ProbeOkFields(w: World, config: Config)
    ensures var v := Step(w, config, ProbeOk);
            && v == w.(failures := 0, successes := w.successes + 1, replaying := v.replaying, pc := v.pc)
            && (if w.mode.DegradedReadOnly? && w.successes + 1 >= config.recoveryThreshold && !w.replaying
                then v.replaying && v.pc.Shifting? else v.replaying == w.replaying && v.pc == w.pc)
  {
  }

  lemma FailureFields(w: World, config: Config)
    ensures Step(w, config, ProbeFailed) == Failure(w, config)
    ensures w.pc.Throwing? ==> Step(w, config, Settle) == Failure(w.(replaying := false, pc := Idle), config)
  {
  }

  lemma FinishFields(w: World, config: Config)
    ensures w.pc.Drained? ==> Step(w, config, Finish) == w.(mode := Healthy, target := Replica, pc := Ending)
  {
  }

  lemma SettleFields(w: World, config: Config)
    ensures w.pc.Ending? ==> Step(w, config, Settle) == w.(replaying := false, pc := Idle)
  {
  }

  lemma ShiftFields(w: World, config: Config, fate: Fate)
    requires w.pc.Shifting?
    ensures var v := Step(w, config, Shift(fate));
            && v == w.(buffer := if fate.Fails? || w.buffer == [] then w.buffer else w.buffer[1..], pc := v.pc, done := v.done)
            && (!fate.Works? ==> v.pc.Throwing?)
            && (fate.Works? ==> v.pc == if w.buffer == [] then Drained(|w.accepted|) else Shifted(w.buffer[0]))
  {
  }

  lemma DecideFields(w: World, config: Config)
    requires w.pc.Shifted?
    ensures var v := Step(w, config, Decide);
            && v == w.(pc := v.pc, done := v.done)
            && v.pc == if w.pc.raw.Json? && w.pc.raw.mutation.kind in w.handlers then Handling(w.pc.raw) else Shifting
  {
  }

  lemma HandleFields(w: World, config: Config, works: bool)
    requires w.pc.Handling?
    ensures var v := Step(w, config, Handle(works));
            v == w.(pc := if works then Shifting else PuttingBack(w.pc.raw), done := v.done)
  {
  }

  lemma PutBackFields(w: World, config: Config, fate: Fate)
    requires w.pc.PuttingBack?
    ensures var v := Step(w, config, PutBack(fate));
            && v == w.(buffer := if fate.Fails? then w.buffer else [w.pc.raw] + w.buffer, pc := v.pc, done := v.done,
                       successes := if fate.Works? then 0 else w.successes)
            && v.pc == if fate.Works? then Ending else Throwing
  {
  }
}
