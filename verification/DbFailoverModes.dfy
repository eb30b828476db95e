/**
  When the failover controller of apps/api/src/lib/db-failover.ts changes its mode: after how
  many failures in a row it degrades, and after how many good probes in a row it replays.
 */
module DbFailoverModes {
  import opened DbFailover

  /** A probe that fails, or a replay whose exception the check catches. */
  predicate Fails(w: World, e: Event) {
    e.ProbeFailed? || (e.Settle? && w.pc.Throwing?)
  }

  /** The failures since the last good probe. */
  function FailuresInARow(start: World, config: Config, events: seq<Event>): nat {
    if events == [] then 0
    else
      var front, e := events[..|events| - 1], events[|events| - 1];
      if e.ProbeOk? then 0
      else FailuresInARow(start, config, front) + if Fails(Run(start, config, front), e) then 1 else 0
  }

  /** The good probes since the last failure and since a replay last put a mutation back. */
  function SuccessesInARow(start: World, config: Config, events: seq<Event>): nat {
    if events == [] then 0
    else
      var front, e := events[..|events| - 1], events[|events| - 1];
      var w := Run(start, config, front);
      if Fails(w, e) || (e == PutBack(Works) && w.pc.PuttingBack?) then 0
      else SuccessesInARow(start, config, front) + if e.ProbeOk? then 1 else 0
  }

  lemma CountersStep(w: World, config: Config, e: Event)
    ensures var v := Step(w, config, e);
            && v.failures == (if e.ProbeOk? then 0 else w.failures + if Fails(w, e) then 1 else 0)
            && v.successes == (if Fails(w, e) || (e == PutBack(Works) && w.pc.PuttingBack?) then 0
                               else w.successes + if e.ProbeOk? then 1 else 0)
  {
  }

  lemma {:induction false} CountersExactly(handlers: set<string>, buffer: seq<Raw>, config: Config, events: seq<Event>)
    ensures var w := Run(Start(handlers, buffer), config, events);
            && w.failures == FailuresInARow(Start(handlers, buffer), config, events)
            && w.successes == SuccessesInARow(Start(handlers, buffer), config, events)
  {
    hide Step, Fails;
    if events != [] {
      CountersExactly(handlers, buffer, config, events[..|events| - 1]);
      CountersStep(Run(Start(handlers, buffer), config, events[..|events| - 1]), config, events[|events| - 1]);
    }
  }

  lemma ModeStep(w: World, config: Config, e: Event)
    ensures w.mode.Healthy? && Step(w, config, e).mode.DegradedReadOnly? <==>
              w.mode.Healthy? && Fails(w, e) && w.failures + 1 >= config.failureThreshold
    ensures w.mode.Healthy? && Step(w, config, e).mode.DegradedReadOnly? ==> Step(w, config, e).target.Replica?
    ensures w.pc.Idle? && !w.replaying ==>
              (!Step(w, config, e).pc.Idle? <==> w.mode.DegradedReadOnly? && e.ProbeOk? && w.successes + 1 >= config.recoveryThreshold)
  {
  }

  /**
    In every run the controller degrades, and sends reads to the replica, exactly at a
    failure that makes as many in a row, since the last good probe, as the failure threshold;
    and it starts a replay exactly at a good probe in degraded mode that makes as many in a
    row as the recovery threshold, if none is under way.
   */
  lemma ModesExactly(handlers: set<string>, buffer: seq<Raw>, config: Config, events: seq<Event>, e: Event)
    ensures var (start, w) := (Start(handlers, buffer), Run(Start(handlers, buffer), config, events));
            var v := Step(w, config, e);
            && (w.mode.Healthy? && v.mode.DegradedReadOnly? <==>
                  w.mode.Healthy? && Fails(w, e) && FailuresInARow(start, config, events) + 1 >= config.failureThreshold)
            && (w.mode.Healthy? && v.mode.DegradedReadOnly? ==> v.target.Replica?)
            && (w.pc.Idle? ==>
                  (v.replaying <==> w.mode.DegradedReadOnly? && e.ProbeOk?
                                    && SuccessesInARow(start, config, events) + 1 >= config.recoveryThreshold))
  {
    hide Run, Step;
    StartOk(handlers, buffer);
    RunKeeps(Start(handlers, buffer), config, events);
    CountersExactly(handlers, buffer, config, events);
    var w := Run(Start(handlers, buffer), config, events);
    ModeStep(w, config, e);
    StepKeeps(w, config, e);
  }
}
