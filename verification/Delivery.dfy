/**
  deliverWithIdempotency of apps/api/src/lib/delivery.ts, for one delivery key: any
  number of calls interleave their atomic Redis and database operations with each other,
  with the clock, with crashes and with failing operations.
 */
module Delivery {
  import opened Wrappers

  /** Retries after a gate that was taken (DELIVERY_GATE_RETRY). */
  const GATE_RETRY: nat := 2

  datatype Status = Pending | InProgress | Delivered | Failed | Exhausted | Suppressed | Skipped

  predicate IsTerminal(s: Status) {
    s.Delivered? || s.Exhausted? || s.Suppressed? || s.Skipped?
  }

  /** A row of the attempts table; its id is its position. */
  datatype Attempt = Attempt(number: nat, delivered: bool)

  datatype Gate = Gate(owner: nat, expires: int)

  datatype Outcome = WasDispatched(attempt: nat) | WasDelivered | WasSkipped | Threw

  /** Where a call is; each value names the atomic operation that comes next. */
  datatype Pc =
    | CheckRow | CheckAttempts
    | Acquire(tries: nat)
    | LostCheckRow | LostCheckAttempts
    | HeldCheckRow | HeldCheckAttempts
    | ReadRow | CountAttempts | WriteRow(number: nat) | InsertAttempt(number: nat)
    | Dispatch(attempt: nat) | MarkAttempt(attempt: nat) | MarkRow(attempt: nat)
    | ReleaseGate(outcome: Outcome)
    | Returned(outcome: Outcome)
    | Crashed

  /**
    The gate key, the delivery row, the attempt rows and the calls in progress. A call's
    position is also its gate token. successes lists the attempts whose provider request
    succeeded.
   */
  datatype World = World(
    now: int, gate: Option<Gate>, row: Option<Status>, attempts: seq<Attempt>,
    calls: seq<Pc>, successes: seq<nat>)

  /** Whether the operation a call performs next works, or fails in the way it can fail. */
  datatype Fate = Works | Fails

  datatype Event =
    | Call                          // another job for the same delivery key starts
    | Advance(call: nat, fate: Fate)
    | Crash(call: nat)
    | Tick(to: int)
    | Suppress                      // markDeliverySuppressed, from elsewhere

  predicate GateTaken(w: World) {
    w.gate.Some? && w.now < w.gate.value.expires
  }

  predicate RowTerminal(w: World) {
    w.row.Some? && IsTerminal(w.row.value)
  }

  predicate AnyDelivered(attempts: seq<Attempt>) {
    exists i :: 0 <= i < |attempts| && attempts[i].delivered
  }

  predicate HasNumber(attempts: seq<Attempt>, n: nat) {
    exists i :: 0 <= i < |attempts| && attempts[i].number == n
  }

  predicate Enabled(w: World, e: Event) {
    match e
    case Call => true
    case Advance(c, _) => c < |w.calls| && !w.calls[c].Returned? && !w.calls[c].Crashed?
    case Crash(c) => c < |w.calls| && !w.calls[c].Returned? && !w.calls[c].Crashed?
    case Tick(to) => w.now <= to
    case Suppress => true
  }

  /** The effect of one operation on the stores, and where the call goes next. */
  function Operate(w: World, c: nat, ttl: nat, fate: Fate): (World, Pc)
    requires c < |w.calls|
  {
    match w.calls[c]
    case CheckRow =>
      // a failing read of the delivery row falls through to the attempts table
      (w, if fate.Works? && RowTerminal(w) then Returned(WasSkipped) else CheckAttempts)
    case CheckAttempts =>
      (w, if fate.Fails? then Returned(Threw) else if AnyDelivered(w.attempts) then Returned(WasSkipped) else Acquire(0))
    case Acquire(tries) =>
      // SET NX PX; an error fails open
      if fate.Fails? then (w, HeldCheckRow)
      else if !GateTaken(w) then (w.(gate := Some(Gate(c, w.now + ttl))), HeldCheckRow)
      else (w, if tries < GATE_RETRY then Acquire(tries + 1) else LostCheckRow)
    case LostCheckRow =>
      (w, if fate.Works? && RowTerminal(w) then Returned(WasDelivered) else LostCheckAttempts)
    case LostCheckAttempts =>
      (w, if fate.Fails? then Returned(Threw) else if AnyDelivered(w.attempts) then Returned(WasDelivered) else Returned(WasSkipped))
    case HeldCheckRow =>
      (w, if fate.Works? && RowTerminal(w) then ReleaseGate(WasSkipped) else HeldCheckAttempts)
    case HeldCheckAttempts =>
      (w, if fate.Fails? then ReleaseGate(Threw) else if AnyDelivered(w.attempts) then ReleaseGate(WasSkipped) else ReadRow)
    case ReadRow =>
      (w, if fate.Works? && RowTerminal(w) then ReleaseGate(Threw) else CountAttempts)
    case CountAttempts =>
      (w, if fate.Fails? then ReleaseGate(Threw) else WriteRow(|w.attempts| + 1))
    case WriteRow(n) =>
      (if fate.Works? then w.(row := Some(InProgress)) else w, InsertAttempt(n))
    case InsertAttempt(n) =>
      // (deliveryKey, attempt) is unique
      if fate.Fails? || HasNumber(w.attempts, n) then (w, ReleaseGate(Threw))
      else (w.(attempts := w.attempts + [Attempt(n, false)]), Dispatch(|w.attempts|))
    case Dispatch(a) =>
      if fate.Fails? then (w, ReleaseGate(Threw))
      else (w.(successes := w.successes + [a]), MarkAttempt(a))
    case MarkAttempt(a) =>
      if fate.Fails? || a >= |w.attempts| then (w, ReleaseGate(Threw))
      else (w.(attempts := w.attempts[a := w.attempts[a].(delivered := true)]), MarkRow(a))
    case MarkRow(a) =>
      (if fate.Works? && w.row.Some? then w.(row := Some(Delivered)) else w, ReleaseGate(WasDispatched(a)))
    case ReleaseGate(outcome) =>
      // compare-and-delete; an error leaves the key to expire
      (if fate.Works? && GateTaken(w) && w.gate.value.owner == c then w.(gate := None) else w, Returned(outcome))
    case Returned(o) => (w, Returned(o))
    case Crashed => (w, Crashed)
  }

  function Step(w: World, ttl: nat, e: Event): World
    requires Enabled(w, e)
  {
    match e
    case Call => w.(calls := w.calls + [CheckRow])
    case Advance(c, fate) =>
      var (after, pc) := Operate(w, c, ttl, fate);
      after.(calls := w.calls[c := pc])
    case Crash(c) => w.(calls := w.calls[c := Crashed])
    case Tick(to) => w.(now := to)
    case Suppress => w.(row := if w.row.Some? then Some(Suppressed) else None)
  }

  ghost predicate ValidRun(w: World, ttl: nat, events: seq<Event>)
    decreases |events|
  {
    events != [] ==> Enabled(w, events[0]) && ValidRun(Step(w, ttl, events[0]), ttl, events[1..])
  }

  ghost function Run(w: World, ttl: nat, events: seq<Event>): World
    requires ValidRun(w, ttl, events)
    decreases |events|
  {
    if events == [] then w else Run(Step(w, ttl, events[0]), ttl, events[1..])
  }

  /** A key nobody has worked on; the delivery row may already exist. */
  ghost predicate Initial(w: World) {
    w.gate == None && w.attempts == [] && w.calls == [] && w.successes == [] && !RowTerminal(w)
  }

  // ---------------------------------------------------------------------------
  // Attempt numbers
  // ---------------------------------------------------------------------------

  ghost predicate Numbered(attempts: seq<Attempt>) {
    forall i :: 0 <= i < |attempts| ==> attempts[i].number == i + 1
  }

  /** What every pc promises about the number it carries. */
  ghost predicate NumbersInRange(w: World) {
    forall c :: 0 <= c < |w.calls| ==>
      && (w.calls[c].WriteRow? ==> 1 <= w.calls[c].number <= |w.attempts| + 1)
      && (w.calls[c].InsertAttempt? ==> 1 <= w.calls[c].number <= |w.attempts| + 1)
      && (w.calls[c].Dispatch? ==> w.calls[c].attempt < |w.attempts|)
      && (w.calls[c].MarkAttempt? ==> w.calls[c].attempt < |w.attempts|)
      && (w.calls[c].MarkRow? ==> w.calls[c].attempt < |w.attempts|)
  }

  lemma NumbersStep(w: World, ttl: nat, e: Event)
    requires Enabled(w, e) && Numbered(w.attempts) && NumbersInRange(w)
    ensures Numbered(Step(w, ttl, e).attempts) && NumbersInRange(Step(w, ttl, e))
  {
    if e.Advance? && w.calls[e.call].InsertAttempt? {
      var n := w.calls[e.call].number;
      if n <= |w.attempts| {
        assert w.attempts[n - 1].number == n;
      }
    }
  }

  /**
    In every run whatever, with gates expiring, Redis failing open, crashes and database
    errors, the attempts of a key are numbered 1 to n without gaps or repeats.
   */
  lemma {:induction false} AttemptNumbers(w: World, ttl: nat, events: seq<Event>)
    requires Numbered(w.attempts) && NumbersInRange(w) && ValidRun(w, ttl, events)
    ensures Numbered(Run(w, ttl, events).attempts)
    decreases |events|
  {
    hide Step, Enabled, Numbered, NumbersInRange;
    if events != [] {
      NumbersStep(w, ttl, events[0]);
      AttemptNumbers(Step(w, ttl, events[0]), ttl, events[1..]);
    }
  }

  // ---------------------------------------------------------------------------
  // At most one successful dispatch
  // ---------------------------------------------------------------------------

  /** Between acquiring the gate and releasing it. */
  predicate Critical(pc: Pc) {
    match pc
    case HeldCheckRow => true
    case HeldCheckAttempts => true
    case ReadRow => true
    case CountAttempts => true
    case WriteRow(_) => true
    case InsertAttempt(_) => true
    case Dispatch(_) => true
    case MarkAttempt(_) => true
    case MarkRow(_) => true
    case ReleaseGate(_) => true
    case _ => false
  }

  /** Past the second look at the attempts table, and not yet done with the provider. */
  predicate Cleared(pc: Pc) {
    pc.ReadRow? || pc.CountAttempts? || pc.WriteRow? || pc.InsertAttempt? || pc.Dispatch?
  }

  /**
    The assumptions: gates outlive their holders, acquiring never fails open, and nothing
    goes wrong between a successful dispatch and recording it.
   */
  ghost predicate Tame(w: World, e: Event) {
    match e
    case Advance(c, Fails) => c < |w.calls| ==> !w.calls[c].Acquire? && !w.calls[c].MarkAttempt?
    case Crash(c) => c < |w.calls| ==> !w.calls[c].MarkAttempt?
    case Tick(to) =>
      (w.gate.Some? && w.gate.value.owner < |w.calls| && Critical(w.calls[w.gate.value.owner]))
      ==> to < w.gate.value.expires
    case _ => true
  }

  ghost predicate Exclusive(w: World) {
    forall c :: 0 <= c < |w.calls| && Critical(w.calls[c]) ==> GateTaken(w) && w.gate.value.owner == c
  }

  /** The one success, if any, is recorded or about to be. */
  ghost predicate Accounted(w: World) {
    && |w.successes| <= 1
    && (AnyDelivered(w.attempts) ==> |w.successes| == 1)
    && (|w.successes| == 1 ==>
          || AnyDelivered(w.attempts)
          || exists c :: 0 <= c < |w.calls| && w.calls[c] == MarkAttempt(w.successes[0]))
    && (forall c :: 0 <= c < |w.calls| && Cleared(w.calls[c]) ==> w.successes == [])
    && (forall c :: 0 <= c < |w.calls| && w.calls[c].MarkAttempt? ==>
          w.successes == [w.calls[c].attempt] && w.calls[c].attempt < |w.attempts|)
    && (forall c :: 0 <= c < |w.calls| && w.calls[c].Dispatch? ==> w.calls[c].attempt < |w.attempts|)
  }

  lemma ExclusiveStep(w: World, ttl: nat, e: Event)
    requires Enabled(w, e) && Tame(w, e) && Exclusive(w) && ttl > 0
    ensures Exclusive(Step(w, ttl, e))
  {
  }

  lemma AccountedStep(w: World, ttl: nat, e: Event)
    requires Enabled(w, e) && Tame(w, e) && Exclusive(w) && Accounted(w)
    ensures Accounted(Step(w, ttl, e))
  {
    hide Step, Tame, Enabled, Exclusive, Cleared, AnyDelivered;
    RecordedStep(w, ttl, e);
    DeliveredStep(w, ttl, e);
    ClearedStep(w, ttl, e);
    MarkingStep(w, ttl, e);
  }

  /** Calls that have dispatched, or are about to, name an attempt that exists, and the success if there is one. */
  lemma MarkingStep(w: World, ttl: nat, e: Event)
    requires Enabled(w, e) && Accounted(w)
    ensures var after := Step(w, ttl, e);
            && (forall c :: 0 <= c < |after.calls| && after.calls[c].MarkAttempt? ==>
                  after.successes == [after.calls[c].attempt] && after.calls[c].attempt < |after.attempts|)
            && (forall c :: 0 <= c < |after.calls| && after.calls[c].Dispatch? ==> after.calls[c].attempt < |after.attempts|)
  {
    hide AnyDelivered, HasNumber;
  }

  /** A delivered attempt has its success, and there is never a second one. */
  lemma DeliveredStep(w: World, ttl: nat, e: Event)
    requires Enabled(w, e) && Accounted(w)
    ensures var after := Step(w, ttl, e); |after.successes| <= 1 && (AnyDelivered(after.attempts) ==> |after.successes| == 1)
  {
  }

  /** A call is cleared for dispatch only while there is no success. */
  lemma ClearedStep(w: World, ttl: nat, e: Event)
    requires Enabled(w, e) && Tame(w, e) && Exclusive(w) && Accounted(w)
    ensures var after := Step(w, ttl, e);
            forall c :: 0 <= c < |after.calls| && Cleared(after.calls[c]) ==> after.successes == []
  {
  }

  /** A success, once there, stays recorded or about to be. */
  lemma RecordedStep(w: World, ttl: nat, e: Event)
    requires Enabled(w, e) && Tame(w, e) && Accounted(w)
    ensures var after := Step(w, ttl, e);
            |after.successes| == 1 ==>
              || AnyDelivered(after.attempts)
              || exists c :: 0 <= c < |after.calls| && after.calls[c] == MarkAttempt(after.successes[0])
  {
    var after := Step(w, ttl, e);
    if AnyDelivered(w.attempts) {
      var i :| 0 <= i < |w.attempts| && w.attempts[i].delivered;
      assert after.attempts[i].delivered;
    } else if |w.successes| == 1 {
      var c :| 0 <= c < |w.calls| && w.calls[c] == MarkAttempt(w.successes[0]);
      if e.Advance? && e.call == c {
        assert after.attempts[w.successes[0]].delivered;
      } else {
        assert after.calls[c] == MarkAttempt(w.successes[0]);
      }
    } else if |after.successes| == 1 {
      assert after.calls[e.call] == MarkAttempt(after.successes[0]);
    }
  }

  ghost predicate TameRun(w: World, ttl: nat, events: seq<Event>)
    requires ValidRun(w, ttl, events)
    decreases |events|
  {
    events != [] ==> Tame(w, events[0]) && TameRun(Step(w, ttl, events[0]), ttl, events[1..])
  }

  lemma {:induction false} RunAccounted(w: World, ttl: nat, events: seq<Event>)
    requires Exclusive(w) && Accounted(w) && ttl > 0 && ValidRun(w, ttl, events) && TameRun(w, ttl, events)
    ensures Exclusive(Run(w, ttl, events)) && Accounted(Run(w, ttl, events))
    decreases |events|
  {
    hide Step, Enabled, Exclusive, Accounted, Tame;
    if events != [] {
      ExclusiveStep(w, ttl, events[0]);
      AccountedStep(w, ttl, events[0]);
      RunAccounted(Step(w, ttl, events[0]), ttl, events[1..]);
    }
  }

  /**
    Over any number of interleaved calls for one delivery key, under the assumptions of
    Tame, at most one provider request succeeds, at most one call is past the gate at a
    time, and the attempts are numbered 1 to n.
   */
  lemma AtMostOneDispatch(w: World, ttl: nat, events: seq<Event>)
    requires Initial(w) && ttl > 0 && ValidRun(w, ttl, events) && TameRun(w, ttl, events)
    ensures var last := Run(w, ttl, events);
            && |last.successes| <= 1
            && Numbered(last.attempts)
            && forall c, d | 0 <= c < |last.calls| && 0 <= d < |last.calls| ::
                 Critical(last.calls[c]) && Critical(last.calls[d]) ==> c == d
  {
    hide Run, ValidRun, TameRun;
    RunAccounted(w, ttl, events);
    AttemptNumbers(w, ttl, events);
  }

  // ---------------------------------------------------------------------------
  // Every assumption is needed
  // ---------------------------------------------------------------------------

  /** events lead from w to z. */
  ghost predicate Leads(w: World, ttl: nat, events: seq<Event>, z: World) {
    ValidRun(w, ttl, events) && Run(w, ttl, events) == z
  }

  lemma {:induction false} LeadsConcat(w: World, ttl: nat, a: seq<Event>, y: World, b: seq<Event>, z: World)
    requires Leads(w, ttl, a, y) && Leads(y, ttl, b, z)
    ensures Leads(w, ttl, a + b, z)
    decreases |a|
  {
    hide Step, Enabled;
    if a == [] {
      assert a + b == b;
    } else {
      LeadsConcat(Step(w, ttl, a[0]), ttl, a[1..], y, b, z);
      assert (a + b)[1..] == a[1..] + b;
    }
  }

  lemma LeadsOne(w: World, ttl: nat, e: Event)
    requires Enabled(w, e)
    ensures Leads(w, ttl, [e], Step(w, ttl, e))
  {
    hide Step, Enabled;
    assert [e][1..] == [];
    assert Run(Step(w, ttl, e), ttl, []) == Step(w, ttl, e);
  }

  lemma LeadsSnoc(w: World, ttl: nat, a: seq<Event>, y: World, e: Event)
    requires Leads(w, ttl, a, y) && Enabled(y, e)
    ensures Leads(w, ttl, a + [e], Step(y, ttl, e))
  {
    hide Step, Enabled, Leads;
    LeadsOne(y, ttl, e);
    LeadsConcat(w, ttl, a, y, [e], Step(y, ttl, e));
  }

  /** The ways in which an event can break one of the assumptions of Tame. */
  datatype Mishap = GateExpires | FailsOpen | MarkFails | CrashBeforeMark

  ghost predicate Commits(w: World, e: Event, mishap: Mishap) {
    match mishap
    case GateExpires => e.Tick?
    case FailsOpen => e.Advance? && e.fate.Fails? && e.call < |w.calls| && w.calls[e.call].Acquire?
    case MarkFails => e.Advance? && e.fate.Fails? && e.call < |w.calls| && w.calls[e.call].MarkAttempt?
    case CrashBeforeMark => e.Crash? && e.call < |w.calls| && w.calls[e.call].MarkAttempt?
  }

  /** A run that keeps every assumption but the one the mishap breaks. */
  ghost predicate TameBut(w: World, ttl: nat, events: seq<Event>, mishap: Mishap)
    requires ValidRun(w, ttl, events)
    decreases |events|
  {
    events != [] ==> (Tame(w, events[0]) || Commits(w, events[0], mishap)) && TameBut(Step(w, ttl, events[0]), ttl, events[1..], mishap)
  }

  ghost predicate Reaches(w: World, ttl: nat, events: seq<Event>, z: World, mishap: Mishap) {
    Leads(w, ttl, events, z) && TameBut(w, ttl, events, mishap)
  }

  lemma ReachesNothing(w: World, ttl: nat, mishap: Mishap)
    ensures Reaches(w, ttl, [], w, mishap)
  {
  }

  lemma {:induction false} ReachesSnoc(w: World, ttl: nat, a: seq<Event>, y: World, e: Event, mishap: Mishap)
    requires Reaches(w, ttl, a, y, mishap) && Enabled(y, e) && (Tame(y, e) || Commits(y, e, mishap))
    ensures Reaches(w, ttl, a + [e], Step(y, ttl, e), mishap)
    decreases |a|
  {
    hide Step, Enabled, Tame, Commits;
    LeadsSnoc(w, ttl, a, y, e);
    if a == [] {
      assert w == y && [] + [e] == [e] && [e][1..] == [];
      ReachesNothing(Step(w, ttl, e), ttl, mishap);
    } else {
      ReachesSnoc(Step(w, ttl, a[0]), ttl, a[1..], y, e, mishap);
      assert (a + [e])[1..] == a[1..] + [e];
    }
  }

  /** A call performs its next operation, which works unless failing is the mishap. */
  lemma Advancing(w: World, ttl: nat, events: seq<Event>, y: World, c: nat, fate: Fate, mishap: Mishap)
    returns (longer: seq<Event>, z: World)
    requires Reaches(w, ttl, events, y, mishap) && Enabled(y, Advance(c, fate))
    requires fate.Fails? ==> Commits(y, Advance(c, fate), mishap)
    ensures z == Step(y, ttl, Advance(c, fate)) && Reaches(w, ttl, longer, z, mishap)
  {
    hide Reaches, Step;
    var e := Advance(c, fate);
    ReachesSnoc(w, ttl, events, y, e, mishap);
    longer, z := events + [e], Step(y, ttl, e);
  }

  /** A new call that gets the gate, or past it when acquiring fails open. */
  lemma Entering(w: World, ttl: nat, events: seq<Event>, y: World, acquire: Fate, mishap: Mishap)
    returns (longer: seq<Event>, z: World)
    requires Reaches(w, ttl, events, y, mishap) && !RowTerminal(y) && !AnyDelivered(y.attempts)
    requires if acquire.Works? then !GateTaken(y) else mishap.FailsOpen?
    ensures Reaches(w, ttl, longer, z, mishap)
    ensures z == y.(calls := y.calls + [ReadRow],
                    gate := if acquire.Works? then Some(Gate(|y.calls|, y.now + ttl)) else y.gate)
  {
    hide Reaches;
    var c := |y.calls|;
    ReachesSnoc(w, ttl, events, y, Call, mishap);
    longer, z := events + [Call], Step(y, ttl, Call);
    longer, z := Advancing(w, ttl, longer, z, c, Works, mishap);
    longer, z := Advancing(w, ttl, longer, z, c, Works, mishap);
    assert z == y.(calls := y.calls + [Acquire(0)]);
    longer, z := Advancing(w, ttl, longer, z, c, acquire, mishap);
    longer, z := Advancing(w, ttl, longer, z, c, Works, mishap);
    longer, z := Advancing(w, ttl, longer, z, c, Works, mishap);
    assert z.calls == y.calls + [ReadRow];
  }

  /** A call past the gate that records its attempt and dispatches successfully. */
  lemma Sending(w: World, ttl: nat, events: seq<Event>, y: World, c: nat, mishap: Mishap) returns (longer: seq<Event>, z: World)
    requires Reaches(w, ttl, events, y, mishap)
    requires c < |y.calls| && y.calls[c] == ReadRow && !RowTerminal(y) && Numbered(y.attempts)
    ensures Reaches(w, ttl, longer, z, mishap)
    ensures z == y.(calls := y.calls[c := MarkAttempt(|y.attempts|)], row := Some(InProgress),
                    attempts := y.attempts + [Attempt(|y.attempts| + 1, false)],
                    successes := y.successes + [|y.attempts|])
  {
    hide Reaches;
    var n := |y.attempts|;
    longer, z := Advancing(w, ttl, events, y, c, Works, mishap);
    longer, z := Advancing(w, ttl, longer, z, c, Works, mishap);
    assert z == y.(calls := y.calls[c := WriteRow(n + 1)]);
    longer, z := Advancing(w, ttl, longer, z, c, Works, mishap);
    longer, z := Advancing(w, ttl, longer, z, c, Works, mishap);
    assert z.calls == y.calls[c := Dispatch(n)];
    longer, z := Advancing(w, ttl, longer, z, c, Works, mishap);
    assert z.calls == y.calls[c := MarkAttempt(n)];
  }

  /** A new call from its start to a successful dispatch that is not recorded yet. */
  lemma Dispatching(w: World, ttl: nat, events: seq<Event>, y: World, acquire: Fate, mishap: Mishap)
    returns (longer: seq<Event>, z: World)
    requires Reaches(w, ttl, events, y, mishap) && !RowTerminal(y) && !AnyDelivered(y.attempts) && Numbered(y.attempts)
    requires if acquire.Works? then !GateTaken(y) else mishap.FailsOpen?
    ensures Reaches(w, ttl, longer, z, mishap)
    ensures z == y.(calls := y.calls + [MarkAttempt(|y.attempts|)], row := Some(InProgress),
                    attempts := y.attempts + [Attempt(|y.attempts| + 1, false)],
                    successes := y.successes + [|y.attempts|],
                    gate := if acquire.Works? then Some(Gate(|y.calls|, y.now + ttl)) else y.gate)
  {
    hide Reaches, Step;
    longer, z := Entering(w, ttl, events, y, acquire, mishap);
    longer, z := Sending(w, ttl, longer, z, |y.calls|, mishap);
  }

  /** What the mishap does to the first call, which has dispatched: the gate is free afterwards, or about to be ignored. */
  lemma Mishandled(w: World, ttl: nat, events: seq<Event>, y: World, mishap: Mishap) returns (longer: seq<Event>, z: World)
    requires Reaches(w, ttl, events, y, mishap)
    requires y.calls == [MarkAttempt(0)] && y.gate == Some(Gate(0, y.now + ttl)) && |y.attempts| == 1
    ensures Reaches(w, ttl, longer, z, mishap)
    ensures z.row == y.row && z.attempts == y.attempts && z.successes == y.successes && |z.calls| == 1
    ensures !mishap.FailsOpen? ==> !GateTaken(z)
  {
    hide Reaches;
    longer, z := events, y;
    match mishap {
      case FailsOpen =>
      case MarkFails =>
        longer, z := Advancing(w, ttl, longer, z, 0, Fails, mishap);
        longer, z := Advancing(w, ttl, longer, z, 0, Works, mishap);
      case GateExpires =>
        ReachesSnoc(w, ttl, longer, z, Tick(y.now + ttl), mishap);
        longer, z := longer + [Tick(y.now + ttl)], Step(z, ttl, Tick(y.now + ttl));
      case CrashBeforeMark =>
        ReachesSnoc(w, ttl, longer, z, Crash(0), mishap);
        longer, z := longer + [Crash(0)], Step(z, ttl, Crash(0));
        ReachesSnoc(w, ttl, longer, z, Tick(y.now + ttl), mishap);
        longer, z := longer + [Tick(y.now + ttl)], Step(z, ttl, Tick(y.now + ttl));
    }
  }

  /**
    Each single assumption is needed: a run that breaks it, and keeps all others, can have
    two successful provider requests.
   */
  lemma TwoDispatches(w: World, ttl: nat, mishap: Mishap) returns (events: seq<Event>)
    requires Initial(w) && ttl > 0
    ensures ValidRun(w, ttl, events) && Run(w, ttl, events).successes == [0, 1]
    ensures TameBut(w, ttl, events, mishap)
  {
    var z;
    ReachesNothing(w, ttl, mishap);
    hide Reaches, Step;
    events, z := Dispatching(w, ttl, [], w, Works, mishap);
    assert z.calls == [MarkAttempt(0)] && !AnyDelivered(z.attempts) && Numbered(z.attempts);
    events, z := Mishandled(w, ttl, events, z, mishap);
    events, z := Dispatching(w, ttl, events, z, if mishap.FailsOpen? then Fails else Works, mishap);
    ReachesRun(w, ttl, events, z, mishap);
  }

  lemma ReachesRun(w: World, ttl: nat, events: seq<Event>, z: World, mishap: Mishap)
    requires Reaches(w, ttl, events, z, mishap)
    ensures ValidRun(w, ttl, events) && Run(w, ttl, events) == z && TameBut(w, ttl, events, mishap)
  {
  }
}
