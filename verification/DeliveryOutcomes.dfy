/**
  What deliverWithIdempotency of apps/api/src/lib/delivery.ts answers, by the state it finds:
  a finished delivery is not sent, an open one is sent once and recorded.
 */
module DeliveryOutcomes {
  import opened Wrappers
  import opened Delivery

  /** The statuses with which a delivery is finished. */
  predicate Finished(row: Option<Status>) {
    row == Some(Delivered) || row == Some(Exhausted) || row == Some(Suppressed) || row == Some(Skipped)
  }

  predicate LooksAtRow(pc: Pc) {
    pc.CheckRow? || pc.LostCheckRow? || pc.HeldCheckRow? || pc.ReadRow?
  }

  /** On its way out, or out, without a request to the provider. */
  predicate GivesUp(pc: Pc) {
    pc.Crashed? || (pc.Returned? && !pc.outcome.WasDispatched?) || (pc.ReleaseGate? && !pc.outcome.WasDispatched?)
  }

  /** A look at the delivery row ends the call if and only if the read works and finds the delivery finished. */
  lemma LookExactly(w: World, ttl: nat, c: nat, fate: Fate)
    requires c < |w.calls| && LooksAtRow(w.calls[c])
    ensures var v := Step(w, ttl, Advance(c, fate));
            && v == w.(calls := v.calls) && c < |v.calls|
            && (GivesUp(v.calls[c]) <==> fate.Works? && Finished(w.row))
  {
  }

  lemma {:induction false} GivenUp(w: World, ttl: nat, events: seq<Event>, c: nat)
    requires ValidRun(w, ttl, events) && c < |w.calls| && GivesUp(w.calls[c])
    ensures var z := Run(w, ttl, events);
            c < |z.calls| && GivesUp(z.calls[c])
    decreases |events|
  {
    hide Step, Enabled;
    if events != [] {
      GivenUpStep(w, ttl, events[0], c);
      GivenUp(Step(w, ttl, events[0]), ttl, events[1..], c);
    }
  }

  lemma GivenUpStep(w: World, ttl: nat, e: Event, c: nat)
    requires Enabled(w, e) && c < |w.calls| && GivesUp(w.calls[c])
    ensures var v := Step(w, ttl, e);
            c < |v.calls| && GivesUp(v.calls[c])
  {
    hide HasNumber, AnyDelivered;
  }

  /** Whatever such a call does next sends nothing and leaves the attempts alone. */
  lemma GivenUpSendsNothing(w: World, ttl: nat, c: nat, fate: Fate)
    requires c < |w.calls| && GivesUp(w.calls[c])
    ensures var (v, pc) := Operate(w, c, ttl, fate);
            v.successes == w.successes && v.attempts == w.attempts && v.row == w.row
  {
  }

  /**
    In every run: a call that has read the delivery row, at any of its looks, while the
    delivery was finished neither sends a request afterwards nor answers that it did.
   */
  lemma FinishedNotSent(w: World, ttl: nat, c: nat, later: seq<Event>, fate: Fate)
    requires c < |w.calls| && LooksAtRow(w.calls[c]) && Finished(w.row)
    requires ValidRun(Step(w, ttl, Advance(c, Works)), ttl, later)
    ensures var z := Run(Step(w, ttl, Advance(c, Works)), ttl, later);
            && c < |z.calls| && GivesUp(z.calls[c])
            && Operate(z, c, ttl, fate).0.successes == z.successes
            && Operate(z, c, ttl, fate).0.attempts == z.attempts
  {
    hide Run, ValidRun, Step;
    var v := Step(w, ttl, Advance(c, Works));
    LookExactly(w, ttl, c, Works);
    GivenUp(v, ttl, later, c);
    GivenUpSendsNothing(Run(v, ttl, later), ttl, c, fate);
  }

  // ---------------------------------------------------------------------------
  // A call on its own
  // ---------------------------------------------------------------------------

  /** Call c goes on by itself for n operations, each of which works; the request to the provider may fail. */
  function Alone(w: World, ttl: nat, c: nat, sends: bool, n: nat): World
    requires c < |w.calls|
    decreases n
  {
    if n == 0 then w
    else
      var (v, pc) := Operate(w, c, ttl, if w.calls[c].Dispatch? && !sends then Fails else Works);
      Alone(v.(calls := w.calls[c := pc]), ttl, c, sends, n - 1)
  }

  /** By itself call c gets from w to z. */
  ghost predicate Comes(w: World, ttl: nat, c: nat, sends: bool, z: World)
    requires c < |w.calls|
  {
    exists n: nat :: Alone(w, ttl, c, sends, n) == z
  }

  lemma ComesStep(w: World, ttl: nat, c: nat, sends: bool, z: World)
    requires c < |w.calls|
    requires var (v, pc) := Operate(w, c, ttl, if w.calls[c].Dispatch? && !sends then Fails else Works);
             Comes(v.(calls := w.calls[c := pc]), ttl, c, sends, z)
    ensures Comes(w, ttl, c, sends, z)
  {
    hide Operate;
    var (v, pc) := Operate(w, c, ttl, if w.calls[c].Dispatch? && !sends then Fails else Works);
    var u := v.(calls := w.calls[c := pc]);
    var n: nat :| Alone(u, ttl, c, sends, n) == z;
    assert Alone(w, ttl, c, sends, n + 1) == Alone(u, ttl, c, sends, n);
  }

  lemma ComesNow(w: World, ttl: nat, c: nat, sends: bool)
    requires c < |w.calls|
    ensures Comes(w, ttl, c, sends, w)
  {
    assert Alone(w, ttl, c, sends, 0) == w;
  }

  /** The stores as they are, with call c before this operation. */
  function Placed(w: World, c: nat, pc: Pc): World
    requires c < |w.calls|
  {
    w.(calls := w.calls[c := pc])
  }

  lemma PlacedTwice(w: World, c: nat, pc: Pc, next: Pc)
    requires c < |w.calls|
    ensures Placed(Placed(w, c, pc), c, next) == Placed(w, c, next)
  {
  }

  /** An operation that only looks. */
  lemma ComesLook(w: World, ttl: nat, c: nat, sends: bool, pc: Pc, next: Pc, z: World)
    requires c < |w.calls| && !pc.Dispatch?
    requires Operate(Placed(w, c, pc), c, ttl, Works) == (Placed(w, c, pc), next)
    requires Comes(Placed(w, c, next), ttl, c, sends, z)
    ensures Comes(Placed(w, c, pc), ttl, c, sends, z)
  {
    hide Operate, Comes;
    PlacedTwice(w, c, pc, next);
    ComesStep(Placed(w, c, pc), ttl, c, sends, z);
  }

  /** Nothing is left to send: the row says that the delivery is finished, or an attempt that it was delivered. */
  ghost predicate Settled(w: World) {
    Finished(w.row) || AnyDelivered(w.attempts)
  }

  lemma SettledReturns(w: World, ttl: nat, c: nat, sends: bool)
    requires c < |w.calls| && Settled(w)
    ensures Comes(Placed(w, c, CheckRow), ttl, c, sends, Placed(w, c, Returned(WasSkipped)))
  {
    hide Comes, AnyDelivered, HasNumber;
    var z := Placed(w, c, Returned(WasSkipped));
    ComesNow(z, ttl, c, sends);
    if Finished(w.row) {
      ComesLook(w, ttl, c, sends, CheckRow, Returned(WasSkipped), z);
    } else {
      ComesLook(w, ttl, c, sends, CheckAttempts, Returned(WasSkipped), z);
      ComesLook(w, ttl, c, sends, CheckRow, CheckAttempts, z);
    }
  }

  /** The gate is taken, and stays so for all the retries. */
  lemma TakenReturns(w: World, ttl: nat, c: nat, sends: bool)
    requires c < |w.calls| && !Settled(w) && GateTaken(w)
    ensures Comes(Placed(w, c, CheckRow), ttl, c, sends, Placed(w, c, Returned(WasSkipped)))
  {
    hide Comes, AnyDelivered, HasNumber;
    var z := Placed(w, c, Returned(WasSkipped));
    ComesNow(z, ttl, c, sends);
    ComesLook(w, ttl, c, sends, LostCheckAttempts, Returned(WasSkipped), z);
    ComesLook(w, ttl, c, sends, LostCheckRow, LostCheckAttempts, z);
    ComesLook(w, ttl, c, sends, Acquire(2), LostCheckRow, z);
    ComesLook(w, ttl, c, sends, Acquire(1), Acquire(2), z);
    ComesLook(w, ttl, c, sends, Acquire(0), Acquire(1), z);
    ComesLook(w, ttl, c, sends, CheckAttempts, Acquire(0), z);
    ComesLook(w, ttl, c, sends, CheckRow, CheckAttempts, z);
  }

  /** What an undisturbed call leaves of an open delivery. */
  function Sent(w: World, c: nat, sends: bool): World
    requires c < |w.calls|
  {
    var n := |w.attempts|;
    Placed(w, c, Returned(if sends then WasDispatched(n) else Threw)).(
      gate := None, row := Some(if sends then Delivered else InProgress),
      attempts := w.attempts + [Attempt(n + 1, sends)],
      successes := if sends then w.successes + [n] else w.successes)
  }

  /** Behind the gate, from the insertion of the attempt on. */
  lemma DispatchReturns(w: World, ttl: nat, c: nat, sends: bool)
    requires c < |w.calls| && GateTaken(w) && w.gate.value.owner == c && w.row == Some(InProgress)
    requires w.attempts != [] && !w.attempts[|w.attempts| - 1].delivered
    ensures var n := |w.attempts| - 1;
            Comes(Placed(w, c, Dispatch(n)), ttl, c, sends,
                  Placed(w, c, Returned(if sends then WasDispatched(n) else Threw)).(
                    gate := None, row := Some(if sends then Delivered else InProgress),
                    attempts := w.attempts[n := w.attempts[n].(delivered := sends)],
                    successes := if sends then w.successes + [n] else w.successes))
  {
    hide Comes, AnyDelivered, HasNumber;
    var n := |w.attempts| - 1;
    var outcome := if sends then WasDispatched(n) else Threw;
    var done := w.(row := Some(if sends then Delivered else InProgress),
                   attempts := w.attempts[n := w.attempts[n].(delivered := sends)],
                   successes := if sends then w.successes + [n] else w.successes);
    var z := Placed(done, c, Returned(outcome)).(gate := None);
    ComesNow(z, ttl, c, sends);
    Stepping(Placed(done, c, ReleaseGate(outcome)), ttl, c, sends, z, z);
    if sends {
      MarkReturns(w, ttl, c, done, z);
    } else {
      assert done == w;
      Stepping(Placed(w, c, Dispatch(n)), ttl, c, sends, Placed(w, c, ReleaseGate(outcome)), z);
    }
  }

  /** The request has been sent: attempt and row are marked. */
  lemma MarkReturns(w: World, ttl: nat, c: nat, done: World, z: World)
    requires c < |w.calls| && w.row.Some? && w.attempts != []
    requires var n := |w.attempts| - 1;
             && done == w.(row := Some(Delivered), attempts := w.attempts[n := w.attempts[n].(delivered := true)], successes := w.successes + [n])
             && Comes(Placed(done, c, ReleaseGate(WasDispatched(n))), ttl, c, true, z)
    ensures Comes(Placed(w, c, Dispatch(|w.attempts| - 1)), ttl, c, true, z)
  {
    hide Comes, AnyDelivered, HasNumber;
    var n := |w.attempts| - 1;
    var marked := done.(row := w.row);
    var answered := w.(successes := done.successes);
    Stepping(Placed(marked, c, MarkRow(n)), ttl, c, true, Placed(done, c, ReleaseGate(WasDispatched(n))), z);
    Stepping(Placed(answered, c, MarkAttempt(n)), ttl, c, true, Placed(marked, c, MarkRow(n)), z);
    Stepping(Placed(w, c, Dispatch(n)), ttl, c, true, Placed(answered, c, MarkAttempt(n)), z);
  }

  /** One operation from v to u. */
  lemma Stepping(v: World, ttl: nat, c: nat, sends: bool, u: World, z: World)
    requires c < |v.calls| && c < |u.calls| && u.calls == v.calls[c := u.calls[c]]
    requires var (x, pc) := Operate(v, c, ttl, if v.calls[c].Dispatch? && !sends then Fails else Works);
             u == x.(calls := u.calls) && u.calls[c] == pc
    requires Comes(u, ttl, c, sends, z)
    ensures Comes(v, ttl, c, sends, z)
  {
    hide Operate, Comes;
    ComesStep(v, ttl, c, sends, z);
  }

  lemma FreeNumber(attempts: seq<Attempt>)
    requires Numbered(attempts)
    ensures !HasNumber(attempts, |attempts| + 1)
  {
  }

  /** With the gate: the attempt is recorded and sent. */
  lemma HeldReturns(w: World, ttl: nat, c: nat, sends: bool)
    requires c < |w.calls| && !Settled(w) && GateTaken(w) && w.gate.value.owner == c && Numbered(w.attempts)
    ensures Comes(Placed(w, c, HeldCheckRow), ttl, c, sends, Sent(w, c, sends))
  {
    hide Comes, AnyDelivered, Numbered;
    var n, z := |w.attempts|, Sent(w, c, sends);
    var started := w.(row := Some(InProgress));
    var recorded := started.(attempts := w.attempts + [Attempt(n + 1, false)]);
    DispatchReturns(recorded, ttl, c, sends);
    assert recorded.attempts[n := Attempt(n + 1, sends)] == w.attempts + [Attempt(n + 1, sends)];
    FreeNumber(started.attempts);
    hide HasNumber, Sent;
    Stepping(Placed(started, c, InsertAttempt(n + 1)), ttl, c, sends, Placed(recorded, c, Dispatch(n)), z);
    Stepping(Placed(w, c, WriteRow(n + 1)), ttl, c, sends, Placed(started, c, InsertAttempt(n + 1)), z);
    ComesLook(w, ttl, c, sends, CountAttempts, WriteRow(n + 1), z);
    ComesLook(w, ttl, c, sends, ReadRow, CountAttempts, z);
    ComesLook(w, ttl, c, sends, HeldCheckAttempts, ReadRow, z);
    ComesLook(w, ttl, c, sends, HeldCheckRow, HeldCheckAttempts, z);
  }

  /** The gate is free: it is taken, and given back in the end. */
  lemma FreeReturns(w: World, ttl: nat, c: nat, sends: bool)
    requires c < |w.calls| && !Settled(w) && !GateTaken(w) && ttl > 0 && Numbered(w.attempts)
    ensures Comes(Placed(w, c, CheckRow), ttl, c, sends, Sent(w, c, sends))
  {
    hide Comes, AnyDelivered, Numbered, HasNumber;
    var z := Sent(w, c, sends);
    var held := w.(gate := Some(Gate(c, w.now + ttl)));
    assert Sent(held, c, sends) == z;
    hide Sent;
    HeldReturns(held, ttl, c, sends);
    Stepping(Placed(w, c, Acquire(0)), ttl, c, sends, Placed(held, c, HeldCheckRow), z);
    ComesLook(w, ttl, c, sends, CheckAttempts, Acquire(0), z);
    ComesLook(w, ttl, c, sends, CheckRow, CheckAttempts, z);
  }

  /**
    A call that starts now and that no one disturbs: if the delivery is finished, was
    delivered by an earlier attempt, or is in the hands of another call, it answers skipped
    and changes nothing. Otherwise it records one attempt under the next number, sends it,
    gives the gate back, and answers dispatched with attempt and row marked as delivered;
    or, when the provider refuses, throws and leaves the attempt pending.
   */
  lemma OutcomeExactly(w: World, ttl: nat, c: nat, sends: bool)
    requires c < |w.calls| && w.calls[c] == CheckRow && ttl > 0 && Numbered(w.attempts)
    ensures Comes(w, ttl, c, sends,
                  if Finished(w.row) || AnyDelivered(w.attempts) || GateTaken(w) then Placed(w, c, Returned(WasSkipped))
                  else Sent(w, c, sends))
  {
    hide Comes, AnyDelivered, Sent, Numbered;
    assert Placed(w, c, CheckRow) == w;
    if Settled(w) {
      SettledReturns(w, ttl, c, sends);
    } else if GateTaken(w) {
      TakenReturns(w, ttl, c, sends);
    } else {
      FreeReturns(w, ttl, c, sends);
    }
  }

  /** A call that has lost the gate to another looks once more, and says delivered if the other is done. */
  lemma LostExactly(w: World, ttl: nat, c: nat, sends: bool)
    requires c < |w.calls| && w.calls[c] == LostCheckRow
    ensures Comes(w, ttl, c, sends,
                  Placed(w, c, Returned(if Finished(w.row) || AnyDelivered(w.attempts) then WasDelivered else WasSkipped)))
  {
    hide Comes, AnyDelivered, HasNumber;
    assert Placed(w, c, LostCheckRow) == w;
    var z := Placed(w, c, Returned(if Settled(w) then WasDelivered else WasSkipped));
    ComesNow(z, ttl, c, sends);
    if Finished(w.row) {
      ComesLook(w, ttl, c, sends, LostCheckRow, Returned(WasDelivered), z);
    } else {
      ComesLook(w, ttl, c, sends, LostCheckAttempts, z.calls[c], z);
      ComesLook(w, ttl, c, sends, LostCheckRow, LostCheckAttempts, z);
    }
  }

  /** Suppressing a delivery that has a row keeps a call that starts then from sending. */
  lemma SuppressedNotSent(w: World, ttl: nat, sends: bool)
    requires w.row.Some?
    ensures var v := Step(Step(w, ttl, Suppress), ttl, Call);
            && v.row == Some(Suppressed) && v.attempts == w.attempts && v.gate == w.gate
            && Comes(v, ttl, |w.calls|, sends, Placed(v, |w.calls|, Returned(WasSkipped)))
  {
    hide Comes;
    var v := Step(Step(w, ttl, Suppress), ttl, Call);
    assert Placed(v, |w.calls|, CheckRow) == v;
    SettledReturns(v, ttl, |w.calls|, sends);
  }

  /** What a call comes to by itself is its end: from an answer it goes nowhere. */
  lemma AnswerIsFinal(w: World, ttl: nat, c: nat, sends: bool, y: World, z: World)
    requires c < |w.calls| && Comes(w, ttl, c, sends, y) && Comes(w, ttl, c, sends, z)
    requires c < |y.calls| && c < |z.calls| && y.calls[c].Returned? && z.calls[c].Returned?
    ensures y == z
  {
    hide Operate;
    var m: nat :| Alone(w, ttl, c, sends, m) == y;
    var n: nat :| Alone(w, ttl, c, sends, n) == z;
    if m <= n {
      AloneAgain(w, ttl, c, sends, m, n);
    } else {
      AloneAgain(w, ttl, c, sends, n, m);
    }
  }

  lemma {:induction false} AloneAgain(w: World, ttl: nat, c: nat, sends: bool, m: nat, n: nat)
    requires c < |w.calls| && m <= n
    requires c < |Alone(w, ttl, c, sends, m).calls| && Alone(w, ttl, c, sends, m).calls[c].Returned?
    ensures Alone(w, ttl, c, sends, n) == Alone(w, ttl, c, sends, m)
    decreases n
  {
    if m > 0 {
      hide Operate;
      var (v, pc) := Operate(w, c, ttl, if w.calls[c].Dispatch? && !sends then Fails else Works);
      AloneAgain(v.(calls := w.calls[c := pc]), ttl, c, sends, m - 1, n - 1);
    } else if n > 0 {
      assert w.calls[c := w.calls[c]] == w.calls;
      AloneAgain(w, ttl, c, sends, 0, n - 1);
    }
  }
}
