/**
  The classes of apps/api/src/lib/rate-budget.ts, each method proved to make requests and
  events of module RateBudget. What other callers do while a method waits is a parameter.
 */
module RateBudgetCode {
  import opened Wrappers
  import opened RateBudget

  /** The clock of the process: it moves forward between readings, and by a millisecond or more in every sleep. */
  class Clock {
    var now: int
    var readings: nat
    const drift: nat -> nat

    constructor (now: int, drift: nat -> nat)
      ensures this.now == now
    {
      this.now := now;
      this.drift := drift;
      readings := 0;
    }

    method Read() returns (t: int)
      modifies this
      ensures t == now >= old(now)
    {
      now := now + drift(readings);
      readings := readings + 1;
      t := now;
    }

    method Sleep(ms: int)
      modifies this
      ensures now >= old(now) + ms && now > old(now)
    {
      now := now + (if ms < 1 then 1 else ms) + drift(readings);
      readings := readings + 1;
    }
  }

  class TokenBucketLimiter {
    const capacity: real
    const refillRatePerSec: real
    const clock: Clock
    var tokens: real
    var lastRefill: int

    ghost function Terms(): Budget {
      Budget(capacity, refillRatePerSec)
    }

    ghost function View(): Bucket
      reads this
    {
      Bucket(tokens, lastRefill)
    }

    constructor (capacity: real, refillRatePerSec: real, clock: Clock)
      modifies clock
      ensures Terms() == Budget(capacity, refillRatePerSec) && this.clock == clock
      ensures View() == Bucket(capacity, clock.now)
    {
      this.capacity, this.refillRatePerSec, this.clock := capacity, refillRatePerSec, clock;
      tokens := capacity;
      var t := clock.Read();
      lastRefill := t;
    }

    method Refill()
      modifies this, clock
      ensures clock.now >= old(clock.now) && View() == Refilled(Terms(), old(View()), clock.now)
    {
      hide Gain;
      var now := clock.Read();
      if now > lastRefill {
        tokens := Min(capacity, tokens + Gain(Budget(capacity, refillRatePerSec), now - lastRefill));
        lastRefill := now;
      }
    }

    method TryConsume(amount: real := 1.0) returns (ok: bool)
      modifies this, clock
      ensures clock.now >= old(clock.now)
      ensures View() == Consumed(Terms(), old(View()), Request(clock.now, amount))
      ensures ok == Grants(Terms(), old(View()), Request(clock.now, amount))
    {
      hide Gain, Refilled;
      Refill();
      ok := tokens >= amount;
      if ok {
        tokens := tokens - amount;
      }
    }

    /** Requests of other callers, one after the other. */
    method OthersConsume(amounts: seq<real>, ghost b: Bucket, ghost so: seq<Request>, ghost mine: set<nat>, ghost since: int)
      returns (ghost rs: seq<Request>)
      requires View() == Served(Terms(), b, so) && Refused(Terms(), b, so, mine) && Between(so, since, clock.now) && since <= clock.now
      modifies this, clock
      ensures clock.now >= old(clock.now)
      ensures View() == Served(Terms(), b, rs) && Refused(Terms(), b, rs, mine) && Between(rs, since, clock.now)
      ensures so <= rs
    {
      hide Consumed, Grants, Served, Refused;
      rs := so;
      for i := 0 to |amounts|
        invariant clock.now >= old(clock.now) && so <= rs
        invariant View() == Served(Terms(), b, rs) && Refused(Terms(), b, rs, mine) && Between(rs, since, clock.now)
      {
        var _ := TryConsume(amounts[i]);
        ServedSnoc(Terms(), b, rs, Request(clock.now, amounts[i]));
        RefusedSnoc(Terms(), b, rs, mine, Request(clock.now, amounts[i]));
        rs := rs + [Request(clock.now, amounts[i])];
      }
    }

    /**
      Among all requests made meanwhile, its own are those in mine, each for this amount: all
      are refused but the last, which is granted exactly when the answer is true. The answer
      is false only when the wait is over.
     */
    method Consume(amount: real := 1.0, maxWaitMs: int := 1000, others: nat -> seq<real>)
      returns (ok: bool, ghost rs: seq<Request>, ghost mine: set<nat>)
      modifies this, clock
      ensures View() == Served(Terms(), old(View()), rs) && Between(rs, old(clock.now), clock.now)
      ensures mine != {} && AllFor(rs, mine, amount) && Answered(Terms(), old(View()), rs, mine, ok)
      ensures !ok ==> clock.now - old(clock.now) >= maxWaitMs
    {
      hide Consumed, Grants, Served, Refused, Answered;
      ghost var b, since := View(), clock.now;
      ServedNothing(Terms(), b);
      rs, mine := [], {};
      ok := TryConsume(amount);
      rs, mine := OwnRequest(Terms(), b, rs, mine, Request(clock.now, amount), ok);
      if ok { return; }
      var start := clock.Read();
      var now := clock.Read();
      var round := 0;
      while now - start < maxWaitMs
        invariant start <= now == clock.now && since <= start
        invariant View() == Served(Terms(), b, rs) && Refused(Terms(), b, rs, mine) && Between(rs, since, clock.now)
        invariant mine != {} && AllFor(rs, mine, amount) && Answered(Terms(), b, rs, mine, false)
        decreases maxWaitMs - (now - start)
      {
        var left := clock.Read();
        var waitTime := if 50 < maxWaitMs - (left - start) then 50 else maxWaitMs - (left - start);
        clock.Sleep(waitTime);
        rs := OthersConsume(others(round), b, rs, mine, since);
        round := round + 1;
        ok := TryConsume(amount);
        rs, mine := OwnRequest(Terms(), b, rs, mine, Request(clock.now, amount), ok);
        if ok { return; }
        now := clock.Read();
      }
    }

    method GetAvailableTokens() returns (available: real)
      modifies this, clock
      ensures View() == Refilled(Terms(), old(View()), clock.now) && available == tokens
    {
      Refill();
      available := tokens;
    }
  }

  ghost predicate Between(rs: seq<Request>, start: int, end: int) {
    forall i :: 0 <= i < |rs| ==> start <= rs[i].now <= end
  }

  /** The requests at these places are for this amount. */
  ghost predicate AllFor(rs: seq<Request>, mine: set<nat>, amount: real) {
    forall i :: i in mine ==> i < |rs| && rs[i].tokens == amount
  }

  ghost predicate Refused(budget: Budget, b: Bucket, rs: seq<Request>, mine: set<nat>) {
    forall i :: i in mine ==> i < |rs| && !Grants(budget, Served(budget, b, rs[..i]), rs[i])
  }

  /** Of the requests at these places all are refused, except for the last request of all when the answer is true. */
  ghost predicate Answered(budget: Budget, b: Bucket, rs: seq<Request>, mine: set<nat>, ok: bool) {
    && (ok ==> rs != [] && |rs| - 1 in mine)
    && forall i :: i in mine ==> i < |rs| && (Grants(budget, Served(budget, b, rs[..i]), rs[i]) <==> ok && i == |rs| - 1)
  }

  lemma RefusedSnoc(budget: Budget, b: Bucket, rs: seq<Request>, mine: set<nat>, r: Request)
    requires Refused(budget, b, rs, mine)
    ensures Refused(budget, b, rs + [r], mine)
  {
    hide Grants, Served;
    assert forall i :: i in mine ==> (rs + [r])[..i] == rs[..i];
  }

  /** One more request of one's own. */
  lemma OwnRequest(budget: Budget, b: Bucket, so: seq<Request>, before: set<nat>, r: Request, ok: bool)
    returns (rs: seq<Request>, mine: set<nat>)
    requires Refused(budget, b, so, before) && AllFor(so, before, r.tokens) && ok == Grants(budget, Served(budget, b, so), r)
    ensures rs == so + [r] && mine == before + {|so|} && AllFor(rs, mine, r.tokens)
    ensures Served(budget, b, rs) == Consumed(budget, Served(budget, b, so), r)
    ensures Answered(budget, b, rs, mine, ok) && (!ok ==> Refused(budget, b, rs, mine))
  {
    hide Grants, Served, Consumed;
    rs, mine := so + [r], before + {|so|};
    ServedSnoc(budget, b, so, r);
    assert rs[..|so|] == so;
    assert forall i :: i in before ==> rs[..i] == so[..i];
  }

  lemma ServedNothing(budget: Budget, b: Bucket)
    ensures Served(budget, b, []) == b && Refused(budget, b, [], {})
  {
  }

  lemma ServedSnoc(budget: Budget, b: Bucket, rs: seq<Request>, r: Request)
    ensures Served(budget, b, rs + [r]) == Consumed(budget, Served(budget, b, rs), r)
  {
    hide Consumed, Grants;
    assert (rs + [r])[..|rs|] == rs;
  }

  class WorkerFairnessManager {
    const limits: Limits
    const clock: Clock
    var activeWalletDispatches: map<string, nat>
    var walletDispatchesInWindow: map<string, Window>

    constructor (limits: Limits, clock: Clock)
      ensures this.limits == limits && this.clock == clock
      ensures activeWalletDispatches == map[] && walletDispatchesInWindow == map[]
    {
      this.limits, this.clock := limits, clock;
      activeWalletDispatches, walletDispatchesInWindow := map[], map[];
    }

    /** What the maps say of one wallet. */
    ghost function View(walletId: string): Slots
      reads this
    {
      Slots(GetActiveWalletDispatches(walletId),
            if walletId in walletDispatchesInWindow then Some(walletDispatchesInWindow[walletId]) else None)
    }

    function GetActiveWalletDispatches(walletId: string): nat
      reads this
    {
      if walletId in activeWalletDispatches then activeWalletDispatches[walletId] else 0
    }

    /** One round of the loop: open the window if need be, and take a slot if the limits allow. */
    method TrySlot(walletId: string) returns (granted: bool, ghost e: Event)
      modifies this, clock
      ensures clock.now >= old(clock.now) && e == Attempt(clock.now)
      ensures View(walletId) == Next(limits, old(View(walletId)), e) && granted == GrantsSlot(limits, old(View(walletId)), e)
      ensures forall w :: w != walletId ==> View(w) == old(View(w))
    {
      var active := GetActiveWalletDispatches(walletId);
      var now := clock.Read();
      e := Attempt(now);
      var count := 0;
      if walletId in walletDispatchesInWindow && now - walletDispatchesInWindow[walletId].start < limits.windowMs {
        count := walletDispatchesInWindow[walletId].count;
      } else {
        walletDispatchesInWindow := walletDispatchesInWindow[walletId := Window(0, now)];
      }
      granted := active < limits.maxConcurrent && count < limits.burst;
      if granted {
        activeWalletDispatches := activeWalletDispatches[walletId := active + 1];
        var window := walletDispatchesInWindow[walletId];
        walletDispatchesInWindow := walletDispatchesInWindow[walletId := window.(count := window.count + 1)];
      }
    }

    /** The slot taken without leave after the wait. */
    method ForceSlot(walletId: string)
      modifies this`activeWalletDispatches
      ensures View(walletId) == Next(limits, old(View(walletId)), Force)
      ensures forall w :: w != walletId ==> View(w) == old(View(w))
    {
      activeWalletDispatches := activeWalletDispatches[walletId := GetActiveWalletDispatches(walletId) + 1];
    }

    /** What other callers do with the same wallet, one after the other. */
    method OthersAct(walletId: string, deeds: seq<Deed>, ghost s: Slots, ghost so: seq<Event>, ghost mine: set<nat>)
      returns (ghost es: seq<Event>)
      requires walletId != "" && View(walletId) == After(limits, s, so) && SlotRefused(limits, s, so, mine)
      modifies this, clock
      ensures clock.now >= old(clock.now)
      ensures View(walletId) == After(limits, s, es) && SlotRefused(limits, s, es, mine)
      ensures forall w :: w != walletId ==> View(w) == old(View(w))
    {
      hide Next, After, GrantsSlot, SlotRefused;
      es := so;
      for i := 0 to |deeds|
        invariant clock.now >= old(clock.now)
        invariant View(walletId) == After(limits, s, es) && SlotRefused(limits, s, es, mine)
        invariant forall w :: w != walletId ==> View(w) == old(View(w))
      {
        ghost var e := Force;
        match deeds[i] {
          case Try =>
            var granted;
            granted, e := TrySlot(walletId);
          case ForceThrough => ForceSlot(walletId);
          case GiveBack =>
            ReleaseWalletSlot(walletId);
            e := Release;
        }
        AfterSnoc(limits, s, es, e);
        SlotRefusedSnoc(limits, s, es, mine, e);
        es := es + [e];
      }
    }

    /**
      Among everything done with the wallet meanwhile, its own attempts are those in mine:
      all are refused but the last, which is granted exactly when the answer is true. When
      it is false, the wait is over but for the 10 ms in which no sleep is worth while, and the
      slot is taken all the same. Other wallets are not touched by it.
     */
    method AcquireWalletSlot(walletId: string, maxWaitMs: int := 1000, others: nat -> seq<Deed>)
      returns (granted: bool, ghost es: seq<Event>, ghost mine: set<nat>)
      modifies this, clock
      ensures walletId == "" ==> granted && es == [] && mine == {}
      ensures View(walletId) == After(limits, old(View(walletId)), es)
      ensures walletId != "" ==> SlotAnswered(limits, old(View(walletId)), es, mine, granted)
      ensures walletId != "" && !granted ==> es[|es| - 1] == Force && clock.now - old(clock.now) >= maxWaitMs - 10
      ensures forall w :: w != walletId ==> View(w) == old(View(w))
    {
      hide Next, After, GrantsSlot, SlotRefused, SlotAnswered;
      ghost var s := View(walletId);
      SlotStart(limits, s);
      es, mine := [], {};
      if walletId == "" { return true, [], {}; }
      var start := clock.Read();
      var now := clock.Read();
      var round := 0;
      while now - start <= maxWaitMs
        invariant old(clock.now) <= start <= now == clock.now
        invariant View(walletId) == After(limits, s, es) && SlotRefused(limits, s, es, mine)
        invariant forall w :: w != walletId ==> View(w) == old(View(w))
        decreases maxWaitMs - (now - start)
      {
        ghost var e;
        granted, e := TrySlot(walletId);
        es, mine := OwnAttempt(limits, s, es, mine, e, granted);
        if granted { return; }
        var left := clock.Read();
        var rest := if maxWaitMs - (left - start) < 10 then 10 else maxWaitMs - (left - start);
        var waitMs := if rest < 100 then rest else 100;
        if waitMs <= 10 { break; }
        clock.Sleep(waitMs);
        es := OthersAct(walletId, others(round), s, es, mine);
        round := round + 1;
        now := clock.Read();
      }
      ForceSlot(walletId);
      OwnForce(limits, s, es, mine);
      es := es + [Force];
      granted := false;
    }

    method ReleaseWalletSlot(walletId: string)
      modifies this`activeWalletDispatches
      ensures View(walletId) == if walletId == "" then old(View(walletId)) else Next(limits, old(View(walletId)), Release)
      ensures forall w :: w != walletId ==> View(w) == old(View(w))
    {
      if walletId == "" { return; }
      var active := GetActiveWalletDispatches(walletId);
      if active <= 1 {
        activeWalletDispatches := activeWalletDispatches - {walletId};
      } else {
        activeWalletDispatches := activeWalletDispatches[walletId := active - 1];
      }
    }
  }

  /** What another caller does with a wallet. */
  datatype Deed = Try | ForceThrough | GiveBack

  ghost predicate SlotRefused(limits: Limits, s: Slots, es: seq<Event>, mine: set<nat>) {
    forall i :: i in mine ==> i < |es| && es[i].Attempt? && !GrantsSlot(limits, After(limits, s, es[..i]), es[i])
  }

  /** The attempts at these places are all refused, except for the last event of all when the answer is true. */
  ghost predicate SlotAnswered(limits: Limits, s: Slots, es: seq<Event>, mine: set<nat>, granted: bool) {
    && es != [] && (granted ==> |es| - 1 in mine)
    && forall i :: i in mine ==>
         i < |es| && es[i].Attempt? && (GrantsSlot(limits, After(limits, s, es[..i]), es[i]) <==> granted && i == |es| - 1)
  }

  lemma SlotStart(limits: Limits, s: Slots)
    ensures After(limits, s, []) == s && SlotRefused(limits, s, [], {})
  {
  }

  lemma SlotRefusedSnoc(limits: Limits, s: Slots, es: seq<Event>, mine: set<nat>, e: Event)
    requires SlotRefused(limits, s, es, mine)
    ensures SlotRefused(limits, s, es + [e], mine)
  {
    hide GrantsSlot, After;
    assert forall i :: i in mine ==> (es + [e])[..i] == es[..i];
  }

  /** One more attempt of one's own. */
  lemma OwnAttempt(limits: Limits, s: Slots, so: seq<Event>, before: set<nat>, e: Event, granted: bool)
    returns (es: seq<Event>, mine: set<nat>)
    requires SlotRefused(limits, s, so, before) && e.Attempt? && granted == GrantsSlot(limits, After(limits, s, so), e)
    ensures es == so + [e] && mine == before + {|so|}
    ensures After(limits, s, es) == Next(limits, After(limits, s, so), e)
    ensures SlotAnswered(limits, s, es, mine, granted) && (!granted ==> SlotRefused(limits, s, es, mine))
  {
    hide GrantsSlot, After, Next;
    es, mine := so + [e], before + {|so|};
    AfterSnoc(limits, s, so, e);
    assert es[..|so|] == so;
    assert forall i :: i in before ==> es[..i] == so[..i];
  }

  lemma OwnForce(limits: Limits, s: Slots, es: seq<Event>, mine: set<nat>)
    requires SlotRefused(limits, s, es, mine)
    ensures After(limits, s, es + [Force]) == Next(limits, After(limits, s, es), Force)
    ensures SlotAnswered(limits, s, es + [Force], mine, false)
  {
    hide GrantsSlot, After, Next;
    AfterSnoc(limits, s, es, Force);
    assert forall i :: i in mine ==> (es + [Force])[..i] == es[..i];
  }
}
