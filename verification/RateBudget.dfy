/**
  The rate budgets of apps/api/src/lib/rate-budget.ts: what a token bucket lets through in
  any stretch of time, and what the fairness manager grants to one wallet. Numbers of
  tokens are reals, times whole milliseconds.
 */
module RateBudget {
  import opened Wrappers

  // ---------------------------------------------------------------------------
  // The token bucket
  // ---------------------------------------------------------------------------

  datatype Budget = Budget(capacity: real, refillRatePerSec: real)
  datatype Bucket = Bucket(tokens: real, lastRefill: int)

  predicate BudgetOk(budget: Budget) {
    budget.capacity >= 0.0 && budget.refillRatePerSec >= 0.0
  }

  predicate Level(budget: Budget, b: Bucket) {
    0.0 <= b.tokens <= budget.capacity
  }

  function Gain(budget: Budget, ms: int): real {
    ms as real / 1000.0 * budget.refillRatePerSec
  }

  function Min(a: real, b: real): real {
    if a < b then a else b
  }

  function Refilled(budget: Budget, b: Bucket, now: int): Bucket {
    if now > b.lastRefill then Bucket(Min(budget.capacity, b.tokens + Gain(budget, now - b.lastRefill)), now) else b
  }

  /** A request for some tokens when the clock shows now. */
  datatype Request = Request(now: int, tokens: real)

  predicate Grants(budget: Budget, b: Bucket, r: Request) {
    Refilled(budget, b, r.now).tokens >= r.tokens
  }

  function Consumed(budget: Budget, b: Bucket, r: Request): Bucket {
    var v := Refilled(budget, b, r.now);
    if v.tokens >= r.tokens then v.(tokens := v.tokens - r.tokens) else v
  }

  function Served(budget: Budget, b: Bucket, rs: seq<Request>): Bucket {
    if rs == [] then b else Consumed(budget, Served(budget, b, rs[..|rs| - 1]), rs[|rs| - 1])
  }

  /** The tokens given out for these requests. */
  function Granted(budget: Budget, b: Bucket, rs: seq<Request>): real {
    if rs == [] then 0.0
    else
      var n := |rs| - 1;
      Granted(budget, b, rs[..n]) + if Grants(budget, Served(budget, b, rs[..n]), rs[n]) then rs[n].tokens else 0.0
  }

  predicate NonNegative(rs: seq<Request>) {
    forall i :: 0 <= i < |rs| ==> rs[i].tokens >= 0.0
  }

  lemma GainAdds(budget: Budget, m: int, n: int)
    ensures Gain(budget, m) + Gain(budget, n) == Gain(budget, m + n)
  {
  }

  lemma GainOrdered(budget: Budget, m: int, n: int)
    requires BudgetOk(budget) && m <= n
    ensures Gain(budget, m) <= Gain(budget, n)
  {
    var x, y := m as real / 1000.0, n as real / 1000.0;
    Product(x, y, budget.refillRatePerSec);
  }

  lemma Product(x: real, y: real, rate: real)
    requires x <= y && rate >= 0.0
    ensures x * rate <= y * rate
  {
  }

  lemma GainZero(budget: Budget)
    ensures Gain(budget, 0) == 0.0
  {
  }

  lemma ConsumedLevel(budget: Budget, b: Bucket, r: Request)
    requires BudgetOk(budget) && Level(budget, b) && r.tokens >= 0.0
    ensures Level(budget, Consumed(budget, b, r))
    ensures b.lastRefill <= Consumed(budget, b, r).lastRefill == if r.now > b.lastRefill then r.now else b.lastRefill
  {
    hide Gain;
    if r.now > b.lastRefill {
      GainZero(budget);
      GainOrdered(budget, 0, r.now - b.lastRefill);
    }
  }

  /** One request: what is left and what is given out come from what was there and the refill. */
  lemma ConsumedBalance(budget: Budget, b: Bucket, r: Request)
    requires BudgetOk(budget) && Level(budget, b) && r.tokens >= 0.0
    ensures var v := Consumed(budget, b, r);
            v.tokens + (if Grants(budget, b, r) then r.tokens else 0.0) <= b.tokens + Gain(budget, v.lastRefill - b.lastRefill)
  {
    hide Gain;
    GainZero(budget);
    if r.now > b.lastRefill {
      GainOrdered(budget, 0, r.now - b.lastRefill);
    }
  }

  lemma {:induction false} ServedBalance(budget: Budget, b: Bucket, rs: seq<Request>)
    requires BudgetOk(budget) && Level(budget, b) && NonNegative(rs)
    ensures var v := Served(budget, b, rs);
            && Level(budget, v) && b.lastRefill <= v.lastRefill
            && v.tokens + Granted(budget, b, rs) <= b.tokens + Gain(budget, v.lastRefill - b.lastRefill)
  {
    hide Gain, Consumed, Grants;
    GainZero(budget);
    if rs != [] {
      var n := |rs| - 1;
      ServedBalance(budget, b, rs[..n]);
      var u := Served(budget, b, rs[..n]);
      ConsumedLevel(budget, u, rs[n]);
      ConsumedBalance(budget, u, rs[n]);
      var v := Consumed(budget, u, rs[n]);
      GainAdds(budget, v.lastRefill - u.lastRefill, u.lastRefill - b.lastRefill);
    }
  }

  /** Refilling in two steps is refilling at once. */
  lemma RefillTwice(budget: Budget, b: Bucket, a: int, now: int)
    requires BudgetOk(budget) && a <= now
    ensures Refilled(budget, Refilled(budget, b, a), now) == Refilled(budget, b, now)
  {
    hide Gain;
    if b.lastRefill < a < now {
      GainAdds(budget, a - b.lastRefill, now - a);
      GainZero(budget);
      GainOrdered(budget, 0, now - a);
    }
  }

  /** Requests that all come at a or later do not notice a refill at a before them. */
  lemma {:induction false} EarlyRefill(budget: Budget, b: Bucket, a: int, rs: seq<Request>)
    requires BudgetOk(budget) && forall i :: 0 <= i < |rs| ==> a <= rs[i].now
    ensures Granted(budget, Refilled(budget, b, a), rs) == Granted(budget, b, rs)
    ensures rs != [] ==> Served(budget, Refilled(budget, b, a), rs) == Served(budget, b, rs)
  {
    hide Gain, Refilled;
    if rs != [] {
      var n := |rs| - 1;
      EarlyRefill(budget, b, a, rs[..n]);
      if n == 0 {
        assert rs[..n] == [];
        RefillTwice(budget, b, a, rs[0].now);
      }
    }
  }

  lemma {:induction false} ServedClock(budget: Budget, b: Bucket, rs: seq<Request>, end: int)
    requires b.lastRefill <= end && forall i :: 0 <= i < |rs| ==> rs[i].now <= end
    ensures Served(budget, b, rs).lastRefill <= end
  {
    hide Gain;
    if rs != [] {
      ServedClock(budget, b, rs[..|rs| - 1], end);
    }
  }

  lemma {:induction false} ServedStill(budget: Budget, b: Bucket, rs: seq<Request>)
    requires forall i :: 0 <= i < |rs| ==> rs[i].now <= b.lastRefill
    ensures Served(budget, b, rs).lastRefill == b.lastRefill
  {
    hide Gain;
    if rs != [] {
      ServedStill(budget, b, rs[..|rs| - 1]);
    }
  }

  /**
    Over any consecutive requests made between two times, from any state of the bucket, the
    tokens given out are at most the capacity and the refill of that stretch of time; and
    the level stays between empty and full. The clock may even go back in between.
   */
  lemma RateBound(budget: Budget, b: Bucket, rs: seq<Request>, start: int, end: int)
    requires BudgetOk(budget) && Level(budget, b) && NonNegative(rs)
    requires start <= end && forall i :: 0 <= i < |rs| ==> start <= rs[i].now <= end
    ensures Granted(budget, b, rs) <= budget.capacity + Gain(budget, end - start)
    ensures Level(budget, Served(budget, b, rs))
  {
    hide Gain, Served, Granted;
    var c := Refilled(budget, b, start);
    ConsumedLevel(budget, b, Request(start, 0.0));
    EarlyRefill(budget, b, start, rs);
    ServedBalance(budget, c, rs);
    ServedBalance(budget, b, rs);
    GainZero(budget);
    GainOrdered(budget, 0, end - start);
    if c.lastRefill <= end {
      ServedClock(budget, c, rs, end);
      GainOrdered(budget, Served(budget, c, rs).lastRefill - c.lastRefill, end - start);
    } else {
      ServedStill(budget, c, rs);
    }
  }

  /** The whole capacity at once, then in every millisecond what has come in since the last. */
  function Drain(budget: Budget, start: int, ms: nat): (rs: seq<Request>)
    ensures |rs| == ms + 1 && forall i :: 0 <= i <= ms ==> start <= rs[i].now <= start + ms
  {
    if ms == 0 then [Request(start, budget.capacity)]
    else Drain(budget, start, ms - 1) + [Request(start + ms, Gain(budget, 1))]
  }

  lemma {:induction false} DrainServed(budget: Budget, start: int, ms: nat)
    requires BudgetOk(budget) && (ms > 0 ==> Gain(budget, 1) <= budget.capacity)
    ensures var b := Bucket(budget.capacity, start);
            && Granted(budget, b, Drain(budget, start, ms)) == budget.capacity + Gain(budget, ms)
            && Served(budget, b, Drain(budget, start, ms)) == Bucket(0.0, start + ms)
  {
    hide Gain;
    var b := Bucket(budget.capacity, start);
    GainZero(budget);
    if ms == 0 {
      var rs := Drain(budget, start, 0);
      assert rs[..0] == [] && Served(budget, b, rs[..0]) == b;
    } else {
      DrainServed(budget, start, ms - 1);
      GainAdds(budget, ms - 1, 1);
      GainOrdered(budget, 0, 1);
      DrainStep(budget, b, Drain(budget, start, ms - 1), start + ms - 1);
    }
  }

  lemma DrainStep(budget: Budget, b: Bucket, so: seq<Request>, now: int)
    requires Gain(budget, 1) <= budget.capacity && Served(budget, b, so) == Bucket(0.0, now)
    ensures var rs := so + [Request(now + 1, Gain(budget, 1))];
            && Served(budget, b, rs) == Bucket(0.0, now + 1)
            && Granted(budget, b, rs) == Granted(budget, b, so) + Gain(budget, 1)
  {
    hide Gain;
    var rs := so + [Request(now + 1, Gain(budget, 1))];
    assert rs[..|so|] == so;
  }

  lemma DrainReaches(budget: Budget, start: int, ms: nat)
    requires BudgetOk(budget) && (ms > 0 ==> Gain(budget, 1) <= budget.capacity)
    ensures Reaches(budget, Bucket(budget.capacity, start), Drain(budget, start, ms), start, ms)
  {
    hide Gain, Granted;
    DrainServed(budget, start, ms);
    DrainNonNegative(budget, start, ms);
  }

  lemma {:induction false} DrainNonNegative(budget: Budget, start: int, ms: nat)
    requires BudgetOk(budget)
    ensures NonNegative(Drain(budget, start, ms))
  {
    hide Gain;
    GainZero(budget);
    GainOrdered(budget, 0, 1);
    if ms > 0 {
      DrainNonNegative(budget, start, ms - 1);
    }
  }

  /** Some requests in this stretch of time are given as much as the bound allows. */
  ghost predicate Reaches(budget: Budget, b: Bucket, rs: seq<Request>, start: int, ms: nat) {
    && Level(budget, b) && NonNegative(rs) && (forall i :: 0 <= i < |rs| ==> start <= rs[i].now <= start + ms)
    && Granted(budget, b, rs) == budget.capacity + Gain(budget, ms)
  }

  /** The fastest refill that makes a difference: the whole capacity every millisecond. */
  function Slowed(budget: Budget): Budget {
    Budget(budget.capacity, 1000.0 * budget.capacity)
  }

  /** Whoever fills up within a millisecond is as fast as that. */
  lemma SlowedRefill(budget: Budget, b: Bucket, now: int)
    requires BudgetOk(budget) && Level(budget, b) && budget.capacity <= Gain(budget, 1)
    ensures Refilled(Slowed(budget), b, now) == Refilled(budget, b, now)
  {
    SlowedGain(budget, 1);
    hide Gain;
    if now > b.lastRefill {
      GainOrdered(budget, 1, now - b.lastRefill);
      GainOrdered(Slowed(budget), 1, now - b.lastRefill);
    }
  }

  lemma SlowedGain(budget: Budget, ms: int)
    ensures Gain(Slowed(budget), ms) == ms as real * budget.capacity
  {
  }

  lemma {:induction false} SlowedServed(budget: Budget, b: Bucket, rs: seq<Request>)
    requires BudgetOk(budget) && Level(budget, b) && NonNegative(rs) && budget.capacity <= Gain(budget, 1)
    ensures Served(Slowed(budget), b, rs) == Served(budget, b, rs) && Level(budget, Served(budget, b, rs))
    ensures Granted(Slowed(budget), b, rs) == Granted(budget, b, rs)
  {
    hide Gain, Refilled;
    if rs != [] {
      var n := |rs| - 1;
      SlowedServed(budget, b, rs[..n]);
      SlowedRefill(budget, Served(budget, b, rs[..n]), rs[n].now);
      ConsumedLevel(budget, Served(budget, b, rs[..n]), rs[n]);
    }
  }

  lemma FasterGain(budget: Budget, ms: nat)
    requires budget.capacity < Gain(budget, 1) && ms > 0
    ensures ms as real * budget.capacity < Gain(budget, ms)
  {
    assert Gain(budget, ms) == ms as real * Gain(budget, 1);
    StrictProduct(ms as real, budget.capacity, Gain(budget, 1));
  }

  lemma StrictProduct(n: real, x: real, y: real)
    requires n > 0.0 && x < y
    ensures n * x < n * y
  {
  }

  /**
    The bound is met over a stretch of time if and only if a millisecond refills no more than
    the capacity, or no time passes at all: only a bucket that fills up within a millisecond
    loses what it could have given out.
   */
  lemma RateBoundReached(budget: Budget, start: int, ms: nat)
    requires BudgetOk(budget)
    ensures (exists b, rs :: Reaches(budget, b, rs, start, ms)) <==> ms == 0 || Gain(budget, 1) <= budget.capacity
  {
    if ms == 0 || Gain(budget, 1) <= budget.capacity {
      DrainReaches(budget, start, ms);
    } else {
      forall b, rs ensures !Reaches(budget, b, rs, start, ms) {
        if Reaches(budget, b, rs, start, ms) {
          NotReached(budget, b, rs, start, ms);
        }
      }
    }
  }

  lemma NotReached(budget: Budget, b: Bucket, rs: seq<Request>, start: int, ms: nat)
    requires BudgetOk(budget) && ms > 0 && budget.capacity < Gain(budget, 1)
    requires Level(budget, b) && NonNegative(rs) && forall i :: 0 <= i < |rs| ==> start <= rs[i].now <= start + ms
    ensures Granted(budget, b, rs) < budget.capacity + Gain(budget, ms)
  {
    hide Gain, Granted, Served;
    SlowedServed(budget, b, rs);
    RateBound(Slowed(budget), b, rs, start, start + ms);
    SlowedGain(budget, ms);
    FasterGain(budget, ms);
  }

  // ---------------------------------------------------------------------------
  // The slots of one wallet
  // ---------------------------------------------------------------------------

  datatype Limits = Limits(maxConcurrent: int, burst: nat, windowMs: int)
  datatype Window = Window(count: nat, start: int)
  datatype Slots = Slots(active: nat, window: Option<Window>)

  /** One look at the limits, a slot taken without leave after the wait, or a slot given back. */
  datatype Event = Attempt(now: int) | Force | Release

  predicate InWindow(limits: Limits, s: Slots, now: int) {
    s.window.Some? && now - s.window.value.start < limits.windowMs
  }

  function Opened(limits: Limits, s: Slots, now: int): Slots {
    if InWindow(limits, s, now) then s else s.(window := Some(Window(0, now)))
  }

  predicate Allows(limits: Limits, s: Slots, now: int) {
    s.active < limits.maxConcurrent && Opened(limits, s, now).window.value.count < limits.burst
  }

  function Next(limits: Limits, s: Slots, e: Event): Slots {
    match e
    case Attempt(now) =>
      var v := Opened(limits, s, now);
      if Allows(limits, s, now) then Slots(s.active + 1, Some(v.window.value.(count := v.window.value.count + 1))) else v
    case Force => s.(active := s.active + 1)
    case Release => s.(active := if s.active <= 1 then 0 else s.active - 1)
  }

  function After(limits: Limits, s: Slots, es: seq<Event>): Slots {
    if es == [] then s else Next(limits, After(limits, s, es[..|es| - 1]), es[|es| - 1])
  }

  predicate GrantsSlot(limits: Limits, s: Slots, e: Event) {
    e.Attempt? && Allows(limits, s, e.now)
  }

  /** How many attempts among the events are granted. */
  function GrantCount(limits: Limits, s: Slots, es: seq<Event>): nat {
    if es == [] then 0
    else
      var n := |es| - 1;
      GrantCount(limits, s, es[..n]) + if GrantsSlot(limits, After(limits, s, es[..n]), es[n]) then 1 else 0
  }

  /** The grants still possible before start + windowMs. */
  function Room(limits: Limits, s: Slots, start: int): int {
    if s.window.None? then limits.burst
    else if s.window.value.start >= start then limits.burst - s.window.value.count
    else limits.burst - s.window.value.count + limits.burst
  }

  predicate CountOk(limits: Limits, s: Slots) {
    s.window.Some? ==> s.window.value.count <= limits.burst
  }

  lemma RoomStep(limits: Limits, s: Slots, e: Event, start: int)
    requires CountOk(limits, s) && (e.Attempt? ==> start <= e.now < start + limits.windowMs)
    ensures var v := Next(limits, s, e);
            && CountOk(limits, v)
            && Room(limits, v, start) + (if GrantsSlot(limits, s, e) then 1 else 0) <= Room(limits, s, start)
  {
  }

  lemma {:induction false} RoomRun(limits: Limits, s: Slots, es: seq<Event>, start: int)
    requires CountOk(limits, s)
    requires forall i :: 0 <= i < |es| && es[i].Attempt? ==> start <= es[i].now < start + limits.windowMs
    ensures CountOk(limits, After(limits, s, es))
    ensures Room(limits, After(limits, s, es), start) + GrantCount(limits, s, es) <= Room(limits, s, start)
  {
    hide Room, CountOk, Next, GrantsSlot;
    if es != [] {
      var n := |es| - 1;
      RoomRun(limits, s, es[..n], start);
      RoomStep(limits, After(limits, s, es[..n]), es[n], start);
    }
  }

  /**
    In any half-open stretch of time as long as the window, at most twice the burst limit of
    attempts are granted, whatever came before and however slots are forced and released in
    between.
   */
  lemma BurstBound(limits: Limits, history: seq<Event>, es: seq<Event>, start: int)
    requires forall i :: 0 <= i < |es| && es[i].Attempt? ==> start <= es[i].now < start + limits.windowMs
    ensures GrantCount(limits, After(limits, Slots(0, None), history), es) <= 2 * limits.burst
  {
    hide After, GrantCount;
    var s := After(limits, Slots(0, None), history);
    CountRun(limits, Slots(0, None), history);
    RoomRun(limits, s, es, start);
    CountRun(limits, s, es);
  }

  lemma {:induction false} CountRun(limits: Limits, s: Slots, es: seq<Event>)
    requires CountOk(limits, s)
    ensures CountOk(limits, After(limits, s, es))
  {
    hide Allows;
    if es != [] {
      CountRun(limits, s, es[..|es| - 1]);
      CountStep(limits, After(limits, s, es[..|es| - 1]), es[|es| - 1]);
    }
  }

  lemma CountStep(limits: Limits, s: Slots, e: Event)
    requires CountOk(limits, s)
    ensures CountOk(limits, Next(limits, s, e))
  {
  }

  lemma AfterSnoc(limits: Limits, s: Slots, es: seq<Event>, e: Event)
    ensures After(limits, s, es + [e]) == Next(limits, After(limits, s, es), e)
    ensures GrantCount(limits, s, es + [e]) == GrantCount(limits, s, es) + if GrantsSlot(limits, After(limits, s, es), e) then 1 else 0
  {
    hide Next, GrantsSlot;
    assert (es + [e])[..|es|] == es;
  }

  lemma {:induction false} AfterConcat(limits: Limits, s: Slots, a: seq<Event>, b: seq<Event>)
    ensures After(limits, s, a + b) == After(limits, After(limits, s, a), b)
    ensures GrantCount(limits, s, a + b) == GrantCount(limits, s, a) + GrantCount(limits, After(limits, s, a), b)
  {
    hide Next, GrantsSlot;
    if b == [] {
      assert a + b == a;
    } else {
      var n := |b| - 1;
      AfterConcat(limits, s, a, b[..n]);
      assert a + b == (a + b[..n]) + [b[n]];
      AfterSnoc(limits, s, a + b[..n], b[n]);
    }
  }

  /** Slots taken and given back at once, n times. */
  function Burst(now: int, n: nat): seq<Event> {
    if n == 0 then [] else Burst(now, n - 1) + [Attempt(now)] + [Release]
  }

  lemma {:induction false} BurstGrants(limits: Limits, s: Slots, now: int, n: nat)
    requires limits.maxConcurrent > 0 && s.active == 0 && InWindow(limits, Opened(limits, s, now), now)
    requires Opened(limits, s, now).window.value.count + n <= limits.burst
    ensures GrantCount(limits, s, Burst(now, n)) == n
    ensures var window := Opened(limits, s, now).window.value;
            n > 0 ==> After(limits, s, Burst(now, n)) == Slots(0, Some(Window(window.count + n, window.start)))
  {
    if n > 0 {
      hide After, GrantCount;
      var so := Burst(now, n - 1);
      BurstGrants(limits, s, now, n - 1);
      AfterSnoc(limits, s, so, Attempt(now));
      AfterSnoc(limits, s, so + [Attempt(now)], Release);
      if n == 1 {
        AfterNone(limits, s);
      }
    } else {
      AfterNone(limits, s);
    }
  }

  lemma AfterNone(limits: Limits, s: Slots)
    ensures After(limits, s, []) == s && GrantCount(limits, s, []) == 0
  {
  }

  function Repeat(e: Event, n: nat): seq<Event> {
    if n == 0 then [] else Repeat(e, n - 1) + [e]
  }

  lemma {:induction false} ForceAll(limits: Limits, s: Slots, n: nat)
    ensures After(limits, s, Repeat(Force, n)) == s.(active := s.active + n)
  {
    if n > 0 {
      ForceAll(limits, s, n - 1);
      AfterSnoc(limits, s, Repeat(Force, n - 1), Force);
    }
  }

  lemma {:induction false} ReleaseAll(limits: Limits, s: Slots, n: nat)
    requires n <= s.active
    ensures After(limits, s, Repeat(Release, n)) == s.(active := s.active - n)
  {
    if n > 0 {
      ReleaseAll(limits, s, n - 1);
      AfterSnoc(limits, s, Repeat(Release, n - 1), Release);
    }
  }

  /** A window that was opened at 0 by an attempt turned away, with no slot in use any more. */
  function OpeningHistory(limits: Limits): seq<Event>
    requires limits.maxConcurrent > 0
  {
    Repeat(Force, limits.maxConcurrent) + [Attempt(0)] + Repeat(Release, limits.maxConcurrent)
  }

  lemma WindowOpen(limits: Limits)
    requires limits.maxConcurrent > 0
    ensures After(limits, Slots(0, None), OpeningHistory(limits)) == Slots(0, Some(Window(0, 0)))
  {
    hide After, GrantCount;
    var k: nat := limits.maxConcurrent;
    ForceAll(limits, Slots(0, None), k);
    AfterSnoc(limits, Slots(0, None), Repeat(Force, k), Attempt(0));
    ReleaseAll(limits, Slots(k, Some(Window(0, 0))), k);
    AfterConcat(limits, Slots(0, None), Repeat(Force, k) + [Attempt(0)], Repeat(Release, k));
  }

  /**
    Twice the limit is reached, for every burst limit and window: a burst in the last
    millisecond of one window and one at the start of the next.
   */
  lemma BurstBoundReached(limits: Limits)
    requires limits.maxConcurrent > 0 && limits.windowMs > 0
    ensures var es := Burst(limits.windowMs - 1, limits.burst) + Burst(limits.windowMs, limits.burst);
            GrantCount(limits, After(limits, Slots(0, None), OpeningHistory(limits)), es) == 2 * limits.burst
  {
    hide After, GrantCount, OpeningHistory, Burst;
    var s := Slots(0, Some(Window(0, 0)));
    WindowOpen(limits);
    if limits.burst == 0 {
      BurstGrants(limits, s, limits.windowMs - 1, 0);
      AfterConcat(limits, s, Burst(limits.windowMs - 1, 0), Burst(limits.windowMs, 0));
      NoBurst(limits, After(limits, s, Burst(limits.windowMs - 1, 0)), limits.windowMs);
    } else {
      BurstGrants(limits, s, limits.windowMs - 1, limits.burst);
      var t := Slots(0, Some(Window(limits.burst, 0)));
      BurstGrants(limits, t, limits.windowMs, limits.burst);
      AfterConcat(limits, s, Burst(limits.windowMs - 1, limits.burst), Burst(limits.windowMs, limits.burst));
    }
  }

  lemma NoBurst(limits: Limits, s: Slots, now: int)
    ensures GrantCount(limits, s, Burst(now, 0)) == 0
  {
  }

  function Acquisitions(limits: Limits, s: Slots, es: seq<Event>): nat {
    if es == [] then 0
    else
      var n := |es| - 1;
      Acquisitions(limits, s, es[..n]) + if es[n].Force? || GrantsSlot(limits, After(limits, s, es[..n]), es[n]) then 1 else 0
  }

  function Releases(es: seq<Event>): nat {
    if es == [] then 0 else Releases(es[..|es| - 1]) + if es[|es| - 1].Release? then 1 else 0
  }

  /** No slot is given back that is not taken. */
  predicate Matched(limits: Limits, s: Slots, es: seq<Event>) {
    forall i :: 0 <= i < |es| && es[i].Release? ==> After(limits, s, es[..i]).active > 0
  }

  /** The count is exact precisely for runs in which every release has its acquisition. */
  lemma {:induction false} ActiveExactly(limits: Limits, es: seq<Event>)
    ensures var s := Slots(0, None);
            && After(limits, s, es).active >= Acquisitions(limits, s, es) - Releases(es)
            && (After(limits, s, es).active == Acquisitions(limits, s, es) - Releases(es) <==> Matched(limits, s, es))
  {
    hide GrantsSlot, Next;
    var s := Slots(0, None);
    if es != [] {
      var n := |es| - 1;
      var front := es[..n];
      ActiveExactly(limits, front);
      NextActive(limits, After(limits, s, front), es[n]);
      assert forall i :: 0 <= i < n ==> front[i] == es[i] && front[..i] == es[..i];
      assert Matched(limits, s, es) <==> Matched(limits, s, front) && (es[n].Release? ==> After(limits, s, front).active > 0);
      assert After(limits, s, es).active ==
        if es[n].Force? || GrantsSlot(limits, After(limits, s, front), es[n]) then After(limits, s, front).active + 1
        else if es[n].Release? && After(limits, s, front).active > 0 then After(limits, s, front).active - 1 else After(limits, s, front).active;
      assert es[n].Release? ==> !GrantsSlot(limits, After(limits, s, front), es[n]) by { ReleaseGrantsNothing(limits, After(limits, s, front)); }
    }
  }

  lemma ReleaseGrantsNothing(limits: Limits, s: Slots)
    ensures !GrantsSlot(limits, s, Release)
  {
  }

  lemma NextActive(limits: Limits, s: Slots, e: Event)
    ensures Next(limits, s, e).active ==
      if e.Force? || GrantsSlot(limits, s, e) then s.active + 1 else if e.Release? && s.active > 0 then s.active - 1 else s.active
  {
  }

  /** A granted attempt leaves at most the limit in flight; without forcing, nothing ever exceeds it. */
  lemma {:induction false} ConcurrencyBound(limits: Limits, es: seq<Event>)
    requires limits.maxConcurrent >= 0
    ensures var s := Slots(0, None);
            && (es != [] && GrantsSlot(limits, After(limits, s, es[..|es| - 1]), es[|es| - 1]) ==> After(limits, s, es).active <= limits.maxConcurrent)
            && ((forall i :: 0 <= i < |es| ==> !es[i].Force?) ==> After(limits, s, es).active <= limits.maxConcurrent)
  {
    var s := Slots(0, None);
    if es != [] {
      var front := es[..|es| - 1];
      assert forall i :: 0 <= i < |front| ==> front[i] == es[i];
      ConcurrencyBound(limits, front);
      NextActive(limits, After(limits, s, front), es[|es| - 1]);
    }
  }

  // ---------------------------------------------------------------------------
  // When a slot is granted
  // ---------------------------------------------------------------------------

  /** When the current window was opened: by the first attempt, and by any that comes too late for the last one. */
  function OpenedAt(limits: Limits, es: seq<Event>): Option<int>
    decreases |es|, 1
  {
    if es == [] then None
    else if Opens(limits, es) then Some(es[|es| - 1].now)
    else OpenedAt(limits, es[..|es| - 1])
  }

  /** The last event is an attempt for which the window is over. */
  predicate Opens(limits: Limits, es: seq<Event>)
    requires es != []
    decreases |es|, 0
  {
    var before, e := OpenedAt(limits, es[..|es| - 1]), es[|es| - 1];
    e.Attempt? && (before.None? || e.now - before.value >= limits.windowMs)
  }

  predicate GrantedAt(limits: Limits, es: seq<Event>, i: nat)
    requires i < |es|
  {
    GrantsSlot(limits, After(limits, Slots(0, None), es[..i]), es[i])
  }

  /** The grants since the current window was opened. */
  function GrantsInWindow(limits: Limits, es: seq<Event>): nat {
    if es == [] then 0
    else
      var n := |es| - 1;
      (if Opens(limits, es) then 0 else GrantsInWindow(limits, es[..n]))
      + if GrantedAt(limits, es, n) then 1 else 0
  }

  /** Slots granted or forced less those given back, of which there are never fewer than none. */
  function InUse(limits: Limits, es: seq<Event>): nat {
    if es == [] then 0
    else
      var n := |es| - 1;
      var before := InUse(limits, es[..n]);
      if es[n].Force? || GrantedAt(limits, es, n) then before + 1
      else if es[n].Release? && before > 0 then before - 1
      else before
  }

  lemma {:induction false} SlotsExactly(limits: Limits, es: seq<Event>)
    ensures var s := After(limits, Slots(0, None), es);
            && s.active == InUse(limits, es)
            && s.window == if OpenedAt(limits, es).None? then None
                           else Some(Window(GrantsInWindow(limits, es), OpenedAt(limits, es).value))
  {
    hide Allows;
    if es != [] {
      var n := |es| - 1;
      SlotsExactly(limits, es[..n]);
    }
  }

  /**
    In every run: an attempt is granted if and only if fewer slots are in use than may be,
    and fewer attempts than the burst limit have been granted since the current window was
    opened, unless that window is over.
   */
  lemma GrantExactly(limits: Limits, es: seq<Event>, now: int)
    ensures var since := OpenedAt(limits, es);
            GrantsSlot(limits, After(limits, Slots(0, None), es), Attempt(now)) <==>
              && InUse(limits, es) < limits.maxConcurrent
              && (if since.Some? && now - since.value < limits.windowMs then GrantsInWindow(limits, es) else 0) < limits.burst
  {
    hide After, InUse, GrantsInWindow, OpenedAt;
    SlotsExactly(limits, es);
  }
}
