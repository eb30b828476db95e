/**
  The classes of apps/api/src/lib/redlock.ts, each method proved to make exactly the steps
  of module WalletLock that its answer claims.
 */
module WalletLockCode {
  import opened Wrappers
  import opened WalletLock

  const DEFAULT_TTL_MS := 15_000

  /** How a Redis command fares: carried out and answered, not carried out, or carried out with its answer lost. */
  datatype Fate = Works | Fails | Lost

  /** The Redis server, with the history of its leases. */
  class Server {
    var now: int
    var entries: map<string, Entry>
    ghost var world: World

    ghost predicate Valid()
      reads this
    {
      world.now == now && world.entries == entries
    }

    constructor (now: int)
      ensures Valid() && world == World(now, map[], [])
    {
      this.now := now;
      entries := map[];
      world := World(now, map[], []);
    }

    method Get(key: string) returns (r: Option<string>)
      requires Valid()
      ensures r == Holder(world, key)
    {
      r := if key in entries && now < entries[key].expires then Some(entries[key].value) else None;
    }

    method Set(key: string, value: string, ttl: int) returns (ok: bool)
      requires Valid()
      modifies this
      ensures Valid() && world == Step(old(world), SetNx(key, value, ttl)) && ok == Succeeds(old(world), SetNx(key, value, ttl))
    {
      var holder := Get(key);
      ok := ttl > 0 && holder.None?;
      if ok {
        entries := entries[key := Entry(value, now + ttl)];
      }
      world := Step(world, SetNx(key, value, ttl));
    }

    /** RENEW_LUA_SCRIPT */
    method EvalRenew(key: string, value: string, ttl: int) returns (result: int)
      requires Valid()
      modifies this
      ensures Valid() && world == Step(old(world), Renew(key, value, ttl))
      ensures result == if Succeeds(old(world), Renew(key, value, ttl)) then 1 else 0
    {
      hide EndAt;
      var holder := Get(key);
      result := 0;
      if holder == Some(value) {
        entries := if ttl > 0 then entries[key := Entry(value, now + ttl)] else entries - {key};
        result := 1;
      }
      world := Step(world, Renew(key, value, ttl));
    }

    /** RELEASE_LUA_SCRIPT */
    method EvalRelease(key: string, value: string) returns (result: int)
      requires Valid()
      modifies this
      ensures Valid() && world == Step(old(world), Release(key, value))
      ensures result == if Succeeds(old(world), Release(key, value)) then 1 else 0
    {
      hide EndAt;
      var holder := Get(key);
      result := 0;
      if holder == Some(value) {
        entries := entries - {key};
        result := 1;
      }
      world := Step(world, Release(key, value));
    }

    /** Time passes and other workers act. */
    method Others(ops: seq<Op>)
      requires Valid()
      modifies this
      ensures Valid() && world == Run(old(world), ops)
    {
      hide Step, Succeeds, Valid;
      for i := 0 to |ops|
        invariant Valid() && world == Run(old(world), ops[..i])
      {
        assert ops[..i + 1] == ops[..i] + [ops[i]];
        RunSnoc(old(world), ops[..i], ops[i]);
        match ops[i] {
          case SetNx(key, value, ttl) => var _ := Set(key, value, ttl);
          case Renew(key, value, ttl) => var _ := EvalRenew(key, value, ttl);
          case Release(key, value) => var _ := EvalRelease(key, value);
          case Tick(ms) => Elapse(ms);
        }
      }
      assert ops[..|ops|] == ops;
    }

    method Elapse(ms: nat)
      requires Valid()
      modifies this
      ensures Valid() && world == Step(old(world), Tick(ms))
    {
      now := now + ms;
      world := Step(world, Tick(ms));
    }
  }

  class DistributedLock {
    const walletId: string
    const key: string
    const value: string
    const ttlMs: int
    const server: Server
    var heartbeat: bool
    var isReleased: bool

    constructor (walletId: string, key: string, value: string, ttlMs: int, server: Server)
      ensures this.walletId == walletId && this.key == key && this.value == value && this.ttlMs == ttlMs && this.server == server
      ensures heartbeat && !isReleased
    {
      this.walletId, this.key, this.value, this.ttlMs, this.server := walletId, key, value, ttlMs, server;
      heartbeat := true;
      isReleased := false;
    }

    predicate Active()
      reads this
    {
      !isReleased
    }

    /** A released lock never renews; any other renews exactly when its value holds the key. */
    method RenewLease(fate: Fate) returns (renewed: bool)
      requires server.Valid()
      modifies server
      ensures server.Valid()
      ensures server.world == if isReleased || fate.Fails? then old(server.world) else Step(old(server.world), Renew(key, value, ttlMs))
      ensures renewed == (!isReleased && fate.Works? && Holder(old(server.world), key) == Some(value))
    {
      hide Step;
      if isReleased { return false; }
      if fate.Fails? { return false; }
      var result := server.EvalRenew(key, value, ttlMs);
      return fate.Works? && result == 1;
    }

    /** One tick of the heartbeat timer: it goes on exactly as long as the lease is renewed. */
    method Beat(fate: Fate)
      requires server.Valid() && heartbeat
      modifies this`heartbeat, server
      ensures server.Valid()
      ensures server.world == if isReleased || fate.Fails? then old(server.world) else Step(old(server.world), Renew(key, value, ttlMs))
      ensures heartbeat == (!isReleased && fate.Works? && Holder(old(server.world), key) == Some(value))
    {
      hide Step;
      if isReleased {
        heartbeat := false;
        return;
      }
      var renewed := RenewLease(fate);
      if !renewed {
        heartbeat := false;
      }
    }

    method ReleaseLease(fate: Fate) returns (released: bool)
      requires server.Valid()
      modifies this`heartbeat, this`isReleased, server
      ensures server.Valid() && isReleased && (old(isReleased) || !heartbeat)
      ensures server.world == if old(isReleased) || fate.Fails? then old(server.world) else Step(old(server.world), Release(key, value))
      ensures released == (old(isReleased) || (fate.Works? && Holder(old(server.world), key) == Some(value)))
    {
      hide Step;
      if isReleased { return true; }
      isReleased := true;
      heartbeat := false;
      if fate.Fails? { return false; }
      var result := server.EvalRelease(key, value);
      return fate.Works? && result == 1;
    }
  }

  function LockKey(walletId: string): string {
    "lock:wallet:" + walletId
  }

  /**
    The retry loop from one attempt on: the world it leaves and whether it got the lock.
    others tells what other workers do, and how time passes, during each delay.
   */
  function Attempts(w: World, put: Op, attempt: nat, retryCount: int, fates: nat -> Fate, others: nat -> seq<Op>): (World, bool)
    decreases retryCount + 1 - attempt
  {
    if attempt > retryCount then (w, false)
    else
      var after := if fates(attempt).Fails? then w else Step(w, put);
      if fates(attempt).Works? && Succeeds(w, put) then (after, true)
      else Attempts(if attempt < retryCount then Run(after, others(attempt)) else after, put, attempt + 1, retryCount, fates, others)
  }

  class DistributedLockManager {
    const server: Server
    var activeLocks: map<string, DistributedLock>

    ghost predicate Valid()
      reads this, server
    {
      && server.Valid()
      && forall id :: id in activeLocks ==>
           activeLocks[id].server == server && activeLocks[id].walletId == id && activeLocks[id].key == LockKey(id)
    }

    constructor (server: Server)
      requires server.Valid()
      ensures Valid() && this.server == server && activeLocks == map[]
    {
      this.server := server;
      activeLocks := map[];
    }

    method AcquireWalletLock(walletId: string, value: string, ttl: Option<int>, retries: Option<int>, fates: nat -> Fate, others: nat -> seq<Op>)
      returns (lock: Option<DistributedLock>)
      requires Valid()
      modifies this`activeLocks, server
      ensures Valid()
      ensures var ttlMs := if ttl.Some? then ttl.value else 15_000;
              var retryCount := if retries.Some? then retries.value else 0;
              (server.world, lock.Some?) == Attempts(old(server.world), SetNx(LockKey(walletId), value, ttlMs), 0, retryCount, fates, others)
              && (lock.Some? ==> fresh(lock.value) && lock.value.value == value && lock.value.ttlMs == ttlMs && lock.value.Active() && lock.value.heartbeat)
      ensures activeLocks == if lock.Some? then old(activeLocks)[walletId := lock.value] else old(activeLocks)
    {
      hide Step, Run, Succeeds;
      var key := LockKey(walletId);
      var ttlMs := if ttl.Some? then ttl.value else DEFAULT_TTL_MS;
      var retryCount := if retries.Some? then retries.value else 0;
      ghost var put := SetNx(key, value, ttlMs);
      var attempt: nat := 0;
      while attempt <= retryCount
        invariant Valid() && activeLocks == old(activeLocks)
        invariant Attempts(server.world, put, attempt, retryCount, fates, others) == Attempts(old(server.world), put, 0, retryCount, fates, others)
        decreases retryCount - attempt
      {
        if !fates(attempt).Fails? {
          var ok := server.Set(key, value, ttlMs);
          if fates(attempt).Works? && ok {
            var acquired := new DistributedLock(walletId, key, value, ttlMs, server);
            activeLocks := activeLocks[walletId := acquired];
            return Some(acquired);
          }
        }
        if attempt < retryCount {
          server.Others(others(attempt));
        }
        attempt := attempt + 1;
      }
      return None;
    }

    method ReleaseWalletLock(walletId: string, fate: Fate) returns (released: bool)
      requires Valid()
      modifies this`activeLocks, activeLocks.Values, server
      ensures Valid() && activeLocks == old(activeLocks) - {walletId}
      ensures walletId !in old(activeLocks) ==> !released && server.world == old(server.world)
      ensures walletId in old(activeLocks) ==>
        var lock := old(activeLocks)[walletId];
        && lock.isReleased
        && server.world == (if old(lock.isReleased) || fate.Fails? then old(server.world) else Step(old(server.world), Release(lock.key, lock.value)))
        && released == (old(lock.isReleased) || (fate.Works? && Holder(old(server.world), lock.key) == Some(lock.value)))
    {
      hide Step;
      if walletId !in activeLocks { return false; }
      var lock := activeLocks[walletId];
      activeLocks := activeLocks - {walletId};
      released := lock.ReleaseLease(fate);
    }

    /**
      Shutdown: every lock is released, no key stays held under the value of a lock whose
      release reached Redis, and keys of other wallets, or held under other values, keep
      their holders.
     */
    method ReleaseAll(fates: string -> Fate)
      requires Valid()
      modifies this`activeLocks, activeLocks.Values, server
      ensures Valid() && activeLocks == map[]
      ensures forall id :: id in old(activeLocks) ==> Done(old(activeLocks)[id], fates(id), old(activeLocks[id].isReleased))
      ensures AllKeptOrFreed(old(server.world), server.world, old(activeLocks))
    {
      hide Step, Holder, AllKeptOrFreed, LockKey, Server.Valid;
      var locks := activeLocks;
      KeptAll(server.world, locks);
      activeLocks := map[];
      var todo := locks.Keys;
      while todo != {}
        invariant todo <= locks.Keys && server.Valid() && activeLocks == map[]
        invariant forall id :: id in todo ==> locks[id].isReleased == old(locks[id].isReleased)
        invariant forall id :: id in locks && id !in todo ==> Done(locks[id], fates(id), old(locks[id].isReleased))
        invariant AllKeptOrFreed(old(server.world), server.world, locks)
        decreases todo
      {
        var id :| id in todo;
        todo := todo - {id};
        ghost var before := server.world;
        var _ := locks[id].ReleaseLease(fates(id));
        ReleaseHolders(before, locks[id].key, locks[id].value);
        KeptStep(old(server.world), before, server.world, locks, id);
      }
    }

    predicate IsWalletLockedByThisWorker(walletId: string)
      reads this, activeLocks.Values
    {
      walletId in activeLocks && activeLocks[walletId].Active()
    }
  }

  /** The key has the holder it had, or it was held under one of the locks and is free. */
  ghost predicate KeptOrFreed(before: World, after: World, key: string, locks: map<string, DistributedLock>) {
    || Holder(after, key) == Holder(before, key)
    || (Holder(after, key).None? && exists id :: id in locks && HeldBy(before, key, locks[id]))
  }

  ghost predicate AllKeptOrFreed(before: World, after: World, locks: map<string, DistributedLock>) {
    forall key :: KeptOrFreed(before, after, key, locks)
  }

  ghost predicate HeldBy(w: World, key: string, lock: DistributedLock) {
    lock.key == key && Holder(w, key) == Some(lock.value)
  }

  /** What ReleaseAll leaves of one lock. */
  ghost predicate Done(lock: DistributedLock, fate: Fate, before: bool)
    reads lock, lock.server
  {
    lock.isReleased && (fate.Fails? || before || Holder(lock.server.world, lock.key) != Some(lock.value))
  }

  lemma ReleaseHolders(w: World, key: string, value: string)
    ensures var v := Step(w, Release(key, value));
            && Holder(v, key) != Some(value)
            && forall k :: Holder(v, k) == if k == key && Holder(w, key) == Some(value) then None else Holder(w, k)
  {
    hide EndAt;
  }

  lemma KeptAll(w: World, locks: map<string, DistributedLock>)
    ensures AllKeptOrFreed(w, w, locks)
  {
  }

  lemma KeptStep(start: World, before: World, after: World, locks: map<string, DistributedLock>, id: string)
    requires id in locks && AllKeptOrFreed(start, before, locks)
    requires after == before || after == Step(before, Release(locks[id].key, locks[id].value))
    ensures AllKeptOrFreed(start, after, locks)
  {
    hide Step, Holder;
    ReleaseHolders(before, locks[id].key, locks[id].value);
    forall key
      ensures KeptOrFreed(start, after, key, locks)
    {
      assert KeptOrFreed(start, before, key, locks);
      if Holder(after, key) != Holder(before, key) && Holder(before, key) == Holder(start, key) {
        assert HeldBy(start, key, locks[id]);
      }
    }
  }

  // ---------------------------------------------------------------------------
  // What an answer of acquireWalletLock means
  // ---------------------------------------------------------------------------

  /** The world in which attempt k is made, when none before it got the lock. */
  function WorldAt(w: World, put: Op, k: nat, fates: nat -> Fate, others: nat -> seq<Op>): World {
    if k == 0 then w
    else
      var u := WorldAt(w, put, k - 1, fates, others);
      Run(if fates(k - 1).Fails? then u else Step(u, put), others(k - 1))
  }

  /** Attempt k finds the key free and hears of its success. */
  predicate Wins(w: World, put: Op, k: nat, fates: nat -> Fate, others: nat -> seq<Op>) {
    fates(k).Works? && Succeeds(WorldAt(w, put, k, fates, others), put)
  }

  lemma {:induction false} AttemptsFrom(w: World, put: Op, k: nat, retryCount: int, fates: nat -> Fate, others: nat -> seq<Op>)
    ensures Attempts(WorldAt(w, put, k, fates, others), put, k, retryCount, fates, others).1
        <==> exists j :: k <= j <= retryCount && Wins(w, put, j, fates, others)
    decreases retryCount + 1 - k
  {
    hide Step, Run, Succeeds;
    if k <= retryCount && !Wins(w, put, k, fates, others) {
      if k < retryCount {
        AttemptsFrom(w, put, k + 1, retryCount, fates, others);
      }
    }
  }

  /** The lock is acquired exactly when some attempt within the retries meets a free key and hears of it. */
  lemma AcquiredExactly(w: World, put: Op, retryCount: int, fates: nat -> Fate, others: nat -> seq<Op>)
    ensures Attempts(w, put, 0, retryCount, fates, others).1 <==> exists k :: 0 <= k <= retryCount && Wins(w, put, k, fates, others)
  {
    AttemptsFrom(w, put, 0, retryCount, fates, others);
  }

  ghost predicate NeverSets(others: nat -> seq<Op>, key: string, value: string) {
    forall k, i :: 0 <= i < |others(k)| ==> !(others(k)[i].SetNx? && others(k)[i].key == key && others(k)[i].value == value)
  }

  /**
    When the answer is a lock, its value holds the key with the whole lifetime ahead. When
    it is null, the value does not hold the key, provided no answer of Redis was lost.
   */
  lemma {:induction false} AnswerTrue(w: World, put: Op, k: nat, retryCount: int, fates: nat -> Fate, others: nat -> seq<Op>)
    requires put.SetNx? && Holder(w, put.key) != Some(put.value) && NeverSets(others, put.key, put.value)
    ensures var (v, acquired) := Attempts(w, put, k, retryCount, fates, others);
            if acquired then Holder(v, put.key) == Some(put.value) && v.entries[put.key].expires == v.now + put.ttl
            else (forall j :: k <= j <= retryCount ==> !fates(j).Lost?) ==> Holder(v, put.key) != Some(put.value)
    decreases retryCount + 1 - k
  {
    hide Run, EndAt;
    if k <= retryCount {
      var after := if fates(k).Fails? then w else Step(w, put);
      if !fates(k).Lost? && !(fates(k).Works? && Succeeds(w, put)) && k < retryCount {
        RunStale(after, others(k), put.key, put.value);
        AnswerTrue(Run(after, others(k)), put, k + 1, retryCount, fates, others);
      } else if fates(k).Lost? && k < retryCount {
        LaterAnswer(Run(after, others(k)), put, k + 1, retryCount, fates, others);
      }
    }
  }

  lemma {:induction false} LaterAnswer(w: World, put: Op, k: nat, retryCount: int, fates: nat -> Fate, others: nat -> seq<Op>)
    requires put.SetNx?
    ensures var (v, acquired) := Attempts(w, put, k, retryCount, fates, others);
            acquired ==> Holder(v, put.key) == Some(put.value) && v.entries[put.key].expires == v.now + put.ttl
    decreases retryCount + 1 - k
  {
    hide Run, EndAt;
    if k <= retryCount {
      var after := if fates(k).Fails? then w else Step(w, put);
      if !(fates(k).Works? && Succeeds(w, put)) {
        LaterAnswer(if k < retryCount then Run(after, others(k)) else after, put, k + 1, retryCount, fates, others);
      }
    }
  }

  lemma RunStale(w: World, ops: seq<Op>, key: string, value: string)
    requires Holder(w, key) != Some(value)
    requires forall i :: 0 <= i < |ops| ==> !(ops[i].SetNx? && ops[i].key == key && ops[i].value == value)
    ensures Holder(Run(w, ops), key) != Some(value)
  {
    hide Step, Run;
    StaleForever(w, ops, key, value, Release(key, value));
  }

  /** Attempt k succeeds at the server, and the worker does not hear of it. */
  predicate SucceedsUnheard(w: World, put: Op, k: nat, fates: nat -> Fate, others: nat -> seq<Op>) {
    fates(k).Lost? && Succeeds(WorldAt(w, put, k, fates, others), put)
  }

  /** The world right after attempt k. */
  function WorldAfter(w: World, put: Op, k: nat, fates: nat -> Fate, others: nat -> seq<Op>): World {
    var u := WorldAt(w, put, k, fates, others);
    if fates(k).Fails? then u else Step(u, put)
  }

  /** The lock value is random: nobody else acquires, renews or releases the key with it. */
  ghost predicate NeverUses(others: nat -> seq<Op>, key: string, value: string) {
    forall k, i :: 0 <= i < |others(k)| ==> !Uses(others(k)[i], key, value)
  }

  /** A hold of the value comes from an unheard success, and ends when that lease does. */
  ghost predicate FromUnheard(u: World, w: World, put: Op, n: nat, fates: nat -> Fate, others: nat -> seq<Op>)
    requires put.SetNx?
  {
    Holder(u, put.key) == Some(put.value) ==>
      exists j: nat :: j < n && SucceedsUnheard(w, put, j, fates, others)
        && u.entries[put.key].expires == WorldAt(w, put, j, fates, others).now + put.ttl
  }

  lemma {:induction false} HeldFromUnheard(w: World, put: Op, k: nat, fates: nat -> Fate, others: nat -> seq<Op>)
    requires put.SetNx? && Holder(w, put.key) != Some(put.value) && NeverUses(others, put.key, put.value)
    requires forall j: nat :: j <= k ==> !Wins(w, put, j, fates, others)
    ensures FromUnheard(WorldAt(w, put, k, fates, others), w, put, k, fates, others)
    ensures FromUnheard(WorldAfter(w, put, k, fates, others), w, put, k + 1, fates, others)
  {
    hide Run, EndAt;
    var u := WorldAt(w, put, k, fates, others);
    if k > 0 {
      HeldFromUnheard(w, put, k - 1, fates, others);
      if Holder(u, put.key) == Some(put.value) {
        OthersRun(WorldAfter(w, put, k - 1, fates, others), others(k - 1), put.key, put.value);
      }
    }
    assert !Wins(w, put, k, fates, others);
    if Succeeds(u, put) && fates(k).Lost? {
      assert SucceedsUnheard(w, put, k, fates, others);
    } else {
      assert WorldAfter(w, put, k, fates, others) == u;
    }
  }

  /** After an unheard success the value holds the key until that lease is over. */
  lemma {:induction false} UnheardHolds(w: World, put: Op, j: nat, k: nat, fates: nat -> Fate, others: nat -> seq<Op>)
    requires put.SetNx? && NeverUses(others, put.key, put.value) && j <= k && SucceedsUnheard(w, put, j, fates, others)
    ensures WorldAt(w, put, j, fates, others).now <= WorldAfter(w, put, k, fates, others).now
    ensures var end := WorldAt(w, put, j, fates, others).now + put.ttl;
            WorldAfter(w, put, k, fates, others).now < end ==> Held(WorldAfter(w, put, k, fates, others), put.key, put.value, end)
    decreases k
  {
    hide Run, EndAt, CutsShort;
    if j < k {
      UnheardHolds(w, put, j, k - 1, fates, others);
      var start := WorldAt(w, put, j, fates, others).now;
      var v, u := WorldAfter(w, put, k - 1, fates, others), WorldAt(w, put, k, fates, others);
      RunClock(v, others(k - 1));
      if u.now < start + put.ttl {
        var between := others(k - 1);
        forall i | 0 <= i < |between|
          ensures !CutsShort(between[i], put.key, put.value, put.ttl)
        {
          assert !Uses(others(k - 1)[i], put.key, put.value);
          NotCut(between[i], put.key, put.value, put.ttl);
        }
        HeldRun(v, between, put.key, put.value, put.ttl, start + put.ttl);
      }
    }
  }

  lemma {:induction false} FinalWorld(w: World, put: Op, k: nat, retryCount: int, fates: nat -> Fate, others: nat -> seq<Op>)
    requires k <= retryCount && !Attempts(WorldAt(w, put, k, fates, others), put, k, retryCount, fates, others).1
    ensures Attempts(WorldAt(w, put, k, fates, others), put, k, retryCount, fates, others).0 == WorldAfter(w, put, retryCount, fates, others)
    decreases retryCount - k
  {
    hide Step, Run, Succeeds;
    if k < retryCount {
      FinalWorld(w, put, k + 1, retryCount, fates, others);
    }
  }

  /** Some attempt succeeded unheard, and the lease it got is not over at this time. */
  ghost predicate UnheardLease(w: World, put: Op, retryCount: int, fates: nat -> Fate, others: nat -> seq<Op>, now: int)
    requires put.SetNx?
  {
    exists j :: 0 <= j <= retryCount && SucceedsUnheard(w, put, j, fates, others)
                && now < WorldAt(w, put, j, fates, others).now + put.ttl
  }

  /**
    When the answer is null, the value holds the key all the same exactly when some attempt
    succeeded unheard and its lease is not over yet.
   */
  lemma NullExactly(w: World, put: Op, retryCount: int, fates: nat -> Fate, others: nat -> seq<Op>)
    requires put.SetNx? && Holder(w, put.key) != Some(put.value) && NeverUses(others, put.key, put.value)
    requires !Attempts(w, put, 0, retryCount, fates, others).1
    ensures var v := Attempts(w, put, 0, retryCount, fates, others).0;
            Holder(v, put.key) == Some(put.value) <==> UnheardLease(w, put, retryCount, fates, others, v.now)
  {
    hide Step, Run, Succeeds, WorldAfter, SucceedsUnheard, Wins;
    if retryCount >= 0 {
      AcquiredExactly(w, put, retryCount, fates, others);
      FinalWorld(w, put, 0, retryCount, fates, others);
      HeldFromUnheard(w, put, retryCount, fates, others);
      forall j | 0 <= j <= retryCount && SucceedsUnheard(w, put, j, fates, others)
        ensures var v := WorldAfter(w, put, retryCount, fates, others);
                var end := WorldAt(w, put, j, fates, others).now + put.ttl;
                v.now < end ==> Held(v, put.key, put.value, end)
      {
        UnheardHolds(w, put, j, retryCount, fates, others);
      }
    }
  }

  /** It does happen, whenever the key is free: one attempt, its answer lost. */
  lemma LostAnswer(w: World, put: Op)
    requires put.SetNx? && Succeeds(w, put)
    ensures var (v, acquired) := Attempts(w, put, 0, 0, _ => Lost, _ => []);
            !acquired && Holder(v, put.key) == Some(put.value)
  {
    hide EndAt;
    assert Attempts(Step(w, put), put, 1, 0, _ => Lost, _ => []) == (Step(w, put), false);
  }

  // ---------------------------------------------------------------------------
  // What the local answer is worth
  // ---------------------------------------------------------------------------

  /** An acquisition ends with a SET that succeeded. */
  lemma {:induction false} AcquiredStep(w: World, put: Op, k: nat, retryCount: int, fates: nat -> Fate, others: nat -> seq<Op>)
    returns (before: World)
    requires Attempts(w, put, k, retryCount, fates, others).1
    ensures Succeeds(before, put) && Attempts(w, put, k, retryCount, fates, others).0 == Step(before, put)
    decreases retryCount + 1 - k
  {
    hide Step, Run, Succeeds;
    var after := if fates(k).Fails? then w else Step(w, put);
    if fates(k).Works? && Succeeds(w, put) {
      before := w;
    } else {
      before := AcquiredStep(if k < retryCount then Run(after, others(k)) else after, put, k + 1, retryCount, fates, others);
    }
  }

  /**
    For its lifetime after an acquisition or a renewal that succeeded, a worker's own yes is
    true, whatever others have done since, unless the lease was released or renewed for a
    shorter time under its own value.
   */
  lemma YesIsTrue(m: DistributedLockManager, walletId: string, before: World, op: Op, later: seq<Op>)
    requires m.Valid() && m.IsWalletLockedByThisWorker(walletId)
    requires var lock := m.activeLocks[walletId];
             && op in {SetNx(lock.key, lock.value, lock.ttlMs), Renew(lock.key, lock.value, lock.ttlMs)}
             && lock.ttlMs > 0 && Succeeds(before, op)
             && (forall i :: 0 <= i < |later| ==> !CutsShort(later[i], lock.key, lock.value, lock.ttlMs))
             && m.server.world == Run(Step(before, op), later)
             && m.server.world.now < before.now + lock.ttlMs
    ensures Holder(m.server.world, LockKey(walletId)) == Some(m.activeLocks[walletId].value)
  {
    hide Step, Run, Succeeds, CutsShort, Holder;
    LeaseHonoured(before, op, later);
  }

  /**
    Since the last acquisition or renewal that succeeded under its value, a worker's own yes
    is true exactly until the lifetime given then is over, whatever others do.
   */
  lemma YesTrueExactly(m: DistributedLockManager, walletId: string, before: World, op: Op, later: seq<Op>)
    requires m.Valid() && m.IsWalletLockedByThisWorker(walletId)
    requires var lock := m.activeLocks[walletId];
             && op in {SetNx(lock.key, lock.value, lock.ttlMs), Renew(lock.key, lock.value, lock.ttlMs)}
             && lock.ttlMs > 0 && Succeeds(before, op)
             && (forall i :: 0 <= i < |later| ==> !Uses(later[i], lock.key, lock.value))
             && m.server.world == Run(Step(before, op), later)
    ensures var lock := m.activeLocks[walletId];
            Holder(m.server.world, LockKey(walletId)) == Some(lock.value) <==> m.server.now < before.now + lock.ttlMs
  {
    hide Step, Run, Succeeds, Uses, Holder;
    LeaseExactly(before, op, later);
  }

  /**
    isWalletLockedByThisWorker looks at the worker's own flag only: once a lease has run out
    two workers can both answer yes, while the server holds the key for the second alone.
   */
  method BothSayYes(ttl: int) returns (first: bool, second: bool, ghost holder: Option<string>)
    requires ttl > 0
    ensures first && second && holder == Some("b")
  {
    hide EndAt;
    var server := new Server(0);
    var a := new DistributedLockManager(server);
    var b := new DistributedLockManager(server);
    var lockA := a.AcquireWalletLock("w", "a", Some(ttl), None, _ => Works, _ => []);
    server.Elapse(ttl);
    var lockB := b.AcquireWalletLock("w", "b", Some(ttl), None, _ => Works, _ => []);
    first := a.IsWalletLockedByThisWorker("w");
    second := b.IsWalletLockedByThisWorker("w");
    holder := Holder(server.world, LockKey("w"));
  }

  /** Different wallets have different keys, so an operation for one leaves the holder of the other alone. */
  lemma WalletsApart(a: string, b: string, w: World, op: Op)
    requires a != b && !op.Tick? && op.key == LockKey(a)
    ensures LockKey(a) != LockKey(b)
    ensures Holder(Step(w, op), LockKey(b)) == Holder(w, LockKey(b))
  {
    hide EndAt;
    var prefix := |LockKey("")|;
    assert LockKey(a)[prefix..] == a && LockKey(b)[prefix..] == b;
  }
}
