/**
  The lease locks of apps/api/src/lib/redlock.ts as a protocol over one Redis server:
  SET NX PX, compare-and-pexpire and compare-and-delete, each one atomic step, made by any
  number of workers in any order, with a clock that moves between them.
 */
module WalletLock {
  import opened Wrappers

  datatype Entry = Entry(value: string, expires: int)

  /** A stretch of time for which a lock value has held a key: from start up to end, end excluded. */
  datatype Lease = Lease(key: string, value: string, start: int, end: int)

  /** The server, and the history of the leases it has given out. */
  datatype World = World(now: int, entries: map<string, Entry>, leases: seq<Lease>)

  datatype Op =
    | SetNx(key: string, value: string, ttl: int)
    | Renew(key: string, value: string, ttl: int)
    | Release(key: string, value: string)
    | Tick(ms: nat)

  function Holder(w: World, key: string): Option<string> {
    if key in w.entries && w.now < w.entries[key].expires then Some(w.entries[key].value) else None
  }

  /** The leases when the one in force on the key is made to end at another time. */
  function EndAt(leases: seq<Lease>, key: string, now: int, end: int): (r: seq<Lease>)
    ensures |r| == |leases|
    ensures forall i :: 0 <= i < |r| ==>
      r[i] == if leases[i].key == key && now < leases[i].end then leases[i].(end := end) else leases[i]
  {
    seq(|leases|, i requires 0 <= i < |leases| =>
      if leases[i].key == key && now < leases[i].end then leases[i].(end := end) else leases[i])
  }

  function Granted(w: World, key: string, value: string, ttl: int): World {
    w.(entries := w.entries[key := Entry(value, w.now + ttl)], leases := w.leases + [Lease(key, value, w.now, w.now + ttl)])
  }

  function Extended(w: World, key: string, value: string, ttl: int): World {
    w.(entries := w.entries[key := Entry(value, w.now + ttl)], leases := EndAt(w.leases, key, w.now, w.now + ttl))
  }

  function Deleted(w: World, key: string): World {
    w.(entries := w.entries - {key}, leases := EndAt(w.leases, key, w.now, w.now))
  }

  /** What the server answers: OK for SET, 1 for the scripts. */
  predicate Succeeds(w: World, op: Op) {
    match op
    case SetNx(key, _, ttl) => ttl > 0 && Holder(w, key).None?
    case Renew(key, value, _) => Holder(w, key) == Some(value)
    case Release(key, value) => Holder(w, key) == Some(value)
    case Tick(_) => true
  }

  /** A lifetime that is not positive is an error for SET; PEXPIRE deletes the key. */
  function Step(w: World, op: Op): World {
    if !Succeeds(w, op) then w
    else
      match op
      case SetNx(key, value, ttl) => Granted(w, key, value, ttl)
      case Renew(key, value, ttl) => if ttl > 0 then Extended(w, key, value, ttl) else Deleted(w, key)
      case Release(key, _) => Deleted(w, key)
      case Tick(ms) => w.(now := w.now + ms)
  }

  function Run(w: World, ops: seq<Op>): World {
    if ops == [] then w else Step(Run(w, ops[..|ops| - 1]), ops[|ops| - 1])
  }

  lemma RunSnoc(w: World, ops: seq<Op>, op: Op)
    ensures Run(w, ops + [op]) == Step(Run(w, ops), op)
  {
    assert (ops + [op])[..|ops|] == ops;
  }

  lemma {:induction false} RunConcat(w: World, a: seq<Op>, b: seq<Op>)
    ensures Run(w, a + b) == Run(Run(w, a), b)
  {
    if b == [] {
      assert a + b == a;
    } else {
      var front := b[..|b| - 1];
      RunConcat(w, a, front);
      assert a + b == (a + front) + [b[|b| - 1]];
      RunSnoc(w, a + front, b[|b| - 1]);
    }
  }

  // ---------------------------------------------------------------------------
  // Leases of one key never overlap
  // ---------------------------------------------------------------------------

  ghost predicate Ordered(leases: seq<Lease>) {
    forall i, j :: 0 <= i < j < |leases| && leases[i].key == leases[j].key ==> leases[i].end <= leases[j].start
  }

  ghost predicate Begun(w: World) {
    forall i :: 0 <= i < |w.leases| ==> w.leases[i].start <= w.now
  }

  /** Lease i is the one that is in force on its key. */
  predicate InForce(w: World, i: int) {
    0 <= i < |w.leases| && w.now < w.leases[i].end
  }

  /** A lease in force is what the server holds for its key. */
  ghost predicate Backed(w: World) {
    forall i :: InForce(w, i) ==>
      var l := w.leases[i]; l.key in w.entries && w.entries[l.key] == Entry(l.value, l.end)
  }

  /** A key that is held is held under a lease in force. */
  ghost predicate Covered(w: World) {
    forall key :: Holder(w, key).Some? ==> exists i :: InForce(w, i) && w.leases[i].key == key
  }

  ghost predicate Inv(w: World) {
    Ordered(w.leases) && Begun(w) && Backed(w) && Covered(w)
  }

  lemma GrantKeeps(w: World, key: string, value: string, ttl: int)
    requires Inv(w) && ttl > 0 && Holder(w, key).None?
    ensures Inv(Granted(w, key, value, ttl))
  {
    var v := Granted(w, key, value, ttl);
    forall i | 0 <= i < |w.leases| && w.leases[i].key == key
      ensures w.leases[i].end <= w.now
    {
      assert !InForce(w, i);
    }
    assert Ordered(v.leases) && Begun(v);
    assert Backed(v) by {
      forall i | InForce(v, i)
        ensures var l := v.leases[i]; l.key in v.entries && v.entries[l.key] == Entry(l.value, l.end)
      {
        assert i < |w.leases| ==> InForce(w, i);
      }
    }
    assert InForce(v, |w.leases|);
    assert Covered(v) by {
      forall k | Holder(v, k).Some? && k != key
        ensures exists i :: InForce(v, i) && v.leases[i].key == k
      {
        assert Holder(w, k).Some?;
        var i :| InForce(w, i) && w.leases[i].key == k;
        assert InForce(v, i);
      }
    }
  }

  /** The lease in force on a key is the last one of that key. */
  lemma LastOfKey(w: World, i: nat, j: nat)
    requires Inv(w) && InForce(w, i) && j < |w.leases| && w.leases[j].key == w.leases[i].key
    ensures j <= i
  {
    assert w.leases[j].start <= w.now;
  }

  lemma EndAtOrdered(w: World, key: string, end: int)
    requires Inv(w)
    ensures Ordered(EndAt(w.leases, key, w.now, end))
  {
    var leases := EndAt(w.leases, key, w.now, end);
    forall i, j | 0 <= i < j < |leases| && leases[i].key == leases[j].key
      ensures leases[i].end <= leases[j].start
    {
      if InForce(w, i) {
        LastOfKey(w, i, j);
      }
    }
  }

  lemma ExtendKeeps(w: World, key: string, value: string, ttl: int)
    requires Inv(w) && ttl > 0 && Holder(w, key) == Some(value)
    ensures Inv(Extended(w, key, value, ttl))
  {
    var v := Extended(w, key, value, ttl);
    EndAtOrdered(w, key, w.now + ttl);
    assert Begun(v);
    assert forall i :: InForce(v, i) <==> InForce(w, i);
    assert Backed(v);
    forall k | Holder(v, k).Some?
      ensures exists i :: InForce(v, i) && v.leases[i].key == k
    {
      assert Holder(w, k).Some?;
      var i :| InForce(w, i) && w.leases[i].key == k;
      assert InForce(v, i);
    }
  }

  lemma DeleteKeeps(w: World, key: string)
    requires Inv(w)
    ensures Inv(Deleted(w, key))
  {
    var v := Deleted(w, key);
    EndAtOrdered(w, key, w.now);
    assert Begun(v);
    assert forall i :: InForce(v, i) ==> InForce(w, i) && v.leases[i].key != key;
    assert Backed(v);
    forall k | Holder(v, k).Some?
      ensures exists i :: InForce(v, i) && v.leases[i].key == k
    {
      assert Holder(w, k).Some?;
      var i :| InForce(w, i) && w.leases[i].key == k;
      assert InForce(v, i);
    }
  }

  lemma TickKeeps(w: World, ms: nat)
    requires Inv(w)
    ensures Inv(w.(now := w.now + ms))
  {
    var v := w.(now := w.now + ms);
    assert Begun(v);
    assert forall i :: InForce(v, i) ==> InForce(w, i);
    assert Backed(v);
    forall k | Holder(v, k).Some?
      ensures exists i :: InForce(v, i) && v.leases[i].key == k
    {
      assert Holder(w, k).Some?;
      var i :| InForce(w, i) && w.leases[i].key == k;
      assert v.entries[k] == Entry(v.leases[i].value, v.leases[i].end);
      assert InForce(v, i);
    }
  }

  lemma StepKeeps(w: World, op: Op)
    requires Inv(w)
    ensures Inv(Step(w, op))
  {
    hide Inv, Granted, Extended, Deleted;
    if Succeeds(w, op) {
      match op {
        case SetNx(key, value, ttl) => GrantKeeps(w, key, value, ttl);
        case Renew(key, value, ttl) => if ttl > 0 { ExtendKeeps(w, key, value, ttl); } else { DeleteKeeps(w, key); }
        case Release(key, _) => DeleteKeeps(w, key);
        case Tick(ms) => TickKeeps(w, ms);
      }
    }
  }

  lemma {:induction false} RunKeeps(w: World, ops: seq<Op>)
    requires Inv(w)
    ensures Inv(Run(w, ops))
  {
    hide Inv, Step;
    if ops != [] {
      RunKeeps(w, ops[..|ops| - 1]);
      StepKeeps(Run(w, ops[..|ops| - 1]), ops[|ops| - 1]);
    }
  }

  /**
    After any run the leases given out for one key lie one after the other in time, so those
    of two lock values are disjoint; and the key is held by a value exactly when a lease of
    that value is in force.
   */
  lemma LeasesDisjoint(start: int, ops: seq<Op>)
    ensures var w := Run(World(start, map[], []), ops);
            && (forall i, j :: 0 <= i < j < |w.leases| && w.leases[i].key == w.leases[j].key ==> w.leases[i].end <= w.leases[j].start)
            && (forall key, value :: Holder(w, key) == Some(value)
                  <==> exists i :: 0 <= i < |w.leases| && w.leases[i].key == key && w.leases[i].value == value
                                   && w.leases[i].start <= w.now < w.leases[i].end)
  {
    hide Run;
    var w := Run(World(start, map[], []), ops);
    RunKeeps(World(start, map[], []), ops);
    forall key, value | Holder(w, key) == Some(value)
      ensures exists i :: 0 <= i < |w.leases| && w.leases[i].key == key && w.leases[i].value == value
                          && w.leases[i].start <= w.now < w.leases[i].end
    {
      var i :| InForce(w, i) && w.leases[i].key == key;
      assert w.entries[key] == Entry(w.leases[i].value, w.leases[i].end);
    }
    forall i | 0 <= i < |w.leases| && w.leases[i].start <= w.now < w.leases[i].end
      ensures Holder(w, w.leases[i].key) == Some(w.leases[i].value)
    {
      assert InForce(w, i);
    }
  }

  // ---------------------------------------------------------------------------
  // What a worker may rely on
  // ---------------------------------------------------------------------------

  /** An operation under this lock value that could end its lease on the key before the time. */
  predicate CutsShort(op: Op, key: string, value: string, ttl: int) {
    op == Release(key, value) || (op.Renew? && op.key == key && op.value == value && op.ttl < ttl)
  }

  predicate Held(w: World, key: string, value: string, end: int) {
    key in w.entries && w.entries[key].value == value && end <= w.entries[key].expires
  }

  lemma HeldStep(w: World, op: Op, key: string, value: string, ttl: int, end: int)
    requires Held(w, key, value, end) && w.now < end <= w.now + ttl && !CutsShort(op, key, value, ttl)
    ensures Held(Step(w, op), key, value, end) && w.now <= Step(w, op).now
  {
    hide EndAt;
    assert Holder(w, key) == Some(value);
  }

  lemma {:induction false} RunClock(w: World, ops: seq<Op>)
    ensures w.now <= Run(w, ops).now
  {
    if ops != [] {
      RunClock(w, ops[..|ops| - 1]);
    }
  }

  lemma {:induction false} HeldRun(w: World, ops: seq<Op>, key: string, value: string, ttl: int, end: int)
    requires Held(w, key, value, end) && end <= w.now + ttl && Run(w, ops).now < end
    requires forall i :: 0 <= i < |ops| ==> !CutsShort(ops[i], key, value, ttl)
    ensures Held(Run(w, ops), key, value, end)
  {
    hide Held, CutsShort;
    if ops != [] {
      var front := ops[..|ops| - 1];
      assert forall i :: 0 <= i < |front| ==> front[i] == ops[i];
      RunClock(Run(w, front), [ops[|ops| - 1]]);
      assert Run(Run(w, front), [ops[|ops| - 1]]) == Run(w, ops) by { RunConcat(w, front, [ops[|ops| - 1]]); assert front + [ops[|ops| - 1]] == ops; }
      RunClock(w, front);
      HeldRun(w, front, key, value, ttl, end);
      HeldStep(Run(w, front), ops[|ops| - 1], key, value, ttl, end);
    }
  }

  /**
    For ttl milliseconds after an acquisition or renewal that succeeded, the key is held by
    the lock value, whatever other workers do, unless the value itself releases the lease or
    renews it for a shorter time.
   */
  lemma LeaseHonoured(w: World, op: Op, later: seq<Op>)
    requires (op.SetNx? || op.Renew?) && op.ttl > 0 && Succeeds(w, op)
    requires forall i :: 0 <= i < |later| ==> !CutsShort(later[i], op.key, op.value, op.ttl)
    requires Run(Step(w, op), later).now < w.now + op.ttl
    ensures Holder(Run(Step(w, op), later), op.key) == Some(op.value)
  {
    hide EndAt, Run, CutsShort;
    HeldRun(Step(w, op), later, op.key, op.value, op.ttl, w.now + op.ttl);
  }

  predicate Uses(op: Op, key: string, value: string) {
    !op.Tick? && op.key == key && op.value == value
  }

  /** Others can end a hold of the value, by waiting, but neither begin nor extend it. */
  lemma OthersStep(w: World, op: Op, key: string, value: string)
    requires !Uses(op, key, value) && Holder(Step(w, op), key) == Some(value)
    ensures Holder(w, key) == Some(value) && Step(w, op).entries[key] == w.entries[key]
  {
    hide EndAt;
  }

  lemma {:induction false} OthersRun(w: World, ops: seq<Op>, key: string, value: string)
    requires forall i :: 0 <= i < |ops| ==> !Uses(ops[i], key, value)
    requires Holder(Run(w, ops), key) == Some(value)
    ensures Holder(w, key) == Some(value) && Run(w, ops).entries[key] == w.entries[key]
  {
    hide Step, Uses;
    if ops != [] {
      var front := ops[..|ops| - 1];
      assert forall i :: 0 <= i < |front| ==> front[i] == ops[i];
      OthersStep(Run(w, front), ops[|ops| - 1], key, value);
      OthersRun(w, front, key, value);
    }
  }

  lemma NotCut(op: Op, key: string, value: string, ttl: int)
    requires !Uses(op, key, value)
    ensures !CutsShort(op, key, value, ttl)
  {
  }

  /**
    As long as its value is not used again, an acquisition or renewal that succeeded holds
    the key for its lifetime and not a moment longer, whatever other workers do.
   */
  lemma LeaseExactly(w: World, op: Op, later: seq<Op>)
    requires (op.SetNx? || op.Renew?) && op.ttl > 0 && Succeeds(w, op)
    requires forall i :: 0 <= i < |later| ==> !Uses(later[i], op.key, op.value)
    ensures Holder(Run(Step(w, op), later), op.key) == Some(op.value) <==> Run(Step(w, op), later).now < w.now + op.ttl
  {
    hide EndAt, Run, Uses, CutsShort;
    var v := Run(Step(w, op), later);
    if v.now < w.now + op.ttl {
      forall i | 0 <= i < |later|
        ensures !CutsShort(later[i], op.key, op.value, op.ttl)
      {
        NotCut(later[i], op.key, op.value, op.ttl);
      }
      LeaseHonoured(w, op, later);
    }
    if Holder(v, op.key) == Some(op.value) {
      OthersRun(Step(w, op), later, op.key, op.value);
    }
  }

  /** A different value gets the key only when that time is over. */
  lemma NextHolderWaits(w: World, op: Op, between: seq<Op>, next: Op)
    requires (op.SetNx? || op.Renew?) && op.ttl > 0 && Succeeds(w, op)
    requires forall i :: 0 <= i < |between| ==> !CutsShort(between[i], op.key, op.value, op.ttl)
    requires (next.SetNx? || next.Renew?) && next.key == op.key && next.value != op.value
    requires Succeeds(Run(Step(w, op), between), next)
    ensures w.now + op.ttl <= Run(Step(w, op), between).now
  {
    hide Run, Step, CutsShort;
    if Run(Step(w, op), between).now < w.now + op.ttl {
      LeaseHonoured(w, op, between);
      assert false;
    }
  }

  /**
    A value that has lost the key does not get it back by renewing: all its later renewals
    and releases fail and change nothing, for as long as it does not acquire again.
   */
  lemma {:induction false} StaleForever(w: World, ops: seq<Op>, key: string, value: string, op: Op)
    requires Holder(w, key) != Some(value)
    requires forall i :: 0 <= i < |ops| ==> !(ops[i].SetNx? && ops[i].key == key && ops[i].value == value)
    requires (op.Renew? || op.Release?) && op.key == key && op.value == value
    ensures var late := Run(w, ops); !Succeeds(late, op) && Step(late, op) == late
  {
    if ops != [] {
      var front := ops[..|ops| - 1];
      assert forall i :: 0 <= i < |front| ==> front[i] == ops[i];
      StaleForever(w, front, key, value, op);
      StaleStep(Run(w, front), ops[|ops| - 1], key, value);
    }
  }

  lemma StaleStep(w: World, op: Op, key: string, value: string)
    requires Holder(w, key) != Some(value) && !(op.SetNx? && op.key == key && op.value == value)
    ensures Holder(Step(w, op), key) != Some(value)
  {
    hide EndAt;
  }

  /** Keys do not interfere: an operation on one key leaves every other key as it was. */
  lemma OtherKeys(w: World, op: Op, key: string)
    requires !op.Tick? && op.key != key
    ensures Holder(Step(w, op), key) == Holder(w, key)
    ensures key in Step(w, op).entries <==> key in w.entries
    ensures key in w.entries ==> Step(w, op).entries[key] == w.entries[key]
  {
    hide EndAt;
  }

  /** Giving a lease back, or renewing it for no time, frees the key at once. */
  lemma LeaseEnded(w: World, op: Op)
    requires op.Release? || (op.Renew? && op.ttl <= 0)
    ensures Succeeds(w, op) <==> Holder(w, op.key) == Some(op.value)
    ensures Holder(Step(w, op), op.key) == if Holder(w, op.key) == Some(op.value) then None else Holder(w, op.key)
  {
    hide EndAt;
  }
}
