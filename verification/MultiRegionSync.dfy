/**
  Job states merged between regions, apps/api/src/lib/multiRegionSync.ts: when replicas
  that reconcile the same states agree, and when they cannot.
 */
module MultiRegionSync {
  import opened Wrappers

  datatype Kind = Waiting | Active | Completed | Failed

  datatype JobState = JobState(jobId: string, originRegion: string, state: Kind, timestamp: int, dataHash: Option<string>, version: int)

  predicate IsTerminal(k: Kind) {
    k.Completed? || k.Failed?
  }

  predicate Beats(a: JobState, b: JobState) {
    a.version > b.version || a.timestamp > b.timestamp
  }

  /** What a replica keeps when a remote state comes in. */
  function Merge(local: JobState, remote: JobState): JobState {
    if IsTerminal(local.state) && !IsTerminal(remote.state) then local
    else if IsTerminal(remote.state) && !IsTerminal(local.state) then remote
    else if Beats(remote, local) then remote
    else local
  }

  /** The state of a replica that has reconciled the states of one job in this order. */
  function Reconciled(states: seq<JobState>): JobState
    requires states != []
  {
    if |states| == 1 then states[0]
    else Merge(Reconciled(states[..|states| - 1]), states[|states| - 1])
  }

  // ---------------------------------------------------------------------------
  // Convergence
  // ---------------------------------------------------------------------------

  /** b is at least as new as a by both measures, and newer by one. */
  predicate Older(a: JobState, b: JobState) {
    a.version <= b.version && a.timestamp <= b.timestamp && (a.version < b.version || a.timestamp < b.timestamp)
  }

  predicate Finished(a: JobState) {
    a.state.Completed? || a.state.Failed?
  }

  /** Two states that merge to the same one in either order. */
  predicate Compatible(a: JobState, b: JobState) {
    a == b || Finished(a) != Finished(b) || Older(a, b) || Older(b, a)
  }

  lemma MergeCommutes(a: JobState, b: JobState)
    ensures Merge(a, b) == Merge(b, a) <==> Compatible(a, b)
  {
    assert Beats(a, b) && !Beats(b, a) <==> Older(b, a);
  }

  /**
    States that are not compatible never meet: when two replicas hold one each and send it
    to the other, they have exchanged them afterwards, or each has kept its own.
   */
  lemma ReplicasSwap(a: JobState, b: JobState)
    requires !Compatible(a, b)
    ensures if Beats(a, b) then Merge(a, b) == b && Merge(b, a) == a else Merge(a, b) == a && Merge(b, a) == b
  {
    assert Beats(a, b) == Beats(b, a);
  }

  predicate AllCompatible(s: set<JobState>) {
    forall a, b :: a in s && b in s ==> Compatible(a, b)
  }

  /** The order that reconciling follows: terminal states above the others, then by age. */
  predicate Below(a: JobState, b: JobState) {
    a == b
    || (!Finished(a) && Finished(b))
    || (Finished(a) == Finished(b) && Older(a, b))
  }

  predicate IsTop(top: JobState, s: set<JobState>) {
    top in s && forall a :: a in s ==> Below(a, top)
  }

  lemma {:induction false} ReconciledTop(states: seq<JobState>)
    requires states != [] && AllCompatible(Elements(states))
    ensures IsTop(Reconciled(states), Elements(states))
  {
    hide Merge, Below, Compatible;
    if |states| == 1 {
      assert Below(states[0], states[0]) by { BelowSelf(states[0]); }
    } else {
      var front, last := states[..|states| - 1], states[|states| - 1];
      assert Elements(front) <= Elements(states);
      ReconciledTop(front);
      assert last in Elements(states);
      MergeTop(Elements(front), Reconciled(front), last);
      assert Elements(states) == Elements(front) + {last};
    }
  }

  lemma BelowSelf(a: JobState)
    ensures Below(a, a)
  {
  }

  lemma MergeTop(s: set<JobState>, top: JobState, next: JobState)
    requires IsTop(top, s) && Compatible(top, next)
    ensures IsTop(Merge(top, next), s + {next})
  {
    forall a | a in s + {next}
      ensures Below(a, Merge(top, next))
    {
      MergeAbove(top, next);
      if a in s {
        BelowTransitive(a, top, Merge(top, next));
      }
    }
  }

  lemma MergeAbove(a: JobState, b: JobState)
    requires Compatible(a, b)
    ensures Below(a, Merge(a, b)) && Below(b, Merge(a, b))
  {
  }

  lemma BelowTransitive(a: JobState, b: JobState, c: JobState)
    requires Below(a, b) && Below(b, c)
    ensures Below(a, c)
  {
  }

  lemma TopUnique(a: JobState, b: JobState, s: set<JobState>)
    requires IsTop(a, s) && IsTop(b, s)
    ensures a == b
  {
    assert Below(a, b) && Below(b, a);
  }

  // ---------------------------------------------------------------------------
  // Replicas that reconcile one and the same set
  // ---------------------------------------------------------------------------

  /** All replicas that reconcile exactly these states, in any order and with any repetition, end equal. */
  ghost predicate ConvergesOn(s: set<JobState>) {
    forall xs, ys :: Covers(xs, s) && Covers(ys, s) ==> Reconciled(xs) == Reconciled(ys)
  }

  predicate Covers(xs: seq<JobState>, s: set<JobState>) {
    xs != [] && Elements(xs) == s
  }

  lemma {:induction false} ReconciledIn(xs: seq<JobState>)
    requires xs != []
    ensures Reconciled(xs) in xs
  {
    if |xs| > 1 {
      ReconciledIn(xs[..|xs| - 1]);
    }
  }

  /** Next to the top every state gives way, and the top gives way to none. */
  lemma TopStays(a: JobState, top: JobState)
    requires Below(a, top)
    ensures Merge(a, top) == top && Merge(top, a) == top
  {
  }

  lemma {:induction false} ReachesTop(xs: seq<JobState>, s: set<JobState>, top: JobState)
    requires Elements(xs) <= s && top in xs && IsTop(top, s)
    ensures Reconciled(xs) == top
  {
    hide Merge, Below;
    if |xs| > 1 {
      var front, last := xs[..|xs| - 1], xs[|xs| - 1];
      assert Elements(front) <= Elements(xs);
      ReconciledIn(front);
      assert Reconciled(front) in Elements(xs) && last in Elements(xs);
      if last == top {
        TopStays(Reconciled(front), top);
      } else {
        ReachesTop(front, s, top);
        TopStays(last, top);
      }
    }
  }

  lemma {:induction false} Enumerate(s: set<JobState>) returns (xs: seq<JobState>)
    ensures Elements(xs) == s
    decreases |s|
  {
    if s == {} {
      xs := [];
    } else {
      var x :| x in s;
      var rest := Enumerate(s - {x});
      xs := rest + [x];
      assert Elements(xs) == Elements(rest) + {x};
    }
  }

  /** A state that nothing in the set replaces. */
  predicate Unmoved(r: JobState, s: set<JobState>) {
    forall x :: x in s ==> Merge(r, x) == r
  }

  lemma {:induction false} StaysUnmoved(r: JobState, xs: seq<JobState>, s: set<JobState>)
    requires Unmoved(r, s) && Elements(xs) <= s
    ensures Reconciled([r] + xs) == r
  {
    hide Merge;
    if xs == [] {
      assert [r] + xs == [r];
    } else {
      var front, last := xs[..|xs| - 1], xs[|xs| - 1];
      assert Elements(front) <= Elements(xs) && last in Elements(xs);
      StaysUnmoved(r, front, s);
      assert ([r] + xs)[..|xs|] == [r] + front;
    }
  }

  /** Two states that tie on everything that counts: what does not replace one does not replace the other. */
  lemma TiedUnmoved(r: JobState, a: JobState, s: set<JobState>)
    requires Unmoved(r, s) && Finished(a) == Finished(r) && a.version == r.version && a.timestamp == r.timestamp
    ensures Unmoved(a, s)
  {
  }

  /** What stands when every order has ended is above all others. */
  lemma UnmovedIsTop(s: set<JobState>, r: JobState, a: JobState)
    requires r in s && a in s && Unmoved(r, s) && !Below(a, r)
    ensures a != r && Unmoved(a, s)
  {
    assert Merge(r, a) == r;
    TiedUnmoved(r, a, s);
  }

  /**
    Replicas that reconcile one and the same set of states, in any order and with any
    repetition, always end equal if and only if one of the states is above all others:
    terminal if any is, and newer than every other of its class by one measure, and no
    older by the other.
   */
  lemma ConvergesOnExactly(s: set<JobState>)
    requires s != {}
    ensures ConvergesOn(s) <==> exists top :: IsTop(top, s)
  {
    hide Merge, Below, Unmoved;
    if top :| IsTop(top, s) {
      forall xs, ys | Covers(xs, s) && Covers(ys, s)
        ensures Reconciled(xs) == Reconciled(ys)
      {
        assert top in Elements(xs) && top in Elements(ys);
        ReachesTop(xs, s, top);
        ReachesTop(ys, s, top);
      }
    }
    if ConvergesOn(s) {
      var r := ConvergedTop(s);
    }
  }

  lemma ConvergedTop(s: set<JobState>) returns (r: JobState)
    requires s != {} && ConvergesOn(s)
    ensures IsTop(r, s)
  {
    hide Merge, Below;
    var xs := Enumerate(s);
    r := Reconciled(xs);
    ReconciledIn(xs);
    assert r in Elements(xs);
    forall x | x in s
      ensures Merge(r, x) == r
    {
      assert (xs + [x])[..|xs|] == xs;
      assert Elements(xs + [x]) == Elements(xs) + {x} == s;
      assert Covers(xs, s) && Covers(xs + [x], s);
    }
    forall a | a in s
      ensures Below(a, r)
    {
      assert Elements([a] + xs) == {a} + Elements(xs) == s;
      assert Covers(xs, s) && Covers([a] + xs, s);
      if !Below(a, r) {
        UnmovedIsTop(s, r, a);
        StaysUnmoved(a, xs, s);
      }
    }
  }

  // ---------------------------------------------------------------------------
  // Replicas that reconcile any part of a set
  // ---------------------------------------------------------------------------

  /** Whatever part of the set two replicas both reconcile, they end equal. */
  ghost predicate Converges(s: set<JobState>) {
    forall t :: t != {} && t <= s ==> ConvergesOn(t)
  }

  /** Every part of a set converges exactly when its states are compatible two by two. */
  lemma ConvergesExactly(s: set<JobState>)
    ensures Converges(s) <==> AllCompatible(s)
  {
    hide Merge, Compatible, IsTop;
    if AllCompatible(s) {
      forall t | t != {} && t <= s
        ensures ConvergesOn(t)
      {
        var xs := Enumerate(t);
        ReconciledTop(xs);
        ConvergesOnExactly(t);
      }
    } else {
      var a, b :| a in s && b in s && !Compatible(a, b);
      MergeCommutes(a, b);
      ReconciledTwo(a, b);
      ReconciledTwo(b, a);
      assert {a, b} == {b, a} && Covers([a, b], {a, b}) && Covers([b, a], {a, b});
      assert !ConvergesOn({a, b});
    }
  }

  lemma ReconciledTwo(a: JobState, b: JobState)
    ensures Reconciled([a, b]) == Merge(a, b) && Elements([a, b]) == {a, b}
  {
    assert [a, b][..1] == [a];
  }

  /** Reconciling never replaces a terminal state by another kind, compatible or not. */
  lemma {:induction false} TerminalStays(states: seq<JobState>, i: nat)
    requires i < |states| && (states[i].state.Completed? || states[i].state.Failed?)
    ensures Reconciled(states).state.Completed? || Reconciled(states).state.Failed?
  {
    if |states| > 1 && i < |states| - 1 {
      TerminalStays(states[..|states| - 1], i);
    }
  }

  // ---------------------------------------------------------------------------
  // One region records, the others reconcile
  // ---------------------------------------------------------------------------

  datatype Transition = Transition(state: Kind, dataHash: Option<string>, now: int)

  /** recordJobTransition over the state the region holds. */
  function Recorded(jobId: string, region: string, existing: Option<JobState>, t: Transition): JobState {
    JobState(jobId, region, t.state, t.now, t.dataHash, if existing.Some? then existing.value.version + 1 else 1)
  }

  /** The states a region records for a job, one after the other. */
  function Records(jobId: string, region: string, ts: seq<Transition>): (states: seq<JobState>)
    ensures |states| == |ts|
    ensures forall i :: 0 <= i < |ts| ==>
      states[i] == JobState(jobId, region, ts[i].state, ts[i].now, ts[i].dataHash, i + 1)
  {
    if ts == [] then []
    else
      var before := Records(jobId, region, ts[..|ts| - 1]);
      before + [Recorded(jobId, region, if before == [] then None else Some(before[|before| - 1]), ts[|ts| - 1])]
  }

  predicate ClockOk(ts: seq<Transition>) {
    forall i, j :: 0 <= i < j < |ts| ==> ts[i].now <= ts[j].now
  }

  lemma RecordsCompatible(jobId: string, region: string, ts: seq<Transition>)
    requires ClockOk(ts)
    ensures AllCompatible(Elements(Records(jobId, region, ts)))
  {
    hide Records;
    var states := Records(jobId, region, ts);
    forall a, b | a in Elements(states) && b in Elements(states)
      ensures Compatible(a, b)
    {
      var i :| 0 <= i < |states| && states[i] == a;
      var j :| 0 <= j < |states| && states[j] == b;
      assert i < j ==> ts[i].now <= ts[j].now;
      assert j < i ==> ts[j].now <= ts[i].now;
    }
  }

  /** The last transition is terminal, or none is. */
  predicate StaysFinished(ts: seq<Transition>)
    requires ts != []
  {
    var last := ts[|ts| - 1].state;
    last.Completed? || last.Failed? || forall i :: 0 <= i < |ts| ==> ts[i].state.Waiting? || ts[i].state.Active?
  }

  /**
    Replicas that reconcile everything one region has recorded, in any order, agree with
    each other. They agree with that region exactly when its last transition is terminal or
    none of them is: it does not refuse a transition out of a terminal state, they do.
   */
  lemma ReplicasFollow(jobId: string, region: string, ts: seq<Transition>, received: seq<JobState>)
    requires ts != [] && ClockOk(ts)
    requires received != [] && Elements(received) == Elements(Records(jobId, region, ts))
    ensures var states := Records(jobId, region, ts);
            Reconciled(received) == states[|states| - 1] <==> StaysFinished(ts)
  {
    hide Records, Reconciled, Compatible;
    var states := Records(jobId, region, ts);
    var last := states[|states| - 1];
    RecordsCompatible(jobId, region, ts);
    ReconciledTop(received);
    assert last in states;
    if StaysFinished(ts) {
      assert IsTop(last, Elements(states)) by { LastIsTop(jobId, region, ts); }
      TopUnique(last, Reconciled(received), Elements(states));
    } else {
      var i :| 0 <= i < |ts| && (ts[i].state.Completed? || ts[i].state.Failed?);
      assert states[i] in Elements(states);
      assert !Below(states[i], last);
    }
  }

  lemma LastIsTop(jobId: string, region: string, ts: seq<Transition>)
    requires ts != [] && ClockOk(ts)
    requires StaysFinished(ts)
    ensures var states := Records(jobId, region, ts); IsTop(states[|states| - 1], Elements(states))
  {
    hide Records;
    var states := Records(jobId, region, ts);
    var last := states[|states| - 1];
    assert last in states;
    forall a | a in Elements(states)
      ensures Below(a, last)
    {
      var i :| 0 <= i < |states| && states[i] == a;
    }
  }

  // ---------------------------------------------------------------------------
  // The synchronizer
  // ---------------------------------------------------------------------------

  datatype Resolution = Resolution(winnerState: JobState, isDuplicateDispatch: bool, resolvedAt: int)

  class MultiRegionStateSynchronizer {
    const localRegion: string
    var peerRegions: map<string, string>
    var localStateCache: map<string, JobState>
    var nonceReplicationLog: map<string, int>

    constructor (localRegion: string)
      ensures this.localRegion == localRegion && peerRegions == map[] && localStateCache == map[] && nonceReplicationLog == map[]
    {
      this.localRegion := localRegion;
      peerRegions, localStateCache, nonceReplicationLog := map[], map[], map[];
    }

    method RegisterPeerRegion(regionId: string, endpoint: string)
      modifies this`peerRegions
      ensures peerRegions == old(peerRegions)[regionId := endpoint]
    {
      peerRegions := peerRegions[regionId := endpoint];
    }

    method RecordJobTransition(jobId: string, t: Transition) returns (updated: JobState)
      modifies this`localStateCache
      ensures updated == Recorded(jobId, localRegion, if jobId in old(localStateCache) then Some(old(localStateCache)[jobId]) else None, t)
      ensures localStateCache == old(localStateCache)[jobId := updated]
    {
      var version := if jobId in localStateCache then localStateCache[jobId].version + 1 else 1;
      updated := JobState(jobId, localRegion, t.state, t.now, t.dataHash, version);
      localStateCache := localStateCache[jobId := updated];
    }

    /**
      The cache holds the merged state; the answer says whether a dispatch for the job may
      have been made twice: on first sight of a started job, when exactly one side is
      terminal, or when both are active.
     */
    method ReconcileRemoteJobState(remote: JobState, now: int) returns (r: Resolution)
      modifies this`localStateCache
      ensures r.winnerState == (if remote.jobId in old(localStateCache) then Merge(old(localStateCache)[remote.jobId], remote) else remote)
      ensures localStateCache == old(localStateCache)[remote.jobId := r.winnerState]
      ensures r.resolvedAt == now
      ensures remote.jobId !in old(localStateCache) ==> r.isDuplicateDispatch == (remote.state.Completed? || remote.state.Active?)
      ensures remote.jobId in old(localStateCache) ==>
        var local := old(localStateCache)[remote.jobId];
        r.isDuplicateDispatch == (Finished(local) != Finished(remote) || (local.state.Active? && remote.state.Active?))
    {
      if remote.jobId !in localStateCache {
        localStateCache := localStateCache[remote.jobId := remote];
        return Resolution(remote, remote.state.Completed? || remote.state.Active?, now);
      }
      var local := localStateCache[remote.jobId];
      if IsTerminal(local.state) && !IsTerminal(remote.state) {
        return Resolution(local, true, now);
      }
      if IsTerminal(remote.state) && !IsTerminal(local.state) {
        localStateCache := localStateCache[remote.jobId := remote];
        return Resolution(remote, true, now);
      }
      if remote.version > local.version || remote.timestamp > local.timestamp {
        localStateCache := localStateCache[remote.jobId := remote];
        return Resolution(remote, remote.state.Active? && local.state.Active?, now);
      }
      return Resolution(local, local.state.Active? && remote.state.Active?, now);
    }

    method ReplicateNonce(nonce: string, now: int, ttlMs: int := 300_000) returns (accepted: bool)
      modifies this`nonceReplicationLog
      ensures accepted == !NonceBlocked(old(nonceReplicationLog), nonce, now)
      ensures nonceReplicationLog == if accepted then old(nonceReplicationLog)[nonce := now + ttlMs] else old(nonceReplicationLog)
    {
      if nonce in nonceReplicationLog && nonceReplicationLog[nonce] != 0 && nonceReplicationLog[nonce] > now {
        return false;
      }
      nonceReplicationLog := nonceReplicationLog[nonce := now + ttlMs];
      return true;
    }
  }

  // ---------------------------------------------------------------------------
  // Nonces of one region
  // ---------------------------------------------------------------------------

  predicate NonceBlocked(log: map<string, int>, nonce: string, now: int) {
    nonce in log && log[nonce] != 0 && log[nonce] > now
  }

  datatype Use = Use(nonce: string, now: int, ttl: int)

  function UseLog(uses: seq<Use>): map<string, int> {
    if uses == [] then map[]
    else
      var log, u := UseLog(uses[..|uses| - 1]), uses[|uses| - 1];
      if NonceBlocked(log, u.nonce, u.now) then log else log[u.nonce := u.now + u.ttl]
  }

  predicate Accepted(uses: seq<Use>, i: nat)
    requires i < |uses|
  {
    !NonceBlocked(UseLog(uses[..i]), uses[i].nonce, uses[i].now)
  }

  predicate UsesClockOk(uses: seq<Use>) {
    forall i, j :: 0 <= i < j < |uses| ==> 0 < uses[i].now <= uses[j].now
  }

  /** An accepted use blocks its nonce until its lifetime is over. */
  lemma {:induction false} NonceHeld(uses: seq<Use>, i: nat, j: nat)
    requires i < j <= |uses| && UsesClockOk(uses) && Accepted(uses, i) && uses[i].ttl > 0 && uses[i].now > 0
    requires forall k :: i < k < j && uses[k].nonce == uses[i].nonce ==> uses[k].now < uses[i].now + uses[i].ttl
    ensures var log := UseLog(uses[..j]); uses[i].nonce in log && log[uses[i].nonce] == uses[i].now + uses[i].ttl
    decreases j
  {
    assert uses[..j][..j - 1] == uses[..j - 1];
    if i < j - 1 {
      NonceHeld(uses, i, j - 1);
    }
  }

  /** At one region two accepted uses of a nonce are at least the first one's lifetime apart. */
  lemma NonceOnce(uses: seq<Use>, i: nat, j: nat)
    requires i < j < |uses| && UsesClockOk(uses) && uses[i].ttl > 0
    requires uses[i].nonce == uses[j].nonce && Accepted(uses, i) && Accepted(uses, j)
    ensures uses[i].now + uses[i].ttl <= uses[j].now
  {
    if uses[j].now < uses[i].now + uses[i].ttl {
      forall k | i < k < j && uses[k].nonce == uses[i].nonce
        ensures uses[k].now < uses[i].now + uses[i].ttl
      {
        assert uses[k].now <= uses[j].now;
      }
      NonceHeld(uses, i, j);
      assert false;
    }
  }
}
