/**
  Node selection of apps/api/src/lib/horizon-pool.ts: priority order, failure counting
  and probing.
 */
module HorizonPool {

  datatype NodeStats = NodeStats(healthy: bool, consecutiveFailures: nat)

  /** A node is healthy exactly while it has failed fewer times in a row than allowed; kept from the start, unless that is none. */
  ghost predicate Consistent(stats: map<string, NodeStats>, maxFailures: nat) {
    forall url :: url in stats ==> (stats[url].healthy <==> stats[url].consecutiveFailures < maxFailures)
  }

  function Failures(stats: map<string, NodeStats>, url: string): nat {
    if url in stats then stats[url].consecutiveFailures else 0
  }

  function Failed(s: NodeStats, isRateLimit: bool, maxFailures: nat): NodeStats {
    var failures := s.consecutiveFailures + (if isRateLimit then maxFailures else 1);
    NodeStats(s.healthy && failures < maxFailures, failures)
  }

  predicate Healthy(stats: map<string, NodeStats>, url: string) {
    url in stats && stats[url].healthy
  }

  /** The first healthy endpoint, or the first of those that failed least. */
  ghost predicate IsChoice(endpoints: seq<string>, stats: map<string, NodeStats>, k: nat) {
    && k < |endpoints|
    && if exists i :: 0 <= i < |endpoints| && Healthy(stats, endpoints[i]) then
         && Healthy(stats, endpoints[k])
         && forall i :: 0 <= i < k ==> !Healthy(stats, endpoints[i])
       else
         && (forall i :: 0 <= i < |endpoints| ==> Failures(stats, endpoints[k]) <= Failures(stats, endpoints[i]))
         && forall i :: 0 <= i < k ==> Failures(stats, endpoints[k]) < Failures(stats, endpoints[i])
  }

  /** The statistics after one failure of a node; a node that is not in the pool is ignored. */
  function Marked(stats: map<string, NodeStats>, url: string, isRateLimit: bool, maxFailures: nat): map<string, NodeStats> {
    if url in stats then stats[url := Failed(stats[url], isRateLimit, maxFailures)] else stats
  }

  /** The statistics after one probe of a node. */
  function Probed(stats: map<string, NodeStats>, url: string, answered: bool, isRateLimit: bool, maxFailures: nat): map<string, NodeStats> {
    var was := if url in stats then stats[url] else NodeStats(true, 0);
    stats[url := if answered then NodeStats(true, 0) else Failed(was, isRateLimit, maxFailures)]
  }

  lemma {:induction false} FirstHealthy(endpoints: seq<string>, stats: map<string, NodeStats>, i: nat) returns (k: nat)
    requires i < |endpoints| && Healthy(stats, endpoints[i])
    ensures IsChoice(endpoints, stats, k)
  {
    if j :| 0 <= j < i && Healthy(stats, endpoints[j]) {
      k := FirstHealthy(endpoints, stats, j);
    } else {
      k := i;
    }
  }

  lemma {:induction false} FewestFailures(endpoints: seq<string>, stats: map<string, NodeStats>, n: nat) returns (k: nat)
    requires 0 < n <= |endpoints|
    ensures k < n && forall i :: 0 <= i < n ==> Failures(stats, endpoints[k]) <= Failures(stats, endpoints[i])
    ensures forall i :: 0 <= i < k ==> Failures(stats, endpoints[k]) < Failures(stats, endpoints[i])
  {
    k := 0;
    if n > 1 {
      k := FewestFailures(endpoints, stats, n - 1);
      if Failures(stats, endpoints[n - 1]) < Failures(stats, endpoints[k]) {
        k := n - 1;
      }
    }
  }

  lemma ChoiceExists(endpoints: seq<string>, stats: map<string, NodeStats>)
    requires endpoints != []
    ensures exists k: nat :: IsChoice(endpoints, stats, k)
  {
    if i :| 0 <= i < |endpoints| && Healthy(stats, endpoints[i]) {
      var k := FirstHealthy(endpoints, stats, i);
    } else {
      var k := FewestFailures(endpoints, stats, |endpoints|);
      assert IsChoice(endpoints, stats, k);
    }
  }

  /** There is one choice only. */
  lemma ChoiceUnique(endpoints: seq<string>, stats: map<string, NodeStats>, k: nat, l: nat)
    requires IsChoice(endpoints, stats, k) && IsChoice(endpoints, stats, l)
    ensures k == l
  {
  }

  /** The endpoint to connect to. */
  ghost function Chosen(endpoints: seq<string>, stats: map<string, NodeStats>): (url: string)
    requires endpoints != []
    ensures exists k: nat :: IsChoice(endpoints, stats, k) && url == endpoints[k]
  {
    ChoiceExists(endpoints, stats);
    var k: nat :| IsChoice(endpoints, stats, k);
    endpoints[k]
  }

  class HorizonPool {
    const endpoints: seq<string>
    const maxConsecutiveFailures: nat
    var nodeStats: map<string, NodeStats>

    ghost predicate Valid()
      reads this
    {
      && endpoints != []
      && (forall i :: 0 <= i < |endpoints| ==> endpoints[i] in nodeStats)
    }

    constructor (endpoints: seq<string>, maxConsecutiveFailures: nat)
      requires endpoints != []
      ensures Valid() && this.endpoints == endpoints && this.maxConsecutiveFailures == maxConsecutiveFailures
      ensures nodeStats == map url | url in endpoints :: NodeStats(true, 0)
      ensures maxConsecutiveFailures > 0 ==> Consistent(nodeStats, maxConsecutiveFailures)
    {
      this.endpoints := endpoints;
      this.maxConsecutiveFailures := maxConsecutiveFailures;
      nodeStats := map url | url in endpoints :: NodeStats(true, 0);
    }

    method MarkNodeFailure(url: string, isRateLimit: bool)
      requires Valid()
      modifies this`nodeStats
      ensures Valid()
      ensures nodeStats == Marked(old(nodeStats), url, isRateLimit, maxConsecutiveFailures)
      ensures Consistent(old(nodeStats), maxConsecutiveFailures) ==> Consistent(nodeStats, maxConsecutiveFailures)
    {
      if url !in nodeStats {
        return;
      }
      var stats := nodeStats[url];
      stats := stats.(consecutiveFailures := stats.consecutiveFailures + (if isRateLimit then maxConsecutiveFailures else 1));
      if stats.consecutiveFailures >= maxConsecutiveFailures {
        stats := stats.(healthy := false);
      }
      nodeStats := nodeStats[url := stats];
    }

    /** One probe; the outcome is what the node answered. */
    method ProbeNode(url: string, answered: bool, isRateLimit: bool)
      requires Valid()
      modifies this`nodeStats
      ensures Valid()
      ensures nodeStats == Probed(old(nodeStats), url, answered, isRateLimit, maxConsecutiveFailures)
      ensures maxConsecutiveFailures > 0 && Consistent(old(nodeStats), maxConsecutiveFailures)
              ==> Consistent(nodeStats, maxConsecutiveFailures)
    {
      var stats := if url in nodeStats then nodeStats[url] else NodeStats(true, 0);
      if answered {
        stats := NodeStats(true, 0);
      } else {
        stats := stats.(consecutiveFailures := stats.consecutiveFailures + (if isRateLimit then maxConsecutiveFailures else 1));
        if stats.consecutiveFailures >= maxConsecutiveFailures {
          stats := stats.(healthy := false);
        }
      }
      nodeStats := nodeStats[url := stats];
    }

    method GetActiveNode() returns (url: string)
      requires Valid()
      ensures exists k: nat :: IsChoice(endpoints, nodeStats, k) && url == endpoints[k]
      ensures url == Chosen(endpoints, nodeStats)
    {
      for i := 0 to |endpoints|
        invariant forall j :: 0 <= j < i ==> !Healthy(nodeStats, endpoints[j])
      {
        if endpoints[i] in nodeStats && nodeStats[endpoints[i]].healthy {
          ChosenIs(endpoints, nodeStats, i);
          return endpoints[i];
        }
      }
      url := endpoints[0];
      ghost var k := 0;
      var minFailures := -1;  // Infinity
      for i := 0 to |endpoints|
        invariant i == 0 <==> minFailures == -1
        invariant 0 <= k < |endpoints| && url == endpoints[k]
        invariant i > 0 ==> k < i && minFailures == Failures(nodeStats, url)
        invariant forall j :: 0 <= j < i ==> Failures(nodeStats, url) <= Failures(nodeStats, endpoints[j])
        invariant forall j :: 0 <= j < k ==> Failures(nodeStats, url) < Failures(nodeStats, endpoints[j])
      {
        var failures := if endpoints[i] in nodeStats then nodeStats[endpoints[i]].consecutiveFailures else 0;
        if minFailures == -1 || failures < minFailures {
          minFailures := failures;
          url, k := endpoints[i], i;
        }
      }
      ChosenIs(endpoints, nodeStats, k);
    }
  }

  lemma ChosenIs(endpoints: seq<string>, stats: map<string, NodeStats>, k: nat)
    requires IsChoice(endpoints, stats, k)
    ensures Chosen(endpoints, stats) == endpoints[k]
  {
    var l: nat :| IsChoice(endpoints, stats, l) && Chosen(endpoints, stats) == endpoints[l];
    ChoiceUnique(endpoints, stats, k, l);
  }

  /**
    Failing over: as soon as the chosen node has been rate limited, or has failed the
    allowed number of times in a row, the next choice is another node if any is healthy.
   */
  lemma FailoverRotates(endpoints: seq<string>, stats: map<string, NodeStats>, maxFailures: nat,
                        k: nat, isRateLimit: bool, next: nat)
    requires IsChoice(endpoints, stats, k) && endpoints[k] in stats
    requires isRateLimit || stats[endpoints[k]].consecutiveFailures + 1 >= maxFailures
    requires exists i :: 0 <= i < |endpoints| && endpoints[i] != endpoints[k] && Healthy(stats, endpoints[i])
    requires var after := stats[endpoints[k] := Failed(stats[endpoints[k]], isRateLimit, maxFailures)];
             IsChoice(endpoints, after, next)
    ensures endpoints[next] != endpoints[k]
    ensures k < next
  {
    var after := stats[endpoints[k] := Failed(stats[endpoints[k]], isRateLimit, maxFailures)];
    var i :| 0 <= i < |endpoints| && endpoints[i] != endpoints[k] && Healthy(stats, endpoints[i]);
    assert Healthy(after, endpoints[i]);
    assert !Healthy(after, endpoints[k]);
    assert Healthy(stats, endpoints[next]);
  }
}
