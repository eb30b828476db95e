/**
  Failover of apps/api/src/lib/horizon-pool.ts over whole runs: which node a stream is opened
  on, what makes a node unhealthy, and that a session leaves a failed node.
 */
module HorizonFailover {
  import opened Wrappers
  import opened HorizonPool
  import opened HorizonStream

  /** What happens to one session and the pool it shares: its own events, probes, and failures that others report. */
  datatype Happening =
    | Streamed(event: Event, isRateLimit: bool)
    | Probe(url: string, answered: bool, isRateLimit: bool)
    | Reported(url: string, isRateLimit: bool)

  /** An event that is not enabled changes nothing. */
  ghost function Next(e: Env, p: Terms, f: Fleet, h: Happening): Fleet
    requires p.endpoints != [] && |f.nodes| == |f.session.positions|
  {
    match h
    case Streamed(event, isRateLimit) => if Enabled(e, f.session, event) then Handled(e, p, f, event, isRateLimit) else f
    case Probe(url, answered, isRateLimit) => f.(stats := Probed(f.stats, url, answered, isRateLimit, p.maxFailures))
    case Reported(url, isRateLimit) => f.(stats := Marked(f.stats, url, isRateLimit, p.maxFailures))
  }

  lemma NextMatches(e: Env, p: Terms, f: Fleet, h: Happening)
    requires p.endpoints != [] && |f.nodes| == |f.session.positions|
    ensures var g := Next(e, p, f, h);
            |g.nodes| == |g.session.positions|
  {
  }

  ghost function Runs(e: Env, p: Terms, f: Fleet, hs: seq<Happening>): (g: Fleet)
    requires p.endpoints != [] && |f.nodes| == |f.session.positions|
    ensures |g.nodes| == |g.session.positions|
  {
    if hs == [] then f
    else
      var g := Runs(e, p, f, hs[..|hs| - 1]);
      NextMatches(e, p, g, hs[|hs| - 1]);
      Next(e, p, g, hs[|hs| - 1])
  }

  /** A pool no one has used, and a session that has not connected. */
  function Idle(e: Env, p: Terms): Fleet {
    Fleet(Session(false, e.initialCursor, [], None, true, [], []), map url | url in p.endpoints :: NodeStats(true, 0), [])
  }

  // ---------------------------------------------------------------------------
  // Where streams are opened
  // ---------------------------------------------------------------------------

  /**
    Streams are opened by a timer of an open session only, one at a time and each on the
    first healthy endpoint, or, when none is, on the first with fewest failures.
   */
  lemma OpenedOnChoice(e: Env, p: Terms, f: Fleet, h: Happening)
    requires p.endpoints != [] && |f.nodes| == |f.session.positions|
    ensures var g := Next(e, p, f, h);
            if h.Streamed? && h.event == Timer(true) && f.session.reconnectPending && !f.session.closed
            then exists k: nat :: IsChoice(p.endpoints, f.stats, k) && g.nodes == f.nodes + [p.endpoints[k]] && g.stats == f.stats
            else g.nodes == f.nodes
  {
    hide IsChoice, Marked, Probed;
  }

  // ---------------------------------------------------------------------------
  // When a node is healthy
  // ---------------------------------------------------------------------------

  /** The node that a happening counts against, if any. */
  ghost predicate Blames(p: Terms, f: Fleet, h: Happening, url: string)
    requires p.endpoints != [] && |f.nodes| == |f.session.positions|
  {
    match h
    case Probe(u, answered, _) => u == url && !answered
    case Reported(u, _) => u == url
    case Streamed(event, _) =>
      && !f.session.closed
      && ((event.StreamError? && event.id < |f.nodes| && f.nodes[event.id] == url)
          || (event == Timer(false) && f.session.reconnectPending
              && exists k: nat :: IsChoice(p.endpoints, f.stats, k) && p.endpoints[k] == url))
  }

  /** The failures of a node since it last answered a probe, a rate limit counting as all that are allowed. */
  ghost function Points(e: Env, p: Terms, f: Fleet, hs: seq<Happening>, url: string): nat
    requires p.endpoints != [] && |f.nodes| == |f.session.positions|
  {
    if hs == [] then 0
    else
      var front, h := hs[..|hs| - 1], hs[|hs| - 1];
      if h.Probe? && h.url == url && h.answered then 0
      else Points(e, p, f, front, url) + if !Blames(p, Runs(e, p, f, front), h, url) then 0 else if h.isRateLimit then p.maxFailures else 1
  }

  lemma HealthStep(e: Env, p: Terms, f: Fleet, h: Happening, url: string)
    requires p.endpoints != [] && |f.nodes| == |f.session.positions| && url in f.stats
    ensures var g := Next(e, p, f, h);
            url in g.stats
            && g.stats[url] == if h.Probe? && h.url == url && h.answered then NodeStats(true, 0)
                               else if !Blames(p, f, h, url) then f.stats[url]
                               else Failed(f.stats[url], h.isRateLimit, p.maxFailures)
  {
    hide IsChoice;
    if h == Streamed(Timer(false), h.isRateLimit) {
      BlamedIsChosen(p, f, url);
    }
  }

  lemma BlamedIsChosen(p: Terms, f: Fleet, url: string)
    requires p.endpoints != []
    ensures Chosen(p.endpoints, f.stats) == url <==> exists k: nat :: IsChoice(p.endpoints, f.stats, k) && p.endpoints[k] == url
  {
    if k: nat :| IsChoice(p.endpoints, f.stats, k) && p.endpoints[k] == url {
      ChosenIs(p.endpoints, f.stats, k);
    }
  }

  /**
    In every run an endpoint counts its failures since it last answered a probe, and is
    healthy if and only if they are fewer than allowed.
   */
  lemma {:induction false} HealthExactly(e: Env, p: Terms, hs: seq<Happening>, url: string)
    requires url in p.endpoints && p.maxFailures > 0
    ensures var f := Runs(e, p, Idle(e, p), hs);
            var points := Points(e, p, Idle(e, p), hs, url);
            url in f.stats && f.stats[url] == NodeStats(points < p.maxFailures, points)
  {
    hide Next, Blames;
    if hs != [] {
      var front := hs[..|hs| - 1];
      HealthExactly(e, p, front, url);
      HealthStep(e, p, Runs(e, p, Idle(e, p), front), hs[|hs| - 1], url);
    }
  }

  // ---------------------------------------------------------------------------
  // A session leaves a failed node
  // ---------------------------------------------------------------------------

  predicate NoAnswer(hs: seq<Happening>, url: string) {
    forall i :: 0 <= i < |hs| ==> !(hs[i].Probe? && hs[i].url == url && hs[i].answered)
  }

  /** Without an answer to a probe a node does not recover. */
  lemma {:induction false} StaysUnhealthy(e: Env, p: Terms, f: Fleet, hs: seq<Happening>, url: string)
    requires p.endpoints != [] && |f.nodes| == |f.session.positions| && url in f.stats && !f.stats[url].healthy && NoAnswer(hs, url)
    ensures var g := Runs(e, p, f, hs);
            url in g.stats && !g.stats[url].healthy
  {
    hide Next, Blames;
    if hs != [] {
      StaysUnhealthy(e, p, f, hs[..|hs| - 1], url);
      HealthStep(e, p, Runs(e, p, f, hs[..|hs| - 1]), hs[|hs| - 1], url);
    }
  }

  /** The stream's node is rate limited, or has failed as often in a row as allowed. */
  predicate UsedUp(p: Terms, f: Fleet, id: nat, isRateLimit: bool)
    requires id < |f.nodes|
  {
    f.nodes[id] in f.stats && (isRateLimit || f.stats[f.nodes[id]].consecutiveFailures + 1 >= p.maxFailures)
  }

  /**
    An error that uses up a node's failures: whatever happens then, as long as that node
    answers no probe, the next connection goes to a healthy node, which is a different one,
    if any endpoint is healthy at that moment.
   */
  lemma FailsOver(e: Env, p: Terms, f: Fleet, id: nat, isRateLimit: bool, later: seq<Happening>, limit: bool)
    requires p.endpoints != [] && |f.nodes| == |f.session.positions|
    requires id < |f.nodes| && !f.session.closed && UsedUp(p, f, id, isRateLimit) && NoAnswer(later, f.nodes[id])
    requires var v := Next(e, p, f, Streamed(StreamError(id), isRateLimit));
             |v.nodes| == |v.session.positions|
    requires var g := Runs(e, p, Next(e, p, f, Streamed(StreamError(id), isRateLimit)), later);
             && g.session.reconnectPending && !g.session.closed
             && exists i :: 0 <= i < |p.endpoints| && Healthy(g.stats, p.endpoints[i])
    ensures var g := Runs(e, p, Next(e, p, f, Streamed(StreamError(id), isRateLimit)), later);
            var x := Next(e, p, g, Streamed(Timer(true), limit));
            && |x.nodes| == |g.nodes| + 1
            && Healthy(g.stats, x.nodes[|g.nodes|]) && x.nodes[|g.nodes|] != f.nodes[id]
  {
    hide Next, Blames, Runs;
    var n, h := f.nodes[id], Streamed(StreamError(id), isRateLimit);
    var v := Next(e, p, f, h);
    BlamedByError(e, p, f, id, isRateLimit);
    HealthStep(e, p, f, h, n);
    StaysUnhealthy(e, p, v, later, n);
    var g := Runs(e, p, v, later);
    OpenedOnChoice(e, p, g, Streamed(Timer(true), limit));
  }

  lemma BlamedByError(e: Env, p: Terms, f: Fleet, id: nat, isRateLimit: bool)
    requires p.endpoints != [] && |f.nodes| == |f.session.positions| && id < |f.nodes| && !f.session.closed
    ensures Blames(p, f, Streamed(StreamError(id), isRateLimit), f.nodes[id])
  {
  }

  /** In particular right after the error, when another endpoint was healthy at the time of the error. */
  lemma FailsOverAtOnce(e: Env, p: Terms, f: Fleet, id: nat, isRateLimit: bool, limit: bool)
    requires p.endpoints != [] && |f.nodes| == |f.session.positions|
    requires id < |f.nodes| && !f.session.closed && UsedUp(p, f, id, isRateLimit)
    requires exists i :: 0 <= i < |p.endpoints| && p.endpoints[i] != f.nodes[id] && Healthy(f.stats, p.endpoints[i])
    ensures var g := Next(e, p, f, Streamed(StreamError(id), isRateLimit));
            |g.nodes| == |g.session.positions|
            && var x := Next(e, p, g, Streamed(Timer(true), limit));
               && x.nodes == f.nodes + [x.nodes[|x.nodes| - 1]]
               && Healthy(f.stats, x.nodes[|x.nodes| - 1]) && x.nodes[|x.nodes| - 1] != f.nodes[id]
  {
    var n, h := f.nodes[id], Streamed(StreamError(id), isRateLimit);
    NextMatches(e, p, f, h);
    var g := Next(e, p, f, h);
    assert g == Fleet(Step(e, f.session, StreamError(id)), Marked(f.stats, n, isRateLimit, p.maxFailures), f.nodes);
    var i :| 0 <= i < |p.endpoints| && p.endpoints[i] != n && Healthy(f.stats, p.endpoints[i]);
    assert Healthy(g.stats, p.endpoints[i]);
    hide Next;
    OpenedOnChoice(e, p, g, Streamed(Timer(true), limit));
  }
}
