/**
  streamPaymentsWithFailover of apps/api/src/lib/horizon-pool.ts: several streams, live
  and stale, over one ordered operation log, feeding one consumer through a shared
  cursor and a bounded set of tokens already seen.
 */
module HorizonStream {
  import opened Wrappers
  import Pool = HorizonPool

  /** How many tokens the seen-set keeps. */
  const SEEN_LIMIT: nat := 10_000

  /**
    The operation log, by paging token, the cursor the session was given, and where in
    the log the server starts for that cursor.
   */
  datatype Env = Env(log: seq<string>, initialCursor: string, start: nat)

  ghost predicate ValidEnv(e: Env) {
    && e.start <= |e.log|
    && (forall i, j :: 0 <= i < j < |e.log| ==> e.log[i] != e.log[j])
    && (e.initialCursor in e.log ==> e.start > 0 && e.log[e.start - 1] == e.initialCursor)
  }

  /**
    The closure's variables, and around them what the world has seen: for every stream
    ever opened the next record it will bring, and the records handed to onMessage.
   */
  datatype Session = Session(
    closed: bool, cursor: string, seen: seq<string>, active: Option<nat>, reconnectPending: bool,
    positions: seq<nat>, delivered: seq<string>)

  datatype Event =
    | Message(id: nat)            // stream id brings its next record
    | StreamError(id: nat)        // stream id fails
    | Timer(connects: bool)       // the reconnect timer fires; the connection succeeds or not
    | Close

  function Position(log: seq<string>, token: string): nat {
    if log == [] then 0 else if log[0] == token then 0 else 1 + Position(log[1..], token)
  }

  /** A server resumes right after the record the cursor names. */
  function ResumeAt(e: Env, cursor: string): nat {
    if cursor == e.initialCursor then e.start else Position(e.log, cursor) + 1
  }

  function Connect(e: Env, s: Session, connects: bool): Session {
    if s.closed then s
    else if connects then s.(active := Some(|s.positions|), positions := s.positions + [ResumeAt(e, s.cursor)])
    else s.(reconnectPending := true)
  }

  function Begin(e: Env, connects: bool): Session {
    Connect(e, Session(false, e.initialCursor, [], None, false, [], []), connects)
  }

  /** Adding to the seen-set, dropping its oldest member when it grows too large. */
  function Remember(seen: seq<string>, token: string): seq<string> {
    var all := seen + [token];
    if |all| > SEEN_LIMIT then all[1..] else all
  }

  predicate Enabled(e: Env, s: Session, event: Event) {
    match event
    case Message(id) => id < |s.positions| && s.positions[id] < |e.log|
    case StreamError(id) => id < |s.positions|
    case Timer(_) => s.reconnectPending
    case Close => true
  }

  function Step(e: Env, s: Session, event: Event): Session
    requires Enabled(e, s, event)
  {
    match event
    case Message(id) =>
      var token := e.log[s.positions[id]];
      var moved := s.(positions := s.positions[id := s.positions[id] + 1]);
      if s.closed || token in s.seen then moved
      else moved.(seen := Remember(s.seen, token), cursor := token, delivered := s.delivered + [token])
    case StreamError(_) =>
      if s.closed then s else s.(active := None, reconnectPending := true)
    case Timer(connects) => Connect(e, s.(reconnectPending := false), connects)
    case Close => s.(closed := true, active := None, reconnectPending := false, seen := [])
  }

  // ---------------------------------------------------------------------------
  // The nodes behind the streams
  // ---------------------------------------------------------------------------

  /** A session with the statistics of the pool and the node of every stream it has opened. */
  datatype Fleet = Fleet(session: Session, stats: map<string, Pool.NodeStats>, nodes: seq<string>)

  /** The pool's endpoints in order of priority, and the failures in a row after which one is unhealthy. */
  datatype Terms = Terms(endpoints: seq<string>, maxFailures: nat)

  /** A new stream goes to the pool's choice, at the shared cursor; a failing connection counts against that node. */
  ghost function Connected(e: Env, p: Terms, f: Fleet, connects: bool, isRateLimit: bool): Fleet
    requires p.endpoints != []
  {
    var url := Pool.Chosen(p.endpoints, f.stats);
    if f.session.closed then f
    else if connects then Fleet(Connect(e, f.session, true), f.stats, f.nodes + [url])
    else Fleet(Connect(e, f.session, false), Pool.Marked(f.stats, url, isRateLimit, p.maxFailures), f.nodes)
  }

  ghost function Handled(e: Env, p: Terms, f: Fleet, event: Event, isRateLimit: bool): Fleet
    requires p.endpoints != [] && |f.nodes| == |f.session.positions| && Enabled(e, f.session, event)
  {
    match event
    case Timer(connects) => Connected(e, p, f.(session := f.session.(reconnectPending := false)), connects, isRateLimit)
    case StreamError(id) =>
      if f.session.closed then f
      else Fleet(Step(e, f.session, event), Pool.Marked(f.stats, f.nodes[id], isRateLimit, p.maxFailures), f.nodes)
    case _ => f.(session := Step(e, f.session, event))
  }

  // ---------------------------------------------------------------------------
  // The closures of the source
  // ---------------------------------------------------------------------------

  class StreamSession {
    const env: Env
    const pool: Pool.HorizonPool
    var isClosed: bool
    var currentCursor: string
    var seenTokens: seq<string>
    var activeStream: Option<nat>
    var reconnectScheduled: bool
    var streamNodes: seq<string>
    ghost var positions: seq<nat>
    ghost var delivered: seq<string>

    ghost function View(): Session
      reads this
    {
      Session(isClosed, currentCursor, seenTokens, activeStream, reconnectScheduled, positions, delivered)
    }

    ghost function Nodes(): Fleet
      reads this, pool
    {
      Fleet(View(), pool.nodeStats, streamNodes)
    }

    ghost function PoolTerms(): Terms
      reads pool
    {
      Terms(pool.endpoints, pool.maxConsecutiveFailures)
    }

    ghost predicate Valid()
      reads this, pool
    {
      pool.Valid() && |streamNodes| == |positions|
    }

    constructor (env: Env, pool: Pool.HorizonPool, connects: bool, isRateLimit: bool)
      requires pool.Valid()
      modifies pool
      ensures Valid() && fresh(this) && this.env == env && this.pool == pool
      ensures View() == Begin(env, connects)
      ensures var idle := Fleet(Session(false, env.initialCursor, [], None, false, [], []), old(pool.nodeStats), []);
              Nodes() == Connected(env, PoolTerms(), idle, connects, isRateLimit)
    {
      this.env := env;
      this.pool := pool;
      isClosed := false;
      currentCursor := env.initialCursor;
      activeStream := None;
      reconnectScheduled := false;
      seenTokens := [];
      streamNodes := [];
      positions := [];
      delivered := [];
      new;
      ConnectToNextNode(connects, isRateLimit);
    }

    method ConnectToNextNode(connects: bool, isRateLimit: bool)
      requires Valid()
      modifies this, pool
      ensures Valid() && View() == Connect(env, old(View()), connects)
      ensures Nodes() == Connected(env, PoolTerms(), old(Nodes()), connects, isRateLimit)
    {
      if isClosed {
        return;
      }
      var nodeUrl := pool.GetActiveNode();
      if connects {
        activeStream := Some(|streamNodes|);
        streamNodes := streamNodes + [nodeUrl];
        positions := positions + [ResumeAt(env, currentCursor)];
      } else {
        pool.MarkNodeFailure(nodeUrl, isRateLimit);
        if !reconnectScheduled && !isClosed {
          reconnectScheduled := true;
        }
      }
    }

    /**
      The record reaches the consumer's onMessage exactly when dispatched is true. One with
      neither paging token nor hash always does, and leaves no trace in the session.
     */
    method OnMessage(id: nat, token: Option<string>) returns (dispatched: bool)
      requires Valid() && (token.Some? ==> Enabled(env, View(), Message(id)) && token.value == env.log[positions[id]])
      modifies this
      ensures Valid()
      ensures Nodes() == old(Nodes()).(session := View())
      ensures token.None? ==> View() == old(View()) && dispatched == !isClosed
      ensures token.Some? ==> View() == Step(env, old(View()), Message(id)) && (dispatched <==> delivered == old(delivered) + [token.value])
    {
      if token.Some? {
        positions := positions[id := positions[id] + 1];
      }
      if isClosed {
        return false;
      }
      if token.Some? {
        if token.value in seenTokens {
          return false;
        }
        seenTokens := seenTokens + [token.value];
        currentCursor := token.value;
        if |seenTokens| > SEEN_LIMIT {
          seenTokens := seenTokens[1..];
        }
        delivered := delivered + [token.value];
      }
      return true;
    }

    method OnError(id: nat, isRateLimit: bool)
      requires Valid() && Enabled(env, View(), StreamError(id))
      modifies this, pool
      ensures Valid() && View() == Step(env, old(View()), StreamError(id))
      ensures Nodes() == Handled(env, PoolTerms(), old(Nodes()), StreamError(id), isRateLimit)
    {
      if isClosed {
        return;
      }
      pool.MarkNodeFailure(streamNodes[id], isRateLimit);
      if activeStream.Some? {
        activeStream := None;
      }
      if !reconnectScheduled {
        reconnectScheduled := true;
      }
    }

    method OnTimer(connects: bool, isRateLimit: bool)
      requires Valid() && Enabled(env, View(), Timer(connects))
      modifies this, pool
      ensures Valid() && View() == Step(env, old(View()), Timer(connects))
      ensures Nodes() == Handled(env, PoolTerms(), old(Nodes()), Timer(connects), isRateLimit)
    {
      reconnectScheduled := false;
      ConnectToNextNode(connects, isRateLimit);
    }

    method CloseSession()
      requires Valid()
      modifies this
      ensures Valid() && View() == Step(env, old(View()), Close)
      ensures Nodes() == old(Nodes()).(session := View())
    {
      isClosed := true;
      if reconnectScheduled {
        reconnectScheduled := false;
      }
      if activeStream.Some? {
        activeStream := None;
      }
      seenTokens := [];
    }
  }

  // ---------------------------------------------------------------------------
  // What every run delivers
  // ---------------------------------------------------------------------------

  function Frontier(e: Env, s: Session): nat {
    e.start + |s.delivered|
  }

  /** The last 10,000 tokens, or all of them. */
  function Recent(tokens: seq<string>): seq<string> {
    if |tokens| > 10_000 then tokens[|tokens| - 10_000..] else tokens
  }

  /** The records delivered are the log's, in order and without gaps, from the initial cursor on. */
  ghost predicate Contiguous(e: Env, s: Session) {
    Frontier(e, s) <= |e.log| && s.delivered == e.log[e.start..Frontier(e, s)]
  }

  ghost predicate Good(e: Env, s: Session) {
    && Contiguous(e, s)
    && (forall id :: 0 <= id < |s.positions| ==> e.start <= s.positions[id])
    && (!s.closed ==>
          && s.seen == Recent(s.delivered)
          && s.cursor == (if s.delivered == [] then e.initialCursor else e.log[Frontier(e, s) - 1])
          && forall id :: 0 <= id < |s.positions| ==> s.positions[id] <= Frontier(e, s))
  }

  /** No record older than the seen-set reaches an open session. */
  ghost predicate WithinLimit(e: Env, s: Session, event: Event) {
    event.Message? && event.id < |s.positions| && !s.closed ==> Frontier(e, s) - s.positions[event.id] <= 10_000
  }

  lemma {:induction false} PositionOf(log: seq<string>, i: nat)
    requires i < |log| && forall j, k :: 0 <= j < k < |log| ==> log[j] != log[k]
    ensures Position(log, log[i]) == i
  {
    if i > 0 {
      assert log[1..][i - 1] == log[i] && log[0] != log[i];
      PositionOf(log[1..], i - 1);
    }
  }

  lemma ConnectGood(e: Env, s: Session, connects: bool)
    requires ValidEnv(e) && Good(e, s)
    ensures Good(e, Connect(e, s, connects))
  {
    hide Recent;
    if s.delivered != [] {
      PositionOf(e.log, Frontier(e, s) - 1);
    }
  }

  lemma BeginGood(e: Env, connects: bool)
    requires ValidEnv(e)
    ensures Good(e, Begin(e, connects))
  {
    var s := Session(false, e.initialCursor, [], None, false, [], []);
    assert Recent(s.delivered) == [];
    ConnectGood(e, s, connects);
  }

  lemma InStretch(log: seq<string>, low: nat, high: nat, p: nat)
    requires low <= high <= |log| && p < |log| && forall i, j :: 0 <= i < j < |log| ==> log[i] != log[j]
    ensures log[p] in log[low..high] <==> low <= p < high
  {
    var stretch := log[low..high];
    if low <= p < high {
      assert stretch[p - low] == log[p];
    }
    if log[p] in stretch {
      var i :| 0 <= i < |stretch| && stretch[i] == log[p];
      assert log[low + i] == log[p];
    }
  }

  /** In a good session the seen-set contains an already delivered record exactly when it is recent enough. */
  lemma SeenExactly(e: Env, s: Session, p: nat)
    requires ValidEnv(e) && Good(e, s) && !s.closed && e.start <= p < |e.log| && p <= Frontier(e, s)
    ensures e.log[p] in s.seen <==> p < Frontier(e, s) && Frontier(e, s) - p <= 10_000
  {
    var n := |s.delivered|;
    var low := if n > 10_000 then Frontier(e, s) - 10_000 else e.start;
    assert s.seen == e.log[low..Frontier(e, s)];
    InStretch(e.log, low, Frontier(e, s), p);
  }

  lemma RecentStep(tokens: seq<string>, token: string)
    ensures Remember(Recent(tokens), token) == Recent(tokens + [token])
  {
  }

  /**
    What one record does to a good session. The next record of the log is delivered; an
    older one is dropped when it is at most 10,000 records behind; an even older one
    is delivered a second time and drags the cursor back.
   */
  lemma MessageExactly(e: Env, s: Session, id: nat)
    requires ValidEnv(e) && Good(e, s) && !s.closed && Enabled(e, s, Message(id))
    ensures var p, after := s.positions[id], Step(e, s, Message(id));
            && (p == Frontier(e, s) ==> Good(e, after) && after.delivered == s.delivered + [e.log[p]])
            && (p < Frontier(e, s) && Frontier(e, s) - p <= 10_000 ==> Good(e, after) && after.delivered == s.delivered)
            && (Frontier(e, s) - p > 10_000 ==>
                  && after.delivered == s.delivered + [e.log[p]] && e.log[p] in s.delivered
                  && after.cursor == e.log[p])
  {
    hide Recent, Remember;
    var p, after := s.positions[id], Step(e, s, Message(id));
    SeenExactly(e, s, p);
    if p == Frontier(e, s) {
      RecentStep(s.delivered, e.log[p]);
      assert after.delivered == e.log[e.start..p + 1];
    } else if Frontier(e, s) - p > 10_000 {
      assert s.delivered[p - e.start] == e.log[p];
    }
  }

  lemma StepGood(e: Env, s: Session, event: Event)
    requires ValidEnv(e) && Good(e, s) && Enabled(e, s, event) && WithinLimit(e, s, event)
    ensures Good(e, Step(e, s, event))
  {
    hide Recent, Remember;
    match event
    case Message(id) =>
      if !s.closed {
        MessageExactly(e, s, id);
      }
    case Timer(connects) =>
      ConnectGood(e, s.(reconnectPending := false), connects);
    case _ =>
  }

  // ---------------------------------------------------------------------------
  // Whole runs
  // ---------------------------------------------------------------------------

  ghost predicate ValidRun(e: Env, s: Session, events: seq<Event>)
    decreases |events|
  {
    events != [] ==> Enabled(e, s, events[0]) && ValidRun(e, Step(e, s, events[0]), events[1..])
  }

  ghost function Run(e: Env, s: Session, events: seq<Event>): Session
    requires ValidRun(e, s, events)
    decreases |events|
  {
    if events == [] then s else Run(e, Step(e, s, events[0]), events[1..])
  }

  ghost predicate RunWithinLimit(e: Env, s: Session, events: seq<Event>)
    requires ValidRun(e, s, events)
    decreases |events|
  {
    events != [] ==> WithinLimit(e, s, events[0]) && RunWithinLimit(e, Step(e, s, events[0]), events[1..])
  }

  lemma {:induction false} RunGood(e: Env, s: Session, events: seq<Event>)
    requires ValidEnv(e) && Good(e, s) && ValidRun(e, s, events) && RunWithinLimit(e, s, events)
    ensures Good(e, Run(e, s, events))
    decreases |events|
  {
    hide Good, WithinLimit, Step, Enabled;
    if events != [] {
      StepGood(e, s, events[0]);
      RunGood(e, Step(e, s, events[0]), events[1..]);
    }
  }

  /** Some token was handed over twice. */
  ghost predicate Repeats(tokens: seq<string>) {
    exists i, j :: 0 <= i < j < |tokens| && tokens[i] == tokens[j]
  }

  lemma {:induction false} RunKeeps(e: Env, s: Session, events: seq<Event>)
    requires ValidRun(e, s, events)
    ensures s.delivered <= Run(e, s, events).delivered
    decreases |events|
  {
    if events != [] {
      RunKeeps(e, Step(e, s, events[0]), events[1..]);
    }
  }

  lemma {:induction false} RunRepeats(e: Env, s: Session, events: seq<Event>)
    requires ValidEnv(e) && Good(e, s) && ValidRun(e, s, events) && !RunWithinLimit(e, s, events)
    ensures Repeats(Run(e, s, events).delivered)
    decreases |events|
  {
    hide Good, Step, Enabled, Remember, Recent;
    var next := Step(e, s, events[0]);
    if WithinLimit(e, s, events[0]) {
      StepGood(e, s, events[0]);
      RunRepeats(e, next, events[1..]);
    } else {
      LateMessage(e, s, events[0].id);
      RunKeeps(e, next, events[1..]);
      var last := Run(e, s, events).delivered;
      var i, j :| 0 <= i < j < |next.delivered| && next.delivered[i] == next.delivered[j];
      assert last[i] == last[j];
    }
  }

  lemma LateMessage(e: Env, s: Session, id: nat)
    requires ValidEnv(e) && Good(e, s) && !s.closed && Enabled(e, s, Message(id))
    requires Frontier(e, s) - s.positions[id] > 10_000
    ensures Repeats(Step(e, s, Message(id)).delivered)
  {
    hide Recent, Remember, Step;
    MessageExactly(e, s, id);
    var p := s.positions[id];
    var all := Step(e, s, Message(id)).delivered;
    var i :| 0 <= i < |s.delivered| && s.delivered[i] == e.log[p];
    assert all[i] == all[|s.delivered|];
  }

  /**
    Over every interleaving of streams, errors, reconnects and closing, what reached the
    consumer is the log from the initial cursor on, contiguous and without repetition,
    exactly when no record arrived more than 10,000 records behind the newest one.
   */
  lemma DeliveryExactly(e: Env, connects: bool, events: seq<Event>)
    requires ValidEnv(e) && ValidRun(e, Begin(e, connects), events)
    ensures Contiguous(e, Run(e, Begin(e, connects), events)) <==> RunWithinLimit(e, Begin(e, connects), events)
  {
    hide Run, Begin, ValidRun, RunWithinLimit;
    var s := Begin(e, connects);
    BeginGood(e, connects);
    if RunWithinLimit(e, s, events) {
      RunGood(e, s, events);
    } else {
      RunRepeats(e, s, events);
      var last := Run(e, s, events);
      var i, j :| 0 <= i < j < |last.delivered| && last.delivered[i] == last.delivered[j];
    }
  }

  /** In such a run the seen-set of an open session is always exactly the newest tokens delivered. */
  lemma SeenSetExactly(e: Env, connects: bool, events: seq<Event>)
    requires ValidEnv(e) && ValidRun(e, Begin(e, connects), events)
    requires RunWithinLimit(e, Begin(e, connects), events)
    ensures var last := Run(e, Begin(e, connects), events);
            !last.closed ==> last.seen == Recent(last.delivered)
  {
    hide Run, Begin, ValidRun, RunWithinLimit, Recent;
    BeginGood(e, connects);
    RunGood(e, Begin(e, connects), events);
  }

  // ---------------------------------------------------------------------------
  // The session never stalls, and a closed one stays silent
  // ---------------------------------------------------------------------------

  /** While open, the session either has a stream or a reconnect scheduled, never both. */
  ghost predicate Alive(s: Session) {
    if s.closed then s.active == None && !s.reconnectPending else s.active.Some? != s.reconnectPending
  }

  lemma {:induction false} NeverStalls(e: Env, connects: bool, events: seq<Event>)
    requires ValidRun(e, Begin(e, connects), events)
    ensures Alive(Run(e, Begin(e, connects), events))
  {
    RunAlive(e, Begin(e, connects), events);
  }

  lemma {:induction false} RunAlive(e: Env, s: Session, events: seq<Event>)
    requires Alive(s) && ValidRun(e, s, events)
    ensures Alive(Run(e, s, events))
    decreases |events|
  {
    if events != [] {
      RunAlive(e, Step(e, s, events[0]), events[1..]);
    }
  }

  lemma {:induction false} ClosedSilent(e: Env, s: Session, events: seq<Event>)
    requires s.closed && Alive(s) && ValidRun(e, s, events)
    ensures Run(e, s, events).delivered == s.delivered && Run(e, s, events).closed
    ensures |Run(e, s, events).positions| == |s.positions|
    decreases |events|
  {
    if events != [] {
      ClosedSilent(e, Step(e, s, events[0]), events[1..]);
    }
  }
}
