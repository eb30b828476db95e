/**
  Rotations of apps/api/src/lib/session-manager.ts that overlap: each call reads the flag and
  the rows one after the other and writes in one transaction at the end, and between any two
  of its steps other calls act. The transaction does not look again at what was read.
 */
module SessionOverlap {
  import opened Wrappers
  import opened SessionManager

  /** Where a call of rotateRefreshToken stands; it keeps the session row it has read. */
  datatype Pc =
    | CheckingFlag | CheckingRow | ReadingSession | ReadingRecord(session: Session)
    | Committing(session: Session) | Revoking | Flagging | Over(answer: Answer)

  datatype Call = Call(token: Token, newJti: string, pc: Pc)

  /** The tables and the calls made so far; rotated is history: the tokens rotated, one entry for each time. */
  datatype State = State(world: World, calls: seq<Call>, rotated: seq<Token>)

  datatype Event =
    | Begin(token: Token, newJti: string)
    | Advance(call: nat, redisWorks: bool)
    | Login(userId: string, familyId: string, jti: string)
    | Logout(familyId: string, redisWorks: bool)
    | Expire(familyId: string)

  const Nothing := State(Empty, [], [])

  /** The transaction of a rotation that has read this session row some time ago. */
  function Committed(w: World, t: Token, newJti: string, session: Session): World
    requires t.familyId in w.sessions && t.jti in w.history
  {
    var next := session.rotationCounter + 1;
    var consumed := w.history[t.jti := w.history[t.jti].(isConsumed := true)];
    w.(history := consumed[newJti := Record(t.familyId, t.userId, next, false)],
       sessions := w.sessions[t.familyId := w.sessions[t.familyId].(currentJti := newJti, rotationCounter := next)])
  }

  predicate Aborts(w: World, t: Token, newJti: string) {
    t.familyId !in w.sessions || t.jti !in w.history || newJti in w.history
  }

  /** What a call does next to the tables, and where it stands then. */
  function Move(w: World, c: Call, redisWorks: bool): (World, Pc) {
    var f := c.token.familyId;
    match c.pc
    case CheckingFlag =>
      (w, if f == "" then ReadingSession else if redisWorks && f in w.flags then Over(Err(SessionRevoked)) else CheckingRow)
    case CheckingRow => (w, if f in w.sessions && w.sessions[f].isRevoked then Over(Err(SessionRevoked)) else ReadingSession)
    case ReadingSession =>
      (w, if f !in w.sessions || w.sessions[f].isRevoked then Over(Err(SessionRevoked)) else ReadingRecord(w.sessions[f]))
    case ReadingRecord(session) =>
      var isAlreadyConsumed := c.token.jti in w.history && w.history[c.token.jti].isConsumed;
      (w, if isAlreadyConsumed || session.currentJti != c.token.jti then Revoking else Committing(session))
    case Committing(session) =>
      if Aborts(w, c.token, c.newJti) then (w, Over(Err(DatabaseError)))
      else (Committed(w, c.token, c.newJti, session), Over(Ok(Token(f, c.token.userId, c.newJti, session.rotationCounter + 1))))
    case Revoking => (Revoked(w, f, false), Flagging)
    case Flagging => (if redisWorks then w.(flags := w.flags + {f}) else w, Over(Err(TokenReuse)))
    case Over(_) => (w, c.pc)
  }

  predicate Commits(w: World, c: Call) {
    c.pc.Committing? && !Aborts(w, c.token, c.newJti)
  }

  function Advanced(s: State, i: nat, redisWorks: bool): State
    requires i < |s.calls|
  {
    var c := s.calls[i];
    var (w, pc) := Move(s.world, c, redisWorks);
    State(w, s.calls[i := c.(pc := pc)], if Commits(s.world, c) then s.rotated + [c.token] else s.rotated)
  }

  /** An event that is not enabled changes nothing. */
  function Step(s: State, e: Event): State {
    match e
    case Begin(t, newJti) => s.(calls := s.calls + [Call(t, newJti, CheckingFlag)])
    case Advance(i, redisWorks) => if i < |s.calls| then Advanced(s, i, redisWorks) else s
    case Login(userId, f, jti) => s.(world := DoCreate(s.world, userId, f, jti).0)
    case Logout(f, redisWorks) => s.(world := Revoked(s.world, f, redisWorks))
    case Expire(f) => s.(world := s.world.(flags := s.world.flags - {f}))
  }

  function Reach(s: State, events: seq<Event>): State {
    if events == [] then s else Step(Reach(s, events[..|events| - 1]), events[|events| - 1])
  }

  lemma {:induction false} ReachCons(s: State, e: Event, events: seq<Event>)
    ensures Reach(s, [e] + events) == Reach(Step(s, e), events)
  {
    hide Step;
    if events == [] {
      assert [e] + events == [e] && [e][..0] == [];
      assert Reach(s, []) == s;
    } else {
      var n := |events| - 1;
      ReachCons(s, e, events[..n]);
      assert ([e] + events)[..n + 1] == [e] + events[..n];
    }
  }

  // ---------------------------------------------------------------------------
  // A call on its own
  // ---------------------------------------------------------------------------

  /** One call goes on by itself. */
  function Solo(w: World, c: Call, redisWorks: bool, n: nat): (World, Pc)
    decreases n
  {
    if n == 0 then (w, c.pc)
    else
      var (v, pc) := Move(w, c, redisWorks);
      Solo(v, c.(pc := pc), redisWorks, n - 1)
  }

  lemma {:induction false} SoloOver(w: World, c: Call, redisWorks: bool, n: nat)
    requires c.pc.Over?
    ensures Solo(w, c, redisWorks, n) == (w, c.pc)
  {
    if n > 0 {
      SoloOver(w, c, redisWorks, n - 1);
    }
  }

  lemma SoloRevoking(w: World, c: Call, redisWorks: bool, n: nat)
    requires c.pc.Revoking? && n >= 2
    ensures Solo(w, c, redisWorks, n) == (Revoked(w, c.token.familyId, redisWorks), Over(Err(TokenReuse)))
  {
    var v, d := Revoked(w, c.token.familyId, false), c.(pc := Flagging);
    var u, e := Revoked(w, c.token.familyId, redisWorks), c.(pc := Over(Err(TokenReuse)));
    assert Move(w, c, redisWorks) == (v, d.pc) && Move(v, d, redisWorks) == (u, e.pc);
    hide Move, Revoked;
    assert Solo(w, c, redisWorks, n) == Solo(v, d, redisWorks, n - 1) == Solo(u, e, redisWorks, n - 2);
    SoloOver(u, e, redisWorks, n - 2);
  }

  lemma SoloReading(w: World, c: Call, redisRead: bool, redisWrite: bool, n: nat)
    requires c.pc.ReadingSession? && !IsFamilyRevoked(w, c.token.familyId, redisRead) && n >= 4
    ensures var (v, answer) := DoRotate(w, c.token, c.newJti, redisRead, redisWrite);
            Solo(w, c, redisWrite, n) == (v, Over(answer))
  {
    hide Solo, Revoked, Committed, Rotated, IsFamilyRevoked;
    var f := c.token.familyId;
    var (_, pc) := Move(w, c, redisWrite);
    var d := c.(pc := pc);
    SoloStep(w, c, redisWrite, n);
    if pc.Over? {
      SoloOver(w, d, redisWrite, n - 1);
    } else {
      assert pc == ReadingRecord(w.sessions[f]);
      SoloRecord(w, d, redisRead, redisWrite, n - 1);
    }
  }

  lemma SoloStep(w: World, c: Call, redisWorks: bool, n: nat)
    requires n > 0
    ensures var (v, pc) := Move(w, c, redisWorks);
            Solo(w, c, redisWorks, n) == Solo(v, c.(pc := pc), redisWorks, n - 1)
  {
  }

  lemma SoloRecord(w: World, c: Call, redisRead: bool, redisWrite: bool, n: nat)
    requires var f := c.token.familyId;
             && f in w.sessions && c.pc == ReadingRecord(w.sessions[f])
             && !w.sessions[f].isRevoked && !IsFamilyRevoked(w, f, redisRead) && n >= 3
    ensures var (v, answer) := DoRotate(w, c.token, c.newJti, redisRead, redisWrite);
            Solo(w, c, redisWrite, n) == (v, Over(answer))
  {
    hide Solo, Revoked, IsFamilyRevoked;
    var (_, pc) := Move(w, c, redisWrite);
    var d := c.(pc := pc);
    SoloStep(w, c, redisWrite, n);
    if pc.Revoking? {
      SoloRevoking(w, d, redisWrite, n - 1);
    } else {
      SoloStep(w, d, redisWrite, n - 1);
      var (v, over) := Move(w, d, redisWrite);
      SoloOver(v, d.(pc := over), redisWrite, n - 2);
    }
  }

  /** Undisturbed, a call does in its steps what a rotation does as one. */
  lemma Undisturbed(w: World, t: Token, newJti: string, redisRead: bool, redisWrite: bool)
    ensures var c := Call(t, newJti, CheckingFlag);
            var (v, pc) := Move(w, c, redisRead);
            var (x, answer) := DoRotate(w, t, newJti, redisRead, redisWrite);
            v == w && Solo(w, c.(pc := pc), redisWrite, 5) == (x, Over(answer))
  {
    hide Solo;
    var c := Call(t, newJti, CheckingFlag);
    var d := c.(pc := Move(w, c, redisRead).1);
    if IsFamilyRevoked(w, t.familyId, redisRead) {
      SoloStep(w, d, redisWrite, 5);
      SoloOver(w, d.(pc := Over(Err(SessionRevoked))), redisWrite, if d.pc.Over? then 5 else 4);
    } else if d.pc.ReadingSession? {
      SoloReading(w, d, redisRead, redisWrite, 5);
    } else {
      SoloStep(w, d, redisWrite, 5);
      SoloReading(w, d.(pc := ReadingSession), redisRead, redisWrite, 4);
    }
  }

  // ---------------------------------------------------------------------------
  // What every family looks like
  // ---------------------------------------------------------------------------

  /** The session row names an open token of the family, the one that carries its number. */
  predicate CurrentOpen(w: World, f: string)
    requires f in w.sessions
  {
    var j := w.sessions[f].currentJti;
    Belongs(w, j, f) && !w.history[j].isConsumed
  }

  /** A call past its checks presents a token of the family it names. */
  predicate CallOk(w: World, c: Call) {
    match c.pc
    case ReadingRecord(session) => c.token.familyId in w.sessions && Belongs(w, session.currentJti, c.token.familyId)
    case Committing(session) => c.token.familyId in w.sessions && Belongs(w, c.token.jti, c.token.familyId)
    case _ => true
  }

  ghost predicate TablesOk(w: World) {
    && (forall j :: j in w.history ==> w.history[j].familyId in w.sessions)
    && (forall f :: f in w.sessions ==> CurrentOpen(w, f))
  }

  ghost predicate Sound(s: State) {
    TablesOk(s.world) && forall i :: 0 <= i < |s.calls| ==> CallOk(s.world, s.calls[i])
  }

  /** Rows are added and marked, never removed or given to another family. */
  ghost predicate Extends(v: World, w: World) {
    && (forall j :: j in w.history ==> j in v.history && v.history[j].familyId == w.history[j].familyId)
    && (forall j :: j in w.history && w.history[j].isConsumed ==> v.history[j].isConsumed)
    && (forall f :: f in w.sessions ==> f in v.sessions && (w.sessions[f].isRevoked ==> v.sessions[f].isRevoked))
  }

  lemma CommittedExtends(w: World, t: Token, newJti: string, session: Session)
    requires !Aborts(w, t, newJti)
    ensures Extends(Committed(w, t, newJti, session), w)
  {
  }

  lemma StepExtends(s: State, e: Event)
    ensures Extends(Step(s, e).world, s.world)
  {
    hide Committed;
    match e {
      case Advance(i, redisWorks) =>
        if i < |s.calls| && Commits(s.world, s.calls[i]) {
          CommittedExtends(s.world, s.calls[i].token, s.calls[i].newJti, s.calls[i].pc.session);
        }
      case _ =>
    }
  }

  lemma CommitKeeps(w: World, t: Token, newJti: string, session: Session)
    requires TablesOk(w) && !Aborts(w, t, newJti) && Belongs(w, t.jti, t.familyId)
    ensures TablesOk(Committed(w, t, newJti, session))
  {
    var v := Committed(w, t, newJti, session);
    forall f | f in v.sessions
      ensures CurrentOpen(v, f)
    {
      assert CurrentOpen(w, f);
      if f != t.familyId {
        assert w.sessions[f].currentJti != t.jti;
      }
    }
  }

  lemma CallStays(w: World, v: World, c: Call)
    requires CallOk(w, c) && Extends(v, w)
    ensures CallOk(v, c)
  {
  }

  /** What a call sees keeps it sound. */
  lemma MoveSound(w: World, c: Call, redisWorks: bool)
    requires TablesOk(w) && CallOk(w, c)
    ensures var (v, pc) := Move(w, c, redisWorks);
            TablesOk(v) && (!pc.Over? ==> CallOk(w, c.(pc := pc)))
  {
    hide Committed;
    if Commits(w, c) {
      CommitKeeps(w, c.token, c.newJti, c.pc.session);
    }
  }

  lemma CreatedOk(w: World, userId: string, f: string, jti: string)
    requires TablesOk(w)
    ensures TablesOk(DoCreate(w, userId, f, jti).0)
  {
    var v := DoCreate(w, userId, f, jti).0;
    forall g | g in v.sessions
      ensures CurrentOpen(v, g)
    {
      if g in w.sessions {
        assert CurrentOpen(w, g);
      }
    }
  }

  lemma StepSound(s: State, e: Event)
    requires Sound(s)
    ensures Sound(Step(s, e))
  {
    hide Move, DoCreate, Extends, CallOk;
    var v := Step(s, e);
    StepExtends(s, e);
    forall i | 0 <= i < |s.calls|
      ensures CallOk(v.world, s.calls[i])
    {
      CallStays(s.world, v.world, s.calls[i]);
    }
    match e {
      case Begin(t, newJti) => assert CallOk(s.world, Call(t, newJti, CheckingFlag)) by { NewCallOk(s.world, t, newJti); }
      case Advance(i, redisWorks) => if i < |s.calls| { AdvanceSound(s, i, redisWorks); }
      case Login(userId, f, jti) => CreatedOk(s.world, userId, f, jti);
      case Logout(f, redisWorks) =>
      case Expire(f) =>
    }
  }

  lemma NewCallOk(w: World, t: Token, newJti: string)
    ensures CallOk(w, Call(t, newJti, CheckingFlag))
  {
  }

  lemma AdvanceSound(s: State, i: nat, redisWorks: bool)
    requires i < |s.calls| && Sound(s) && Extends(Advanced(s, i, redisWorks).world, s.world)
    ensures TablesOk(Advanced(s, i, redisWorks).world) && CallOk(Advanced(s, i, redisWorks).world, Advanced(s, i, redisWorks).calls[i])
  {
    hide Move, Extends, CallOk, TablesOk;
    var c := s.calls[i];
    assert CallOk(s.world, c);
    MoveSound(s.world, c, redisWorks);
    var (v, pc) := Move(s.world, c, redisWorks);
    if pc.Over? {
      OverOk(v, c.(pc := pc));
    } else {
      CallStays(s.world, v, c.(pc := pc));
    }
  }

  lemma OverOk(w: World, c: Call)
    requires c.pc.Over?
    ensures CallOk(w, c)
  {
  }

  lemma {:induction false} ReachSound(s: State, events: seq<Event>)
    requires Sound(s)
    ensures Sound(Reach(s, events))
  {
    hide Sound, Step;
    if events != [] {
      ReachSound(s, events[..|events| - 1]);
      StepSound(Reach(s, events[..|events| - 1]), events[|events| - 1]);
    }
  }

  // ---------------------------------------------------------------------------
  // Which calls can still succeed
  // ---------------------------------------------------------------------------

  predicate Won(c: Call) {
    c.pc.Over? && c.pc.answer.Ok?
  }

  /** Some continuation lets this call succeed. */
  ghost predicate CanWin(s: State, k: nat)
    requires k < |s.calls|
  {
    exists later :: Grown(Reach(s, later), k) && Won(Reach(s, later).calls[k])
  }

  predicate Grown(s: State, k: nat) {
    k < |s.calls|
  }

  /** What a call sees of the tables, and what it has seen of them, speaks for it. */
  predicate Promising(w: World, c: Call)
    requires c.token.jti in w.history
  {
    var f, jti := c.token.familyId, c.token.jti;
    match c.pc
    case CheckingFlag => c.newJti !in w.history && f in w.sessions && !w.sessions[f].isRevoked && w.sessions[f].currentJti == jti
    case CheckingRow => c.newJti !in w.history && f in w.sessions && !w.sessions[f].isRevoked && w.sessions[f].currentJti == jti
    case ReadingSession => c.newJti !in w.history && f in w.sessions && !w.sessions[f].isRevoked && w.sessions[f].currentJti == jti
    case ReadingRecord(session) => c.newJti !in w.history && session.currentJti == jti && !w.history[jti].isConsumed
    case Committing(_) => c.newJti !in w.history
    case Revoking => false
    case Flagging => false
    case Over(answer) => answer.Ok?
  }

  /** A call that is not promising stays so, whatever it or another one does. */
  lemma OwnMove(w: World, c: Call, redisWorks: bool)
    requires TablesOk(w) && CallOk(w, c) && c.token.jti in w.history && !Promising(w, c)
    ensures var (v, pc) := Move(w, c, redisWorks);
            !Promising(v, c.(pc := pc))
  {
    hide Committed;
  }

  /** A session row only ever moves to a token that was not in the history before. */
  ghost predicate Renews(v: World, w: World) {
    forall f :: f in v.sessions ==>
      v.sessions[f].currentJti !in w.history || (f in w.sessions && v.sessions[f].currentJti == w.sessions[f].currentJti)
  }

  lemma StepRenews(s: State, e: Event)
    ensures Renews(Step(s, e).world, s.world)
  {
  }

  lemma OthersMove(w: World, v: World, c: Call)
    requires Extends(v, w) && Renews(v, w) && c.token.jti in w.history && !Promising(w, c)
    ensures !Promising(v, c)
  {
  }

  lemma NeverPromising(s: State, e: Event, k: nat)
    requires Sound(s) && k < |s.calls| && s.calls[k].token.jti in s.world.history && !Promising(s.world, s.calls[k])
    ensures var v := Step(s, e);
            && k < |v.calls| && v.calls[k].token == s.calls[k].token && v.calls[k].token.jti in v.world.history
            && !Promising(v.world, v.calls[k])
  {
    hide Promising, Move, TablesOk, CallOk, Extends, Renews;
    var v := Step(s, e);
    StepExtends(s, e);
    StepRenews(s, e);
    StaysIn(v.world, s.world, s.calls[k].token.jti);
    if e.Advance? && e.call == k {
      OwnMove(s.world, s.calls[k], e.redisWorks);
    } else {
      OthersMove(s.world, v.world, s.calls[k]);
    }
  }

  lemma StaysIn(v: World, w: World, jti: string)
    requires Extends(v, w) && jti in w.history
    ensures jti in v.history
  {
  }

  lemma {:induction false} NeverWins(s: State, events: seq<Event>, k: nat)
    requires Sound(s) && k < |s.calls| && s.calls[k].token.jti in s.world.history && !Promising(s.world, s.calls[k])
    ensures var v := Reach(s, events);
            && Sound(v) && k < |v.calls| && v.calls[k].token.jti in v.world.history
            && !Promising(v.world, v.calls[k]) && !Won(v.calls[k])
  {
    hide Sound, Step;
    if events != [] {
      NeverWins(s, events[..|events| - 1], k);
      NeverPromising(Reach(s, events[..|events| - 1]), events[|events| - 1], k);
      StepSound(Reach(s, events[..|events| - 1]), events[|events| - 1]);
    }
  }

  /** The steps left to a promising call. */
  function Rank(pc: Pc): nat {
    match pc
    case CheckingFlag => 5
    case CheckingRow => 4
    case ReadingSession => 3
    case ReadingRecord(_) => 2
    case Committing(_) => 1
    case _ => 0
  }

  lemma PromisingMove(w: World, c: Call)
    requires TablesOk(w) && CallOk(w, c) && c.token.jti in w.history && Promising(w, c) && !c.pc.Over?
    ensures var (v, pc) := Move(w, c, false);
            c.token.jti in v.history && Promising(v, c.(pc := pc)) && Rank(pc) < Rank(c.pc)
  {
    hide Committed, Revoked;
    if c.pc.ReadingSession? {
      assert CurrentOpen(w, c.token.familyId);
    }
    if Commits(w, c) {
      CommittedExtends(w, c.token, c.newJti, c.pc.session);
    }
  }

  /** A promising call left alone succeeds. */
  lemma {:induction false} Wins(s: State, k: nat)
    requires Sound(s) && k < |s.calls| && s.calls[k].token.jti in s.world.history && Promising(s.world, s.calls[k])
    ensures CanWin(s, k)
    decreases Rank(s.calls[k].pc)
  {
    hide Promising, Move, TablesOk, CallOk, Rank;
    if s.calls[k].pc.Over? {
      assert Won(s.calls[k]) by { PromisingOver(s.world, s.calls[k]); }
      assert Reach(s, []) == s;
    } else {
      var v := Step(s, Advance(k, false));
      PromisingMove(s.world, s.calls[k]);
      StepSound(s, Advance(k, false));
      Wins(v, k);
      var later :| Grown(Reach(v, later), k) && Won(Reach(v, later).calls[k]);
      ReachCons(s, Advance(k, false), later);
    }
  }

  lemma PromisingOver(w: World, c: Call)
    requires c.token.jti in w.history && c.pc.Over? && Promising(w, c)
    ensures Won(c)
  {
  }

  lemma NothingSound()
    ensures Sound(Nothing)
  {
  }

  /**
    In every reachable state, a call with an issued token can still succeed if and only if
    what it has read so far and what it has yet to read speaks for it: before its look at the
    session row the family must be live with this token as the newest, before its look at the
    history the token must not be consumed, and after that nothing is checked any more.
   */
  lemma CanWinExactly(events: seq<Event>, k: nat)
    requires var s := Reach(Nothing, events);
             k < |s.calls| && s.calls[k].token.jti in s.world.history
    ensures var s := Reach(Nothing, events);
            CanWin(s, k) <==> Promising(s.world, s.calls[k])
  {
    hide Reach, Promising, Sound;
    NothingSound();
    ReachSound(Nothing, events);
    var s := Reach(Nothing, events);
    if Promising(s.world, s.calls[k]) {
      Wins(s, k);
    } else {
      forall later
        ensures !(Grown(Reach(s, later), k) && Won(Reach(s, later).calls[k]))
      {
        NeverWins(s, later, k);
      }
    }
  }

  // ---------------------------------------------------------------------------
  // How often a token is rotated
  // ---------------------------------------------------------------------------

  /** The tokens rotated in a family, one entry for each time. */
  function Rotations(rotated: seq<Token>, f: string): seq<string> {
    if rotated == [] then []
    else
      var t := rotated[|rotated| - 1];
      Rotations(rotated[..|rotated| - 1], f) + if t.familyId == f then [t.jti] else []
  }

  function Issued(w: World, f: string): set<string> {
    set j | j in w.history && w.history[j].familyId == f
  }

  function Open(w: World, f: string): set<string> {
    set j | j in w.history && w.history[j].familyId == f && !w.history[j].isConsumed
  }

  function Spent(w: World, f: string): set<string> {
    set j | j in w.history && w.history[j].familyId == f && w.history[j].isConsumed
  }

  function Elements(js: seq<string>): set<string> {
    set j | j in js
  }

  /** The history of a family accounts for every rotation. */
  ghost predicate Accounted(w: World, rotated: seq<Token>, f: string) {
    && Spent(w, f) == Elements(Rotations(rotated, f))
    && |Issued(w, f)| == |Rotations(rotated, f)| + if f in w.sessions then 1 else 0
  }

  lemma RotationsSnoc(rotated: seq<Token>, t: Token, f: string)
    ensures Rotations(rotated + [t], f) == Rotations(rotated, f) + if t.familyId == f then [t.jti] else []
  {
    assert (rotated + [t])[..|rotated|] == rotated;
  }

  lemma CommitAccounted(w: World, rotated: seq<Token>, t: Token, newJti: string, session: Session, f: string)
    requires !Aborts(w, t, newJti) && Belongs(w, t.jti, t.familyId) && Accounted(w, rotated, f)
    ensures Accounted(Committed(w, t, newJti, session), rotated + [t], f)
  {
    var v := Committed(w, t, newJti, session);
    RotationsSnoc(rotated, t, f);
    if f == t.familyId {
      assert Issued(v, f) == Issued(w, f) + {newJti} && newJti !in Issued(w, f);
      assert Spent(v, f) == Spent(w, f) + {t.jti};
    } else {
      assert Issued(v, f) == Issued(w, f);
      assert Spent(v, f) == Spent(w, f);
    }
  }

  lemma CreateAccounted(w: World, rotated: seq<Token>, userId: string, g: string, jti: string, f: string)
    requires Accounted(w, rotated, f)
    ensures Accounted(DoCreate(w, userId, g, jti).0, rotated, f)
  {
    var v := DoCreate(w, userId, g, jti).0;
    assert Spent(v, f) == Spent(w, f);
    if v != w && f == g {
      assert Issued(v, f) == Issued(w, f) + {jti};
    } else {
      assert Issued(v, f) == Issued(w, f);
    }
  }

  lemma StepAccounted(s: State, e: Event, f: string)
    requires Sound(s) && Accounted(s.world, s.rotated, f)
    ensures Accounted(Step(s, e).world, Step(s, e).rotated, f)
  {
    hide TablesOk, Rotations, Elements, Committed, DoCreate;
    match e {
      case Advance(i, redisWorks) =>
        if i < |s.calls| && Commits(s.world, s.calls[i]) {
          var c := s.calls[i];
          assert CallOk(s.world, c);
          CommitAccounted(s.world, s.rotated, c.token, c.newJti, c.pc.session, f);
        }
      case Login(userId, g, jti) => CreateAccounted(s.world, s.rotated, userId, g, jti, f);
      case _ =>
    }
  }

  lemma {:induction false} ReachAccounted(events: seq<Event>, f: string)
    ensures var s := Reach(Nothing, events);
            Sound(s) && Accounted(s.world, s.rotated, f)
  {
    hide Sound, Step;
    if events == [] {
      NothingSound();
      assert Issued(Empty, f) == {} && Spent(Empty, f) == {};
    } else {
      ReachAccounted(events[..|events| - 1], f);
      StepSound(Reach(Nothing, events[..|events| - 1]), events[|events| - 1]);
      StepAccounted(Reach(Nothing, events[..|events| - 1]), events[|events| - 1], f);
    }
  }

  predicate Distinct(js: seq<string>) {
    forall i, k :: 0 <= i < k < |js| ==> js[i] != js[k]
  }

  lemma {:induction false} ElementsCount(js: seq<string>)
    ensures |Elements(js)| <= |js|
    ensures |Elements(js)| == |js| <==> Distinct(js)
  {
    if js != [] {
      var front, last := js[..|js| - 1], js[|js| - 1];
      ElementsCount(front);
      assert Elements(js) == Elements(front) + {last};
      assert js == front + [last];
      if last in front {
        var i :| 0 <= i < |front| && front[i] == last;
        assert !Distinct(js);
      } else {
        assert Distinct(js) <==> Distinct(front);
      }
    }
  }

  /**
    However rotations overlap: the open tokens of a family are as many as one and every
    rotation of a token that had been rotated already. So a family has a single open token,
    the current one, if and only if none of its tokens was rotated twice.
   */
  lemma OpenTokens(events: seq<Event>, f: string)
    requires f in Reach(Nothing, events).world.sessions
    ensures var s := Reach(Nothing, events);
            var js := Rotations(s.rotated, f);
            && Spent(s.world, f) == Elements(js)
            && |Open(s.world, f)| == 1 + |js| - |Elements(js)|
            && s.world.sessions[f].currentJti in Open(s.world, f)
            && (Open(s.world, f) == {s.world.sessions[f].currentJti} <==> Distinct(js))
  {
    hide Reach, Rotations, Elements;
    var s := Reach(Nothing, events);
    var js := Rotations(s.rotated, f);
    ReachAccounted(events, f);
    assert CurrentOpen(s.world, f);
    assert Issued(s.world, f) == Open(s.world, f) + Spent(s.world, f);
    assert Open(s.world, f) !! Spent(s.world, f);
    ElementsCount(js);
    One(Open(s.world, f), s.world.sessions[f].currentJti);
  }

  lemma One(js: set<string>, j: string)
    requires j in js
    ensures |js| == 1 <==> js == {j}
  {
    if |js| == 1 {
      assert |js - {j}| == 0;
      assert js == {j} + (js - {j});
    }
  }

  /**
    When a token has been rotated, another call that presents it can still succeed if and
    only if it has made its checks already and waits for its transaction: as many calls can
    rotate one token as make their checks before the first of the transactions.
   */
  lemma RotatedAgainExactly(events: seq<Event>, k: nat)
    requires var s := Reach(Nothing, events);
             && k < |s.calls| && !s.calls[k].pc.Over?
             && exists i :: 0 <= i < |s.rotated| && s.rotated[i].jti == s.calls[k].token.jti
    ensures var s := Reach(Nothing, events);
            CanWin(s, k) <==> s.calls[k].pc.Committing? && s.calls[k].newJti !in s.world.history
  {
    hide Reach, CanWin;
    var s := Reach(Nothing, events);
    var c := s.calls[k];
    var i :| 0 <= i < |s.rotated| && s.rotated[i].jti == c.token.jti;
    var f := s.rotated[i].familyId;
    ReachAccounted(events, f);
    RotationIn(s.rotated, i);
    assert c.token.jti in Spent(s.world, f);
    CanWinExactly(events, k);
    if c.token.familyId in s.world.sessions {
      assert CurrentOpen(s.world, c.token.familyId);
    }
  }

  lemma {:induction false} RotationIn(rotated: seq<Token>, i: nat)
    requires i < |rotated|
    ensures rotated[i].jti in Elements(Rotations(rotated, rotated[i].familyId))
  {
    if i < |rotated| - 1 {
      RotationIn(rotated[..|rotated| - 1], i);
    }
  }

  /**
    When a family has been revoked, a call can still succeed if and only if it has read the
    session row before that and nothing it has seen or will see in the history speaks
    against it.
   */
  lemma RevokedExactly(events: seq<Event>, k: nat)
    requires var s := Reach(Nothing, events);
             && k < |s.calls| && !s.calls[k].pc.Over? && s.calls[k].token.jti in s.world.history
             && s.calls[k].token.familyId in s.world.sessions && s.world.sessions[s.calls[k].token.familyId].isRevoked
    ensures var s := Reach(Nothing, events);
            var c := s.calls[k];
            CanWin(s, k) <==>
              && c.newJti !in s.world.history
              && (c.pc.Committing?
                  || (c.pc.ReadingRecord? && c.pc.session.currentJti == c.token.jti && !s.world.history[c.token.jti].isConsumed))
  {
    hide Reach, CanWin;
    CanWinExactly(events, k);
  }
}
