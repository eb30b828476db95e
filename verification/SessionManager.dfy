/**
  Refresh token families of apps/api/src/lib/session-manager.ts over two tables and a Redis
  flag per revoked family. The flag may be missing, expired or unreadable, the tables decide.
  A rotation is one atomic step here; module SessionOverlap takes it apart.
 */
module SessionManager {
  import opened Wrappers

  /** A row of refreshSession. */
  datatype Session = Session(userId: string, currentJti: string, rotationCounter: nat, isRevoked: bool)

  /** A row of refreshTokenHistory. */
  datatype Record = Record(familyId: string, userId: string, rotationCounter: nat, isConsumed: bool)

  /** The payload of a refresh token whose signature and lifetime have been checked. */
  datatype Token = Token(familyId: string, userId: string, jti: string, rotationCounter: nat)

  /** Both tables by their unique columns, and the families flagged as revoked in Redis. */
  datatype World = World(sessions: map<string, Session>, history: map<string, Record>, flags: set<string>)

  datatype Op =
    | Create(userId: string, familyId: string, jti: string)
    | Rotate(token: Token, newJti: string, redisRead: bool, redisWrite: bool)
    | Revoke(familyId: string, redisWrite: bool)
    | FlagExpires(familyId: string)

  datatype Error = SessionRevoked | TokenReuse | DatabaseError
  type Answer = Result<Token, Error>

  const Empty := World(map[], map[], {})

  function Created(w: World, userId: string, familyId: string, jti: string): World {
    w.(sessions := w.sessions[familyId := Session(userId, jti, 1, false)],
       history := w.history[jti := Record(familyId, userId, 1, false)])
  }

  /** Both rows carry a unique column: a clash aborts the transaction. */
  function DoCreate(w: World, userId: string, familyId: string, jti: string): (World, Answer) {
    if familyId in w.sessions || jti in w.history then (w, Err(DatabaseError))
    else (Created(w, userId, familyId, jti), Ok(Token(familyId, userId, jti, 1)))
  }

  predicate IsFamilyRevoked(w: World, familyId: string, redisRead: bool) {
    familyId != "" && ((redisRead && familyId in w.flags) || (familyId in w.sessions && w.sessions[familyId].isRevoked))
  }

  function Revoked(w: World, familyId: string, redisWrite: bool): World {
    w.(sessions := if familyId in w.sessions then w.sessions[familyId := w.sessions[familyId].(isRevoked := true)] else w.sessions,
       flags := if redisWrite then w.flags + {familyId} else w.flags)
  }

  /** The transaction of a valid rotation: three writes. */
  function Rotated(w: World, t: Token, newJti: string): World
    requires t.familyId in w.sessions && t.jti in w.history
  {
    var session := w.sessions[t.familyId];
    var next := session.rotationCounter + 1;
    var consumed := w.history[t.jti := w.history[t.jti].(isConsumed := true)];
    w.(history := consumed[newJti := Record(t.familyId, t.userId, next, false)],
       sessions := w.sessions[t.familyId := session.(currentJti := newJti, rotationCounter := next)])
  }

  function DoRotate(w: World, t: Token, newJti: string, redisRead: bool, redisWrite: bool): (World, Answer) {
    if IsFamilyRevoked(w, t.familyId, redisRead) then (w, Err(SessionRevoked))
    else if t.familyId !in w.sessions || w.sessions[t.familyId].isRevoked then (w, Err(SessionRevoked))
    else
      var isAlreadyConsumed := t.jti in w.history && w.history[t.jti].isConsumed;
      var isOutdatedJti := w.sessions[t.familyId].currentJti != t.jti;
      if isAlreadyConsumed || isOutdatedJti then (Revoked(w, t.familyId, redisWrite), Err(TokenReuse))
      else if t.jti !in w.history || newJti in w.history then (w, Err(DatabaseError))
      else (Rotated(w, t, newJti), Ok(Token(t.familyId, t.userId, newJti, w.sessions[t.familyId].rotationCounter + 1)))
  }

  function Perform(w: World, op: Op): (World, Answer) {
    match op
    case Create(userId, familyId, jti) => DoCreate(w, userId, familyId, jti)
    case Rotate(t, newJti, redisRead, redisWrite) => DoRotate(w, t, newJti, redisRead, redisWrite)
    case Revoke(familyId, redisWrite) => (Revoked(w, familyId, redisWrite), Err(SessionRevoked))
    case FlagExpires(familyId) => (w.(flags := w.flags - {familyId}), Err(SessionRevoked))
  }

  function Run(w: World, ops: seq<Op>): World {
    if ops == [] then w else Perform(Run(w, ops[..|ops| - 1]), ops[|ops| - 1]).0
  }

  // ---------------------------------------------------------------------------
  // What every family looks like
  // ---------------------------------------------------------------------------

  predicate Belongs(w: World, jti: string, familyId: string) {
    jti in w.history && w.history[jti].familyId == familyId
  }

  /** The tokens of a family are numbered 1 to the session's counter, once each. */
  ghost predicate Numbered(w: World, f: string)
    requires f in w.sessions
  {
    && (forall j :: Belongs(w, j, f) ==> 1 <= w.history[j].rotationCounter <= w.sessions[f].rotationCounter)
    && (forall j, k :: Belongs(w, j, f) && Belongs(w, k, f) && w.history[j].rotationCounter == w.history[k].rotationCounter ==> j == k)
    && (forall n :: 1 <= n <= w.sessions[f].rotationCounter ==> HasNumber(w, f, n))
  }

  ghost predicate HasNumber(w: World, f: string, n: nat) {
    exists j :: Belongs(w, j, f) && w.history[j].rotationCounter == n
  }

  /** All tokens of a family are consumed but one, the current one, which has the highest number. */
  ghost predicate OneOpen(w: World, f: string)
    requires f in w.sessions
  {
    && Belongs(w, w.sessions[f].currentJti, f)
    && w.history[w.sessions[f].currentJti].rotationCounter == w.sessions[f].rotationCounter
    && (forall j :: Belongs(w, j, f) ==> (w.history[j].isConsumed <==> j != w.sessions[f].currentJti))
  }

  ghost predicate FamilyOk(w: World, f: string)
    requires f in w.sessions
  {
    Numbered(w, f) && OneOpen(w, f)
  }

  ghost predicate Inv(w: World) {
    && (forall j :: j in w.history ==> w.history[j].familyId in w.sessions)
    && (forall f :: f in w.sessions ==> FamilyOk(w, f))
  }

  /** A family none of whose rows changes, but for the revocation mark. */
  lemma Untouched(w: World, v: World, f: string)
    requires f in w.sessions && FamilyOk(w, f) && f in v.sessions
    requires v.sessions[f] == w.sessions[f].(isRevoked := v.sessions[f].isRevoked)
    requires forall j :: Belongs(v, j, f) ==> Belongs(w, j, f)
    requires forall j :: Belongs(w, j, f) ==> Belongs(v, j, f) && v.history[j] == w.history[j]
    ensures FamilyOk(v, f)
  {
    forall n: nat | 1 <= n <= v.sessions[f].rotationCounter
      ensures HasNumber(v, f, n)
    {
      assert HasNumber(w, f, n);
      var j :| Belongs(w, j, f) && w.history[j].rotationCounter == n;
      assert Belongs(v, j, f);
    }
  }

  lemma CreateKeeps(w: World, userId: string, familyId: string, jti: string)
    requires Inv(w) && familyId !in w.sessions && jti !in w.history
    ensures Inv(Created(w, userId, familyId, jti))
  {
    hide FamilyOk;
    var v := Created(w, userId, familyId, jti);
    forall f | f in v.sessions
      ensures FamilyOk(v, f)
    {
      if f == familyId {
        NewFamilyOk(w, v, userId, f, jti);
      } else {
        Untouched(w, v, f);
      }
    }
  }

  lemma NewFamilyOk(w: World, v: World, userId: string, f: string, jti: string)
    requires f !in w.sessions && jti !in w.history && v == Created(w, userId, f, jti)
    requires forall j :: j in w.history ==> w.history[j].familyId in w.sessions
    ensures FamilyOk(v, f)
  {
    assert forall j :: Belongs(v, j, f) <==> j == jti;
    assert Belongs(v, jti, f);
    assert HasNumber(v, f, 1);
  }

  lemma RevokeKeeps(w: World, familyId: string, redisWrite: bool)
    requires Inv(w)
    ensures Inv(Revoked(w, familyId, redisWrite))
  {
    hide FamilyOk;
    var v := Revoked(w, familyId, redisWrite);
    forall f | f in v.sessions
      ensures FamilyOk(v, f)
    {
      Untouched(w, v, f);
    }
  }

  lemma RotateKeeps(w: World, t: Token, newJti: string)
    requires Inv(w) && t.familyId in w.sessions && t.jti in w.history && newJti !in w.history
    requires w.sessions[t.familyId].currentJti == t.jti
    ensures Inv(Rotated(w, t, newJti))
  {
    hide Numbered;
    var v := Rotated(w, t, newJti);
    assert FamilyOk(w, t.familyId);
    forall f | f in v.sessions
      ensures FamilyOk(v, f)
    {
      assert FamilyOk(w, f);
      if f == t.familyId {
        RotatedNumbered(w, t, newJti);
        RotatedOpen(w, t, newJti);
      } else {
        Untouched(w, v, f);
      }
    }
  }

  lemma RotatedNumbered(w: World, t: Token, newJti: string)
    requires t.familyId in w.sessions && t.jti in w.history && newJti !in w.history && Numbered(w, t.familyId)
    ensures Numbered(Rotated(w, t, newJti), t.familyId)
  {
    var v, f := Rotated(w, t, newJti), t.familyId;
    assert forall j :: Belongs(v, j, f) <==> Belongs(w, j, f) || j == newJti;
    assert forall j :: Belongs(w, j, f) ==> v.history[j].rotationCounter == w.history[j].rotationCounter;
    forall n: nat | 1 <= n <= v.sessions[f].rotationCounter
      ensures HasNumber(v, f, n)
    {
      if n == v.sessions[f].rotationCounter {
        assert Belongs(v, newJti, f);
      } else {
        assert HasNumber(w, f, n);
        var j :| Belongs(w, j, f) && w.history[j].rotationCounter == n;
        assert Belongs(v, j, f);
      }
    }
  }

  lemma RotatedOpen(w: World, t: Token, newJti: string)
    requires t.familyId in w.sessions && t.jti in w.history && newJti !in w.history && OneOpen(w, t.familyId)
    requires w.sessions[t.familyId].currentJti == t.jti
    ensures OneOpen(Rotated(w, t, newJti), t.familyId)
  {
    var v, f := Rotated(w, t, newJti), t.familyId;
    assert forall j :: Belongs(v, j, f) <==> Belongs(w, j, f) || j == newJti;
  }

  lemma PerformKeeps(w: World, op: Op)
    requires Inv(w)
    ensures Inv(Perform(w, op).0)
  {
    hide Inv, Created, Rotated, Revoked;
    match op {
      case Create(userId, familyId, jti) =>
        if familyId !in w.sessions && jti !in w.history { CreateKeeps(w, userId, familyId, jti); }
      case Rotate(t, newJti, redisRead, redisWrite) =>
        RevokeKeeps(w, t.familyId, redisWrite);
        if t.familyId in w.sessions && w.sessions[t.familyId].currentJti == t.jti && t.jti in w.history && newJti !in w.history {
          RotateKeeps(w, t, newJti);
        }
      case Revoke(familyId, redisWrite) => RevokeKeeps(w, familyId, redisWrite);
      case FlagExpires(familyId) => FlagKeeps(w, w.flags - {familyId});
    }
  }

  lemma FlagKeeps(w: World, flags: set<string>)
    requires Inv(w)
    ensures Inv(w.(flags := flags))
  {
    hide FamilyOk;
    forall f | f in w.sessions
      ensures FamilyOk(w.(flags := flags), f)
    {
      Untouched(w, w.(flags := flags), f);
    }
  }

  lemma {:induction false} RunKeeps(w: World, ops: seq<Op>)
    requires Inv(w)
    ensures Inv(Run(w, ops))
  {
    hide Inv, Perform;
    if ops != [] {
      RunKeeps(w, ops[..|ops| - 1]);
      PerformKeeps(Run(w, ops[..|ops| - 1]), ops[|ops| - 1]);
    }
  }

  /**
    After any sequence of logins, rotations, replays and revocations, with Redis failing or
    forgetting at will: every family has tokens numbered 1 to its counter, once each, and of
    these exactly the current one is not consumed. So of the two signs of reuse, consumed
    and outdated, an issued token shows both or none.
   */
  lemma Families(ops: seq<Op>)
    ensures var w := Run(Empty, ops);
            && Inv(w)
            && forall j :: j in w.history ==>
                 w.history[j].familyId in w.sessions
                 && (w.history[j].isConsumed <==> w.sessions[w.history[j].familyId].currentJti != j)
  {
    hide Run, Numbered;
    RunKeeps(Empty, ops);
    var w := Run(Empty, ops);
    forall j | j in w.history
      ensures w.history[j].familyId in w.sessions
      ensures w.history[j].isConsumed <==> w.sessions[w.history[j].familyId].currentJti != j
    {
      assert FamilyOk(w, w.history[j].familyId);
      assert Belongs(w, j, w.history[j].familyId);
    }
  }

  // ---------------------------------------------------------------------------
  // Which rotations succeed
  // ---------------------------------------------------------------------------

  /** The token is as it was issued. */
  predicate Genuine(w: World, t: Token) {
    t.jti in w.history && w.history[t.jti].familyId == t.familyId && w.history[t.jti].rotationCounter == t.rotationCounter
  }

  /**
    An issued token is rotated exactly when it is the newest of a family that neither the
    table nor a readable flag says is revoked; when it is not the newest, the family is
    revoked by the attempt.
   */
  lemma RotatesExactly(ops: seq<Op>, t: Token, newJti: string, redisRead: bool, redisWrite: bool)
    requires Genuine(Run(Empty, ops), t) && newJti !in Run(Empty, ops).history
    ensures var w := Run(Empty, ops);
            var (v, answer) := DoRotate(w, t, newJti, redisRead, redisWrite);
            var open := t.familyId in w.sessions && !w.sessions[t.familyId].isRevoked && !(redisRead && t.familyId != "" && t.familyId in w.flags);
            && t.familyId in w.sessions && t.familyId in v.sessions
            && (answer.Ok? <==> open && t.rotationCounter == w.sessions[t.familyId].rotationCounter)
            && (answer.Ok? ==> answer.value == Token(t.familyId, t.userId, newJti, t.rotationCounter + 1) && Genuine(v, answer.value))
            && (answer.Ok? ==> v.sessions[t.familyId] == Session(w.sessions[t.familyId].userId, newJti, t.rotationCounter + 1, false)
                               && v.history[newJti] == Record(t.familyId, t.userId, t.rotationCounter + 1, false)
                               && v.history[t.jti].isConsumed)
            && (open && answer.Err? ==> answer == Err(TokenReuse) && v.sessions[t.familyId].isRevoked)
            && (!open ==> answer == Err(SessionRevoked) && v == w)
  {
    hide Run;
    RunKeeps(Empty, ops);
    var w := Run(Empty, ops);
    assert FamilyOk(w, t.familyId);
    assert Belongs(w, t.jti, t.familyId);
  }

  /**
    A login in a reachable state is refused exactly when the family or the token is already
    known; otherwise it opens a family whose token rotates, unless a readable flag is left
    from an earlier family of that name.
   */
  lemma LoginExactly(ops: seq<Op>, userId: string, f: string, jti: string, newJti: string, redisRead: bool, redisWrite: bool)
    requires newJti != jti && newJti !in Run(Empty, ops).history
    ensures var w := Run(Empty, ops);
            var (v, answer) := DoCreate(w, userId, f, jti);
            && (answer.Ok? <==> f !in w.sessions && jti !in w.history)
            && (answer.Err? ==> v == w && answer == Err(DatabaseError))
            && (answer.Ok? ==>
                  && answer.value == Token(f, userId, jti, 1) && Genuine(v, answer.value)
                  && v.sessions[f].userId == userId && v.history[jti].userId == userId
                  && (DoRotate(v, answer.value, newJti, redisRead, redisWrite).1.Ok? <==> !(redisRead && f != "" && f in w.flags)))
  {
    hide Run;
  }

  /** With Redis at work, revoking raises the flag too, and reading it is enough to refuse until it expires. */
  lemma FlagRaised(w: World, f: string, t: Token, newJti: string, redisWrite: bool)
    requires f != "" && t.familyId == f
    ensures var v := Perform(w, Revoke(f, true)).0;
            && f in v.flags && (f in w.sessions ==> v.sessions[f].isRevoked)
            && Perform(v, Rotate(t, newJti, true, redisWrite)) == (v, Err(SessionRevoked))
            && f !in Perform(v, FlagExpires(f)).0.flags
  {
  }

  lemma RevokedStep(w: World, op: Op, f: string)
    requires f in w.sessions && w.sessions[f].isRevoked
    ensures f in Perform(w, op).0.sessions && Perform(w, op).0.sessions[f].isRevoked
    ensures op.Rotate? && op.token.familyId == f ==> Perform(w, op).1.Err?
  {
  }

  lemma {:induction false} RevokedForever(w: World, ops: seq<Op>, f: string)
    requires f in w.sessions && w.sessions[f].isRevoked
    ensures f in Run(w, ops).sessions && Run(w, ops).sessions[f].isRevoked
  {
    hide Perform;
    if ops != [] {
      RevokedForever(w, ops[..|ops| - 1], f);
      RevokedStep(Run(w, ops[..|ops| - 1]), ops[|ops| - 1], f);
    }
  }

  /** A readable flag speaks against a family that the table has as live: it is older than the family. */
  predicate StaleFlag(w: World, familyId: string, redisRead: bool)
    requires familyId in w.sessions
  {
    redisRead && familyId != "" && familyId in w.flags && !w.sessions[familyId].isRevoked
  }

  /**
    Once a token that is not the current one has been presented for a family, no rotation of
    the family ever succeeds again, whatever happens in between and whether or not Redis
    kept the flag.
   */
  lemma ReuseEndsFamily(w: World, t: Token, newJti: string, redisRead: bool, redisWrite: bool, later: seq<Op>, op: Op)
    requires t.familyId in w.sessions && w.sessions[t.familyId].currentJti != t.jti && !StaleFlag(w, t.familyId, redisRead)
    requires op.Rotate? && op.token.familyId == t.familyId
    ensures var v := Perform(w, Rotate(t, newJti, redisRead, redisWrite)).0;
            Perform(Run(v, later), op).1.Err?
  {
    hide Run;
    var v := Perform(w, Rotate(t, newJti, redisRead, redisWrite)).0;
    assert v.sessions[t.familyId].isRevoked;
    hide Perform;
    RevokedForever(v, later, t.familyId);
    RevokedStep(Run(v, later), op, t.familyId);
  }

  /**
    The exception is exact. With a flag left from before the family existed the attempt is
    refused without a trace, and when the flag expires the family's current token rotates.
   */
  lemma ReuseEndsExactly(history: seq<Op>, t: Token, newJti: string, redisRead: bool, redisWrite: bool, spare: string)
    requires var w := Run(Empty, history);
             t.familyId in w.sessions && w.sessions[t.familyId].currentJti != t.jti && spare !in w.history
    ensures var w := Run(Empty, history);
            var v := Perform(w, Rotate(t, newJti, redisRead, redisWrite)).0;
            !StaleFlag(w, t.familyId, redisRead)
            <==> forall later, op: Op :: op.Rotate? && op.token.familyId == t.familyId ==> Perform(Run(v, later), op).1.Err?
  {
    hide Run, Perform, StaleFlag, Inv;
    var w := Run(Empty, history);
    var v := Perform(w, Rotate(t, newJti, redisRead, redisWrite)).0;
    EmptyOk();
    RunKeeps(Empty, history);
    if StaleFlag(w, t.familyId, redisRead) {
      RotatesAfterExpiry(w, t, newJti, redisRead, redisWrite, spare);
    } else {
      forall later, op: Op | op.Rotate? && op.token.familyId == t.familyId
        ensures Perform(Run(v, later), op).1.Err?
      {
        ReuseEndsFamily(w, t, newJti, redisRead, redisWrite, later, op);
      }
    }
  }

  lemma EmptyOk()
    ensures Inv(Empty)
  {
  }

  lemma RotatesAfterExpiry(w: World, t: Token, newJti: string, redisRead: bool, redisWrite: bool, spare: string)
    requires Inv(w) && t.familyId in w.sessions && StaleFlag(w, t.familyId, redisRead) && spare !in w.history
    ensures var v := Perform(w, Rotate(t, newJti, redisRead, redisWrite)).0;
            var current := Token(t.familyId, w.sessions[t.familyId].userId, w.sessions[t.familyId].currentJti, w.sessions[t.familyId].rotationCounter);
            Perform(Run(v, [FlagExpires(t.familyId)]), Rotate(current, spare, true, true)).1.Ok?
  {
    hide Numbered, Run;
    var v := Perform(w, Rotate(t, newJti, redisRead, redisWrite)).0;
    assert v == w;
    RunOne(w, FlagExpires(t.familyId));
    assert FamilyOk(w, t.familyId);
  }

  lemma RunOne(w: World, op: Op)
    ensures Run(w, [op]) == Perform(w, op).0
  {
    hide Perform;
    assert Run(w, []) == w;
  }

  lemma ConsumedStep(w: World, op: Op, jti: string)
    requires jti in w.history && w.history[jti].isConsumed
    ensures jti in Perform(w, op).0.history && Perform(w, op).0.history[jti].isConsumed
    ensures op.Rotate? && op.token.jti == jti ==> Perform(w, op).1.Err?
  {
  }

  lemma {:induction false} ConsumedForever(w: World, ops: seq<Op>, jti: string)
    requires jti in w.history && w.history[jti].isConsumed
    ensures jti in Run(w, ops).history && Run(w, ops).history[jti].isConsumed
  {
    hide Perform;
    if ops != [] {
      ConsumedForever(w, ops[..|ops| - 1], jti);
      ConsumedStep(Run(w, ops[..|ops| - 1]), ops[|ops| - 1], jti);
    }
  }

  /** No token is rotated twice by rotations that come one at a time. */
  lemma RotatedOnce(w: World, t: Token, newJti: string, redisRead: bool, redisWrite: bool, later: seq<Op>, again: Op)
    requires Perform(w, Rotate(t, newJti, redisRead, redisWrite)).1.Ok?
    requires again.Rotate? && again.token.jti == t.jti
    ensures var v := Perform(w, Rotate(t, newJti, redisRead, redisWrite)).0;
            Perform(Run(v, later), again).1.Err?
  {
    hide Run;
    var v := Perform(w, Rotate(t, newJti, redisRead, redisWrite)).0;
    assert t.jti in v.history && v.history[t.jti].isConsumed;
    hide Perform;
    ConsumedForever(v, later, t.jti);
    ConsumedStep(Run(v, later), again, t.jti);
  }
}
