/**
  The functions of apps/api/src/lib/session-manager.ts, read by read and write by write, each
  proved to do what module SessionManager says when nothing interferes, and to be a run of
  the protocol of module SessionOverlap whatever others do in between.
 */
module SessionCode {
  import opened Wrappers
  import opened SessionManager
  import opened SessionOverlap

  class SessionStore {
    var sessions: map<string, Session>
    var history: map<string, Record>
    var flags: set<string>
    /** Where the calls of rotateRefreshToken stand, and the tokens rotated. */
    var calls: seq<Call>
    var rotated: seq<Token>

    ghost function View(): World
      reads this
    {
      World(sessions, history, flags)
    }

    ghost function All(): State
      reads this
    {
      State(View(), calls, rotated)
    }

    /** Call k stands before the step pc names. */
    ghost predicate At(k: nat, decoded: Token, newJti: string, pc: Pc)
      reads this
    {
      k < |calls| && calls[k] == Call(decoded, newJti, pc)
    }

    constructor ()
      ensures All() == Nothing
    {
      sessions, history, flags := map[], map[], {};
      calls, rotated := [], [];
    }

    method CreateSessionFamily(userId: string, familyId: string, jti: string) returns (answer: Answer)
      modifies this`sessions, this`history
      ensures (View(), answer) == Perform(old(View()), Create(userId, familyId, jti))
    {
      if familyId in sessions || jti in history {
        return Err(DatabaseError);
      }
      sessions := sessions[familyId := Session(userId, jti, 1, false)];
      history := history[jti := Record(familyId, userId, 1, false)];
      return Ok(Token(familyId, userId, jti, 1));
    }

    method RevokeFamily(familyId: string, redisWrite: bool)
      modifies this`sessions, this`flags
      ensures View() == Revoked(old(View()), familyId, redisWrite)
    {
      RevokeRow(familyId);
      SetFlag(familyId, redisWrite);
    }

    /** The two halves of revokeFamily. */
    method RevokeRow(familyId: string)
      modifies this`sessions
      ensures View() == Revoked(old(View()), familyId, false)
    {
      if familyId in sessions {
        sessions := sessions[familyId := sessions[familyId].(isRevoked := true)];
      }
    }

    method SetFlag(familyId: string, redisWrite: bool)
      modifies this`flags
      ensures View() == if redisWrite then old(View()).(flags := old(flags) + {familyId}) else old(View())
    {
      if redisWrite {
        flags := flags + {familyId};
      }
    }

    /** Others act, and the call under way is left where it stands. */
    method OthersAct(k: nat, others: Pc -> seq<Event>, ghost so: seq<Event>, ghost from: State) returns (ghost events: seq<Event>)
      requires k < |calls| && All() == Reach(from, so)
      modifies this
      ensures k < |calls| && calls[k] == old(calls[k]) && All() == Reach(from, events)
      ensures others(old(calls[k]).pc) == [] ==> All() == old(All())
    {
      hide Step, Reach;
      var deeds := others(calls[k].pc);
      events := so;
      for i := 0 to |deeds|
        invariant k < |calls| && calls[k] == old(calls[k]) && All() == Reach(from, events)
        invariant deeds == [] ==> All() == old(All())
      {
        if !(deeds[i].Advance? && deeds[i].call == k) {
          var s := State(World(sessions, history, flags), calls, rotated);
          ReachSnoc(from, events, deeds[i]);
          OthersLeave(s, deeds[i], k);
          s := Step(s, deeds[i]);
          sessions, history, flags := s.world.sessions, s.world.history, s.world.flags;
          calls, rotated := s.calls, s.rotated;
          events := events + [deeds[i]];
        }
      }
    }

    /** A call goes on to its next step; its reads and writes have been made. */
    method Go(k: nat, pc: Pc, ghost before: State, ghost redisWorks: bool, ghost so: seq<Event>, ghost from: State) returns (ghost events: seq<Event>)
      requires k < |calls| && before == Reach(from, so) && calls == before.calls && rotated == before.rotated
      requires (View(), pc) == Move(before.world, calls[k], redisWorks) && !Commits(before.world, calls[k])
      modifies this`calls
      ensures calls == old(calls)[k := old(calls[k]).(pc := pc)] && All() == Reach(from, events)
    {
      hide Move, Commits, Reach;
      ReachSnoc(from, so, Advance(k, redisWorks));
      calls := calls[k := calls[k].(pc := pc)];
      events := so + [Advance(k, redisWorks)];
    }

    method FlagSays(familyId: string, redisRead: bool) returns (revoked: bool)
      ensures revoked == (redisRead && familyId in flags)
    {
      revoked := redisRead && familyId in flags;
    }

    method RowSays(familyId: string) returns (revoked: bool)
      ensures revoked == (familyId in sessions && sessions[familyId].isRevoked)
    {
      revoked := familyId in sessions && sessions[familyId].isRevoked;
    }

    method CheckRevoked(familyId: string, redisRead: bool) returns (revoked: bool)
      ensures revoked == IsFamilyRevoked(View(), familyId, redisRead)
    {
      if familyId == "" { return false; }
      revoked := FlagSays(familyId, redisRead);
      if !revoked {
        revoked := RowSays(familyId);
      }
    }

    /** CheckRevoked as part of a rotation. */
    method CheckFamily(k: nat, decoded: Token, newJti: string, redisRead: bool, others: Pc -> seq<Event>, ghost from: State)
      returns (revoked: bool, ghost events: seq<Event>)
      requires At(k, decoded, newJti, CheckingFlag) && All() == Reach(from, [])
      modifies this
      ensures At(k, decoded, newJti, if revoked then Over(Err(SessionRevoked)) else ReadingSession)
      ensures All() == Reach(from, events)
      ensures Quiet(others) ==> View() == old(View()) && revoked == IsFamilyRevoked(View(), decoded.familyId, redisRead)
    {
      hide Reach, Committed, Revoked;
      var familyId := decoded.familyId;
      if familyId == "" {
        events := Go(k, ReadingSession, All(), redisRead, [], from);
        return false, events;
      }
      revoked := FlagSays(familyId, redisRead);
      events := Go(k, if revoked then Over(Err(SessionRevoked)) else CheckingRow, All(), redisRead, [], from);
      if revoked { return; }
      events := OthersAct(k, others, events, from);
      revoked := RowSays(familyId);
      events := Go(k, if revoked then Over(Err(SessionRevoked)) else ReadingSession, All(), redisRead, events, from);
    }

    /** RevokeFamily as part of a rotation. */
    method RevokeReused(k: nat, decoded: Token, newJti: string, redisWrite: bool, others: Pc -> seq<Event>, ghost so: seq<Event>, ghost from: State)
      returns (ghost events: seq<Event>)
      requires At(k, decoded, newJti, Revoking) && All() == Reach(from, so)
      modifies this
      ensures At(k, decoded, newJti, Over(Err(TokenReuse))) && All() == Reach(from, events)
      ensures Quiet(others) ==> View() == Revoked(old(View()), decoded.familyId, redisWrite)
    {
      hide Reach, Committed;
      ghost var before := All();
      RevokeRow(decoded.familyId);
      events := Go(k, Flagging, before, redisWrite, so, from);
      events := OthersAct(k, others, events, from);
      before := All();
      SetFlag(decoded.familyId, redisWrite);
      events := Go(k, Over(Err(TokenReuse)), before, redisWrite, events, from);
    }

    /** The three writes, or an error and none of them. */
    method Transaction(k: nat, decoded: Token, newJti: string, session: Session, ghost so: seq<Event>, ghost from: State)
      returns (answer: Answer, ghost events: seq<Event>)
      requires At(k, decoded, newJti, Committing(session)) && All() == Reach(from, so)
      modifies this
      ensures At(k, decoded, newJti, Over(answer)) && All() == Reach(from, events)
      ensures answer == if Aborts(old(View()), decoded, newJti) then Err(DatabaseError)
                        else Ok(Token(decoded.familyId, decoded.userId, newJti, session.rotationCounter + 1))
      ensures View() == if answer.Err? then old(View()) else Committed(old(View()), decoded, newJti, session)
    {
      hide Reach;
      var Token(familyId, userId, jti, _) := decoded;
      ghost var before := All();
      if familyId !in sessions || jti !in history || newJti in history {
        answer := Err(DatabaseError);
      } else {
        var nextCounter := session.rotationCounter + 1;
        history := history[jti := history[jti].(isConsumed := true)];
        history := history[newJti := Record(familyId, userId, nextCounter, false)];
        sessions := sessions[familyId := sessions[familyId].(currentJti := newJti, rotationCounter := nextCounter)];
        rotated := rotated + [decoded];
        answer := Ok(Token(familyId, userId, newJti, nextCounter));
      }
      ReachSnoc(from, so, Advance(k, false));
      calls := calls[k := calls[k].(pc := Over(answer))];
      events := so + [Advance(k, false)];
    }

    /** From the look at the token's history on. */
    method DecideReuse(k: nat, decoded: Token, newJti: string, session: Session, redisWrite: bool, others: Pc -> seq<Event>, ghost so: seq<Event>, ghost from: State)
      returns (answer: Answer, ghost events: seq<Event>)
      requires At(k, decoded, newJti, ReadingRecord(session)) && All() == Reach(from, so)
      modifies this
      ensures At(k, decoded, newJti, Over(answer)) && All() == Reach(from, events)
      ensures Quiet(others) ==> Decides(old(View()), decoded, newJti, session, redisWrite, View(), answer)
    {
      hide Reach, Committed, Revoked;
      var jti := decoded.jti;
      var isAlreadyConsumed := jti in history && history[jti].isConsumed;
      var isOutdatedJti := session.currentJti != jti;
      if isAlreadyConsumed || isOutdatedJti {
        events := Go(k, Revoking, All(), false, so, from);
        events := OthersAct(k, others, events, from);
        events := RevokeReused(k, decoded, newJti, redisWrite, others, events, from);
        return Err(TokenReuse), events;
      }
      events := Go(k, Committing(session), All(), false, so, from);
      events := OthersAct(k, others, events, from);
      answer, events := Transaction(k, decoded, newJti, session, events, from);
    }

    /**
      One call, with others acting between any two of its operations on the stores, is a run
      of the protocol that ends with its answer; when no one interferes it is a rotation.
     */
    method RotateRefreshToken(k: nat, decoded: Token, newJti: string, redisRead: bool, redisWrite: bool, others: Pc -> seq<Event>)
      returns (answer: Answer, ghost events: seq<Event>)
      requires At(k, decoded, newJti, CheckingFlag)
      modifies this
      ensures At(k, decoded, newJti, Over(answer)) && All() == Reach(old(All()), events)
      ensures Quiet(others) ==> (View(), answer) == Perform(old(View()), Rotate(decoded, newJti, redisRead, redisWrite))
    {
      hide Reach, DoRotate, IsFamilyRevoked, Decides;
      ghost var from := All();
      ReachNothing(from);
      ByDecision(View(), decoded, newJti, redisRead, redisWrite);
      var familyId := decoded.familyId;
      var revoked;
      revoked, events := CheckFamily(k, decoded, newJti, redisRead, others, from);
      if revoked { return Err(SessionRevoked), events; }
      events := OthersAct(k, others, events, from);
      if familyId !in sessions || sessions[familyId].isRevoked {
        events := Go(k, Over(Err(SessionRevoked)), All(), false, events, from);
        return Err(SessionRevoked), events;
      }
      var session := sessions[familyId];
      events := Go(k, ReadingRecord(session), All(), false, events, from);
      events := OthersAct(k, others, events, from);
      answer, events := DecideReuse(k, decoded, newJti, session, redisWrite, others, events, from);
    }
  }

  ghost predicate Quiet(others: Pc -> seq<Event>) {
    forall pc :: others(pc) == []
  }

  /** What becomes of a call that has read this session row and is not disturbed from then on. */
  predicate Decides(w: World, t: Token, newJti: string, session: Session, redisWrite: bool, v: World, answer: Answer) {
    if (t.jti in w.history && w.history[t.jti].isConsumed) || session.currentJti != t.jti
    then v == Revoked(w, t.familyId, redisWrite) && answer == Err(TokenReuse)
    else if Aborts(w, t, newJti) then v == w && answer == Err(DatabaseError)
    else v == Committed(w, t, newJti, session) && answer == Ok(Token(t.familyId, t.userId, newJti, session.rotationCounter + 1))
  }

  lemma ByDecision(w: World, t: Token, newJti: string, redisRead: bool, redisWrite: bool)
    ensures IsFamilyRevoked(w, t.familyId, redisRead) || t.familyId !in w.sessions || w.sessions[t.familyId].isRevoked
            ==> DoRotate(w, t, newJti, redisRead, redisWrite) == (w, Err(SessionRevoked))
    ensures !IsFamilyRevoked(w, t.familyId, redisRead) && t.familyId in w.sessions && !w.sessions[t.familyId].isRevoked
            ==> forall v, answer :: Decides(w, t, newJti, w.sessions[t.familyId], redisWrite, v, answer)
                  ==> (v, answer) == DoRotate(w, t, newJti, redisRead, redisWrite)
  {
    hide IsFamilyRevoked, Revoked;
  }

  lemma ReachNothing(s: State)
    ensures Reach(s, []) == s
  {
  }

  lemma ReachSnoc(s: State, events: seq<Event>, e: Event)
    ensures Reach(s, events + [e]) == Step(Reach(s, events), e)
  {
    hide Step;
    assert (events + [e])[..|events|] == events;
  }

  lemma OthersLeave(s: State, e: Event, k: nat)
    requires k < |s.calls| && !(e.Advance? && e.call == k)
    ensures k < |Step(s, e).calls| && Step(s, e).calls[k] == s.calls[k]
  {
    hide Move, Commits, DoCreate, Revoked;
  }
}
