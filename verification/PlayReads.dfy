/** What the requests of src/use_cases/play_game_usecase.ts get past and carry on with, what a progress
    report writes, and what the sweeps of src/use_cases/play_manager_usecase.ts leave alone. */
module PlayReads {
  import opened Common
  import opened PlayProtocol
  import opened PlaySafety
  import opened PlayEffects

  /** A session is created only with its player, owner and machine on record, and before its first play. */
  lemma CreatedOnlyWithRows(s: State, id: Id, x: Session)
    requires CreateSession(s, id, x) != s
    ensures id !in s.sessions && x.state.READY?
    ensures x.playerId in s.balances && x.arcadeMachineOwnerId in s.balances && x.arcadeMachineId in s.machines
    ensures CreateSession(s, id, x) == s.(sessions := s.sessions[id := x])
  {
  }

  // ----- startPlay -----

  /** A start gets past its read on a READY session without unended plays, whose limit is none, zero or not
      reached. */
  lemma StartPassesIff(s: State, requestId: Id, i: Id)
    requires requestId !in s.requests
    ensures var plays := set p | p in s.plays && s.plays[p].playSessionId == i;
            ReadStart(s, requestId, i) ==
            if && i in s.sessions && s.sessions[i].state.READY?
               && (forall p <- plays :: s.plays[p].ended)
               && (s.sessions[i].maxPlayCount.None? || s.sessions[i].maxPlayCount == Some(0) || |plays| < s.sessions[i].maxPlayCount.value)
            then s.(requests := s.requests[requestId := StartRequest(i)]) else s
  {
    assert PlaysOf(s.plays, i) == set p | p in s.plays && s.plays[p].playSessionId == i;
  }

  /** In every reachable state the check for READY decides alone: neither a play without an end nor a
      number of plays that is used up ever turns a READY session away. */
  lemma StartPassesIffReady(s: State, requestId: Id, i: Id)
    requires Inv(s) && requestId !in s.requests
    ensures ReadStart(s, requestId, i) ==
            if i in s.sessions && s.sessions[i].state.READY? then s.(requests := s.requests[requestId := StartRequest(i)]) else s
  {
    if i in s.sessions && s.sessions[i].state.READY? {
      assert SessionOk(s, i);
      forall p <- PlaysOf(s.plays, i)
        ensures s.plays[p].ended
      {
        assert PlayOk(s, p);
        assert p !in OpenPlaysOf(s.plays, i);
      }
    }
  }

  // ----- inProgress -----

  /** A report gets past its read on a play of a PLAYING session that has not ended. */
  lemma ProgressPassesIff(s: State, requestId: Id, i: Id, p: Id, score: Option<int>)
    requires requestId !in s.requests
    ensures var after := ReadProgress(s, requestId, i, p, score);
            if i in s.sessions && s.sessions[i].state.PLAYING? && p in s.plays && s.plays[p].playSessionId == i && !s.plays[p].ended
            then after == s.(requests := s.requests[requestId := ProgressRequest(p, s.plays[p].version, score)])
            else after == s
  {
  }

  /** Its commit clears the result whenever it goes through, which by then is clear in every reachable state. */
  lemma ProgressClearsResult(s: State, requestId: Id)
    requires Constraints(s) && requestId in s.requests && s.requests[requestId].ProgressRequest?
    requires var r := s.requests[requestId]; r.playId in s.plays && s.plays[r.playId].version == r.version
    ensures CommitProgress(s, requestId).plays.Keys == s.plays.Keys
    ensures CommitProgress(s, requestId).plays[s.requests[requestId].playId].result.None?
  {
    GuardsDecide(s, requestId, 0);
  }

  /** In every reachable state a report changes nothing but the score, if it has one, and that only if the
      play was not written since the read; a play with a result is never touched. */
  lemma ProgressWritesScore(s: State, requestId: Id)
    requires Inv(s) && Constraints(s) && requestId in s.requests && s.requests[requestId].ProgressRequest?
    ensures var r := s.requests[requestId]; var after := CommitProgress(s, requestId);
            if r.playId in s.plays && s.plays[r.playId].version == r.version then
              && s.plays[r.playId].result.None?
              && after == s.(plays := after.plays, clock := s.clock + 1)
              && after.plays.Keys == s.plays.Keys
              && (forall p <- s.plays :: p != r.playId ==> after.plays[p] == s.plays[p])
              && after.plays[r.playId] == s.plays[r.playId].(score := after.plays[r.playId].score, version := s.clock)
              && after.plays[r.playId].score == (if r.progress.Some? then r.progress else s.plays[r.playId].score)
            else after == s
  {
    GuardsDecide(s, requestId, 0);
    assert RequestOk(s, s.requests[requestId]);
  }

  // ----- finishPlay -----

  /** The first read, likewise, takes the session and the machine along as they are at that moment; in
      reachable states the play has no result then. */
  lemma FinishLoadsIff(s: State, requestId: Id, i: Id, p: Id, score: int, emitted: Reward)
    requires requestId !in s.requests
    ensures var after := ReadFinish(s, requestId, i, p, score, emitted);
            if && i in s.sessions && s.sessions[i].state.PLAYING? && s.sessions[i].arcadeMachineId in s.machines
               && p in s.plays && s.plays[p].playSessionId == i && !s.plays[p].ended
            then
              && (Inv(s) ==> s.plays[p].result.None?)
              && after == s.(requests := s.requests[requestId := FinishRequest(
                   i, s.sessions[i], p, s.machines[s.sessions[i].arcadeMachineId], score, emitted, Loaded)])
            else after == s
  {
    assert Inv(s) ==> PlayOk(s, p);
  }

  /** The other two reads look at the play's result and count the session's plays, one after the other. */
  lemma FinishChecksAndCounts(s: State, requestId: Id)
    requires requestId in s.requests && s.requests[requestId].FinishRequest?
    ensures var r := s.requests[requestId];
            CheckFinish(s, requestId) ==
            if r.stage.Loaded? && r.playId in s.plays && s.plays[r.playId].result.None?
            then s.(requests := s.requests[requestId := r.(stage := Checked)]) else s
    ensures var r := s.requests[requestId]; var after := CountFinish(s, requestId);
            && after == s.(requests := after.requests)
            && (r.stage.Checked? ==>
                  after.requests == s.requests[requestId :=
                    r.(stage := Counted(|set p | p in s.plays && s.plays[p].playSessionId == r.sessionId|))])
            && (!r.stage.Checked? ==> after == s)
  {
    assert PlaysOf(s.plays, s.requests[requestId].sessionId) ==
           set p | p in s.plays && s.plays[p].playSessionId == s.requests[requestId].sessionId;
  }

  // ----- finishPlaySession -----

  /** The read asks for READY; the commit, whatever has happened since, leaves the session FINISHED. */
  lemma FinishSessionIs(s: State, requestId: Id, i: Id)
    requires Constraints(s)
    ensures requestId !in s.requests ==>
              ReadFinishSession(s, requestId, i) ==
              if i in s.sessions && s.sessions[i].state.READY?
              then s.(requests := s.requests[requestId := FinishSessionRequest(i)]) else s
    ensures requestId in s.requests && s.requests[requestId] == FinishSessionRequest(i) && i in s.sessions ==>
              CommitFinishSession(s, requestId) == s.(sessions := s.sessions[i := s.sessions[i].(state := FINISHED)])
  {
    if requestId in s.requests {
      GuardsDecide(s, requestId, 0);
    }
  }

  // ----- Timeouts -----

  predicate IsCutOff(plays: map<Id, Play>, i: Id) {
    exists p <- plays :: plays[p].playSessionId == i && plays[p].result == Some(DISCONNECTED)
  }

  /** The sweep over plays finishes the PLAYING sessions whose play is disconnected, and no other session,
      and touches nothing beside plays and sessions. */
  lemma SweptPlaysEndSessions(s: State, target: nat)
    requires Constraints(s)
    ensures var after := SweepPlays(s, target);
            && after == s.(plays := after.plays, sessions := after.sessions, clock := s.clock + 1)
            && after.sessions.Keys == s.sessions.Keys
            && forall i <- s.sessions ::
                 after.sessions[i] == if s.sessions[i].state.PLAYING? && IsCutOff(after.plays, i)
                                      then s.sessions[i].(state := FINISHED) else s.sessions[i]
  {
    SweepIsAccepted(s, target);
  }

  /** The sweep over sessions finishes exactly the READY ones that are overdue. */
  lemma SweptSessionsWereReady(s: State, overdue: set<Id>)
    requires Constraints(s)
    ensures var after := SweepSessions(s, overdue);
            && after == s.(sessions := after.sessions)
            && after.sessions.Keys == s.sessions.Keys
            && forall i <- s.sessions ::
                 after.sessions[i] == if i in overdue && s.sessions[i].state.READY?
                                      then s.sessions[i].(state := FINISHED) else s.sessions[i]
  {
    EndingIsAccepted(s, 0, 0, overdue);
  }
}
