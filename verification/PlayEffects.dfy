/** What the steps of the play protocol bring about, beside what they keep: abandoning frees the player,
    a sweep ends what timed out, a start opens the one play, and a play is finished once. */
module PlayEffects {
  import opened Common
  import opened PlayProtocol
  import opened PlaySafety

  predicate IsActive(s: State, i: Id) {
    i in s.sessions && !s.sessions[i].state.FINISHED?
  }

  // ----- What the constraints refuse -----

  /** Abandoning and the timeout sweeps never break a constraint. */
  lemma EndingIsAccepted(s: State, player: Id, target: nat, overdue: set<Id>)
    requires Constraints(s)
    ensures Abandon(s, player) == Abandoned(s, player)
    ensures SweepPlays(s, target) == SweptPlays(s, target)
    ensures SweepSessions(s, overdue) == SweptSessions(s, overdue)
  {
    AbandonIsAccepted(s, player);
    SweepIsAccepted(s, target);
    assert OneActiveSession(SweptSessions(s, overdue).sessions);
  }

  lemma SweepIsAccepted(s: State, target: nat)
    requires Constraints(s)
    ensures SweepPlays(s, target) == SweptPlays(s, target)
  {
    assert OneActiveSession(SweptPlays(s, target).sessions);
  }

  /** Neither does a start, a progress report, or finishing a session: their guards decide alone. */
  lemma GuardsDecide(s: State, requestId: Id, playId: Id)
    requires Constraints(s) && requestId in s.requests
    ensures s.requests[requestId].FinishSessionRequest? ==>
              var i := s.requests[requestId].sessionId;
              CommitFinishSession(s, requestId) == if i in s.sessions then SessionFinished(s, i) else s
    ensures s.requests[requestId].ProgressRequest? ==>
              var r := s.requests[requestId];
              CommitProgress(s, requestId) ==
              if r.playId in s.plays && s.plays[r.playId].version == r.version then Progressed(s, r) else s
    ensures s.requests[requestId].StartRequest? ==>
              var i := s.requests[requestId].sessionId;
              CommitStart(s, requestId, playId) ==
              if i in s.sessions && s.sessions[i].state.READY? && playId !in s.plays then Started(s, i, playId) else s
  {
    var r := s.requests[requestId];
    if r.FinishSessionRequest? && r.sessionId in s.sessions {
      assert OneActiveSession(SessionFinished(s, r.sessionId).sessions);
    }
    if r.StartRequest? && r.sessionId in s.sessions && s.sessions[r.sessionId].state.READY? {
      assert OneActiveSession(Started(s, r.sessionId, playId).sessions);
    }
  }

  /** Another active session of the same player or on the same machine. */
  predicate HasActiveRival(s: State, i: Id, x: Session) {
    exists j <- s.sessions :: j != i && IsActive(s, j)
                              && (s.sessions[j].playerId == x.playerId || s.sessions[j].arcadeMachineId == x.arcadeMachineId)
  }

  lemma ActiveUnlessRival(s: State, i: Id, x: Session)
    requires OneActiveSession(s.sessions) && !x.state.FINISHED?
    ensures OneActiveSession(s.sessions[i := x]) <==> !HasActiveRival(s, i, x)
  {
    var after := s.sessions[i := x];
    if OneActiveSession(after) {
      forall j <- s.sessions | j != i && IsActive(s, j)
        ensures s.sessions[j].playerId != x.playerId && s.sessions[j].arcadeMachineId != x.arcadeMachineId
      {
        assert after[j] == s.sessions[j] && after[i] == x;
      }
    } else {
      var a, b :| a in after && b in after && a != b && !after[a].state.FINISHED? && !after[b].state.FINISHED?
                  && !(after[a].playerId != after[b].playerId && after[a].arcadeMachineId != after[b].arcadeMachineId);
      var j := if a == i then b else a;
      assert j != i && IsActive(s, j) && after[j] == s.sessions[j];
    }
  }

  /** A session is refused exactly while another one of its player or on its machine is active. */
  lemma CreateRefusedIff(s: State, id: Id, x: Session)
    requires Constraints(s) && CanCreate(s, id, x)
    ensures CreateSession(s, id, x) == if HasActiveRival(s, id, x) then s else s.(sessions := s.sessions[id := x])
  {
    ActiveUnlessRival(s, id, x);
  }

  /** A movement of Teras is refused exactly if it would leave a debt. */
  lemma MoveRefusedIff(s: State, user: Id, amount: int)
    requires Constraints(s) && user in s.balances
    ensures MoveTeras(s, user, amount) == if s.balances[user] + amount < 0 then s else TerasMoved(s, user, amount)
  {
    if s.balances[user] + amount < 0 {
      var after := s.balances[user := s.balances[user] + amount];
      assert user in after && after[user] < 0;
    }
  }

  /** The transaction of finishPlay, its guards met. */
  predicate GuardsHold(s: State, r: Request) {
    && r.FinishRequest? && r.stage.Counted?
    && r.playId in s.plays && s.plays[r.playId].result.None? && r.sessionId in s.sessions
    && (ResultOf(r).WIN? ==> WinStillApplies(s, r))
  }

  /** It would take a fever spark where none is left. */
  predicate FeverIsUsedUp(s: State, r: Request)
    requires GuardsHold(s, r)
  {
    ResultOf(r).WIN? && SparkOf(r.machine).FEVER_TIME? && s.machines[r.session.arcadeMachineId].feverSparkRemain == Some(0)
  }

  /** It would make a session READY again that was FINISHED meanwhile and has been replaced. */
  predicate ReopensReplaced(s: State, r: Request)
    requires GuardsHold(s, r)
  {
    AfterState(r).READY? && s.sessions[r.sessionId].state.FINISHED? && HasActiveRival(s, r.sessionId, s.sessions[r.sessionId])
  }

  /** When its guards are met, finishing a play is refused, and its rewards are lost, exactly in these
      two cases. */
  lemma FinishRefusedIff(s: State, requestId: Id)
    requires Constraints(s) && requestId in s.requests && GuardsHold(s, s.requests[requestId])
    ensures var r := s.requests[requestId];
            CommitFinish(s, requestId) ==
            if FeverIsUsedUp(s, r) || ReopensReplaced(s, r) then s
            else if ResultOf(r).WIN? then Rewarded(Settled(s, r), r) else Settled(s, r)
  {
    var r := s.requests[requestId];
    SessionsAfterFinish(s, r);
    if ResultOf(r).WIN? {
      MachinesAfterWin(s, r);
      BalancesAfterWin(s, r);
    }
  }

  /** The step without any constraints, but for the refusals named above. */
  ghost function Effect(s: State, e: Event): State {
    match e
    case EvAbandon(player) => Abandoned(s, player)
    case EvSweepPlays(target) => SweptPlays(s, target)
    case EvSweepSessions(overdue) => SweptSessions(s, overdue)
    case EvCreateSession(id, x) =>
      if CanCreate(s, id, x) && !HasActiveRival(s, id, x) then s.(sessions := s.sessions[id := x]) else s
    case EvCommitStart(r, p) =>
      if && r in s.requests && s.requests[r].StartRequest? && s.requests[r].sessionId in s.sessions
         && s.sessions[s.requests[r].sessionId].state.READY? && p !in s.plays
      then Started(s, s.requests[r].sessionId, p) else s
    case EvCommitProgress(r) =>
      if && r in s.requests && s.requests[r].ProgressRequest? && s.requests[r].playId in s.plays
         && s.plays[s.requests[r].playId].version == s.requests[r].version
      then Progressed(s, s.requests[r]) else s
    case EvCommitFinish(r) =>
      if r in s.requests && GuardsHold(s, s.requests[r]) && !FeverIsUsedUp(s, s.requests[r]) && !ReopensReplaced(s, s.requests[r])
      then if ResultOf(s.requests[r]).WIN? then Rewarded(Settled(s, s.requests[r]), s.requests[r]) else Settled(s, s.requests[r])
      else s
    case EvCommitFinishSession(r) =>
      if r in s.requests && s.requests[r].FinishSessionRequest? && s.requests[r].sessionId in s.sessions
      then SessionFinished(s, s.requests[r].sessionId) else s
    case EvMoveTeras(user, amount) =>
      if user in s.balances && s.balances[user] + amount >= 0 then TerasMoved(s, user, amount) else s
    case _ => Step(s, e)
  }

  /** In every run the constraints of the database refuse a session beside an active one, a debt, a fever
      spark that is not there and a session reopened after it was replaced, and nothing else. */
  lemma RefusedOnlyThere(s: State, events: seq<Event>, e: Event)
    requires Init(s)
    ensures Step(Run(s, events), e) == Effect(Run(s, events), e)
  {
    RunKeepsConstraints(s, events);
    StepIsEffect(Run(s, events), e);
  }

  lemma StepIsEffect(s: State, e: Event)
    requires Constraints(s)
    ensures Step(s, e) == Effect(s, e)
  {
    match e
    case EvAbandon(player) => EndingIsAccepted(s, player, 0, {});
    case EvSweepPlays(target) => EndingIsAccepted(s, 0, target, {});
    case EvSweepSessions(overdue) => EndingIsAccepted(s, 0, 0, overdue);
    case EvCreateSession(id, x) => if CanCreate(s, id, x) { CreateRefusedIff(s, id, x); }
    case EvCommitStart(r, p) => if r in s.requests { GuardsDecide(s, r, p); }
    case EvCommitProgress(r) => if r in s.requests { GuardsDecide(s, r, 0); }
    case EvCommitFinishSession(r) => if r in s.requests { GuardsDecide(s, r, 0); }
    case EvCommitFinish(r) => FinishIsEffect(s, r);
    case EvMoveTeras(user, amount) => if user in s.balances { MoveRefusedIff(s, user, amount); }
    case _ =>
  }

  lemma FinishIsEffect(s: State, r: Id)
    requires Constraints(s)
    ensures CommitFinish(s, r) == Effect(s, EvCommitFinish(r))
  {
    if r in s.requests && GuardsHold(s, s.requests[r]) {
      FinishRefusedIff(s, r);
    }
  }

  lemma {:induction false} RunKeepsConstraints(s: State, events: seq<Event>)
    requires Init(s)
    ensures Constraints(Run(s, events))
  {
    if events != [] {
      RunKeepsConstraints(s, events[..|events| - 1]);
      StepKeepsConstraints(Run(s, events[..|events| - 1]), events[|events| - 1]);
    }
  }

  lemma StepKeepsConstraints(s: State, e: Event)
    requires Constraints(s)
    ensures Constraints(Step(s, e))
  {
  }

  lemma SessionsAfterFinish(s: State, r: Request)
    requires Constraints(s) && GuardsHold(s, r)
    ensures OneActiveSession(Settled(s, r).sessions) <==> !ReopensReplaced(s, r)
  {
    var x := s.sessions[r.sessionId].(state := AfterState(r));
    if AfterState(r).READY? {
      ActiveUnlessRival(s, r.sessionId, x);
      if IsActive(s, r.sessionId) {
        assert !HasActiveRival(s, r.sessionId, x);
      }
    }
  }

  lemma MachinesAfterWin(s: State, r: Request)
    requires Constraints(s) && GuardsHold(s, r) && ResultOf(r).WIN?
    ensures FeverInRange(Rewarded(Settled(s, r), r).machines) <==> !FeverIsUsedUp(s, r)
  {
    var id := r.session.arcadeMachineId;
    var machines := s.machines[id := Sparked(s.machines[id], r.machine)];
    assert Rewarded(Settled(s, r), r).machines == machines;
    if FeverIsUsedUp(s, r) {
      assert machines[id].feverSparkRemain == Some(-1);
    }
  }

  lemma BalancesAfterWin(s: State, r: Request)
    requires Constraints(s) && GuardsHold(s, r) && ResultOf(r).WIN?
    ensures NoDebts(Rewarded(Settled(s, r), r).balances)
  {
  }

  // ----- startPlaySession -----

  /** After abandonment the player has no active session and no open play, and nobody else lost one. */
  lemma AbandonFreesPlayer(s: State, player: Id)
    requires Constraints(s)
    ensures var after := Abandon(s, player);
            && (forall i :: IsActive(after, i) <==> IsActive(s, i) && s.sessions[i].playerId != player)
            && (forall p <- s.plays :: p in after.plays && after.plays[p].result ==
                  if s.plays[p].result.None? && PlayedBy(s, s.plays[p].playSessionId, player)
                  then Some(DISCONNECTED) else s.plays[p].result)
            && after.balances == s.balances && after.machines == s.machines
            && after.sessions.Keys == s.sessions.Keys && (forall i <- s.sessions :: SameTerms(after.sessions[i], s.sessions[i]))
            && Constraints(after)
  {
    AbandonIsAccepted(s, player);
  }

  lemma AbandonIsAccepted(s: State, player: Id)
    requires Constraints(s)
    ensures Constraints(Abandoned(s, player)) && Abandon(s, player) == Abandoned(s, player)
  {
    assert OneActiveSession(Abandoned(s, player).sessions);
  }

  /** A session is then created exactly when nobody else plays on the machine. */
  lemma CreatedIffMachineFree(s: State, player: Id, id: Id, x: Session)
    requires Constraints(s)
    requires x.playerId == player && x.state.READY? && id !in s.sessions
    requires player in s.balances && x.arcadeMachineOwnerId in s.balances && x.arcadeMachineId in s.machines
    ensures var free := Abandon(s, player);
            id in CreateSession(free, id, x).sessions
            <==> forall i :: IsActive(s, i) && s.sessions[i].arcadeMachineId == x.arcadeMachineId ==> s.sessions[i].playerId == player
  {
    AbandonFreesPlayer(s, player);
    ActiveAfterCreating(s, Abandon(s, player), player, id, x);
  }

  lemma ActiveAfterCreating(s: State, free: State, player: Id, id: Id, x: Session)
    requires Constraints(free) && id !in s.sessions && free.sessions.Keys == s.sessions.Keys
    requires forall i :: IsActive(free, i) <==> IsActive(s, i) && s.sessions[i].playerId != player
    requires forall i <- s.sessions :: SameTerms(free.sessions[i], s.sessions[i])
    requires x.playerId == player && x.state.READY?
    ensures OneActiveSession(free.sessions[id := x])
       <==> forall i :: IsActive(s, i) && s.sessions[i].arcadeMachineId == x.arcadeMachineId ==> s.sessions[i].playerId == player
  {
    var created := free.sessions[id := x];
    if forall i :: IsActive(s, i) && s.sessions[i].arcadeMachineId == x.arcadeMachineId ==> s.sessions[i].playerId == player {
      forall a, b | a in created && b in created && a != b && !created[a].state.FINISHED? && !created[b].state.FINISHED?
        ensures created[a].playerId != created[b].playerId && created[a].arcadeMachineId != created[b].arcadeMachineId
      {
        assert a == id || IsActive(free, a);
        assert b == id || IsActive(free, b);
      }
    } else {
      var i: Id :| IsActive(s, i) && s.sessions[i].arcadeMachineId == x.arcadeMachineId && s.sessions[i].playerId != player;
      assert IsActive(free, i) && created[i].arcadeMachineId == created[id].arcadeMachineId;
    }
  }

  // ----- startPlay -----

  /** The guard on READY decides alone, and what it lets through is the session's only open play. */
  lemma StartsIffReady(s: State, requestId: Id, playId: Id)
    requires Inv(s) && Constraints(s) && playId !in s.plays
    requires requestId in s.requests && s.requests[requestId].StartRequest?
    ensures var i := s.requests[requestId].sessionId;
            var after := CommitStart(s, requestId, playId);
            && (playId in after.plays <==> i in s.sessions && s.sessions[i].state.READY?)
            && (playId in after.plays ==> after.sessions[i].state.PLAYING? && OpenPlaysOf(after.plays, i) == {playId})
            && (playId !in after.plays ==> after == s)
  {
    var i := s.requests[requestId].sessionId;
    if i in s.sessions && s.sessions[i].state.READY? {
      assert SessionOk(s, i);
      var sessions := s.sessions[i := s.sessions[i].(state := PLAYING)];
      assert OneActiveSession(sessions);
      var after := CommitStart(s, requestId, playId);
      assert after.sessions == sessions;
      assert OpenPlaysOf(after.plays, i) == OpenPlaysOf(s.plays, i) + {playId};
    }
  }

  // ----- Timeouts -----

  /** After a sweep exactly the plays that were open and untouched since the target have ended in
      addition, and no session is left PLAYING on a disconnected play. */
  lemma SweepEndsTimedOut(s: State, target: nat)
    requires Constraints(s)
    ensures var after := SweepPlays(s, target);
            && after.plays.Keys == s.plays.Keys
            && (forall p <- s.plays ::
                  if !s.plays[p].ended && s.plays[p].version <= target
                  then after.plays[p].ended && after.plays[p].result == Some(DISCONNECTED)
                  else after.plays[p] == s.plays[p])
            && (forall p <- after.plays :: after.plays[p].result == Some(DISCONNECTED) && after.plays[p].playSessionId in after.sessions ==>
                  !after.sessions[after.plays[p].playSessionId].state.PLAYING?)
  {
    SweepIsAccepted(s, target);
  }

  // ----- finishPlay -----

  /** Of all the finishes of one play, in whatever requests and however late, one has an effect. */
  lemma FinishedOnce(s: State, events: seq<Event>, more: seq<Event>, id: Id, other: Id)
    requires Init(s)
    requires var before := Run(s, events); id in before.requests && before.requests[id].FinishRequest?
    requires CommitFinish(Run(s, events), id) != Run(s, events)
    requires var later := Run(s, events + [EvCommitFinish(id)] + more);
             other in later.requests && later.requests[other].FinishRequest?
             && later.requests[other].playId == Run(s, events).requests[id].playId
    ensures var later := Run(s, events + [EvCommitFinish(id)] + more); CommitFinish(later, other) == later
  {
    var before := Run(s, events);
    var committed := events + [EvCommitFinish(id)];
    assert committed[..|committed| - 1] == events;
    assert Run(s, committed) == CommitFinish(before, id);
    var p := before.requests[id].playId;
    assert Run(s, committed).plays[p].result.Some?;
    ResultsNeverChange(s, committed, more, p);
  }

  // ----- finishPlaySession -----

  /** Once the last allowed play has finished the session, asking to finish the session is turned away, and
      nothing that comes after that goes on. */
  lemma LastPlayEndsSession(s: State, id: Id, requestId: Id)
    requires id in s.requests && GuardsHold(s, s.requests[id]) && CommitFinish(s, id) != s
    requires AfterState(s.requests[id]).FINISHED?
    ensures var after := CommitFinish(s, id); var i := s.requests[id].sessionId;
            after.sessions[i].state.FINISHED? && ReadFinishSession(after, requestId, i) == after
  {
  }

  /** Two overlapping calls both get past the read, and the second commit goes through like the first. */
  lemma BothCallsPass(s: State, one: Id, other: Id, i: Id)
    requires Constraints(s) && i in s.sessions && s.sessions[i].state.READY?
    requires one !in s.requests && other !in s.requests && one != other
    ensures var read := ReadFinishSession(ReadFinishSession(s, one, i), other, i);
            var first := CommitFinishSession(read, one);
            && first == SessionFinished(read, i)
            && other in first.requests && CommitFinishSession(first, other) == SessionFinished(first, i)
  {
    var read := ReadFinishSession(ReadFinishSession(s, one, i), other, i);
    assert read.sessions == s.sessions;
    GuardsDecide(read, one, 0);
    GuardsDecide(SessionFinished(read, i), other, 0);
  }

  /** A session of one play, and tables with one machine and one player. */
  const ONE_PLAY: Session := Session(0, 0, 0, Some(1), 10, READY)
  const TABLES: State := State(map[], map[], map[0 := Machine(0, 100000, None, true)], map[0 := 0], multiset{}, map[], 0, 0)

  lemma OnePlayStarted()
    ensures var s := CommitStart(ReadStart(CreateSession(TABLES, 0, ONE_PLAY), 0, 0), 0, 0);
            s == AfterStart()
  {
    var s1 := CreateSession(TABLES, 0, ONE_PLAY);
    assert s1 == TABLES.(sessions := map[0 := ONE_PLAY]);
    assert PlaysOf(s1.plays, 0) == {};
    var s2 := ReadStart(s1, 0, 0);
    assert s2 == s1.(requests := map[0 := StartRequest(0)]);
  }

  function AfterStart(): State {
    TABLES.(sessions := map[0 := ONE_PLAY.(state := PLAYING)],
            plays := map[0 := Play(0, false, None, None, 0, 0, false, 0)],
            requests := map[0 := StartRequest(0)], clock := 1)
  }

  function WinningFinish(stage: Stage): Request {
    FinishRequest(0, ONE_PLAY.(state := PLAYING), 0, Machine(0, 100000, None, true), 10, Reward(5, 5), stage)
  }

  function Asked(stage: Stage): State {
    AfterStart().(requests := map[0 := StartRequest(0), 1 := WinningFinish(stage)])
  }

  lemma OnePlayAsked()
    ensures Step(AfterStart(), EvReadFinish(1, 0, 0, 10, Reward(5, 5))) == Asked(Loaded)
    ensures Step(Asked(Loaded), EvCheckFinish(1)) == Asked(Checked)
  {
  }

  lemma OnePlayCounted()
    ensures Step(Asked(Checked), EvCountFinish(1)) == Asked(Counted(1))
  {
    assert PlaysOf(AfterStart().plays, 0) == {0};
  }

  lemma Goes(s: State, events: seq<Event>, e: Event, before: State, after: State)
    requires Run(s, events) == before && Step(before, e) == after
    ensures Run(s, events + [e]) == after
  {
    RunLast(s, events, e);
  }

  /** A player wins in the only play of a session; the session is over, and no call of finishPlaySession gets
      past its read. */
  lemma WonInLastPlay()
    ensures var s := Run(TABLES, [EvCreateSession(0, ONE_PLAY), EvReadStart(0, 0), EvCommitStart(0, 0)]
                                 + [EvReadFinish(1, 0, 0, 10, Reward(5, 5))] + [EvCheckFinish(1)] + [EvCountFinish(1)] + [EvCommitFinish(1)]);
            && 0 in s.plays && s.plays[0].result == Some(WIN)
            && 0 in s.sessions && s.sessions[0].state.FINISHED?
            && forall requestId :: ReadFinishSession(s, requestId, 0) == s
  {
    var start := [EvCreateSession(0, ONE_PLAY), EvReadStart(0, 0), EvCommitStart(0, 0)];
    OnePlayRun();
    OnePlayAsked();
    OnePlayCounted();
    OnePlayWon();
    var read := start + [EvReadFinish(1, 0, 0, 10, Reward(5, 5))];
    Goes(TABLES, start, EvReadFinish(1, 0, 0, 10, Reward(5, 5)), AfterStart(), Asked(Loaded));
    Goes(TABLES, read, EvCheckFinish(1), Asked(Loaded), Asked(Checked));
    Goes(TABLES, read + [EvCheckFinish(1)], EvCountFinish(1), Asked(Checked), Asked(Counted(1)));
    Goes(TABLES, read + [EvCheckFinish(1)] + [EvCountFinish(1)], EvCommitFinish(1), Asked(Counted(1)), OnePlayEnd());
  }

  function OnePlayEnd(): State {
    Step(Asked(Counted(1)), EvCommitFinish(1))
  }

  lemma OnePlayRun()
    ensures Run(TABLES, [EvCreateSession(0, ONE_PLAY), EvReadStart(0, 0), EvCommitStart(0, 0)]) == AfterStart()
  {
    RunOfThree(TABLES, EvCreateSession(0, ONE_PLAY), EvReadStart(0, 0), EvCommitStart(0, 0));
    OnePlayStarted();
  }

  lemma OnePlayWon()
    ensures var after := OnePlayEnd();
            && 0 in after.plays && after.plays[0].result == Some(WIN)
            && 0 in after.sessions && after.sessions[0].state.FINISHED?
            && forall requestId :: ReadFinishSession(after, requestId, 0) == after
  {
    FinishRefusedIff(Asked(Counted(1)), 1);
  }
}
