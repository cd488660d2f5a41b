/** What the transaction of finishPlay in src/use_cases/play_game_usecase.ts does to every row it touches,
    in the numbers of the request: who is paid what, what the play records, what becomes of the machine. */
module FinishEffects {
  import opened Common
  import opened PlayProtocol
  import opened PlayEffects

  // ----- The request in numbers -----

  predicate Wins(r: Request)
    requires r.FinishRequest?
  {
    r.session.targetScore <= r.score
  }

  /** The machine that was read was full before. */
  predicate WasFull(r: Request)
    requires r.FinishRequest?
  {
    r.machine.energy == r.machine.maxEnergy
  }

  /** 4000 more fill it up. */
  predicate FillsUp(r: Request)
    requires r.FinishRequest?
  {
    !WasFull(r) && r.machine.maxEnergy <= r.machine.energy + 4000
  }

  /** 4000 more do not, but 8000 would. */
  predicate FillsUpNext(r: Request)
    requires r.FinishRequest?
  {
    !WasFull(r) && r.machine.energy + 4000 < r.machine.maxEnergy <= r.machine.energy + 8000
  }

  predicate MayPlayOn(r: Request)
    requires r.FinishRequest? && r.stage.Counted?
  {
    r.session.maxPlayCount.None? || r.stage.playCount < r.session.maxPlayCount.value
  }

  function PlayerIsPaid(r: Request): nat
    requires r.FinishRequest?
  {
    if !Wins(r) then 0 else if FillsUp(r) then 500 else r.emitted.player
  }

  function OwnerIsPaid(r: Request): nat
    requires r.FinishRequest?
  {
    if Wins(r) then r.emitted.owner else 0
  }

  // ----- When the transaction goes through -----

  predicate TakesEffect(s: State, requestId: Id) {
    requestId in s.requests && s.requests[requestId].FinishRequest? && CommitFinish(s, requestId) != s
  }

  /** Its rows must still be there: the play without a result, for a win the balances and the machine with
      the energy that was read and, if it was full, a fever spark left. And a session that goes on must not
      have been finished and replaced meanwhile. */
  lemma FinishTakesEffectIff(s: State, requestId: Id)
    requires Constraints(s) && requestId in s.requests && s.requests[requestId].FinishRequest?
    ensures var r := s.requests[requestId];
            TakesEffect(s, requestId) <==>
              && r.stage.Counted?
              && r.playId in s.plays && s.plays[r.playId].result.None?
              && r.sessionId in s.sessions
              && (MayPlayOn(r) && s.sessions[r.sessionId].state.FINISHED? ==>
                    forall i <- s.sessions :: i != r.sessionId && !s.sessions[i].state.FINISHED? ==>
                      && s.sessions[i].playerId != s.sessions[r.sessionId].playerId
                      && s.sessions[i].arcadeMachineId != s.sessions[r.sessionId].arcadeMachineId)
              && (Wins(r) ==>
                    && r.session.playerId in s.balances && r.session.arcadeMachineOwnerId in s.balances
                    && r.session.arcadeMachineId in s.machines
                    && s.machines[r.session.arcadeMachineId].energy == r.machine.energy
                    && (WasFull(r) ==>
                          r.machine.feverSparkRemain.Some? && s.machines[r.session.arcadeMachineId].feverSparkRemain != Some(0)))
  {
    var r := s.requests[requestId];
    if GuardsHold(s, r) {
      FinishRefusedIff(s, requestId);
      assert Settled(s, r).clock == s.clock + 1;
      assert ReopensReplaced(s, r) <==> MayPlayOn(r) && s.sessions[r.sessionId].state.FINISHED? && HasActiveRival(s, r.sessionId, s.sessions[r.sessionId]);
    }
  }

  /** The rows after it, by the functions of the protocol. */
  lemma FinishIs(s: State, requestId: Id)
    requires Constraints(s) && TakesEffect(s, requestId)
    ensures var r := s.requests[requestId];
            && GuardsHold(s, r)
            && CommitFinish(s, requestId) == if ResultOf(r).WIN? then Rewarded(Settled(s, r), r) else Settled(s, r)
  {
    FinishRefusedIff(s, requestId);
  }

  // ----- What it does -----

  /** The play records its score, its result and what was paid, and no other play changes. */
  lemma FinishRecordsPlay(s: State, requestId: Id)
    requires Constraints(s) && TakesEffect(s, requestId)
    ensures var r := s.requests[requestId];
            var before, after := s.plays, CommitFinish(s, requestId).plays;
            && r.playId in before && after.Keys == before.Keys
            && (forall p <- before :: p != r.playId ==> after[p] == before[p])
            && var play := after[r.playId];
               && play.playSessionId == before[r.playId].playSessionId
               && play.ended && play.score == Some(r.score)
               && play.result == Some(if Wins(r) then WIN else LOSS)
               && play.playerTerasReward == PlayerIsPaid(r) && play.ownerTerasReward == OwnerIsPaid(r)
               && play.megaSpark == (Wins(r) && FillsUp(r))
               && play.version == s.clock
  {
    FinishIs(s, requestId);
  }

  /** The player's balance rises by what the player is paid and the owner's by what the owner is, by both if
      the machine is the player's own; a loss moves nothing, and nobody else is paid. */
  lemma FinishPays(s: State, requestId: Id)
    requires Constraints(s) && TakesEffect(s, requestId)
    ensures var r := s.requests[requestId];
            var before, after := s.balances, CommitFinish(s, requestId).balances;
            && after.Keys == before.Keys
            && forall u <- before :: after[u] == before[u]
                                     + (if u == r.session.playerId then PlayerIsPaid(r) else 0)
                                     + (if u == r.session.arcadeMachineOwnerId then OwnerIsPaid(r) else 0)
  {
    FinishIs(s, requestId);
  }

  /** A win fills the machine up or adds 4000 or, if it was full, uses one of 30 fever sparks; the one read
      as the last takes the machine out of its game center. */
  lemma FinishSparksMachine(s: State, requestId: Id)
    requires Constraints(s) && TakesEffect(s, requestId)
    ensures var r := s.requests[requestId];
            var id := r.session.arcadeMachineId;
            var before, after := s.machines, CommitFinish(s, requestId).machines;
            && after.Keys == before.Keys
            && (forall m <- before :: m != id || !Wins(r) ==> after[m] == before[m])
            && (Wins(r) ==>
                  && id in before && before[id].energy == r.machine.energy
                  && after[id].maxEnergy == before[id].maxEnergy
                  && after[id].energy == (if WasFull(r) then r.machine.energy
                                          else if FillsUp(r) then r.machine.maxEnergy else r.machine.energy + 4000)
                  && after[id].feverSparkRemain == (if FillsUp(r) then Some(30)
                                                    else if WasFull(r) && before[id].feverSparkRemain.Some?
                                                    then Some(before[id].feverSparkRemain.value - 1)
                                                    else before[id].feverSparkRemain)
                  && (after[id].placed <==> before[id].placed && !(WasFull(r) && r.machine.feverSparkRemain == Some(1))))
  {
    FinishIs(s, requestId);
  }

  /** The session goes on while plays are left; a mega spark and the win before it are announced; nothing
      else changes. */
  lemma FinishSettlesSession(s: State, requestId: Id)
    requires Constraints(s) && TakesEffect(s, requestId)
    ensures var r := s.requests[requestId];
            var before, after := s.sessions, CommitFinish(s, requestId).sessions;
            && r.stage.Counted? && r.sessionId in before
            && after == before[r.sessionId := before[r.sessionId].(state := if MayPlayOn(r) then READY else FINISHED)]
    ensures var r := s.requests[requestId]; var after := CommitFinish(s, requestId);
            && after.notices == s.notices
                 + (if Wins(r) && FillsUp(r) then multiset{MegaSparkNotice(r.session.arcadeMachineId)}
                    else if Wins(r) && FillsUpNext(r) then multiset{MegaSparkUpcomingNotice(r.session.arcadeMachineId)}
                    else multiset{})
            && after.requests == s.requests && after.external == s.external && after.clock == s.clock + 1
  {
    FinishIs(s, requestId);
    assert s.notices + multiset{} == s.notices;
  }
}
