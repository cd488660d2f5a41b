/** The transaction of finishPlay as src/use_cases/play_game_usecase.ts puts it together: a list of
    guarded updates, carried out one by one and rolled back when one of them finds no row. The list
    amounts to the single step CommitFinish of the protocol. */
module PlayTransactions {
  import opened Common
  import opened PlayProtocol
  import opened PlaySafety

  datatype Query =
    | IncrementTeras(userId: Id, amount: int)
    | AddEnergy(arcadeMachineId: Id, energyRead: int)
    | DecrementFever(arcadeMachineId: Id, energyRead: int, isLastFever: bool)
    | FillEnergy(arcadeMachineId: Id, energyRead: int, maxEnergy: int)
    | CreateNotification(notice: Notice)
    | UpdatePlay(playId: Id, sessionId: Id, score: int, result: PlayResult, reward: Reward, afterState: SessionState, megaSpark: bool)

  // ----- What the queries do -----

  predicate MachineUnchanged(s: State, m: Id, energyRead: int) {
    m in s.machines && s.machines[m].energy == energyRead
  }

  /** One update; None when its where clause matches no row. */
  function ApplyQuery(s: State, q: Query): Option<State> {
    match q
    case IncrementTeras(user, amount) =>
      if user in s.balances then Some(s.(balances := Credit(s.balances, user, amount))) else None
    case AddEnergy(m, energyRead) =>
      if MachineUnchanged(s, m, energyRead)
      then Some(s.(machines := s.machines[m := s.machines[m].(energy := s.machines[m].energy + SPARKED_ENERGY)])) else None
    case DecrementFever(m, energyRead, isLastFever) =>
      if MachineUnchanged(s, m, energyRead)
      then
        var remain := s.machines[m].feverSparkRemain;
        Some(s.(machines := s.machines[m := s.machines[m].(
          feverSparkRemain := if remain.Some? then Some(remain.value - 1) else None,
          placed := s.machines[m].placed && !isLastFever)]))
      else None
    case FillEnergy(m, energyRead, maxEnergy) =>
      if MachineUnchanged(s, m, energyRead)
      then Some(s.(machines := s.machines[m := s.machines[m].(
        feverSparkRemain := Some(FEVER_SPARK_MAX_COUNT), energy := maxEnergy)]))
      else None
    case CreateNotification(notice) => Some(s.(notices := s.notices + multiset{notice}))
    case UpdatePlay(p, i, score, result, reward, afterState, megaSpark) =>
      if p in s.plays && s.plays[p].result.None? && i in s.sessions
      then Some(s.(
        plays := s.plays[p := s.plays[p].(
          score := Some(score), ended := true, result := Some(result),
          playerTerasReward := reward.player, ownerTerasReward := reward.owner,
          megaSpark := megaSpark, version := s.clock)],
        sessions := s.sessions[i := s.sessions[i].(state := afterState)],
        clock := s.clock + 1))
      else None
  }

  function ApplyAll(s: State, queries: seq<Query>): Option<State> {
    if queries == [] then Some(s)
    else
      match ApplyAll(s, queries[..|queries| - 1])
      case None => None
      case Some(s') => ApplyQuery(s', queries[|queries| - 1])
  }

  /** All of the queries, or none of them. */
  function Transact(s: State, queries: seq<Query>): State {
    match ApplyAll(s, queries)
    case None => s
    case Some(s') => Accept(s, s')
  }

  lemma ApplyOneMore(s: State, queries: seq<Query>, q: Query)
    ensures ApplyAll(s, queries + [q]) ==
            match ApplyAll(s, queries) case None => None case Some(s') => ApplyQuery(s', q)
  {
  }

  // ----- The list of finishPlay -----

  function MachineQuery(r: Request): Query
    requires r.FinishRequest? && !SparkOf(r.machine).MISMATCH?
  {
    var m := r.session.arcadeMachineId;
    match SparkOf(r.machine)
    case MEGA_SPARK => FillEnergy(m, r.machine.energy, r.machine.maxEnergy)
    case FEVER_TIME => DecrementFever(m, r.machine.energy, IsLastFever(r.machine))
    case _ => AddEnergy(m, r.machine.energy)
  }

  function NoticeQueries(r: Request): seq<Query>
    requires r.FinishRequest?
  {
    match SparkOf(r.machine)
    case MEGA_SPARK => [CreateNotification(MegaSparkNotice(r.session.arcadeMachineId))]
    case UPCOMING => [CreateNotification(MegaSparkUpcomingNotice(r.session.arcadeMachineId))]
    case _ => []
  }

  function PlayQuery(r: Request): Query
    requires r.FinishRequest? && r.stage.Counted?
  {
    UpdatePlay(r.playId, r.sessionId, r.score, ResultOf(r), RewardOf(r), AfterState(r),
               ResultOf(r).WIN? && SparkOf(r.machine).MEGA_SPARK?)
  }

  /** Builds the list: rewards, machine and notifications for a win, and the play in any case. */
  method CreateFinishPlayTransactUpdates(r: Request) returns (transactUpdates: Result<seq<Query>>)
    requires r.FinishRequest? && r.stage.Counted?
    ensures transactUpdates.Err? <==> ResultOf(r).WIN? && SparkOf(r.machine).MISMATCH?
    ensures transactUpdates.Ok? ==> forall s: State :: IsFinish(s, r, Transact(s, transactUpdates.value))
  {
    var queries := [];
    var canRetry := r.session.maxPlayCount.None? || r.session.maxPlayCount.value > r.stage.playCount;
    var afterState := if canRetry then READY else FINISHED;
    var state := NONE;
    var isLastFever := false;
    var reward := Reward(0, 0);
    if r.session.targetScore <= r.score {
      var resultEnergy := r.machine.energy + SPARKED_ENERGY;
      if r.machine.maxEnergy != r.machine.energy {
        if resultEnergy >= r.machine.maxEnergy {
          state := MEGA_SPARK;
        } else if IsMegaSparkUpcoming(resultEnergy, r.machine.maxEnergy) {
          state := UPCOMING;
        }
      } else {
        if r.machine.feverSparkRemain.None? {
          return Err("Data Mismatch.");
        }
        state := FEVER_TIME;
        isLastFever := r.machine.feverSparkRemain.value == 1;
      }
      reward := r.emitted;
      if state == MEGA_SPARK {
        reward := reward.(player := MEGA_SPARKED_REWARD);
      }
      queries := queries + [IncrementTeras(r.session.playerId, reward.player)];
      queries := queries + [IncrementTeras(r.session.arcadeMachineOwnerId, reward.owner)];
      if state == MEGA_SPARK {
        queries := queries + [FillEnergy(r.session.arcadeMachineId, r.machine.energy, r.machine.maxEnergy)];
      } else if state == FEVER_TIME {
        queries := queries + [DecrementFever(r.session.arcadeMachineId, r.machine.energy, isLastFever)];
      } else {
        queries := queries + [AddEnergy(r.session.arcadeMachineId, r.machine.energy)];
      }
      if state == MEGA_SPARK {
        queries := queries + [CreateNotification(MegaSparkNotice(r.session.arcadeMachineId))];
      } else if state == UPCOMING {
        queries := queries + [CreateNotification(MegaSparkUpcomingNotice(r.session.arcadeMachineId))];
      }
    }
    queries := queries + [UpdatePlay(
      r.playId, r.sessionId, r.score, if r.session.targetScore <= r.score then WIN else LOSS, reward, afterState,
      state == MEGA_SPARK)];
    forall s: State
      ensures IsFinish(s, r, Transact(s, queries))
    {
      if ResultOf(r).WIN? {
        assert queries == RewardQueries(r) + [PlayQuery(r)];
        WinQueriesAreFinish(s, r);
      } else {
        assert queries == [] + [PlayQuery(r)];
        LossQueryIsFinish(s, r);
      }
    }
    return Ok(queries);
  }

  /** after is what the commit half of finishPlay makes of s for the request r. */
  ghost predicate IsFinish(s: State, r: Request, after: State)
    requires r.FinishRequest? && r.stage.Counted?
  {
    after ==
    if !(r.playId in s.plays && s.plays[r.playId].result.None? && r.sessionId in s.sessions) then s
    else if ResultOf(r).LOSS? then Accept(s, Settled(s, r))
    else if WinStillApplies(s, r) then Accept(s, Rewarded(Settled(s, r), r))
    else s
  }

  lemma LossQueryIsFinish(s: State, r: Request)
    requires r.FinishRequest? && r.stage.Counted? && ResultOf(r).LOSS?
    ensures IsFinish(s, r, Transact(s, [] + [PlayQuery(r)]))
  {
    ApplyOneMore(s, [], PlayQuery(r));
  }

  lemma WinQueriesAreFinish(s: State, r: Request)
    requires r.FinishRequest? && r.stage.Counted? && ResultOf(r).WIN? && !SparkOf(r.machine).MISMATCH?
    ensures IsFinish(s, r, Transact(s, RewardQueries(r) + [PlayQuery(r)]))
  {
    ApplyOneMore(s, RewardQueries(r), PlayQuery(r));
    RewardQueriesReward(s, r);
  }

  function RewardQueries(r: Request): seq<Query>
    requires r.FinishRequest? && !SparkOf(r.machine).MISMATCH?
  {
    [IncrementTeras(r.session.playerId, RewardOf(r).player)]
    + [IncrementTeras(r.session.arcadeMachineOwnerId, RewardOf(r).owner)]
    + [MachineQuery(r)] + NoticeQueries(r)
  }

  /** The two balances, then the machine, then the notifications: prefix by prefix. */
  lemma BalancesCredited(s: State, r: Request)
    requires r.FinishRequest?
    ensures var player := IncrementTeras(r.session.playerId, RewardOf(r).player);
            var owner := IncrementTeras(r.session.arcadeMachineOwnerId, RewardOf(r).owner);
            ApplyAll(s, [player] + [owner]) ==
            if r.session.playerId in s.balances && r.session.arcadeMachineOwnerId in s.balances
            then Some(s.(balances := Credit(
              Credit(s.balances, r.session.playerId, RewardOf(r).player), r.session.arcadeMachineOwnerId, RewardOf(r).owner)))
            else None
  {
    var player := IncrementTeras(r.session.playerId, RewardOf(r).player);
    assert [] + [player] == [player];
    ApplyOneMore(s, [], player);
    ApplyOneMore(s, [player], IncrementTeras(r.session.arcadeMachineOwnerId, RewardOf(r).owner));
  }

  lemma MachineSparked(s: State, r: Request)
    requires r.FinishRequest? && !SparkOf(r.machine).MISMATCH?
    ensures var m := r.session.arcadeMachineId;
            ApplyQuery(s, MachineQuery(r)) ==
            if MachineUnchanged(s, m, r.machine.energy)
            then Some(s.(machines := s.machines[m := Sparked(s.machines[m], r.machine)])) else None
  {
  }

  lemma NoticesCreated(s: State, queries: seq<Query>, r: Request)
    requires r.FinishRequest?
    ensures ApplyAll(s, queries + NoticeQueries(r)) ==
            match ApplyAll(s, queries)
            case None => None
            case Some(s') => Some(s'.(notices := s'.notices + NoticesFor(SparkOf(r.machine), r.session.arcadeMachineId)))
  {
    if NoticeQueries(r) == [] {
      assert queries + NoticeQueries(r) == queries;
      assert ApplyAll(s, queries).Some? ==> var s' := ApplyAll(s, queries).value; s'.notices + multiset{} == s'.notices;
    } else {
      assert NoticeQueries(r) == [NoticeQueries(r)[0]];
      ApplyOneMore(s, queries, NoticeQueries(r)[0]);
    }
  }

  /** All but the last query of a win. */
  lemma RewardQueriesReward(s: State, r: Request)
    requires r.FinishRequest? && ResultOf(r).WIN? && !SparkOf(r.machine).MISMATCH?
    ensures ApplyAll(s, RewardQueries(r)) == if WinStillApplies(s, r) then Some(Rewarded(s, r)) else None
  {
    var two := [IncrementTeras(r.session.playerId, RewardOf(r).player)]
               + [IncrementTeras(r.session.arcadeMachineOwnerId, RewardOf(r).owner)];
    BalancesCredited(s, r);
    ApplyOneMore(s, two, MachineQuery(r));
    if ApplyAll(s, two).Some? {
      MachineSparked(ApplyAll(s, two).value, r);
    }
    NoticesCreated(s, two + [MachineQuery(r)], r);
  }

  // ----- The tables -----

  class PlayTables {
    var db: State

    constructor (db: State)
      ensures this.db == db
    {
      this.db := db;
    }

    /** Carries out the queries in order; one that finds no row undoes those before it. */
    method Transaction(queries: seq<Query>)
      modifies this
      ensures db == Transact(old(db), queries)
    {
      var before := db;
      for i := 0 to |queries|
        invariant ApplyAll(old(db), queries[..i]) == Some(db)
        invariant before == old(db)
      {
        assert queries[..i + 1][..i] == queries[..i];
        var after := ApplyQuery(db, queries[i]);
        if after.None? {
          NoneBefore(old(db), queries, i + 1);
          db := before;
          return;
        }
        db := after.value;
      }
      assert queries[..|queries|] == queries;
      if !Constraints(db) {
        db := before;
      }
    }

    /** The commit half of finishPlay: exactly the protocol's step, and it keeps the invariant. */
    method FinishPlay(requestId: Id) returns (r: Result<()>)
      requires Inv(db) && requestId in db.requests
      requires db.requests[requestId].FinishRequest? && db.requests[requestId].stage.Counted?
      modifies this
      ensures db == CommitFinish(old(db), requestId) && Inv(db)
      ensures r.Err? ==> db == old(db)
    {
      CommitFinishKeepsInv(db, requestId);
      var transactUpdates := CreateFinishPlayTransactUpdates(db.requests[requestId]);
      if transactUpdates.Err? {
        return Err(transactUpdates.message);
      }
      assert IsFinish(db, db.requests[requestId], Transact(db, transactUpdates.value));
      Transaction(transactUpdates.value);
      return Ok(());
    }
  }

  lemma {:induction false} NoneBefore(s: State, queries: seq<Query>, i: nat)
    requires i <= |queries| && ApplyAll(s, queries[..i]).None?
    ensures ApplyAll(s, queries).None?
    decreases |queries| - i
  {
    if i < |queries| {
      assert queries[..i + 1][..i] == queries[..i];
      NoneBefore(s, queries, i + 1);
    } else {
      assert queries[..i] == queries;
    }
  }
}
