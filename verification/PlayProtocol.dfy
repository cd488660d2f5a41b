/** Play sessions as one shared state: the read and commit halves of src/use_cases/play_game_usecase.ts
    and the timeout sweeps of src/use_cases/play_manager_usecase.ts, in any interleaving.

    Every transaction is one step. What a request read earlier waits in `requests`, possibly for long,
    and its commit half may run at any later time, even more than once. */
module PlayProtocol {
  import opened Common

  type Id = nat

  datatype SessionState = READY | PLAYING | FINISHED

  datatype PlayResult = WIN | LOSS | DISCONNECTED

  datatype Session = Session(
    playerId: Id,
    arcadeMachineId: Id,
    arcadeMachineOwnerId: Id,
    maxPlayCount: Option<nat>,
    targetScore: int,
    state: SessionState
  )

  /** `version` is the updatedAt column. */
  datatype Play = Play(
    playSessionId: Id,
    ended: bool,
    score: Option<int>,
    result: Option<PlayResult>,
    playerTerasReward: nat,
    ownerTerasReward: nat,
    megaSpark: bool,
    version: nat
  )

  /** `placed` says whether the machine stands in a game center. */
  datatype Machine = Machine(energy: int, maxEnergy: int, feverSparkRemain: Option<int>, placed: bool)

  datatype Notice = MegaSparkNotice(arcadeMachineId: Id) | MegaSparkUpcomingNotice(arcadeMachineId: Id)

  /** Teras for the player and the machine's owner, as calculateEmitReward and the boosters give them. */
  datatype Reward = Reward(player: nat, owner: nat)

  /** How far finishPlay has come before its transaction. */
  datatype Stage = Loaded | Checked | Counted(playCount: nat)

  datatype Request =
    | StartRequest(sessionId: Id)
    | ProgressRequest(playId: Id, version: nat, progress: Option<int>)
    | FinishRequest(sessionId: Id, session: Session, playId: Id, machine: Machine, score: int, emitted: Reward, stage: Stage)
    | FinishSessionRequest(sessionId: Id)

  /** `external` keeps the net Teras that came and went by other parts of the system. */
  datatype State = State(
    sessions: map<Id, Session>,
    plays: map<Id, Play>,
    machines: map<Id, Machine>,
    balances: map<Id, int>,
    notices: multiset<Notice>,
    requests: map<Id, Request>,
    clock: nat,
    external: int
  )

  // ----- What the database enforces on every transaction -----

  const FEVER_SPARK_MAX_COUNT := 30

  predicate OneActiveSession(sessions: map<Id, Session>) {
    forall a, b :: a in sessions && b in sessions && a != b && !sessions[a].state.FINISHED? && !sessions[b].state.FINISHED? ==>
      sessions[a].playerId != sessions[b].playerId && sessions[a].arcadeMachineId != sessions[b].arcadeMachineId
  }

  predicate FeverInRange(machines: map<Id, Machine>) {
    forall m <- machines :: machines[m].feverSparkRemain.Some? ==> 0 <= machines[m].feverSparkRemain.value <= FEVER_SPARK_MAX_COUNT
  }

  predicate NoDebts(balances: map<Id, int>) {
    forall u <- balances :: balances[u] >= 0
  }

  predicate Constraints(s: State) {
    OneActiveSession(s.sessions) && FeverInRange(s.machines) && NoDebts(s.balances)
  }

  /** A transaction that would break a constraint is rolled back. */
  function Accept(s: State, s': State): State {
    if Constraints(s') then s' else s
  }

  // ----- startPlaySession -----

  /** The abandonment transaction: the player's open plays are DISCONNECTED, his sessions FINISHED. */
  function Abandon(s: State, playerId: Id): State {
    Accept(s, Abandoned(s, playerId))
  }

  function Abandoned(s: State, playerId: Id): State {
    s.(
      plays := map p | p in s.plays ::
        if s.plays[p].result.None? && PlayedBy(s, s.plays[p].playSessionId, playerId)
        then s.plays[p].(result := Some(DISCONNECTED), version := s.clock)
        else s.plays[p],
      sessions := map i | i in s.sessions ::
        if s.sessions[i].playerId == playerId then s.sessions[i].(state := FINISHED) else s.sessions[i],
      clock := s.clock + 1)
  }

  predicate PlayedBy(s: State, sessionId: Id, playerId: Id) {
    sessionId in s.sessions && s.sessions[sessionId].playerId == playerId
  }

  predicate CanCreate(s: State, sessionId: Id, session: Session) {
    && sessionId !in s.sessions
    && session.state.READY?
    && session.playerId in s.balances
    && session.arcadeMachineOwnerId in s.balances
    && session.arcadeMachineId in s.machines
  }

  function CreateSession(s: State, sessionId: Id, session: Session): State {
    if CanCreate(s, sessionId, session) then Accept(s, s.(sessions := s.sessions[sessionId := session]))
    else s
  }

  // ----- startPlay -----

  function PlaysOf(plays: map<Id, Play>, sessionId: Id): set<Id> {
    set p | p in plays && plays[p].playSessionId == sessionId
  }

  function OpenPlaysOf(plays: map<Id, Play>, sessionId: Id): set<Id> {
    set p | p in plays && plays[p].playSessionId == sessionId && plays[p].result.None?
  }

  function AddRequest(s: State, requestId: Id, request: Request): State {
    if requestId in s.requests then s else s.(requests := s.requests[requestId := request])
  }

  /** A limit of zero is falsy and so is no limit at this check. */
  predicate PlaysUsedUp(s: State, sessionId: Id)
    requires sessionId in s.sessions
  {
    match s.sessions[sessionId].maxPlayCount
    case Some(max) => max != 0 && max <= |PlaysOf(s.plays, sessionId)|
    case None => false
  }

  function ReadStart(s: State, requestId: Id, sessionId: Id): State {
    if && sessionId in s.sessions
       && s.sessions[sessionId].state.READY?
       && (forall p <- PlaysOf(s.plays, sessionId) :: s.plays[p].ended)
       && !PlaysUsedUp(s, sessionId)
    then AddRequest(s, requestId, StartRequest(sessionId))
    else s
  }

  function Started(s: State, sessionId: Id, playId: Id): State
    requires sessionId in s.sessions
  {
    s.(
      sessions := s.sessions[sessionId := s.sessions[sessionId].(state := PLAYING)],
      plays := s.plays[playId := Play(sessionId, false, None, None, 0, 0, false, s.clock)],
      clock := s.clock + 1)
  }

  function CommitStart(s: State, requestId: Id, playId: Id): State {
    if requestId in s.requests && s.requests[requestId].StartRequest? then
      var sessionId := s.requests[requestId].sessionId;
      if sessionId in s.sessions && s.sessions[sessionId].state.READY? && playId !in s.plays
      then Accept(s, Started(s, sessionId, playId))
      else s
    else s
  }

  // ----- inProgress -----

  /** getCurrentPlayWithSession: a play without an end in a PLAYING session. */
  predicate IsCurrentPlay(s: State, sessionId: Id, playId: Id) {
    && sessionId in s.sessions && s.sessions[sessionId].state.PLAYING?
    && playId in s.plays && s.plays[playId].playSessionId == sessionId && !s.plays[playId].ended
  }

  function ReadProgress(s: State, requestId: Id, sessionId: Id, playId: Id, score: Option<int>): State {
    if IsCurrentPlay(s, sessionId, playId)
    then AddRequest(s, requestId, ProgressRequest(playId, s.plays[playId].version, score))
    else s
  }

  function Progressed(s: State, r: Request): State
    requires r.ProgressRequest? && r.playId in s.plays
  {
    s.(
      plays := s.plays[r.playId := s.plays[r.playId].(
        result := None,
        score := if r.progress.Some? then r.progress else s.plays[r.playId].score,
        version := s.clock)],
      clock := s.clock + 1)
  }

  /** Writes `result: null`, guarded by the version alone. */
  function CommitProgress(s: State, requestId: Id): State {
    if requestId in s.requests && s.requests[requestId].ProgressRequest? then
      var r := s.requests[requestId];
      if r.playId in s.plays && s.plays[r.playId].version == r.version
      then Accept(s, Progressed(s, r))
      else s
    else s
  }

  // ----- finishPlay -----

  const SPARKED_ENERGY := 4000
  const MEGA_SPARK_UPCOMING_COUNT := 1
  const MEGA_SPARKED_REWARD := 500

  predicate IsMegaSparkUpcoming(energy: int, maxEnergy: int) {
    energy != maxEnergy && SPARKED_ENERGY * MEGA_SPARK_UPCOMING_COUNT + energy >= maxEnergy
  }

  datatype Spark = NONE | UPCOMING | MEGA_SPARK | FEVER_TIME | MISMATCH

  function SparkOf(machine: Machine): Spark {
    var resultEnergy := machine.energy + SPARKED_ENERGY;
    if machine.maxEnergy != machine.energy then
      if resultEnergy >= machine.maxEnergy then MEGA_SPARK
      else if IsMegaSparkUpcoming(resultEnergy, machine.maxEnergy) then UPCOMING
      else NONE
    else if machine.feverSparkRemain.None? then MISMATCH
    else FEVER_TIME
  }

  predicate IsLastFever(machine: Machine) {
    machine.feverSparkRemain == Some(1)
  }

  /** The machine row after a winning play that had seen `seen`; the last fever spark takes the machine out
      of its game center. */
  function Sparked(machine: Machine, seen: Machine): Machine {
    match SparkOf(seen)
    case MEGA_SPARK => machine.(feverSparkRemain := Some(FEVER_SPARK_MAX_COUNT), energy := seen.maxEnergy)
    case FEVER_TIME =>
      machine.(
        feverSparkRemain := if machine.feverSparkRemain.Some? then Some(machine.feverSparkRemain.value - 1) else None,
        placed := machine.placed && !IsLastFever(seen))
    case _ => machine.(energy := machine.energy + SPARKED_ENERGY)
  }

  function NoticesFor(spark: Spark, arcadeMachineId: Id): multiset<Notice> {
    match spark
    case MEGA_SPARK => multiset{MegaSparkNotice(arcadeMachineId)}
    case UPCOMING => multiset{MegaSparkUpcomingNotice(arcadeMachineId)}
    case _ => multiset{}
  }

  function ReadFinish(s: State, requestId: Id, sessionId: Id, playId: Id, score: int, emitted: Reward): State {
    if IsCurrentPlay(s, sessionId, playId) && s.sessions[sessionId].arcadeMachineId in s.machines
    then AddRequest(s, requestId, FinishRequest(
      sessionId, s.sessions[sessionId], playId, s.machines[s.sessions[sessionId].arcadeMachineId], score, emitted, Loaded))
    else s
  }

  /** The second read: the play must have no result yet. */
  function CheckFinish(s: State, requestId: Id): State {
    if requestId in s.requests && s.requests[requestId].FinishRequest? && s.requests[requestId].stage.Loaded? then
      var r := s.requests[requestId];
      if r.playId in s.plays && s.plays[r.playId].result.None?
      then s.(requests := s.requests[requestId := r.(stage := Checked)])
      else s
    else s
  }

  /** The third read: how many plays the session has. */
  function CountFinish(s: State, requestId: Id): State {
    if requestId in s.requests && s.requests[requestId].FinishRequest? && s.requests[requestId].stage.Checked? then
      var r := s.requests[requestId];
      s.(requests := s.requests[requestId := r.(stage := Counted(|PlaysOf(s.plays, r.sessionId)|))])
    else s
  }

  function ResultOf(r: Request): PlayResult
    requires r.FinishRequest?
  {
    if r.session.targetScore <= r.score then WIN else LOSS
  }

  function AfterState(r: Request): SessionState
    requires r.FinishRequest? && r.stage.Counted?
  {
    match r.session.maxPlayCount
    case None => READY
    case Some(max) => if max > r.stage.playCount then READY else FINISHED
  }

  /** What the play row records as paid out. */
  function RewardOf(r: Request): Reward
    requires r.FinishRequest?
  {
    if ResultOf(r).LOSS? then Reward(0, 0)
    else if SparkOf(r.machine).MEGA_SPARK? then r.emitted.(player := MEGA_SPARKED_REWARD)
    else r.emitted
  }

  function Credit(balances: map<Id, int>, user: Id, amount: int): map<Id, int>
    requires user in balances
  {
    balances[user := balances[user] + amount]
  }

  /** The play and session rows of the transaction. */
  function Settled(s: State, r: Request): State
    requires r.FinishRequest? && r.stage.Counted? && r.playId in s.plays && r.sessionId in s.sessions
  {
    s.(
      plays := s.plays[r.playId := s.plays[r.playId].(
        score := Some(r.score),
        ended := true,
        result := Some(ResultOf(r)),
        playerTerasReward := RewardOf(r).player,
        ownerTerasReward := RewardOf(r).owner,
        megaSpark := ResultOf(r).WIN? && SparkOf(r.machine).MEGA_SPARK?,
        version := s.clock)],
      sessions := s.sessions[r.sessionId := s.sessions[r.sessionId].(state := AfterState(r))],
      clock := s.clock + 1)
  }

  /** The balance, machine and notification rows of a winning transaction. */
  function Rewarded(s: State, r: Request): State
    requires r.FinishRequest?
    requires r.session.playerId in s.balances && r.session.arcadeMachineOwnerId in s.balances
    requires r.session.arcadeMachineId in s.machines
  {
    var machineId := r.session.arcadeMachineId;
    s.(
      balances := Credit(Credit(s.balances, r.session.playerId, RewardOf(r).player), r.session.arcadeMachineOwnerId, RewardOf(r).owner),
      machines := s.machines[machineId := Sparked(s.machines[machineId], r.machine)],
      notices := s.notices + NoticesFor(SparkOf(r.machine), machineId))
  }

  /** Every row a winning transaction updates by its guard is still there. */
  predicate WinStillApplies(s: State, r: Request)
    requires r.FinishRequest?
  {
    && !SparkOf(r.machine).MISMATCH?
    && r.session.playerId in s.balances
    && r.session.arcadeMachineOwnerId in s.balances
    && r.session.arcadeMachineId in s.machines
    && s.machines[r.session.arcadeMachineId].energy == r.machine.energy
  }

  function CommitFinish(s: State, requestId: Id): State {
    if requestId in s.requests && s.requests[requestId].FinishRequest? && s.requests[requestId].stage.Counted? then
      var r := s.requests[requestId];
      if !(r.playId in s.plays && s.plays[r.playId].result.None? && r.sessionId in s.sessions) then s
      else if ResultOf(r).LOSS? then Accept(s, Settled(s, r))
      else if WinStillApplies(s, r) then Accept(s, Rewarded(Settled(s, r), r))
      else s
    else s
  }

  // ----- finishPlaySession -----

  function ReadFinishSession(s: State, requestId: Id, sessionId: Id): State {
    if sessionId in s.sessions && s.sessions[sessionId].state.READY?
    then AddRequest(s, requestId, FinishSessionRequest(sessionId))
    else s
  }

  function SessionFinished(s: State, sessionId: Id): State
    requires sessionId in s.sessions
  {
    s.(sessions := s.sessions[sessionId := s.sessions[sessionId].(state := FINISHED)])
  }

  /** The update carries no guard on the state. */
  function CommitFinishSession(s: State, requestId: Id): State {
    if requestId in s.requests && s.requests[requestId].FinishSessionRequest? then
      var sessionId := s.requests[requestId].sessionId;
      if sessionId in s.sessions then Accept(s, SessionFinished(s, sessionId)) else s
    else s
  }

  // ----- Timeout sweeps -----

  /** manageForPlays: plays without an end that were not touched since `target` are DISCONNECTED, then
      PLAYING sessions with a DISCONNECTED play are FINISHED, in one transaction. */
  function SweepPlays(s: State, target: nat): State {
    Accept(s, SweptPlays(s, target))
  }

  function SweptPlays(s: State, target: nat): State {
    var plays := map p | p in s.plays ::
      if !s.plays[p].ended && s.plays[p].version <= target
      then s.plays[p].(result := Some(DISCONNECTED), ended := true, version := s.clock)
      else s.plays[p];
    s.(
      plays := plays,
      sessions := map i | i in s.sessions ::
        if s.sessions[i].state.PLAYING? && exists p <- plays :: plays[p].playSessionId == i && plays[p].result == Some(DISCONNECTED)
        then s.sessions[i].(state := FINISHED)
        else s.sessions[i],
      clock := s.clock + 1)
  }

  /** manageForPlaySessions: READY sessions that waited too long are FINISHED. */
  function SweepSessions(s: State, overdue: set<Id>): State {
    Accept(s, SweptSessions(s, overdue))
  }

  function SweptSessions(s: State, overdue: set<Id>): State {
    s.(sessions := map i | i in s.sessions ::
      if i in overdue && s.sessions[i].state.READY? then s.sessions[i].(state := FINISHED) else s.sessions[i])
  }

  // ----- Everything else that moves Teras -----

  function TerasMoved(s: State, user: Id, amount: int): State
    requires user in s.balances
  {
    s.(balances := Credit(s.balances, user, amount), external := s.external + amount)
  }

  function MoveTeras(s: State, user: Id, amount: int): State {
    if user in s.balances then Accept(s, TerasMoved(s, user, amount)) else s
  }

  // ----- Runs -----

  datatype Event =
    | EvAbandon(playerId: Id)
    | EvCreateSession(sessionId: Id, session: Session)
    | EvReadStart(requestId: Id, sessionId: Id)
    | EvCommitStart(requestId: Id, playId: Id)
    | EvReadProgress(requestId: Id, sessionId: Id, playId: Id, progress: Option<int>)
    | EvCommitProgress(requestId: Id)
    | EvReadFinish(requestId: Id, sessionId: Id, playId: Id, score: int, emitted: Reward)
    | EvCheckFinish(requestId: Id)
    | EvCountFinish(requestId: Id)
    | EvCommitFinish(requestId: Id)
    | EvReadFinishSession(requestId: Id, sessionId: Id)
    | EvCommitFinishSession(requestId: Id)
    | EvSweepPlays(target: nat)
    | EvSweepSessions(overdue: set<Id>)
    | EvMoveTeras(user: Id, amount: int)

  function Step(s: State, e: Event): State {
    match e
    case EvAbandon(player) => Abandon(s, player)
    case EvCreateSession(id, session) => CreateSession(s, id, session)
    case EvReadStart(r, i) => ReadStart(s, r, i)
    case EvCommitStart(r, p) => CommitStart(s, r, p)
    case EvReadProgress(r, i, p, score) => ReadProgress(s, r, i, p, score)
    case EvCommitProgress(r) => CommitProgress(s, r)
    case EvReadFinish(r, i, p, score, emitted) => ReadFinish(s, r, i, p, score, emitted)
    case EvCheckFinish(r) => CheckFinish(s, r)
    case EvCountFinish(r) => CountFinish(s, r)
    case EvCommitFinish(r) => CommitFinish(s, r)
    case EvReadFinishSession(r, i) => ReadFinishSession(s, r, i)
    case EvCommitFinishSession(r) => CommitFinishSession(s, r)
    case EvSweepPlays(target) => SweepPlays(s, target)
    case EvSweepSessions(overdue) => SweepSessions(s, overdue)
    case EvMoveTeras(user, amount) => MoveTeras(s, user, amount)
  }

  function Run(s: State, events: seq<Event>): State {
    if events == [] then s else Step(Run(s, events[..|events| - 1]), events[|events| - 1])
  }

  /** No plays yet, and machines as they leave the workshop: empty, and with room for energy. */
  predicate Init(s: State) {
    && s.sessions == map[] && s.plays == map[] && s.requests == map[] && s.notices == multiset{} && s.external == 0
    && (forall m <- s.machines :: s.machines[m].energy == 0 < s.machines[m].maxEnergy && s.machines[m].feverSparkRemain.None?)
    && NoDebts(s.balances)
  }
}
