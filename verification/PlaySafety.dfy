/** What every run of the play protocol keeps: one open play per session and no more plays than
    allowed, results that never change, Teras that match the recorded rewards, and a machine whose
    energy follows from its wins. */
module PlaySafety {
  import opened Collections
  import opened Common
  import opened PlayProtocol
  import Sums

  // ----- The invariant -----

  /** How many plays a session may ever have; a limit of zero still lets one start. */
  function AllowedPlays(x: Session): Option<nat> {
    match x.maxPlayCount
    case None => None
    case Some(max) => Some(if max == 0 then 1 else max)
  }

  ghost predicate SessionOk(s: State, i: Id) {
    i in s.sessions ==>
      var x := s.sessions[i];
      var all, open := PlaysOf(s.plays, i), OpenPlaysOf(s.plays, i);
      && |open| <= 1
      && (AllowedPlays(x).Some? ==> |all| <= AllowedPlays(x).value)
      && (x.state.READY? ==> open == {} && (AllowedPlays(x).Some? ==> |all| < AllowedPlays(x).value))
      && (x.state.PLAYING? ==> |open| == 1)
  }

  ghost predicate PlayOk(s: State, p: Id) {
    p in s.plays ==>
      var y := s.plays[p];
      && y.playSessionId in s.sessions
      && y.version < s.clock
      && (y.result.None? ==> !y.ended && !y.megaSpark && y.playerTerasReward == 0 == y.ownerTerasReward)
      && (!y.ended && y.result.Some? ==>
            y.result == Some(DISCONNECTED) && s.sessions[y.playSessionId].state.FINISHED?
            && OpenPlaysOf(s.plays, y.playSessionId) == {})
  }

  predicate SameTerms(x: Session, y: Session) {
    x == y.(state := x.state)
  }

  ghost predicate RequestOk(s: State, r: Request) {
    match r
    case ProgressRequest(p, version, _) =>
      p in s.plays && version <= s.plays[p].version && (version == s.plays[p].version ==> s.plays[p].result.None?)
    case FinishRequest(i, x, p, machine, _, _, stage) =>
      && i in s.sessions && SameTerms(x, s.sessions[i])
      && p in s.plays && s.plays[p].playSessionId == i
      && x.arcadeMachineId in s.machines && machine.maxEnergy == s.machines[x.arcadeMachineId].maxEnergy
      && (stage.Counted? && s.plays[p].result.None? ==> stage.playCount == |PlaysOf(s.plays, i)|)
    case _ => true
  }

  predicate PlayedOn(s: State, p: Id, m: Id) {
    p in s.plays && s.plays[p].playSessionId in s.sessions && s.sessions[s.plays[p].playSessionId].arcadeMachineId == m
  }

  function WinsOn(s: State, m: Id): set<Id> {
    set p | p in s.plays && PlayedOn(s, p, m) && s.plays[p].result == Some(WIN)
  }

  function MegaSparksOn(s: State, m: Id): set<Id> {
    set p | p in s.plays && PlayedOn(s, p, m) && s.plays[p].megaSpark
  }

  /** The energy after so many wins: four thousand each until the tank is full. */
  function EnergyAfter(wins: nat, maxEnergy: int): int {
    if SPARKED_ENERGY * wins < maxEnergy then SPARKED_ENERGY * wins else maxEnergy
  }

  ghost predicate MachineOk(s: State, m: Id) {
    m in s.machines ==>
      var x := s.machines[m];
      var wins := |WinsOn(s, m)|;
      && 0 < x.maxEnergy
      && x.energy == EnergyAfter(wins, x.maxEnergy)
      && (x.feverSparkRemain.Some? <==> x.energy == x.maxEnergy)
      && |MegaSparksOn(s, m)| == s.notices[MegaSparkNotice(m)] == (if x.energy == x.maxEnergy then 1 else 0)
      && s.notices[MegaSparkUpcomingNotice(m)] == if wins >= 1 && SPARKED_ENERGY < x.maxEnergy <= SPARKED_ENERGY * (wins + 1) then 1 else 0
  }

  ghost predicate Inv(s: State) {
    && (forall i {:trigger SessionOk(s, i)} :: SessionOk(s, i))
    && (forall p {:trigger PlayOk(s, p)} :: PlayOk(s, p))
    && (forall id {:trigger s.requests[id]} :: id in s.requests ==> RequestOk(s, s.requests[id]))
    && (forall m {:trigger MachineOk(s, m)} :: MachineOk(s, m))
  }

  // ----- Frames -----

  lemma PlaysOfUpdated(plays: map<Id, Play>, p: Id, y: Play, i: Id)
    requires p in plays && y.playSessionId == plays[p].playSessionId
    ensures PlaysOf(plays[p := y], i) == PlaysOf(plays, i)
    ensures OpenPlaysOf(plays[p := y], i) ==
              if i != y.playSessionId then OpenPlaysOf(plays, i)
              else if y.result.None? then OpenPlaysOf(plays, i) + {p}
              else OpenPlaysOf(plays, i) - {p}
  {
  }

  lemma PlaysOfAdded(plays: map<Id, Play>, p: Id, y: Play, i: Id)
    requires p !in plays && y.result.None?
    ensures PlaysOf(plays[p := y], i) == if i == y.playSessionId then PlaysOf(plays, i) + {p} else PlaysOf(plays, i)
    ensures OpenPlaysOf(plays[p := y], i) == if i == y.playSessionId then OpenPlaysOf(plays, i) + {p} else OpenPlaysOf(plays, i)
  {
  }

  /** Rows rewritten in place: the same plays of the same sessions. */
  ghost predicate SameRows(s: State, s': State) {
    && s'.sessions.Keys == s.sessions.Keys
    && (forall i <- s.sessions :: SameTerms(s'.sessions[i], s.sessions[i]))
    && s'.plays.Keys == s.plays.Keys
    && (forall p <- s.plays :: s'.plays[p].playSessionId == s.plays[p].playSessionId)
  }

  ghost predicate SameOutcome(s: State, s': State) {
    forall p <- s.plays :: p in s'.plays && (s'.plays[p].result == Some(WIN) <==> s.plays[p].result == Some(WIN))
                           && s'.plays[p].megaSpark == s.plays[p].megaSpark
  }

  lemma SamePlaysOf(s: State, s': State, i: Id)
    requires SameRows(s, s')
    ensures PlaysOf(s'.plays, i) == PlaysOf(s.plays, i)
  {
  }

  lemma MachinesUntouched(s: State, s': State, m: Id)
    requires SameRows(s, s') && SameOutcome(s, s')
    requires s'.machines == s.machines && s'.notices == s.notices
    requires MachineOk(s, m)
    ensures MachineOk(s', m)
  {
    assert WinsOn(s', m) == WinsOn(s, m);
    assert MegaSparksOn(s', m) == MegaSparksOn(s, m);
  }

  // ----- Steps that only remember what they read -----

  lemma RequestAdded(s: State, id: Id, r: Request)
    requires Inv(s) && RequestOk(s, r)
    ensures Inv(s.(requests := s.requests[id := r]))
  {
    var s' := s.(requests := s.requests[id := r]);
    forall i {:trigger SessionOk(s', i)} ensures SessionOk(s', i) { assert SessionOk(s, i); }
    forall p {:trigger PlayOk(s', p)} ensures PlayOk(s', p) { assert PlayOk(s, p); }
    forall m {:trigger MachineOk(s', m)}
      ensures MachineOk(s', m)
    {
      assert MachineOk(s, m);
      MachinesUntouched(s, s', m);
    }
    forall q {:trigger s'.requests[q]} | q in s'.requests
      ensures RequestOk(s', s'.requests[q])
    {
      assert q == id || RequestOk(s, s.requests[q]);
    }
  }

  lemma CurrentPlayIsOpen(s: State, sessionId: Id, playId: Id)
    requires Inv(s) && IsCurrentPlay(s, sessionId, playId)
    ensures s.plays[playId].result.None?
  {
    assert PlayOk(s, playId);
  }

  lemma ReadsKeepInv(s: State, e: Event)
    requires Inv(s)
    requires e.EvReadStart? || e.EvReadProgress? || e.EvReadFinish? || e.EvCheckFinish? || e.EvCountFinish? || e.EvReadFinishSession?
    ensures Inv(Step(s, e))
  {
    match e
    case EvReadStart(id, i) =>
      RequestAdded(s, id, StartRequest(i));
    case EvReadFinishSession(id, i) =>
      RequestAdded(s, id, FinishSessionRequest(i));
    case EvReadProgress(id, i, p, score) =>
      if IsCurrentPlay(s, i, p) {
        CurrentPlayIsOpen(s, i, p);
        RequestAdded(s, id, ProgressRequest(p, s.plays[p].version, score));
      }
    case EvReadFinish(id, i, p, score, emitted) =>
      if IsCurrentPlay(s, i, p) && s.sessions[i].arcadeMachineId in s.machines {
        RequestAdded(s, id, FinishRequest(i, s.sessions[i], p, s.machines[s.sessions[i].arcadeMachineId], score, emitted, Loaded));
      }
    case EvCheckFinish(id) =>
      if id in s.requests && s.requests[id].FinishRequest? && s.requests[id].stage.Loaded? {
        RequestAdded(s, id, s.requests[id].(stage := Checked));
      }
    case EvCountFinish(id) =>
      if id in s.requests && s.requests[id].FinishRequest? && s.requests[id].stage.Checked? {
        var r := s.requests[id];
        assert RequestOk(s, r);
        RequestAdded(s, id, r.(stage := Counted(|PlaysOf(s.plays, r.sessionId)|)));
      }
    case _ =>
  }

  // ----- Steps that rewrite session rows -----

  /** Sessions may be FINISHED at any time; nothing else about them changes. */
  ghost predicate OnlyFinishes(s: State, s': State) {
    && s' == s.(sessions := s'.sessions)
    && s'.sessions.Keys == s.sessions.Keys
    && (forall i <- s.sessions :: s'.sessions[i] == s.sessions[i] || s'.sessions[i] == s.sessions[i].(state := FINISHED))
  }

  lemma FinishingKeepsInv(s: State, s': State)
    requires Inv(s) && OnlyFinishes(s, s')
    ensures Inv(s')
  {
    forall i {:trigger SessionOk(s', i)} ensures SessionOk(s', i) { assert SessionOk(s, i); }
    forall p {:trigger PlayOk(s', p)} ensures PlayOk(s', p) { assert PlayOk(s, p); }
    forall m {:trigger MachineOk(s', m)}
      ensures MachineOk(s', m)
    {
      assert MachineOk(s, m);
      MachinesUntouched(s, s', m);
    }
    forall q {:trigger s'.requests[q]} | q in s'.requests
      ensures RequestOk(s', s'.requests[q])
    {
      assert RequestOk(s, s.requests[q]);
    }
  }

  lemma CreateSessionKeepsInv(s: State, i: Id, x: Session)
    requires Inv(s)
    ensures Inv(CreateSession(s, i, x))
  {
    var s' := CreateSession(s, i, x);
    if s' != s {
      NoPlaysYet(s, i);
      forall j {:trigger SessionOk(s', j)} ensures SessionOk(s', j) { assert SessionOk(s, j); }
      forall p {:trigger PlayOk(s', p)} ensures PlayOk(s', p) { assert PlayOk(s, p); }
      forall m {:trigger MachineOk(s', m)}
        ensures MachineOk(s', m)
      {
        assert MachineOk(s, m);
        NewSessionHasNoWins(s, i, x, m);
      }
      forall q {:trigger s'.requests[q]} | q in s'.requests
        ensures RequestOk(s', s'.requests[q])
      {
        assert RequestOk(s, s.requests[q]);
      }
    }
  }

  lemma NoPlaysYet(s: State, i: Id)
    requires Inv(s) && i !in s.sessions
    ensures PlaysOf(s.plays, i) == {} && OpenPlaysOf(s.plays, i) == {}
  {
    forall p <- s.plays
      ensures s.plays[p].playSessionId != i
    {
      assert PlayOk(s, p);
    }
  }

  lemma NewSessionHasNoWins(s: State, i: Id, x: Session, m: Id)
    requires Inv(s) && i !in s.sessions
    ensures var s' := s.(sessions := s.sessions[i := x]); WinsOn(s', m) == WinsOn(s, m) && MegaSparksOn(s', m) == MegaSparksOn(s, m)
  {
    NoPlaysYet(s, i);
    forall p <- s.plays
      ensures PlayedOn(s.(sessions := s.sessions[i := x]), p, m) == PlayedOn(s, p, m)
    {
      assert p !in PlaysOf(s.plays, i);
    }
  }

  // ----- startPlay -----

  lemma CommitStartKeepsInv(s: State, id: Id, p: Id)
    requires Inv(s)
    ensures Inv(CommitStart(s, id, p))
  {
    var s' := CommitStart(s, id, p);
    if s' != s {
      var i := s.requests[id].sessionId;
      var y := Play(i, false, None, None, 0, 0, false, s.clock);
      assert SessionOk(s, i);
      forall j {:trigger SessionOk(s', j)}
        ensures SessionOk(s', j)
      {
        assert SessionOk(s, j);
        PlaysOfAdded(s.plays, p, y, j);
      }
      forall q {:trigger PlayOk(s', q)} ensures PlayOk(s', q) { StartedPlayOk(s, s', i, p, q); }
      forall m {:trigger MachineOk(s', m)} ensures MachineOk(s', m) { StartedMachineOk(s, s', i, p, m); }
      forall q {:trigger s'.requests[q]} | q in s'.requests
        ensures RequestOk(s', s'.requests[q])
      {
        StartedRequestOk(s, s', i, p, s.requests[q]);
      }
    }
  }

  ghost predicate Starts(s: State, s': State, i: Id, p: Id) {
    && Inv(s)
    && i in s.sessions && s.sessions[i].state.READY? && p !in s.plays
    && s' == s.(sessions := s.sessions[i := s.sessions[i].(state := PLAYING)],
                plays := s.plays[p := Play(i, false, None, None, 0, 0, false, s.clock)],
                clock := s.clock + 1)
  }

  lemma StartedPlayOk(s: State, s': State, i: Id, p: Id, q: Id)
    requires Starts(s, s', i, p)
    ensures PlayOk(s', q)
  {
    assert PlayOk(s, q);
    if q in s'.plays {
      PlaysOfAdded(s.plays, p, s'.plays[p], s'.plays[q].playSessionId);
    }
  }

  lemma StartedMachineOk(s: State, s': State, i: Id, p: Id, m: Id)
    requires Starts(s, s', i, p)
    ensures MachineOk(s', m)
  {
    assert MachineOk(s, m);
    forall q
      ensures q in WinsOn(s', m) <==> q in WinsOn(s, m)
      ensures q in MegaSparksOn(s', m) <==> q in MegaSparksOn(s, m)
    {
      assert q != p && q in s.plays ==> PlayedOn(s', q, m) == PlayedOn(s, q, m);
    }
    assert WinsOn(s', m) == WinsOn(s, m);
    assert MegaSparksOn(s', m) == MegaSparksOn(s, m);
  }

  /** A counted request of the session that starts a play cannot still be valid: READY sessions have no open play. */
  lemma StartedRequestOk(s: State, s': State, i: Id, p: Id, r: Request)
    requires Starts(s, s', i, p) && RequestOk(s, r)
    ensures RequestOk(s', r)
  {
    assert SessionOk(s, i);
    if r.FinishRequest? && r.stage.Counted? && s.plays[r.playId].result.None? {
      assert r.playId in OpenPlaysOf(s.plays, r.sessionId);
      PlaysOfAdded(s.plays, p, s'.plays[p], r.sessionId);
    }
  }

  // ----- inProgress -----

  lemma CommitProgressKeepsInv(s: State, id: Id)
    requires Inv(s)
    ensures Inv(CommitProgress(s, id))
  {
    var s' := CommitProgress(s, id);
    if s' != s {
      var p := s.requests[id].playId;
      var y := s'.plays[p];
      assert RequestOk(s, s.requests[id]);
      assert s'.plays == s.plays[p := y];
      assert p in OpenPlaysOf(s.plays, y.playSessionId);
      forall j {:trigger SessionOk(s', j)}
        ensures SessionOk(s', j)
      {
        assert SessionOk(s, j);
        PlaysOfUpdated(s.plays, p, y, j);
        assert OpenPlaysOf(s'.plays, j) == OpenPlaysOf(s.plays, j);
      }
      forall q {:trigger PlayOk(s', q)} | q in s.plays
        ensures PlayOk(s', q)
      {
        assert PlayOk(s, q) && PlayOk(s, p);
        PlaysOfUpdated(s.plays, p, y, s.plays[q].playSessionId);
        assert OpenPlaysOf(s'.plays, s.plays[q].playSessionId) == OpenPlaysOf(s.plays, s.plays[q].playSessionId);
      }
      forall m {:trigger MachineOk(s', m)}
        ensures MachineOk(s', m)
      {
        assert MachineOk(s, m);
        MachinesUntouched(s, s', m);
      }
      forall q {:trigger s'.requests[q]} | q in s'.requests
        ensures RequestOk(s', s'.requests[q])
      {
        assert RequestOk(s, s.requests[q]) && PlayOk(s, p);
        if s.requests[q].FinishRequest? {
          PlaysOfUpdated(s.plays, p, y, s.requests[q].sessionId);
        }
      }
    }
  }

  // ----- finishPlay -----

  /** A request that may still commit: its play is the session's only open one. */
  ghost predicate CanFinish(s: State, r: Request) {
    && Inv(s) && RequestOk(s, r)
    && r.FinishRequest? && r.stage.Counted?
    && r.playId in s.plays && s.plays[r.playId].result.None?
    && r.sessionId in s.sessions
  }

  lemma SettledSessionsOk(s: State, r: Request, s': State, j: Id)
    requires CanFinish(s, r)
    requires s'.sessions == Settled(s, r).sessions && s'.plays == Settled(s, r).plays
    ensures SessionOk(s', j)
  {
    var p, i := r.playId, r.sessionId;
    assert SessionOk(s, j) && SessionOk(s, i);
    PlaysOfUpdated(s.plays, p, s'.plays[p], j);
    assert p in OpenPlaysOf(s.plays, i) && p in PlaysOf(s.plays, i);
    if j == i {
      SingletonIs(OpenPlaysOf(s.plays, i), p);
      assert OpenPlaysOf(s'.plays, i) == {};
    }
  }

  lemma SettledPlaysOk(s: State, r: Request, s': State, q: Id)
    requires CanFinish(s, r)
    requires s'.sessions == Settled(s, r).sessions && s'.plays == Settled(s, r).plays && s'.clock == s.clock + 1
    ensures PlayOk(s', q)
  {
    var p, i := r.playId, r.sessionId;
    assert PlayOk(s, q) && PlayOk(s, p);
    assert p in OpenPlaysOf(s.plays, i);
    if q in s.plays {
      PlaysOfUpdated(s.plays, p, s'.plays[p], s.plays[q].playSessionId);
    }
  }

  lemma SettledRequestsOk(s: State, r: Request, s': State, other: Request)
    requires CanFinish(s, r) && RequestOk(s, other)
    requires s'.sessions == Settled(s, r).sessions && s'.plays == Settled(s, r).plays
    requires s'.machines.Keys == s.machines.Keys && forall m <- s.machines :: s'.machines[m].maxEnergy == s.machines[m].maxEnergy
    ensures RequestOk(s', other)
  {
    assert PlayOk(s, r.playId);
    if other.FinishRequest? {
      PlaysOfUpdated(s.plays, r.playId, s'.plays[r.playId], other.sessionId);
    }
  }

  lemma LossKeepsInv(s: State, r: Request)
    requires CanFinish(s, r) && ResultOf(r).LOSS?
    ensures Inv(Settled(s, r))
  {
    var s' := Settled(s, r);
    forall j {:trigger SessionOk(s', j)} ensures SessionOk(s', j) { SettledSessionsOk(s, r, s', j); }
    forall q {:trigger PlayOk(s', q)} ensures PlayOk(s', q) { SettledPlaysOk(s, r, s', q); }
    forall m {:trigger MachineOk(s', m)}
      ensures MachineOk(s', m)
    {
      assert MachineOk(s, m) && PlayOk(s, r.playId);
      MachinesUntouched(s, s', m);
    }
    forall q {:trigger s'.requests[q]} | q in s'.requests
      ensures RequestOk(s', s'.requests[q])
    {
      SettledRequestsOk(s, r, s', s.requests[q]);
    }
  }

  lemma WinCounts(s: State, r: Request, m: Id)
    requires CanFinish(s, r) && ResultOf(r).WIN?
    ensures |WinsOn(Settled(s, r), m)| == |WinsOn(s, m)| + (if m == r.session.arcadeMachineId then 1 else 0)
  {
    var s' := Settled(s, r);
    var p := r.playId;
    assert PlayOk(s, p);
    forall q
      ensures q in WinsOn(s', m) <==> q in WinsOn(s, m) || (q == p && m == r.session.arcadeMachineId)
    {
      assert q in s.plays ==> PlayedOn(s', q, m) == PlayedOn(s, q, m);
      assert PlayedOn(s, p, m) <==> m == r.session.arcadeMachineId;
    }
    assert WinsOn(s', m) == if m == r.session.arcadeMachineId then WinsOn(s, m) + {p} else WinsOn(s, m);
  }

  lemma MegaSparkCounts(s: State, r: Request, m: Id)
    requires CanFinish(s, r) && ResultOf(r).WIN?
    ensures |MegaSparksOn(Settled(s, r), m)|
         == |MegaSparksOn(s, m)| + (if m == r.session.arcadeMachineId && SparkOf(r.machine).MEGA_SPARK? then 1 else 0)
  {
    var s' := Settled(s, r);
    var p := r.playId;
    assert PlayOk(s, p);
    var here := m == r.session.arcadeMachineId && SparkOf(r.machine).MEGA_SPARK?;
    forall q
      ensures q in MegaSparksOn(s', m) <==> q in MegaSparksOn(s, m) || (q == p && here)
    {
      assert q in s.plays ==> PlayedOn(s', q, m) == PlayedOn(s, q, m);
      assert PlayedOn(s, p, m) <==> m == r.session.arcadeMachineId;
    }
    assert MegaSparksOn(s', m) == if here then MegaSparksOn(s, m) + {p} else MegaSparksOn(s, m);
  }

  lemma WonMachineOk(s: State, r: Request, m: Id)
    requires CanFinish(s, r) && ResultOf(r).WIN?
    requires WinStillApplies(s, r)
    ensures MachineOk(Rewarded(Settled(s, r), r), m)
  {
    var s1 := Settled(s, r);
    var s' := Rewarded(s1, r);
    assert MachineOk(s, m);
    WinCounts(s, r, m);
    MegaSparkCounts(s, r, m);
    assert WinsOn(s', m) == WinsOn(s1, m);
    assert MegaSparksOn(s', m) == MegaSparksOn(s1, m);
    if m in s.machines && m != r.session.arcadeMachineId {
      assert s'.machines[m] == s.machines[m];
      assert s'.notices[MegaSparkNotice(m)] == s.notices[MegaSparkNotice(m)];
      assert s'.notices[MegaSparkUpcomingNotice(m)] == s.notices[MegaSparkUpcomingNotice(m)];
    }
  }

  lemma WinKeepsInv(s: State, r: Request)
    requires CanFinish(s, r) && ResultOf(r).WIN?
    requires WinStillApplies(s, r)
    ensures Inv(Rewarded(Settled(s, r), r))
  {
    var s' := Rewarded(Settled(s, r), r);
    forall j {:trigger SessionOk(s', j)} ensures SessionOk(s', j) { SettledSessionsOk(s, r, s', j); }
    forall q {:trigger PlayOk(s', q)} ensures PlayOk(s', q) { SettledPlaysOk(s, r, s', q); }
    forall m {:trigger MachineOk(s', m)} ensures MachineOk(s', m) { WonMachineOk(s, r, m); }
    forall q {:trigger s'.requests[q]} | q in s'.requests
      ensures RequestOk(s', s'.requests[q])
    {
      SettledRequestsOk(s, r, s', s.requests[q]);
    }
  }

  lemma CommitFinishKeepsInv(s: State, id: Id)
    requires Inv(s)
    ensures Inv(CommitFinish(s, id))
  {
    if CommitFinish(s, id) != s {
      var r := s.requests[id];
      assert RequestOk(s, r);
      if ResultOf(r).LOSS? {
        LossKeepsInv(s, r);
      } else {
        WinKeepsInv(s, r);
      }
    }
  }

  // ----- Abandonment and the timeout sweep -----

  /** Open plays, or plays abandoned before, become DISCONNECTED, and a PLAYING session that loses its
      open play is FINISHED. */
  ghost predicate Disconnects(s: State, s': State) {
    && s' == s.(sessions := s'.sessions, plays := s'.plays, clock := s.clock + 1)
    && SameRows(s, s')
    && (forall i <- s.sessions :: s'.sessions[i] == s.sessions[i] || s'.sessions[i] == s.sessions[i].(state := FINISHED))
    && (forall i <- s.sessions :: s.sessions[i].state.PLAYING? && s'.sessions[i].state.PLAYING? ==>
          OpenPlaysOf(s'.plays, i) == OpenPlaysOf(s.plays, i))
    && (forall p <- s.plays :: s'.plays[p] == s.plays[p] || Disconnected(s.plays[p], s'.plays[p], s.clock))
  }

  predicate Disconnected(before: Play, after: Play, clock: nat) {
    !before.ended && after == before.(result := Some(DISCONNECTED), ended := after.ended, version := clock)
  }

  lemma DisconnectedSessionOk(s: State, s': State, i: Id)
    requires Inv(s) && Disconnects(s, s')
    ensures SessionOk(s', i)
  {
    assert SessionOk(s, i);
    SamePlaysOf(s, s', i);
    assert OpenPlaysOf(s'.plays, i) <= OpenPlaysOf(s.plays, i);
    SubsetSize(OpenPlaysOf(s'.plays, i), OpenPlaysOf(s.plays, i));
  }

  lemma DisconnectedPlayOk(s: State, s': State, p: Id)
    requires Inv(s) && Disconnects(s, s')
    ensures PlayOk(s', p)
  {
    assert PlayOk(s, p);
    if p in s.plays {
      var i := s.plays[p].playSessionId;
      assert SessionOk(s, i);
      assert OpenPlaysOf(s'.plays, i) <= OpenPlaysOf(s.plays, i);
      if s.plays[p].result.None? && s'.plays[p] != s.plays[p] {
        assert p in OpenPlaysOf(s.plays, i);
        SingletonIs(OpenPlaysOf(s.plays, i), p);
        assert OpenPlaysOf(s'.plays, i) == {};
        assert !s'.sessions[i].state.PLAYING? && !s.sessions[i].state.READY?;
      }
    }
  }

  lemma DisconnectedRequestOk(s: State, s': State, r: Request)
    requires Inv(s) && Disconnects(s, s') && RequestOk(s, r)
    ensures RequestOk(s', r)
  {
    match r
    case FinishRequest(i, _, p, _, _, _, _) =>
      SamePlaysOf(s, s', i);
    case ProgressRequest(p, _, _) =>
      assert PlayOk(s, p);
    case _ =>
  }

  lemma DisconnectingKeepsInv(s: State, s': State)
    requires Inv(s) && Disconnects(s, s')
    ensures Inv(s')
  {
    forall j {:trigger SessionOk(s', j)} ensures SessionOk(s', j) { DisconnectedSessionOk(s, s', j); }
    forall q {:trigger PlayOk(s', q)} ensures PlayOk(s', q) { DisconnectedPlayOk(s, s', q); }
    forall m {:trigger MachineOk(s', m)}
      ensures MachineOk(s', m)
    {
      assert MachineOk(s, m);
      DisconnectingKeepsOutcome(s, s');
      MachinesUntouched(s, s', m);
    }
    forall q {:trigger s'.requests[q]} | q in s'.requests
      ensures RequestOk(s', s'.requests[q])
    {
      assert RequestOk(s, s.requests[q]);
      DisconnectedRequestOk(s, s', s.requests[q]);
    }
  }

  lemma DisconnectingKeepsOutcome(s: State, s': State)
    requires Inv(s) && Disconnects(s, s')
    ensures SameOutcome(s, s')
    ensures forall p <- s.plays :: s.plays[p].result.Some? ==> s'.plays[p].result == s.plays[p].result
  {
    forall p <- s.plays
      ensures s'.plays[p].result == Some(WIN) <==> s.plays[p].result == Some(WIN)
      ensures s.plays[p].result.Some? ==> s'.plays[p].result == s.plays[p].result
    {
      assert PlayOk(s, p);
    }
  }

  lemma AbandonDisconnects(s: State, playerId: Id)
    requires Inv(s)
    ensures Abandon(s, playerId) == s || Disconnects(s, Abandon(s, playerId))
  {
    var s' := Abandon(s, playerId);
    if s' != s {
      forall p <- s.plays
        ensures s'.plays[p] == s.plays[p] || Disconnected(s.plays[p], s'.plays[p], s.clock)
      {
        assert PlayOk(s, p);
      }
      forall i <- s.sessions | s'.sessions[i].state.PLAYING?
        ensures OpenPlaysOf(s'.plays, i) == OpenPlaysOf(s.plays, i)
      {
      }
    }
  }

  lemma SweptKeepsOpen(s: State, target: nat, i: Id)
    requires i in s.sessions && SweptPlays(s, target).sessions[i].state.PLAYING?
    ensures OpenPlaysOf(SweptPlays(s, target).plays, i) == OpenPlaysOf(s.plays, i)
  {
    var s' := SweptPlays(s, target);
    forall p <- s.plays | s.plays[p].playSessionId == i
      ensures s'.plays[p] == s.plays[p]
    {
      assert s'.plays[p].result != Some(DISCONNECTED);
    }
  }

  lemma SweepDisconnects(s: State, target: nat)
    requires Inv(s)
    ensures SweepPlays(s, target) == s || Disconnects(s, SweepPlays(s, target))
  {
    forall i <- s.sessions | SweptPlays(s, target).sessions[i].state.PLAYING?
      ensures OpenPlaysOf(SweptPlays(s, target).plays, i) == OpenPlaysOf(s.plays, i)
    {
      SweptKeepsOpen(s, target, i);
    }
    assert Disconnects(s, SweptPlays(s, target));
  }

  // ----- Every run -----

  lemma StepKeepsInv(s: State, e: Event)
    requires Inv(s)
    ensures Inv(Step(s, e))
  {
    match e
    case EvAbandon(player) =>
      AbandonDisconnects(s, player);
      if Abandon(s, player) != s { DisconnectingKeepsInv(s, Abandon(s, player)); }
    case EvSweepPlays(target) =>
      SweepDisconnects(s, target);
      if SweepPlays(s, target) != s { DisconnectingKeepsInv(s, SweepPlays(s, target)); }
    case EvCreateSession(i, x) => CreateSessionKeepsInv(s, i, x);
    case EvCommitStart(r, p) => CommitStartKeepsInv(s, r, p);
    case EvCommitProgress(r) => CommitProgressKeepsInv(s, r);
    case EvCommitFinish(r) => CommitFinishKeepsInv(s, r);
    case EvCommitFinishSession(r) =>
      if CommitFinishSession(s, r) != s { FinishingKeepsInv(s, CommitFinishSession(s, r)); }
    case EvSweepSessions(overdue) =>
      if SweepSessions(s, overdue) != s { FinishingKeepsInv(s, SweepSessions(s, overdue)); }
    case EvMoveTeras(user, amount) => MovingKeepsInv(s, user, amount);
    case _ => ReadsKeepInv(s, e);
  }

  lemma MovingKeepsInv(s: State, user: Id, amount: int)
    requires Inv(s)
    ensures Inv(MoveTeras(s, user, amount))
  {
    var s' := MoveTeras(s, user, amount);
    forall i {:trigger SessionOk(s', i)} ensures SessionOk(s', i) { assert SessionOk(s, i); }
    forall p {:trigger PlayOk(s', p)} ensures PlayOk(s', p) { assert PlayOk(s, p); }
    forall m {:trigger MachineOk(s', m)}
      ensures MachineOk(s', m)
    {
      assert MachineOk(s, m);
      MachinesUntouched(s, s', m);
    }
    forall q {:trigger s'.requests[q]} | q in s'.requests
      ensures RequestOk(s', s'.requests[q])
    {
      assert RequestOk(s, s.requests[q]);
    }
  }

  lemma {:induction false} RunKeepsInv(s: State, events: seq<Event>)
    requires Init(s)
    ensures Inv(Run(s, events))
  {
    if events != [] {
      RunKeepsInv(s, events[..|events| - 1]);
      StepKeepsInv(Run(s, events[..|events| - 1]), events[|events| - 1]);
    } else {
      forall m {:trigger MachineOk(s, m)}
        ensures MachineOk(s, m)
      {
        assert WinsOn(s, m) == {} && MegaSparksOn(s, m) == {};
      }
    }
  }

  // ----- Sessions -----

  /** A READY session has no play without an end and room for one more, a PLAYING one has exactly one
      open play, and no session ever exceeds its allowance, however stale the reads were. */
  lemma SessionsStayWithinLimits(s: State, events: seq<Event>, i: Id)
    requires Init(s) && i in Run(s, events).sessions
    ensures var after := Run(s, events);
            var x := after.sessions[i];
            var all := PlaysOf(after.plays, i);
            && (x.state.READY? ==> forall p <- all :: after.plays[p].ended)
            && (x.state.PLAYING? ==> exists p :: OpenPlaysOf(after.plays, i) == {p} && IsCurrentPlay(after, i, p))
            && (AllowedPlays(x).Some? ==> |all| <= AllowedPlays(x).value)
            && (AllowedPlays(x).Some? && x.state.READY? ==> |all| < AllowedPlays(x).value)
  {
    RunKeepsInv(s, events);
    var after := Run(s, events);
    assert SessionOk(after, i);
    if after.sessions[i].state.READY? {
      forall p <- PlaysOf(after.plays, i)
        ensures after.plays[p].ended
      {
        assert PlayOk(after, p);
        assert p !in OpenPlaysOf(after.plays, i);
      }
    }
    if after.sessions[i].state.PLAYING? {
      var open := OpenPlaysOf(after.plays, i);
      var p :| p in open;
      SingletonIs(open, p);
      assert PlayOk(after, p);
    }
  }

  /** maxPlayCount itself is kept in every run exactly when it is not zero. */
  lemma LimitKeptIffPositive(max: nat)
    ensures max != 0 <==> forall s, events, i :: Init(s) && WithLimit(s, events, i, max) ==> |PlaysOf(Run(s, events).plays, i)| <= max
  {
    if max != 0 {
      forall s, events, i | Init(s) && WithLimit(s, events, i, max)
        ensures |PlaysOf(Run(s, events).plays, i)| <= max
      {
        SessionsStayWithinLimits(s, events, i);
      }
    } else {
      var s, events := ZeroLimitRun();
    }
  }

  ghost predicate WithLimit(s: State, events: seq<Event>, i: Id, max: nat) {
    i in Run(s, events).sessions && Run(s, events).sessions[i].maxPlayCount == Some(max)
  }

  lemma RunLast(s: State, events: seq<Event>, e: Event)
    ensures Run(s, events + [e]) == Step(Run(s, events), e)
  {
    assert (events + [e])[..|events|] == events;
  }

  lemma RunOfThree(s: State, a: Event, b: Event, c: Event)
    ensures Run(s, [a, b, c]) == Step(Step(Step(s, a), b), c)
  {
    RunLast(s, [], a);
    RunLast(s, [a], b);
    RunLast(s, [a, b], c);
    assert [] + [a] == [a] && [a] + [b] == [a, b] && [a, b] + [c] == [a, b, c];
  }

  /** A session of limit zero, and one play started in it. */
  lemma ZeroLimitStart(s: State, x: Session)
    requires s == State(map[], map[], map[0 := Machine(0, 100000, None, true)], map[0 := 0], multiset{}, map[], 0, 0)
    requires x == Session(0, 0, 0, Some(0), 10, READY)
    ensures var after := CommitStart(ReadStart(CreateSession(s, 0, x), 0, 0), 0, 0);
            && PlaysOf(after.plays, 0) == {0}
            && 0 in after.sessions && after.sessions[0].maxPlayCount == Some(0)
  {
    var s1 := CreateSession(s, 0, x);
    assert s1 == s.(sessions := map[0 := x]);
    assert PlaysOf(s1.plays, 0) == {};
    var s2 := ReadStart(s1, 0, 0);
    assert s2 == s1.(requests := map[0 := StartRequest(0)]);
    var s3 := CommitStart(s2, 0, 0);
    assert 0 in s3.plays && s3.plays.Keys == {0};
  }

  lemma ZeroLimitRun() returns (s: State, events: seq<Event>)
    ensures Init(s) && WithLimit(s, events, 0, 0) && |PlaysOf(Run(s, events).plays, 0)| == 1
  {
    var x := Session(0, 0, 0, Some(0), 10, READY);
    s := State(map[], map[], map[0 := Machine(0, 100000, None, true)], map[0 := 0], multiset{}, map[], 0, 0);
    events := [EvCreateSession(0, x), EvReadStart(0, 0), EvCommitStart(0, 0)];
    RunOfThree(s, EvCreateSession(0, x), EvReadStart(0, 0), EvCommitStart(0, 0));
    ZeroLimitStart(s, x);
  }

  // ----- Results -----

  lemma StepKeepsResults(s: State, e: Event, p: Id)
    requires Inv(s) && p in s.plays
    ensures p in Step(s, e).plays
    ensures s.plays[p].result.Some? ==> Step(s, e).plays[p].result == s.plays[p].result
  {
    match e
    case EvAbandon(player) =>
      AbandonDisconnects(s, player);
      if Abandon(s, player) != s { DisconnectingKeepsOutcome(s, Abandon(s, player)); }
    case EvSweepPlays(target) =>
      SweepDisconnects(s, target);
      if SweepPlays(s, target) != s { DisconnectingKeepsOutcome(s, SweepPlays(s, target)); }
    case EvCommitProgress(r) =>
      if r in s.requests { assert RequestOk(s, s.requests[r]); }
    case _ =>
  }

  /** A play's result, once there, is there for good. */
  lemma {:induction false} ResultsNeverChange(s: State, events: seq<Event>, more: seq<Event>, p: Id)
    requires Init(s) && p in Run(s, events).plays && Run(s, events).plays[p].result.Some?
    ensures p in Run(s, events + more).plays && Run(s, events + more).plays[p].result == Run(s, events).plays[p].result
    decreases more
  {
    if more == [] {
      assert events + more == events;
    } else {
      var n := |more| - 1;
      ResultsNeverChange(s, events, more[..n], p);
      assert (events + more)[..|events + more| - 1] == events + more[..n];
      RunKeepsInv(s, events + more[..n]);
      StepKeepsResults(Run(s, events + more[..n]), more[n], p);
    }
  }

  // ----- Teras -----

  ghost function Rewards(plays: map<Id, Play>): map<Id, int> {
    map p | p in plays :: plays[p].playerTerasReward + plays[p].ownerTerasReward
  }

  /** Balances less what came from elsewhere and what plays paid out. */
  ghost function Unexplained(s: State): int {
    Sums.Sum(s.balances) - s.external - Sums.Sum(Rewards(s.plays))
  }

  lemma RewardsUpdated(plays: map<Id, Play>, p: Id, y: Play)
    ensures Sums.Sum(Rewards(plays[p := y])) ==
              Sums.Sum(Rewards(plays)) + y.playerTerasReward + y.ownerTerasReward
              - (if p in plays then plays[p].playerTerasReward + plays[p].ownerTerasReward else 0)
  {
    assert Rewards(plays[p := y]) == Rewards(plays)[p := y.playerTerasReward + y.ownerTerasReward];
    Sums.SumUpdate(Rewards(plays), p, y.playerTerasReward + y.ownerTerasReward);
  }

  lemma Credited(balances: map<Id, int>, user: Id, amount: int)
    requires user in balances
    ensures Sums.Sum(Credit(balances, user, amount)) == Sums.Sum(balances) + amount
  {
    var v := balances[user] + amount;
    Sums.SumUpdate(balances, user, v);
    assert Credit(balances, user, amount) == balances[user := v];
  }

  lemma CommitFinishExplained(s: State, id: Id)
    requires Inv(s)
    ensures Unexplained(CommitFinish(s, id)) == Unexplained(s)
  {
    if CommitFinish(s, id) != s {
      var r := s.requests[id];
      assert RequestOk(s, r) && PlayOk(s, r.playId);
      RewardsUpdated(s.plays, r.playId, Settled(s, r).plays[r.playId]);
      if ResultOf(r).WIN? {
        Credited(s.balances, r.session.playerId, RewardOf(r).player);
        Credited(Credit(s.balances, r.session.playerId, RewardOf(r).player), r.session.arcadeMachineOwnerId, RewardOf(r).owner);
      }
    }
  }

  lemma DisconnectingExplained(s: State, s': State)
    requires Disconnects(s, s')
    ensures Unexplained(s') == Unexplained(s)
  {
    assert Rewards(s'.plays) == Rewards(s.plays);
  }

  lemma OnePlayExplained(s: State, s': State, p: Id)
    requires p in s'.plays && s'.plays == s.plays[p := s'.plays[p]]
    requires s'.balances == s.balances && s'.external == s.external
    requires if p in s.plays
             then s'.plays[p].playerTerasReward == s.plays[p].playerTerasReward
                  && s'.plays[p].ownerTerasReward == s.plays[p].ownerTerasReward
             else s'.plays[p].playerTerasReward == 0 == s'.plays[p].ownerTerasReward
    ensures Unexplained(s') == Unexplained(s)
  {
    RewardsUpdated(s.plays, p, s'.plays[p]);
  }

  lemma CommitsExplained(s: State, requestId: Id, p: Id, user: Id, amount: int)
    requires Inv(s)
    ensures Unexplained(CommitStart(s, requestId, p)) == Unexplained(s)
    ensures Unexplained(CommitProgress(s, requestId)) == Unexplained(s)
    ensures Unexplained(MoveTeras(s, user, amount)) == Unexplained(s)
  {
    if CommitStart(s, requestId, p) != s {
      OnePlayExplained(s, CommitStart(s, requestId, p), p);
    }
    if CommitProgress(s, requestId) != s {
      OnePlayExplained(s, CommitProgress(s, requestId), s.requests[requestId].playId);
    }
    if MoveTeras(s, user, amount) != s {
      Credited(s.balances, user, amount);
    }
  }

  lemma DisconnectsExplained(s: State, player: Id, target: nat)
    requires Inv(s)
    ensures Unexplained(Abandon(s, player)) == Unexplained(s)
    ensures Unexplained(SweepPlays(s, target)) == Unexplained(s)
  {
    AbandonDisconnects(s, player);
    SweepDisconnects(s, target);
    if Abandon(s, player) != s {
      DisconnectingExplained(s, Abandon(s, player));
    }
    if SweepPlays(s, target) != s {
      DisconnectingExplained(s, SweepPlays(s, target));
    }
  }

  lemma StepExplained(s: State, e: Event)
    requires Inv(s)
    ensures Unexplained(Step(s, e)) == Unexplained(s)
  {
    match e
    case EvAbandon(player) => DisconnectsExplained(s, player, 0);
    case EvSweepPlays(target) => DisconnectsExplained(s, 0, target);
    case EvCommitStart(r, p) => CommitsExplained(s, r, p, 0, 0);
    case EvCommitProgress(r) => CommitsExplained(s, r, 0, 0, 0);
    case EvMoveTeras(user, amount) => CommitsExplained(s, 0, 0, user, amount);
    case EvCommitFinish(r) => CommitFinishExplained(s, r);
    case _ => assert Step(s, e).balances == s.balances && Step(s, e).plays == s.plays;
  }

  /** Balances change only by what other parts of the system moved and by the rewards that finished
      plays have on record. */
  lemma {:induction false} TerasMatchRewards(s: State, events: seq<Event>)
    requires Init(s)
    ensures var after := Run(s, events);
            Sums.Sum(after.balances) == Sums.Sum(s.balances) + after.external + Sums.Sum(Rewards(after.plays))
  {
    if events == [] {
      Sums.SumZero(Rewards(s.plays));
    } else {
      var n := |events| - 1;
      TerasMatchRewards(s, events[..n]);
      RunKeepsInv(s, events[..n]);
      StepExplained(Run(s, events[..n]), events[n]);
    }
  }

  // ----- Energy -----

  /** The win that fills the tank: the number of four-thousands in it, rounded up. */
  function MegaSparkWin(maxEnergy: int): int {
    (maxEnergy + SPARKED_ENERGY - 1) / SPARKED_ENERGY
  }

  /** Whatever the interleaving of finishing plays: the tank never overflows, fever runs exactly while
      it is full, and the one mega spark and its announcement come at a fixed number of wins. */
  lemma EnergyFollowsWins(s: State, events: seq<Event>, m: Id)
    requires Init(s) && m in Run(s, events).machines
    ensures var after := Run(s, events);
            var x := after.machines[m];
            var wins := |WinsOn(after, m)|;
            && 0 <= x.energy <= x.maxEnergy
            && (x.feverSparkRemain.Some? <==> x.energy == x.maxEnergy)
            && |MegaSparksOn(after, m)| == (if wins >= MegaSparkWin(x.maxEnergy) then 1 else 0)
            && after.notices[MegaSparkNotice(m)] == |MegaSparksOn(after, m)|
            && after.notices[MegaSparkUpcomingNotice(m)] == (if wins >= MegaSparkWin(x.maxEnergy) - 1 >= 1 then 1 else 0)
  {
    RunKeepsInv(s, events);
    var after := Run(s, events);
    assert MachineOk(after, m);
    CeilingOfWins(|WinsOn(after, m)|, after.machines[m].maxEnergy);
  }

  lemma CeilingOfWins(wins: nat, maxEnergy: int)
    requires 0 < maxEnergy
    ensures wins >= MegaSparkWin(maxEnergy) <==> SPARKED_ENERGY * wins >= maxEnergy
    ensures wins >= MegaSparkWin(maxEnergy) - 1 <==> SPARKED_ENERGY * (wins + 1) >= maxEnergy
    ensures MegaSparkWin(maxEnergy) > 1 <==> SPARKED_ENERGY < maxEnergy
  {
  }

  /** A winning commit announces the mega spark exactly when the next win on that machine will be it. */
  lemma UpcomingIsTheLastWarning(s: State, id: Id)
    requires Inv(s) && id in s.requests && s.requests[id].FinishRequest?
    requires CommitFinish(s, id) != s && ResultOf(s.requests[id]).WIN?
    ensures var m := s.requests[id].session.arcadeMachineId;
            CommitFinish(s, id).notices[MegaSparkUpcomingNotice(m)] > s.notices[MegaSparkUpcomingNotice(m)]
            <==> SparkOf(CommitFinish(s, id).machines[m]).MEGA_SPARK?
  {
    var r := s.requests[id];
    assert RequestOk(s, r);
    assert MachineOk(s, r.session.arcadeMachineId);
  }
}
