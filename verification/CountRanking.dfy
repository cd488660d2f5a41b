/** A count ranking rebuilt from history, scripts/ranking_restore.ts, against the same ranking kept up to date
    by the counts that finished play sessions send. */
module CountRanking {
  import opened Common
  import opened CountSending
  import opened ScorePacking

  /** How a session came to its end. Only a call of finishPlaySession sends its win, once with the date it
      finds: overlapping calls all get past the check of the state, and each sends. A session ended by its
      last play or by a sweep makes the call return before, and an abandoned one gets no date. */
  datatype Ending = ByRequest(reports: seq<int>) | ByLastPlay | BySweep | Abandoned

  /** A play session as the restore script reads it, and how it ended. */
  datatype Session = Session(playerId: Id, endedAt: Option<int>, hasWin: bool, ending: Ending)

  predicate Counts(s: Session, u: Id, startDate: int, endDate: int) {
    s.playerId == u && s.hasWin && s.endedAt.Some? && startDate <= s.endedAt.value <= endDate
  }

  function WinsOf(sessions: seq<Session>, u: Id, startDate: int, endDate: int): nat {
    if sessions == [] then 0
    else
      WinsOf(sessions[..|sessions| - 1], u, startDate, endDate)
      + if Counts(sessions[|sessions| - 1], u, startDate, endDate) then 1 else 0
  }

  function MaxEndOf(sessions: seq<Session>, u: Id, startDate: int, endDate: int): Option<int> {
    if sessions == [] then None
    else
      var s := sessions[|sessions| - 1];
      var before := MaxEndOf(sessions[..|sessions| - 1], u, startDate, endDate);
      if !Counts(s, u, startDate, endDate) || (before.Some? && before.value >= s.endedAt.value) then before else s.endedAt
  }

  /** The rebuilt score of a user. */
  ghost predicate IsRestored(scores: map<Id, nat>, sessions: seq<Session>, u: Id, startDate: int, endDate: int) {
    var max := MaxEndOf(sessions, u, startDate, endDate);
    && max.Some? && u in scores
    && Packed(scores[u], WinsOf(sessions, u, startDate, endDate), max.value, endDate)
  }

  predicate SameScore(a: map<Id, nat>, b: map<Id, nat>, u: Id) {
    (u in b <==> u in a) && (u in b ==> b[u] == a[u])
  }

  /** The players with a win in the period. */
  function Winners(sessions: seq<Session>, startDate: int, endDate: int): set<Id> {
    if sessions == [] then {}
    else
      var s := sessions[|sessions| - 1];
      Winners(sessions[..|sessions| - 1], startDate, endDate)
      + if Counts(s, s.playerId, startDate, endDate) then {s.playerId} else {}
  }

  lemma {:induction false} WinnersHaveMax(sessions: seq<Session>, u: Id, startDate: int, endDate: int)
    ensures var max := MaxEndOf(sessions, u, startDate, endDate);
            && (max.Some? <==> WinsOf(sessions, u, startDate, endDate) > 0)
            && (max.Some? <==> u in Winners(sessions, startDate, endDate))
            && (max.Some? ==> max.value <= endDate)
  {
    if sessions != [] {
      var n := |sessions| - 1;
      WinnersHaveMax(sessions[..n], u, startDate, endDate);
    }
  }

  // ----- Rebuilding -----

  class Ranking {
    const endDate: int
    var scores: map<Id, nat>

    constructor (endDate: int, scores: map<Id, nat>)
      ensures this.endDate == endDate && this.scores == scores
    {
      this.endDate, this.scores := endDate, scores;
    }

    /** select count(id), max(ended_at) ... of one player */
    method Aggregate(sessions: seq<Session>, u: Id, startDate: int) returns (count: nat, maxEndedAt: Option<int>)
      ensures count == WinsOf(sessions, u, startDate, endDate) && maxEndedAt == MaxEndOf(sessions, u, startDate, endDate)
    {
      count, maxEndedAt := 0, None;
      for i := 0 to |sessions|
        invariant count == WinsOf(sessions[..i], u, startDate, endDate)
        invariant maxEndedAt == MaxEndOf(sessions[..i], u, startDate, endDate)
      {
        var s := sessions[i];
        assert sessions[..i + 1][..i] == sessions[..i];
        if Counts(s, u, startDate, endDate) {
          count := count + 1;
          if maxEndedAt.None? || maxEndedAt.value < s.endedAt.value {
            maxEndedAt := s.endedAt;
          }
        }
      }
      assert sessions[..|sessions|] == sessions;
    }

    method RestoreOne(sessions: seq<Session>, id: Id, startDate: int)
      requires id in Winners(sessions, startDate, endDate)
      modifies `scores
      ensures IsRestored(scores, sessions, id, startDate, endDate)
      ensures forall u | u != id :: SameScore(old(scores), scores, u)
    {
      var count, maxEndedAt := Aggregate(sessions, id, startDate);
      WinnersHaveMax(sessions, id, startDate, endDate);
      CountLayout(count, maxEndedAt.value, endDate);
      var combinedScore := GetCombinedCountScore(count, maxEndedAt.value, endDate);
      PackedIffCombined(combinedScore.value, count, maxEndedAt.value, endDate);
      scores := scores[id := combinedScore.value];
    }

    /** Rebuilds the score of every player with a win in the period; all others keep theirs. */
    method UpdateForSpark(sessions: seq<Session>, startDate: int)
      modifies `scores
      ensures forall u <- Winners(sessions, startDate, endDate) :: IsRestored(scores, sessions, u, startDate, endDate)
      ensures forall u | u !in Winners(sessions, startDate, endDate) :: SameScore(old(scores), scores, u)
    {
      var ids := Winners(sessions, startDate, endDate);
      var rest := ids;
      while rest != {}
        invariant rest <= ids
        invariant forall u <- ids - rest :: IsRestored(scores, sessions, u, startDate, endDate)
        invariant forall u | u !in ids :: SameScore(old(scores), scores, u)
        decreases |rest|
      {
        var id :| id in rest;
        ghost var before := scores;
        RestoreOne(sessions, id, startDate);
        forall u | u != id
          ensures SameScore(old(scores), before, u) ==> SameScore(old(scores), scores, u)
          ensures IsRestored(before, sessions, u, startDate, endDate) ==> IsRestored(scores, sessions, u, startDate, endDate)
        {
          assert SameScore(before, scores, u);
        }
        rest := rest - {id};
      }
    }
  }

  // ----- Incremental against rebuilt -----

  /** The counts a session sends for the ranking of the period. */
  function SentBy(s: Session, startDate: int, endDate: int): seq<Sent> {
    if s.hasWin && s.ending.ByRequest? then ReportsWithin(s.playerId, s.ending.reports, startDate, endDate) else []
  }

  function ReportsWithin(player: Id, reports: seq<int>, startDate: int, endDate: int): seq<Sent> {
    if reports == [] then []
    else
      var n := |reports| - 1;
      ReportsWithin(player, reports[..n], startDate, endDate)
      + if startDate <= reports[n] <= endDate then [Sent(player, reports[n], 1)] else []
  }

  function SentByAll(sessions: seq<Session>, startDate: int, endDate: int): seq<Sent> {
    if sessions == [] then []
    else
      SentByAll(sessions[..|sessions| - 1], startDate, endDate) + SentBy(sessions[|sessions| - 1], startDate, endDate)
  }

  /** What is sent for the user beyond the one count the script gives each winning session of the period. */
  function Surplus(sessions: seq<Session>, u: Id, startDate: int, endDate: int): int {
    if sessions == [] then 0
    else
      var s := sessions[|sessions| - 1];
      Surplus(sessions[..|sessions| - 1], u, startDate, endDate)
      + (if s.playerId == u then |SentBy(s, startDate, endDate)| else 0)
      - (if Counts(s, u, startDate, endDate) then 1 else 0)
  }

  lemma {:induction false} SumConcat(a: seq<Sent>, b: seq<Sent>, u: Id)
    ensures SumOf(a + b, u) == SumOf(a, u) + SumOf(b, u)
    ensures LastOf(a + b, u) == if LastOf(b, u).Some? then LastOf(b, u) else LastOf(a, u)
  {
    if b == [] {
      assert a + b == a;
    } else {
      var n := |b| - 1;
      assert (a + b)[..|a + b| - 1] == a + b[..n];
      SumConcat(a, b[..n], u);
    }
  }

  lemma OneSent(x: Sent, u: Id)
    ensures SumOf([x], u) == if x.user == u then x.addValue else 0
    ensures LastOf([x], u) == if x.user == u then Some(x.now) else None
  {
    assert [x][..0] == [];
  }

  lemma {:induction false} SumOfReports(player: Id, reports: seq<int>, startDate: int, endDate: int, u: Id)
    ensures SumOf(ReportsWithin(player, reports, startDate, endDate), u) ==
            (if player == u then |ReportsWithin(player, reports, startDate, endDate)| else 0)
    ensures forall x <- ReportsWithin(player, reports, startDate, endDate) :: x.now <= endDate && x.addValue == 1
  {
    if reports != [] {
      var n := |reports| - 1;
      SumOfReports(player, reports[..n], startDate, endDate, u);
      if startDate <= reports[n] <= endDate {
        var before := ReportsWithin(player, reports[..n], startDate, endDate);
        assert ReportsWithin(player, reports, startDate, endDate) == before + [Sent(player, reports[n], 1)];
        SumConcat(before, [Sent(player, reports[n], 1)], u);
        OneSent(Sent(player, reports[n], 1), u);
      } else {
        assert ReportsWithin(player, reports, startDate, endDate) == ReportsWithin(player, reports[..n], startDate, endDate);
      }
    }
  }

  /** What is sent less what is counted. */
  lemma {:induction false} SurplusIs(sessions: seq<Session>, u: Id, startDate: int, endDate: int)
    ensures SumOf(SentByAll(sessions, startDate, endDate), u) ==
            WinsOf(sessions, u, startDate, endDate) + Surplus(sessions, u, startDate, endDate)
    ensures forall x <- SentByAll(sessions, startDate, endDate) :: x.now <= endDate && x.addValue == 1
  {
    if sessions != [] {
      var n := |sessions| - 1;
      var s := sessions[n];
      SurplusIs(sessions[..n], u, startDate, endDate);
      SumConcat(SentByAll(sessions[..n], startDate, endDate), SentBy(s, startDate, endDate), u);
      if s.hasWin && s.ending.ByRequest? {
        SumOfReports(s.playerId, s.ending.reports, startDate, endDate, u);
      }
    }
  }

  /** Every session ended by a request was ended by one call, which sent the date of its end. */
  ghost predicate CalledOnce(sessions: seq<Session>) {
    forall s <- sessions :: s.ending.ByRequest? ==> s.endedAt.Some? && s.ending.reports == [s.endedAt.value]
  }

  /** A winning session of the period that ended otherwise. */
  predicate Unreported(s: Session, u: Id, startDate: int, endDate: int) {
    Counts(s, u, startDate, endDate) && !s.ending.ByRequest?
  }

  ghost predicate AllReported(sessions: seq<Session>, u: Id, startDate: int, endDate: int) {
    forall s <- sessions :: !Unreported(s, u, startDate, endDate)
  }

  lemma SentByOne(s: Session, startDate: int, endDate: int)
    requires s.ending.ByRequest? ==> s.endedAt.Some? && s.ending.reports == [s.endedAt.value]
    ensures SentBy(s, startDate, endDate) ==
            if s.ending.ByRequest? && Counts(s, s.playerId, startDate, endDate) then [Sent(s.playerId, s.endedAt.value, 1)] else []
  {
    if s.ending.ByRequest? {
      assert ReportsWithin(s.playerId, s.ending.reports[..0], startDate, endDate) == [];
    }
  }

  lemma {:induction false} SurplusUnlessUnreported(sessions: seq<Session>, u: Id, startDate: int, endDate: int)
    requires CalledOnce(sessions)
    ensures Surplus(sessions, u, startDate, endDate) <= 0
    ensures Surplus(sessions, u, startDate, endDate) == 0 <==> AllReported(sessions, u, startDate, endDate)
  {
    if sessions != [] {
      var n := |sessions| - 1;
      ReportedBefore(sessions, u, startDate, endDate);
      SurplusUnlessUnreported(sessions[..n], u, startDate, endDate);
      SentByOne(sessions[n], startDate, endDate);
    }
  }

  lemma ReportedBefore(sessions: seq<Session>, u: Id, startDate: int, endDate: int)
    requires sessions != []
    ensures var n := |sessions| - 1;
            && (AllReported(sessions, u, startDate, endDate) <==>
                  AllReported(sessions[..n], u, startDate, endDate) && !Unreported(sessions[n], u, startDate, endDate))
            && (CalledOnce(sessions) ==> CalledOnce(sessions[..n]))
            && (InOrder(sessions) ==> InOrder(sessions[..n]))
  {
    var n := |sessions| - 1;
    assert sessions == sessions[..n] + [sessions[n]];
    assert forall i :: 0 <= i < n ==> sessions[..n][i] == sessions[i];
  }

  /** The counts agree exactly if what sessions sent makes up for those that sent nothing; and where each
      session was ended by one call, exactly if no winning session of the period ended otherwise. */
  lemma CountsAgreeIff(sessions: seq<Session>, u: Id, startDate: int, endDate: int)
    ensures SumOf(SentByAll(sessions, startDate, endDate), u) == WinsOf(sessions, u, startDate, endDate)
       <==> Surplus(sessions, u, startDate, endDate) == 0
    ensures CalledOnce(sessions) ==>
              (SumOf(SentByAll(sessions, startDate, endDate), u) == WinsOf(sessions, u, startDate, endDate)
               <==> AllReported(sessions, u, startDate, endDate))
  {
    SurplusIs(sessions, u, startDate, endDate);
    if CalledOnce(sessions) {
      SurplusUnlessUnreported(sessions, u, startDate, endDate);
    }
  }

  /** A session won in its only play is counted by the script and was never sent. */
  lemma LastPlayNotSent(u: Id, date: int, startDate: int, endDate: int)
    requires startDate <= date <= endDate
    ensures var sessions := [Session(u, Some(date), true, ByLastPlay)];
            WinsOf(sessions, u, startDate, endDate) == 1 && SentByAll(sessions, startDate, endDate) == []
  {
    assert [Session(u, Some(date), true, ByLastPlay)][..0] == [];
  }

  /** A session ended by two overlapping calls is counted once and was sent twice. */
  lemma SentTwice(u: Id, date: int, startDate: int, endDate: int)
    requires startDate <= date <= endDate
    ensures var sessions := [Session(u, Some(date), true, ByRequest([date, date]))];
            WinsOf(sessions, u, startDate, endDate) == 1 && SumOf(SentByAll(sessions, startDate, endDate), u) == 2
  {
    var sessions := [Session(u, Some(date), true, ByRequest([date, date]))];
    assert sessions[..0] == [] && [date, date][..1] == [date] && [date][..0] == [];
    assert ReportsWithin(u, [date], startDate, endDate) == [Sent(u, date, 1)];
    assert |ReportsWithin(u, [date, date], startDate, endDate)| == 2;
    SurplusIs(sessions, u, startDate, endDate);
  }

  // ----- The stored numbers -----

  /** When as many wins are counted as were sent, the rebuilt score is the incremental one exactly when
      the last event and the latest session left the same number of seconds. */
  lemma RestoreAgreesIff(history: seq<Sent>, sessions: seq<Session>, u: Id, startDate: int, endDate: int)
    requires SumOf(history, u) == WinsOf(sessions, u, startDate, endDate) > 0
    requires LastOf(history, u).Some? && LastOf(history, u).value <= endDate
    ensures MaxEndOf(sessions, u, startDate, endDate).Some?
    ensures GetCombinedCountScore(SumOf(history, u), LastOf(history, u).value, endDate) ==
            GetCombinedCountScore(WinsOf(sessions, u, startDate, endDate), MaxEndOf(sessions, u, startDate, endDate).value, endDate)
       <==> Seconds(LastOf(history, u).value, endDate) == Seconds(MaxEndOf(sessions, u, startDate, endDate).value, endDate)
  {
    WinnersHaveMax(sessions, u, startDate, endDate);
    CountLayout(SumOf(history, u), LastOf(history, u).value, endDate);
    CountLayout(WinsOf(sessions, u, startDate, endDate), MaxEndOf(sessions, u, startDate, endDate).value, endDate);
  }

  ghost predicate InOrder(sessions: seq<Session>) {
    forall i, j :: 0 <= i < j < |sessions| && sessions[i].endedAt.Some? && sessions[j].endedAt.Some? ==>
      sessions[i].endedAt.value <= sessions[j].endedAt.value
  }

  /** If sessions end in the order they are listed and none goes unreported, the date of what is sent last
      is the latest end. */
  lemma {:induction false} SameDate(sessions: seq<Session>, u: Id, startDate: int, endDate: int)
    requires InOrder(sessions) && CalledOnce(sessions) && AllReported(sessions, u, startDate, endDate)
    ensures LastOf(SentByAll(sessions, startDate, endDate), u) == MaxEndOf(sessions, u, startDate, endDate)
  {
    if sessions != [] {
      var n := |sessions| - 1;
      var s := sessions[n];
      ReportedBefore(sessions, u, startDate, endDate);
      SameDate(sessions[..n], u, startDate, endDate);
      SumConcat(SentByAll(sessions[..n], startDate, endDate), SentBy(s, startDate, endDate), u);
      LastOfOne(s, u, startDate, endDate);
      LaterThanMax(sessions, u, startDate, endDate);
      assert LastOf(SentByAll(sessions, startDate, endDate), u) ==
             if Counts(s, u, startDate, endDate) then s.endedAt else MaxEndOf(sessions[..n], u, startDate, endDate);
    }
  }

  lemma LastOfOne(s: Session, u: Id, startDate: int, endDate: int)
    requires s.ending.ByRequest? ==> s.endedAt.Some? && s.ending.reports == [s.endedAt.value]
    requires !Unreported(s, u, startDate, endDate)
    ensures LastOf(SentBy(s, startDate, endDate), u) == if Counts(s, u, startDate, endDate) then s.endedAt else None
  {
    SentByOne(s, startDate, endDate);
    if Counts(s, s.playerId, startDate, endDate) {
      OneSent(Sent(s.playerId, s.endedAt.value, 1), u);
    }
  }

  lemma LaterThanMax(sessions: seq<Session>, u: Id, startDate: int, endDate: int)
    requires InOrder(sessions) && sessions != []
    ensures var n := |sessions| - 1;
            var max := MaxEndOf(sessions[..n], u, startDate, endDate);
            max.Some? && sessions[n].endedAt.Some? ==> max.value <= sessions[n].endedAt.value
  {
    var n := |sessions| - 1;
    MaxIsAnEnd(sessions[..n], u, startDate, endDate);
    var max := MaxEndOf(sessions[..n], u, startDate, endDate);
    if max.Some? {
      var i :| 0 <= i < n && sessions[..n][i].endedAt == max;
      assert sessions[i].endedAt == max;
    }
  }

  lemma {:induction false} MaxIsAnEnd(sessions: seq<Session>, u: Id, startDate: int, endDate: int)
    ensures var max := MaxEndOf(sessions, u, startDate, endDate);
            max.Some? ==> exists i :: 0 <= i < |sessions| && sessions[i].endedAt == max
  {
    if sessions != [] {
      var n := |sessions| - 1;
      MaxIsAnEnd(sessions[..n], u, startDate, endDate);
      var before := MaxEndOf(sessions[..n], u, startDate, endDate);
      if before.Some? {
        var i :| 0 <= i < n && sessions[..n][i].endedAt == before;
        assert sessions[i].endedAt == before;
      }
    }
  }

  /** For sessions that end in the order they are listed, each ended by one call, the wins sent one after
      the other leave the very number the script writes for the user exactly if none of his winning
      sessions of the period ended otherwise. */
  lemma RestoreAgreesInOrder(restored: map<Id, nat>, sessions: seq<Session>, u: Id, startDate: int, endDate: int)
    requires InOrder(sessions) && CalledOnce(sessions)
    requires IsRestored(restored, sessions, u, startDate, endDate)
    ensures var sent := Run(endDate, OneByOne(SentByAll(sessions, startDate, endDate))).scores;
            u in sent && sent[u] == restored[u] <==> AllReported(sessions, u, startDate, endDate)
  {
    var history := SentByAll(sessions, startDate, endDate);
    SurplusIs(sessions, u, startDate, endDate);
    CountsAgreeIff(sessions, u, startDate, endDate);
    OneByOneStores(endDate, history, u);
    StoredScoreIs(endDate, OneByOne(history), u);
    WinnersHaveMax(sessions, u, startDate, endDate);
    var sent := Run(endDate, OneByOne(history)).scores;
    if AllReported(sessions, u, startDate, endDate) {
      SameDate(sessions, u, startDate, endDate);
    } else if u in sent {
      PackedIffCombined(sent[u], SumOf(history, u), LastOf(history, u).value, endDate);
      PackedIffCombined(restored[u], WinsOf(sessions, u, startDate, endDate), MaxEndOf(sessions, u, startDate, endDate).value, endDate);
    }
  }
}
