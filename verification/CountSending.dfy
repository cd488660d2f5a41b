/** sendCount of src/use_cases/ranking_usecase.ts on one ranking key: the stored score is read, and later a
    new one is written. In between other calls do the same. */
module CountSending {
  import opened Common
  import opened ScorePacking

  type Id = nat

  /** A count sent for a user. */
  datatype Sent = Sent(user: Id, now: int, addValue: int)

  /** A score that was written, with the steps of its read and its write. */
  datatype Commit = Commit(sent: Sent, readAt: nat, at: nat)

  /** A call between its read and its write. */
  datatype Request = Request(user: Id, now: int, addValue: real, stored: Option<nat>, readAt: nat)

  datatype State = State(scores: map<Id, nat>, requests: map<nat, Request>, commits: seq<Commit>, step: nat)

  datatype Event = ReadCount(request: nat, user: Id, now: int, addValue: real) | CommitCount(request: nat)

  /** Numbers that BigInt accepts. */
  predicate IsWholeNumber(x: real) {
    x.Floor as real == x
  }

  /** A stored score of zero counts as none. */
  function CountOf(stored: Option<nat>): nat {
    if stored.Some? && stored.value != 0 then GetSeparatedCountScore(stored.value) else 0
  }

  function Lookup(scores: map<Id, nat>, user: Id): Option<nat> {
    if user in scores then Some(scores[user]) else None
  }

  /** The score a call writes; a total that is no whole number cannot be packed. */
  function NewScore(q: Request, endDate: int): Result<nat> {
    var total := CountOf(q.stored) as real + q.addValue;
    if IsWholeNumber(total) then GetCombinedCountScore(total.Floor, q.now, endDate) else Err("not an integer")
  }

  function Next(endDate: int, s: State, e: Event): State {
    var after := match e
      case ReadCount(request, user, now, addValue) =>
        if request in s.requests then s
        else s.(requests := s.requests[request := Request(user, now, addValue, Lookup(s.scores, user), s.step)])
      case CommitCount(request) => if request in s.requests then Committed(endDate, s, request) else s;
    after.(step := s.step + 1)
  }

  function Committed(endDate: int, s: State, request: nat): State
    requires request in s.requests
  {
    var q := s.requests[request];
    var rest := s.(requests := s.requests - {request});
    match NewScore(q, endDate)
    case Err(_) => rest
    case Ok(score) =>
      rest.(
        scores := s.scores[q.user := score],
        commits := s.commits + [Commit(Sent(q.user, q.now, q.addValue.Floor), q.readAt, s.step)])
  }

  const EMPTY: State := State(map[], map[], [], 0)

  function Run(endDate: int, events: seq<Event>): State {
    if events == [] then EMPTY
    else Next(endDate, Run(endDate, events[..|events| - 1]), events[|events| - 1])
  }

  // ----- What was sent and what is stored -----

  /** Everything sent for the user before the step t. */
  function SentAt(commits: seq<Commit>, u: Id, t: nat): int {
    if commits == [] then 0
    else
      var last := commits[|commits| - 1];
      SentAt(commits[..|commits| - 1], u, t) + if last.sent.user == u && last.at < t then last.sent.addValue else 0
  }

  /** The count stored before the step t: what the last commit had read, and what it added. */
  function StoredAt(commits: seq<Commit>, u: Id, t: nat): int {
    if commits == [] then 0
    else
      var last, before := commits[|commits| - 1], commits[..|commits| - 1];
      if last.sent.user == u && last.at < t then StoredAt(before, u, last.readAt) + last.sent.addValue
      else StoredAt(before, u, t)
  }

  function LastNow(commits: seq<Commit>, u: Id): Option<int> {
    if commits == [] then None
    else
      var last := commits[|commits| - 1];
      if last.sent.user == u then Some(last.sent.now) else LastNow(commits[..|commits| - 1], u)
  }

  /** Commits in their order, each after its read. */
  ghost predicate Ordered(commits: seq<Commit>, step: nat) {
    && (forall c <- commits :: c.readAt < c.at < step)
    && (forall i, j :: 0 <= i < j < |commits| ==> commits[i].at < commits[j].at)
  }

  /** What GetCombinedCountScore makes of a count and a date; see PackedIffCombined. */
  predicate Packed(score: nat, count: int, date: int, endDate: int) {
    count >= 0 && date <= endDate && score == count * 0x80_0000 + Seconds(date, endDate)
  }

  lemma PackedIffCombined(score: nat, count: int, date: int, endDate: int)
    ensures Packed(score, count, date, endDate) <==> GetCombinedCountScore(count, date, endDate) == Ok(score)
    ensures Packed(score, count, date, endDate) ==> GetSeparatedCountScore(score) == count
  {
    CountLayout(count, date, endDate);
    if count >= 0 && date <= endDate {
      CountRoundTrip(count, date, endDate);
    }
  }

  // ----- The invariant -----

  ghost predicate ScoreOk(s: State, endDate: int, u: Id) {
    match LastNow(s.commits, u)
    case None => u !in s.scores && StoredAt(s.commits, u, s.step) == 0
    case Some(now) => u in s.scores && Packed(s.scores[u], StoredAt(s.commits, u, s.step), now, endDate)
  }

  ghost predicate RequestOk(s: State, q: Request) {
    q.readAt < s.step && CountOf(q.stored) == StoredAt(s.commits, q.user, q.readAt)
  }

  ghost predicate Inv(s: State, endDate: int) {
    && Ordered(s.commits, s.step)
    && (forall u {:trigger ScoreOk(s, endDate, u)} :: ScoreOk(s, endDate, u))
    && (forall r <- s.requests :: RequestOk(s, s.requests[r]))
  }

  /** Later steps make no difference to what is there. */
  lemma {:induction false} Later(commits: seq<Commit>, u: Id, t: nat, t': nat)
    requires forall c <- commits :: c.at < t && c.at < t'
    ensures StoredAt(commits, u, t) == StoredAt(commits, u, t')
    ensures SentAt(commits, u, t) == SentAt(commits, u, t')
  {
    if commits != [] {
      Later(commits[..|commits| - 1], u, t, t');
    }
  }

  lemma StoredCount(s: State, endDate: int, u: Id)
    requires ScoreOk(s, endDate, u)
    ensures CountOf(Lookup(s.scores, u)) == StoredAt(s.commits, u, s.step)
  {
    if u in s.scores {
      PackedIffCombined(s.scores[u], StoredAt(s.commits, u, s.step), LastNow(s.commits, u).value, endDate);
    }
  }

  lemma ScoresStay(s: State, s': State, endDate: int)
    requires Inv(s, endDate) && s'.scores == s.scores && s'.commits == s.commits && s'.step == s.step + 1
    ensures Ordered(s'.commits, s'.step)
    ensures forall u {:trigger ScoreOk(s', endDate, u)} :: ScoreOk(s', endDate, u)
  {
    forall u
      ensures ScoreOk(s', endDate, u)
    {
      assert ScoreOk(s, endDate, u);
      Later(s.commits, u, s.step, s'.step);
    }
  }

  lemma ReadKeepsInv(s: State, endDate: int, request: nat, user: Id, now: int, addValue: real)
    requires Inv(s, endDate)
    ensures Inv(Next(endDate, s, ReadCount(request, user, now, addValue)), endDate)
  {
    var s' := Next(endDate, s, ReadCount(request, user, now, addValue));
    ScoresStay(s, s', endDate);
    assert ScoreOk(s, endDate, user);
    StoredCount(s, endDate, user);
    forall r <- s'.requests
      ensures RequestOk(s', s'.requests[r])
    {
      assert r in s.requests ==> RequestOk(s, s.requests[r]);
    }
  }

  lemma WholeSum(n: int, x: real)
    ensures IsWholeNumber(n as real + x) <==> IsWholeNumber(x)
    ensures (n as real + x).Floor == n + x.Floor
  {
  }

  /** Who reads and writes a total adds the whole amount to the count it read. */
  lemma NewScoreIs(q: Request, endDate: int)
    ensures NewScore(q, endDate).Ok? <==>
              IsWholeNumber(q.addValue) && CountOf(q.stored) + q.addValue.Floor >= 0 && q.now <= endDate
    ensures NewScore(q, endDate).Ok? ==> Packed(NewScore(q, endDate).value, CountOf(q.stored) + q.addValue.Floor, q.now, endDate)
  {
    WholeSum(CountOf(q.stored), q.addValue);
    CountLayout(CountOf(q.stored) + q.addValue.Floor, q.now, endDate);
  }

  lemma CommitKeepsInv(s: State, endDate: int, request: nat)
    requires Inv(s, endDate) && request in s.requests
    ensures Inv(Next(endDate, s, CommitCount(request)), endDate)
  {
    var s', q := Next(endDate, s, CommitCount(request)), s.requests[request];
    assert RequestOk(s, q);
    NewScoreIs(q, endDate);
    if NewScore(q, endDate).Err? {
      ScoresStay(s, s', endDate);
      forall r <- s'.requests
        ensures RequestOk(s', s'.requests[r])
      {
        assert RequestOk(s, s.requests[r]);
      }
    } else {
      var commit := Commit(Sent(q.user, q.now, q.addValue.Floor), q.readAt, s.step);
      assert s'.commits[..|s.commits|] == s.commits;
      forall u
        ensures ScoreOk(s', endDate, u)
      {
        assert ScoreOk(s, endDate, u);
        Later(s.commits, u, s.step, s'.step);
      }
      forall r <- s'.requests
        ensures RequestOk(s', s'.requests[r])
      {
        assert RequestOk(s, s.requests[r]);
      }
    }
  }

  lemma {:induction false} RunKeepsInv(endDate: int, events: seq<Event>)
    ensures Inv(Run(endDate, events), endDate)
  {
    if events != [] {
      var s, e := Run(endDate, events[..|events| - 1]), events[|events| - 1];
      RunKeepsInv(endDate, events[..|events| - 1]);
      match e
      case ReadCount(request, user, now, addValue) => ReadKeepsInv(s, endDate, request, user, now, addValue);
      case CommitCount(request) =>
        if request in s.requests {
          CommitKeepsInv(s, endDate, request);
        } else {
          ScoresStay(s, Next(endDate, s, e), endDate);
          forall r <- s.requests
            ensures RequestOk(Next(endDate, s, e), s.requests[r])
          {
            assert RequestOk(s, s.requests[r]);
          }
        }
    }
  }

  // ----- When nothing is lost -----

  /** In every run the stored score is that of StoredAt, with the date of the last commit. */
  lemma StoredScoreIs(endDate: int, events: seq<Event>, u: Id)
    ensures var s := Run(endDate, events); var now := LastNow(s.commits, u);
            && (u in s.scores <==> now.Some?)
            && (now.Some? ==> Packed(s.scores[u], StoredAt(s.commits, u, s.step), now.value, endDate))
            && CountOf(Lookup(s.scores, u)) == StoredAt(s.commits, u, s.step)
  {
    RunKeepsInv(endDate, events);
    var s := Run(endDate, events);
    assert ScoreOk(s, endDate, u);
    StoredCount(s, endDate, u);
  }

  /** What the commits on the way of NothingLost overwrote. */
  function LostAt(commits: seq<Commit>, u: Id, t: nat): int {
    if commits == [] then 0
    else
      var last, before := commits[|commits| - 1], commits[..|commits| - 1];
      if last.sent.user == u && last.at < t then
        SentAt(before, u, last.at) - SentAt(before, u, last.readAt) + LostAt(before, u, last.readAt)
      else LostAt(before, u, t)
  }

  lemma {:induction false} SumLessLost(commits: seq<Commit>, step: nat, u: Id, t: nat)
    requires Ordered(commits, step)
    ensures StoredAt(commits, u, t) == SentAt(commits, u, t) - LostAt(commits, u, t)
  {
    if commits != [] {
      var last, before := commits[|commits| - 1], commits[..|commits| - 1];
      OrderedBefore(commits, step);
      if last.sent.user == u && last.at < t {
        SumLessLost(before, step, u, last.readAt);
        Later(before, u, last.at, t);
      } else {
        SumLessLost(before, step, u, t);
      }
    }
  }

  /** In every run, whatever is sent: the stored count is the sum of it less what was overwritten. */
  lemma StoredIsSumLessLost(endDate: int, events: seq<Event>, u: Id)
    ensures var s := Run(endDate, events);
            CountOf(Lookup(s.scores, u)) == SentAt(s.commits, u, s.step) - LostAt(s.commits, u, s.step)
  {
    RunKeepsInv(endDate, events);
    StoredScoreIs(endDate, events, u);
    SumLessLost(Run(endDate, events).commits, Run(endDate, events).step, u, Run(endDate, events).step);
  }

  ghost predicate NoneNegative(commits: seq<Commit>, u: Id) {
    forall c <- commits :: c.sent.user == u ==> c.sent.addValue >= 0
  }

  /** Nothing but zeros was committed for the user from the step of the read on. */
  ghost predicate OnlyZeros(commits: seq<Commit>, u: Id, readAt: nat) {
    forall c <- commits :: c.sent.user == u && c.at >= readAt ==> c.sent.addValue == 0
  }

  /** The stored count goes back from commit to commit, to what each had read. Only zeros were committed
      between the reads and the writes on this way. */
  ghost predicate NothingLost(commits: seq<Commit>, u: Id, t: nat) {
    if commits == [] then true
    else
      var last, before := commits[|commits| - 1], commits[..|commits| - 1];
      if last.sent.user == u && last.at < t then OnlyZeros(before, u, last.readAt) && NothingLost(before, u, last.readAt)
      else NothingLost(before, u, t)
  }

  lemma OrderedBefore(commits: seq<Commit>, step: nat)
    requires Ordered(commits, step) && commits != []
    ensures var last, before := commits[|commits| - 1], commits[..|commits| - 1];
            && Ordered(before, step) && Ordered(before, last.at) && last.readAt < last.at < step
  {
    var last, before := commits[|commits| - 1], commits[..|commits| - 1];
    assert last in commits;
    forall c <- before
      ensures c in commits && c.at < last.at
    {
      var i :| 0 <= i < |before| && before[i] == c;
      assert commits[i] == c;
    }
  }

  lemma {:induction false} SentMoreAt(commits: seq<Commit>, step: nat, u: Id, r: nat, t: nat)
    requires Ordered(commits, step) && NoneNegative(commits, u) && r <= t && forall c <- commits :: c.at < t
    ensures SentAt(commits, u, r) <= SentAt(commits, u, t)
    ensures SentAt(commits, u, r) == SentAt(commits, u, t) <==> OnlyZeros(commits, u, r)
  {
    if commits != [] {
      var last, before := commits[|commits| - 1], commits[..|commits| - 1];
      OrderedBefore(commits, step);
      assert commits == before + [last];
      SentMoreAt(before, step, u, r, t);
    }
  }

  /** Calls that add no negative amount never store too much, and store the sum of everything sent exactly
      if nothing is lost. */
  lemma {:induction false} SumUnlessLost(commits: seq<Commit>, step: nat, u: Id, t: nat)
    requires Ordered(commits, step) && NoneNegative(commits, u)
    ensures StoredAt(commits, u, t) <= SentAt(commits, u, t)
    ensures StoredAt(commits, u, t) == SentAt(commits, u, t) <==> NothingLost(commits, u, t)
  {
    if commits != [] {
      var last, before := commits[|commits| - 1], commits[..|commits| - 1];
      OrderedBefore(commits, step);
      assert commits == before + [last];
      if last.sent.user == u && last.at < t {
        SumUnlessLost(before, step, u, last.readAt);
        SentMoreAt(before, step, u, last.readAt, t);
      } else {
        SumUnlessLost(before, step, u, t);
      }
    }
  }

  /** In every run: how much is stored, and when it is everything. */
  lemma StoredIsSumIff(endDate: int, events: seq<Event>, u: Id)
    requires NoneNegative(Run(endDate, events).commits, u)
    ensures var s := Run(endDate, events);
            && CountOf(Lookup(s.scores, u)) <= SentAt(s.commits, u, s.step)
            && (CountOf(Lookup(s.scores, u)) == SentAt(s.commits, u, s.step) <==> NothingLost(s.commits, u, s.step))
  {
    RunKeepsInv(endDate, events);
    StoredScoreIs(endDate, events, u);
    SumUnlessLost(Run(endDate, events).commits, Run(endDate, events).step, u, Run(endDate, events).step);
  }

  /** Another commit for the same user falls between the read and the write of c. */
  predicate FallsWithin(d: Commit, c: Commit) {
    d.sent.user == c.sent.user && c.readAt <= d.at < c.at
  }

  ghost predicate NoOverlap(commits: seq<Commit>, u: Id) {
    forall c <- commits, d <- commits :: c.sent.user == u ==> !FallsWithin(d, c)
  }

  lemma {:induction false} NothingLostIff(commits: seq<Commit>, step: nat, u: Id, t: nat)
    requires Ordered(commits, step) && forall c <- commits :: c.at < t
    requires forall c <- commits :: c.sent.user == u ==> c.sent.addValue > 0
    ensures NothingLost(commits, u, t) <==> NoOverlap(commits, u)
  {
    if commits != [] {
      var last, before := commits[|commits| - 1], commits[..|commits| - 1];
      OrderedBefore(commits, step);
      assert commits == before + [last];
      NothingLostIff(before, step, u, t);
      OverlapWithLast(commits, step, u);
      if last.sent.user == u && OnlyZeros(before, u, last.readAt) {
        LostLater(before, u, last.readAt, t);
      }
    }
  }

  lemma OverlapWithLast(commits: seq<Commit>, step: nat, u: Id)
    requires Ordered(commits, step) && commits != []
    requires forall c <- commits :: c.sent.user == u ==> c.sent.addValue > 0
    ensures var last, before := commits[|commits| - 1], commits[..|commits| - 1];
            NoOverlap(commits, u) <==> NoOverlap(before, u) && (last.sent.user == u ==> OnlyZeros(before, u, last.readAt))
  {
    var last, before := commits[|commits| - 1], commits[..|commits| - 1];
    OrderedBefore(commits, step);
    assert commits == before + [last];
    assert forall d <- before :: d.at < last.at && d in commits;
    if last.sent.user == u && NoOverlap(commits, u) {
      forall d <- before
        ensures !(d.sent.user == u && d.at >= last.readAt)
      {
        assert !FallsWithin(d, last);
      }
    }
  }

  /** Commits of one user are all before both steps. */
  lemma {:induction false} LostLater(commits: seq<Commit>, u: Id, t: nat, t': nat)
    requires forall c <- commits :: c.sent.user == u ==> c.at < t && c.at < t'
    ensures NothingLost(commits, u, t) == NothingLost(commits, u, t')
  {
    if commits != [] {
      LostLater(commits[..|commits| - 1], u, t, t');
    }
  }

  /** When every call adds something, the stored count is the sum of everything sent exactly if no commit
      of the user falls between the read and the write of another one. */
  lemma StoredIsSumIffNoOverlap(endDate: int, events: seq<Event>, u: Id)
    requires forall c <- Run(endDate, events).commits :: c.sent.user == u ==> c.sent.addValue > 0
    ensures var s := Run(endDate, events);
            CountOf(Lookup(s.scores, u)) == SentAt(s.commits, u, s.step) <==> NoOverlap(s.commits, u)
  {
    RunKeepsInv(endDate, events);
    StoredIsSumIff(endDate, events, u);
    NothingLostIff(Run(endDate, events).commits, Run(endDate, events).step, u, Run(endDate, events).step);
  }

  lemma RunStep(endDate: int, events: seq<Event>, e: Event)
    ensures Run(endDate, events + [e]) == Next(endDate, Run(endDate, events), e)
  {
    assert (events + [e])[..|events|] == events;
  }

  /** Two wins reported at once: both calls read before either writes, and one increment is lost. */
  lemma IncrementLost(endDate: int, now: int)
    requires now <= endDate
    ensures var s := Run(endDate, [ReadCount(1, 7, now, 1.0), ReadCount(2, 7, now, 1.0), CommitCount(1), CommitCount(2)]);
            SentAt(s.commits, 7, s.step) == 2 && CountOf(Lookup(s.scores, 7)) == 1
  {
    var q1, q2 := Request(7, now, 1.0, None, 0), Request(7, now, 1.0, None, 1);
    NewScoreIs(q1, endDate);
    NewScoreIs(q2, endDate);
    var one, two := [ReadCount(1, 7, now, 1.0)], [ReadCount(1, 7, now, 1.0), ReadCount(2, 7, now, 1.0)];
    RunStep(endDate, [], ReadCount(1, 7, now, 1.0));
    RunStep(endDate, one, ReadCount(2, 7, now, 1.0));
    assert [] + one == one && one + [ReadCount(2, 7, now, 1.0)] == two;
    var s2 := Run(endDate, two);
    assert s2.requests == map[1 := q1, 2 := q2] && s2.scores == map[] && s2.commits == [] && s2.step == 2;
    RunStep(endDate, two, CommitCount(1));
    RunStep(endDate, two + [CommitCount(1)], CommitCount(2));
    var events := two + [CommitCount(1)] + [CommitCount(2)];
    assert events == [ReadCount(1, 7, now, 1.0), ReadCount(2, 7, now, 1.0), CommitCount(1), CommitCount(2)];
    var s := Run(endDate, events);
    var c1, c2 := Commit(Sent(7, now, 1), 0, 2), Commit(Sent(7, now, 1), 1, 3);
    assert s.commits == [c1] + [c2] && s.step == 4;
    BothCounted(s.commits, c1, c2);
    StoredScoreIs(endDate, events, 7);
  }

  lemma BothCounted(commits: seq<Commit>, c1: Commit, c2: Commit)
    requires commits == [c1, c2] && c1.sent == c2.sent && c1.sent.user == 7 && c1.sent.addValue == 1
    requires c1.at == 2 && c2.readAt == 1 && c2.at == 3
    ensures SentAt(commits, 7, 4) == 2 && StoredAt(commits, 7, 4) == 1
  {
    assert commits[..1] == [c1] && [c1][..0] == [];
    assert StoredAt([c1], 7, 1) == 0 && SentAt([c1], 7, 4) == 1;
    assert StoredAt(commits, 7, 4) == StoredAt([c1], 7, 1) + 1 && SentAt(commits, 7, 4) == SentAt([c1], 7, 4) + 1;
  }

  // ----- One call after the other -----

  function SumOf(history: seq<Sent>, u: Id): int {
    if history == [] then 0
    else
      var last := history[|history| - 1];
      SumOf(history[..|history| - 1], u) + if last.user == u then last.addValue else 0
  }

  function LastOf(history: seq<Sent>, u: Id): Option<int> {
    if history == [] then None
    else
      var last := history[|history| - 1];
      if last.user == u then Some(last.now) else LastOf(history[..|history| - 1], u)
  }

  /** The calls for the counts, each ended before the next begins. */
  function OneByOne(history: seq<Sent>): seq<Event> {
    if history == [] then []
    else
      var last := history[|history| - 1];
      OneByOne(history[..|history| - 1])
      + [ReadCount(0, last.user, last.now, last.addValue as real)] + [CommitCount(0)]
  }

  lemma {:induction false} SumNonNegative(history: seq<Sent>, u: Id)
    requires forall x <- history :: x.addValue >= 0
    ensures SumOf(history, u) >= 0
  {
    if history != [] {
      SumNonNegative(history[..|history| - 1], u);
    }
  }

  /** Then the stored score packs everything sent and the last date. */
  lemma {:induction false} OneByOneStores(endDate: int, history: seq<Sent>, u: Id)
    requires forall x <- history :: x.now <= endDate && x.addValue >= 0
    ensures var s := Run(endDate, OneByOne(history));
            && s.requests == map[]
            && StoredAt(s.commits, u, s.step) == SumOf(history, u) && LastNow(s.commits, u) == LastOf(history, u)
  {
    if history != [] {
      var before, x := history[..|history| - 1], history[|history| - 1];
      var s := Run(endDate, OneByOne(before));
      OneByOneStores(endDate, before, u);
      OneByOneStores(endDate, before, x.user);
      SumNonNegative(before, x.user);
      RunKeepsInv(endDate, OneByOne(before));
      RunStep(endDate, OneByOne(before), ReadCount(0, x.user, x.now, x.addValue as real));
      RunStep(endDate, OneByOne(before) + [ReadCount(0, x.user, x.now, x.addValue as real)], CommitCount(0));
      OneCall(endDate, s, x, u);
    }
  }

  lemma OneCall(endDate: int, s: State, x: Sent, u: Id)
    requires Inv(s, endDate) && s.requests == map[] && x.now <= endDate && x.addValue >= 0
    requires StoredAt(s.commits, x.user, s.step) >= 0
    ensures var s' := Next(endDate, Next(endDate, s, ReadCount(0, x.user, x.now, x.addValue as real)), CommitCount(0));
            && s'.requests == map[]
            && StoredAt(s'.commits, u, s'.step) == StoredAt(s.commits, u, s.step) + (if u == x.user then x.addValue else 0)
            && LastNow(s'.commits, u) == if u == x.user then Some(x.now) else LastNow(s.commits, u)
  {
    var read := Next(endDate, s, ReadCount(0, x.user, x.now, x.addValue as real));
    var q := Request(x.user, x.now, x.addValue as real, Lookup(s.scores, x.user), s.step);
    assert read.requests == map[0 := q];
    assert ScoreOk(s, endDate, x.user);
    StoredCount(s, endDate, x.user);
    NewScoreIs(q, endDate);
    var s' := Next(endDate, read, CommitCount(0));
    assert s'.commits == s.commits + [Commit(x, s.step, s.step + 1)];
    assert s'.commits[..|s.commits|] == s.commits;
    Later(s.commits, u, s.step, s'.step);
  }

  // ----- The calls -----

  class CountSender {
    const endDate: int
    var state: State

    ghost predicate Valid()
      reads this
    {
      Inv(state, endDate)
    }

    constructor (endDate: int)
      ensures Valid() && this.endDate == endDate && state == EMPTY
    {
      this.endDate := endDate;
      state := EMPTY;
      new;
      RunKeepsInv(endDate, []);
    }

    method ReadScore(request: nat, user: Id, now: int, addValue: real)
      requires Valid() && request !in state.requests
      modifies this
      ensures Valid() && state == Next(endDate, old(state), ReadCount(request, user, now, addValue))
      ensures state.scores == old(state).scores
    {
      ReadKeepsInv(state, endDate, request, user, now, addValue);
      var combinedScore := if user in state.scores then Some(state.scores[user]) else None;
      state := state.(
        requests := state.requests[request := Request(user, now, addValue, combinedScore, state.step)],
        step := state.step + 1);
    }

    method Compute(q: Request) returns (r: Result<nat>)
      ensures r == NewScore(q, endDate)
    {
      var count := q.addValue;
      if q.stored.Some? && q.stored.value != 0 {
        var nowCount := GetSeparatedCountScore(q.stored.value);
        count := nowCount as real + q.addValue;
      }
      if !IsWholeNumber(count) {
        return Err("not an integer");
      }
      r := GetCombinedCountScore(count.Floor, q.now, endDate);
    }

    /** Adds to the count packed in the score that was read, and writes it with the new time. */
    method WriteScore(request: nat) returns (r: Result<nat>)
      requires Valid() && request in state.requests
      modifies this
      ensures Valid() && state == Next(endDate, old(state), CommitCount(request))
      ensures var q := old(state).requests[request];
              && (r.Err? <==> q.now > endDate || !IsWholeNumber(q.addValue)
                              || StoredAt(old(state).commits, q.user, q.readAt) + q.addValue.Floor < 0)
              && (r.Ok? ==> GetSeparatedCountScore(r.value) == StoredAt(old(state).commits, q.user, q.readAt) + q.addValue.Floor)
      ensures state.scores ==
              if r.Ok? then old(state).scores[old(state).requests[request].user := r.value] else old(state).scores
      ensures r.Err? ==> state.commits == old(state).commits
    {
      WriteIs(state, endDate, request);
      CommitKeepsInv(state, endDate, request);
      var q := state.requests[request];
      r := Compute(q);
      state := state.(requests := state.requests - {request}, step := state.step + 1);
      if r.Ok? {
        state := state.(
          scores := state.scores[q.user := r.value],
          commits := state.commits + [Commit(Sent(q.user, q.now, q.addValue.Floor), q.readAt, state.step - 1)]);
      }
    }
  }

  lemma WriteIs(s: State, endDate: int, request: nat)
    requires Inv(s, endDate) && request in s.requests
    ensures var q := s.requests[request]; var r := NewScore(q, endDate);
            var total := StoredAt(s.commits, q.user, q.readAt) + q.addValue.Floor;
            && (r.Err? <==> q.now > endDate || !IsWholeNumber(q.addValue) || total < 0)
            && (r.Ok? ==> GetSeparatedCountScore(r.value) == total)
  {
    var q := s.requests[request];
    assert RequestOk(s, q);
    NewScoreIs(q, endDate);
    if NewScore(q, endDate).Ok? {
      PackedIffCombined(NewScore(q, endDate).value, CountOf(q.stored) + q.addValue.Floor, q.now, endDate);
    }
  }
}
