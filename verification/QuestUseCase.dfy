/** Starting and finishing quest chains of one user, src/use_cases/quest_usecase.ts. Every request reads
    first and commits later; in between other requests do the same, and the quest check completes and opens
    quests and deletes chains. */
module QuestUseCase {
  import opened Common
  import opened QuestBook
  import opened QuestChecker

  /** What a request knows between its read and its commit. */
  datatype Request = Starting(masterId: Id) | Finishing(masterId: Id, chainId: Id, readAt: nat)

  /** A finish that went through, with the steps at which it read and committed. */
  datatype Commit = Commit(masterId: Id, chainId: Id, readAt: nat, at: nat)

  datatype State = State(book: Book, requests: map<nat, Request>, commits: seq<Commit>, step: nat)

  /** Starting a chain may cost something: `funded` says whether the balance suffices when it is read,
      `paid` whether it still does when the price is taken. */
  datatype Event =
    | ReadStart(request: nat, masterId: Id, now: int, funded: bool)
    | CommitStart(request: nat, chainId: Id, expiredAt: Option<int>, paid: bool)
    | ReadFinish(request: nat, masterId: Id, now: int)
    | CommitFinish(request: nat)
    | CompleteQuest(key: Key, now: int)
    | OpenQuest(key: Key)
    | DeleteChain(chainId: Id)

  predicate IsChainOf(b: Book, masterId: Id, c: Id) {
    c in b.chains && b.chains[c].questChainMasterId == masterId
  }

  /** The chain the unique key (user, master) finds. */
  ghost function ChainOf(b: Book, masterId: Id): Option<Id> {
    if exists c :: IsChainOf(b, masterId, c) then
      var c :| IsChainOf(b, masterId, c); Some(c)
    else None
  }

  // ----- Reads -----

  /** The chain that has to come first, if there is one, is completed. */
  ghost predicate PredecessorCompleted(b: Book, master: ChainMaster) {
    master.beforeQuestChainId.Some? ==>
      exists d :: IsChainOf(b, master.beforeQuestChainId.value, d) && b.chains[d].completed
  }

  ghost predicate CanStart(b: Book, masters: Masters, masterId: Id, now: int) {
    masterId in masters && InPeriod(masters[masterId], now) && PredecessorCompleted(b, masters[masterId])
  }

  ghost predicate CanFinish(b: Book, masters: Masters, masterId: Id, now: int, c: Id) {
    && masterId in masters && InPeriod(masters[masterId], now) && IsChainOf(b, masterId, c)
    && !b.chains[c].completed && !IsExpired(b.chains[c], now) && AllDone(b, masters, c)
  }

  /** A chain can be started from the first to the last moment of its period, once the user has completed
      the chain named before it. */
  lemma StartedInTime(b: Book, masters: Masters, masterId: Id, now: int)
    ensures CanStart(b, masters, masterId, now) <==>
              && masterId in masters
              && var master := masters[masterId];
                 && !(master.startAt.Some? && now < master.startAt.value)
                 && !(master.endAt.Some? && master.endAt.value < now)
                 && (master.beforeQuestChainId.None?
                     || exists d <- b.chains :: b.chains[d].questChainMasterId == master.beforeQuestChainId.value && b.chains[d].completed)
  {
    if CanStart(b, masters, masterId, now) && masters[masterId].beforeQuestChainId.Some? {
      var d :| IsChainOf(b, masters[masterId].beforeQuestChainId.value, d) && b.chains[d].completed;
    } else if masterId in masters && masters[masterId].beforeQuestChainId.Some? {
      assert forall d <- b.chains :: b.chains[d].questChainMasterId == masters[masterId].beforeQuestChainId.value ==>
          IsChainOf(b, masters[masterId].beforeQuestChainId.value, d);
    }
  }

  /** It can be finished, once, within the same period and up to its own expiry, when every quest of its
      master has an end. */
  lemma FinishedInTime(b: Book, masters: Masters, masterId: Id, now: int, c: Id)
    ensures CanFinish(b, masters, masterId, now, c) <==>
              && masterId in masters && c in b.chains && b.chains[c].questChainMasterId == masterId
              && !(masters[masterId].startAt.Some? && now < masters[masterId].startAt.value)
              && !(masters[masterId].endAt.Some? && masters[masterId].endAt.value < now)
              && !b.chains[c].completed
              && !(b.chains[c].expiredAt.Some? && b.chains[c].expiredAt.value < now)
              && forall q <- masters[masterId].quests :: Key(c, q) in b.quests && b.quests[Key(c, q)].Some?
  {
    assert forall q :: IsCompleted(b, Key(c, q)) <==> Key(c, q) in b.quests && b.quests[Key(c, q)].Some?;
  }

  // ----- Steps -----

  ghost function AfterCommitStart(masters: Masters, s: State, request: nat, c: Id, expiredAt: Option<int>, paid: bool): State {
    if request in s.requests && s.requests[request].Starting? && c !in s.book.used then
      var masterId := s.requests[request].masterId;
      var rest := s.(requests := s.requests - {request});
      if paid && masterId in masters && ChainOf(s.book, masterId).None? then
        rest.(book := Start(s.book, c, masterId, masters[masterId], expiredAt))
      else rest
    else s
  }

  ghost function AfterReadFinish(masters: Masters, s: State, request: nat, masterId: Id, now: int): State {
    if request !in s.requests && ChainOf(s.book, masterId).Some?
       && CanFinish(s.book, masters, masterId, now, ChainOf(s.book, masterId).value) then
      s.(requests := s.requests[request := Finishing(masterId, ChainOf(s.book, masterId).value, s.step)])
    else s
  }

  /** Whatever the chain looks like by now, it is completed and its rewards are handed out. */
  ghost function AfterCommitFinish(s: State, request: nat): State {
    if request in s.requests && s.requests[request].Finishing? then
      var q := s.requests[request];
      var rest := s.(requests := s.requests - {request});
      if ChainOf(s.book, q.masterId).Some? then
        var c := ChainOf(s.book, q.masterId).value;
        rest.(book := Finish(s.book, c), commits := s.commits + [Commit(q.masterId, c, q.readAt, s.step)])
      else rest
    else s
  }

  ghost function AfterQuests(masters: Masters, b: Book, e: Event): Book {
    match e
    case CompleteQuest(k, now) =>
      if k in b.quests && QuestOk(b, masters, k) then Complete(b, k, MasterOf(b, masters, k).hasReward, now) else b
    case OpenQuest(k) => if CanOpen(b, masters, k) then Open(b, k) else b
    case DeleteChain(c) => Delete(b, c)
    case _ => b
  }

  ghost function Next(masters: Masters, s: State, e: Event): State {
    var after := match e
      case ReadStart(request, masterId, now, funded) =>
        if funded && request !in s.requests && CanStart(s.book, masters, masterId, now)
        then s.(requests := s.requests[request := Starting(masterId)]) else s
      case CommitStart(request, c, expiredAt, paid) => AfterCommitStart(masters, s, request, c, expiredAt, paid)
      case ReadFinish(request, masterId, now) => AfterReadFinish(masters, s, request, masterId, now)
      case CommitFinish(request) => AfterCommitFinish(s, request)
      case _ => s.(book := AfterQuests(masters, s.book, e));
    after.(step := s.step + 1)
  }

  const EMPTY: State := State(Book(map[], map[], multiset{}, multiset{}, {}), map[], [], 0)

  ghost function Run(masters: Masters, events: seq<Event>): State {
    if events == [] then EMPTY
    else Next(masters, Run(masters, events[..|events| - 1]), events[|events| - 1])
  }

  // ----- The invariant -----

  /** How many finishes were committed on the chain. */
  function Finishes(commits: seq<Commit>, c: Id): nat {
    if commits == [] then 0
    else Finishes(commits[..|commits| - 1], c) + if commits[|commits| - 1].chainId == c then 1 else 0
  }

  ghost predicate WasFinished(commits: seq<Commit>, masterId: Id) {
    exists i :: 0 <= i < |commits| && commits[i].masterId == masterId
  }

  ghost predicate ChainsUnique(b: Book) {
    forall c <- b.chains, d <- b.chains :: b.chains[c].questChainMasterId == b.chains[d].questChainMasterId ==> c == d
  }

  /** A chain on which a finish was committed is completed as long as it is there. */
  ghost predicate CommitOk(s: State, commit: Commit) {
    && commit.readAt < commit.at < s.step && commit.chainId in s.book.used
    && (commit.chainId in s.book.chains ==> s.book.chains[commit.chainId].completed)
  }

  /** A request read before any finish was committed on the chain it would commit on now. */
  ghost predicate RequestOk(s: State, masters: Masters, q: Request) {
    && q.masterId in masters
    && match q
       case Starting(m) =>
         masters[m].beforeQuestChainId.Some? ==> WasFinished(s.commits, masters[m].beforeQuestChainId.value)
       case Finishing(m, c, readAt) =>
         && readAt < s.step && c in s.book.used
         && (c in s.book.chains ==> IsChainOf(s.book, m, c) && AllDone(s.book, masters, c))
         && forall commit <- s.commits :: IsChainOf(s.book, m, commit.chainId) ==> readAt < commit.at
  }

  /** Finishes of one chain: the later one had read before the earlier one committed. */
  ghost predicate Overlap(first: Commit, second: Commit) {
    first.chainId == second.chainId && second.readAt < first.at < second.at
  }

  ghost predicate ChainDoneOk(s: State, masters: Masters, c: Id) {
    c in s.book.chains ==>
      var m := s.book.chains[c].questChainMasterId;
      && (s.book.chains[c].completed ==> WasFinished(s.commits, m))
      && (m in masters && masters[m].beforeQuestChainId.Some? ==> WasFinished(s.commits, masters[m].beforeQuestChainId.value))
  }

  ghost predicate Inv(s: State, masters: Masters) {
    && BookOk(s.book, masters) && ChainsUnique(s.book)
    && (forall commit <- s.commits :: CommitOk(s, commit))
    && (forall r <- s.requests :: RequestOk(s, masters, s.requests[r]))
    && (forall i, j :: 0 <= i < j < |s.commits| && s.commits[i].chainId == s.commits[j].chainId ==>
          Overlap(s.commits[i], s.commits[j]))
    && (forall c {:trigger Finishes(s.commits, c)} :: s.book.chainRewards[c] == Finishes(s.commits, c))
    && (forall c {:trigger ChainDoneOk(s, masters, c)} :: ChainDoneOk(s, masters, c))
  }

  // ----- Every step keeps it -----

  lemma FoundIsChain(b: Book, masterId: Id, c: Id)
    requires ChainsUnique(b)
    ensures ChainOf(b, masterId) == Some(c) <==> IsChainOf(b, masterId, c)
  {
  }

  lemma StillDone(a: Book, b: Book, masters: Masters, c: Id)
    requires AllDone(a, masters, c) && c in b.chains && b.chains[c].questChainMasterId == a.chains[c].questChainMasterId
    requires forall k {:trigger Keeps(a, b, k)} :: Keeps(a, b, k)
    ensures AllDone(b, masters, c)
  {
    forall q <- masters[a.chains[c].questChainMasterId].quests
      ensures IsCompleted(b, Key(c, q))
    {
      assert IsCompleted(a, Key(c, q)) && Keeps(a, b, Key(c, q));
    }
  }

  lemma AdvanceKeepsInv(masters: Masters, s: State, b: Book)
    requires Inv(s, masters) && BookOk(b, masters) && Advances(s.book, b)
    ensures Inv(s.(book := b, step := s.step + 1), masters)
  {
    var after := s.(book := b, step := s.step + 1);
    forall r <- after.requests
      ensures RequestOk(after, masters, after.requests[r])
    {
      assert RequestOk(s, masters, s.requests[r]);
      var q := s.requests[r];
      if q.Finishing? && q.chainId in b.chains {
        StillDone(s.book, b, masters, q.chainId);
      }
    }
    forall c
      ensures ChainDoneOk(after, masters, c)
    {
      assert ChainDoneOk(s, masters, c);
    }
  }

  lemma QuestsAdvance(masters: Masters, b: Book, e: Event)
    requires BookOk(b, masters)
    ensures var after := AfterQuests(masters, b, e); BookOk(after, masters) && Advances(b, after)
  {
    match e
    case CompleteQuest(k, now) =>
      if k in b.quests && QuestOk(b, masters, k) {
        CompleteAdvances(b, masters, k, now);
      }
    case OpenQuest(k) =>
      if CanOpen(b, masters, k) {
        OpenAdvances(b, masters, k);
      }
    case DeleteChain(c) => DeleteOk(b, masters, c);
    case _ =>
  }

  lemma ReadStartKeepsInv(masters: Masters, s: State, request: nat, masterId: Id, now: int)
    requires Inv(s, masters) && request !in s.requests && CanStart(s.book, masters, masterId, now)
    ensures Inv(s.(requests := s.requests[request := Starting(masterId)], step := s.step + 1), masters)
  {
    var after := s.(requests := s.requests[request := Starting(masterId)], step := s.step + 1);
    if masters[masterId].beforeQuestChainId.Some? {
      var d :| IsChainOf(s.book, masters[masterId].beforeQuestChainId.value, d) && s.book.chains[d].completed;
      assert ChainDoneOk(s, masters, d);
    }
    forall r <- after.requests
      ensures RequestOk(after, masters, after.requests[r])
    {
      assert r != request ==> RequestOk(s, masters, s.requests[r]);
    }
    forall c
      ensures ChainDoneOk(after, masters, c)
    {
      assert ChainDoneOk(s, masters, c);
    }
  }

  lemma ReadFinishKeepsInv(masters: Masters, s: State, request: nat, masterId: Id, now: int, c: Id)
    requires Inv(s, masters) && request !in s.requests && CanFinish(s.book, masters, masterId, now, c)
    ensures Inv(s.(requests := s.requests[request := Finishing(masterId, c, s.step)], step := s.step + 1), masters)
  {
    var q := Finishing(masterId, c, s.step);
    var after := s.(requests := s.requests[request := q], step := s.step + 1);
    assert ChainOk(s.book, masters, c);
    forall commit <- s.commits
      ensures !IsChainOf(s.book, masterId, commit.chainId)
    {
      assert CommitOk(s, commit);
    }
    forall r <- after.requests
      ensures RequestOk(after, masters, after.requests[r])
    {
      assert r != request ==> RequestOk(s, masters, s.requests[r]);
    }
    forall d
      ensures ChainDoneOk(after, masters, d)
    {
      assert ChainDoneOk(s, masters, d);
    }
  }

  lemma DropKeepsInv(masters: Masters, s: State, request: nat)
    requires Inv(s, masters)
    ensures Inv(s.(requests := s.requests - {request}, step := s.step + 1), masters)
  {
    var after := s.(requests := s.requests - {request}, step := s.step + 1);
    forall r <- after.requests
      ensures RequestOk(after, masters, after.requests[r])
    {
      assert RequestOk(s, masters, s.requests[r]);
    }
    forall c
      ensures ChainDoneOk(after, masters, c)
    {
      assert ChainDoneOk(s, masters, c);
    }
  }

  lemma StartKeepsInv(masters: Masters, s: State, request: nat, c: Id, expiredAt: Option<int>)
    requires Inv(s, masters) && request in s.requests && s.requests[request].Starting? && c !in s.book.used
    requires s.requests[request].masterId in masters && ChainOf(s.book, s.requests[request].masterId).None?
    ensures var m := s.requests[request].masterId;
            Inv(s.(book := Start(s.book, c, m, masters[m], expiredAt), requests := s.requests - {request}, step := s.step + 1), masters)
  {
    var m := s.requests[request].masterId;
    var b := Start(s.book, c, m, masters[m], expiredAt);
    var after := s.(book := b, requests := s.requests - {request}, step := s.step + 1);
    StartOk(s.book, masters, c, m, expiredAt);
    assert ChainOk(s.book, masters, c);
    StartKeeps(s.book, masters, c, m, expiredAt);
    assert RequestOk(s, masters, s.requests[request]);
    forall r <- after.requests
      ensures RequestOk(after, masters, after.requests[r])
    {
      var q := s.requests[r];
      assert RequestOk(s, masters, q);
      forall commit <- s.commits | IsChainOf(b, q.masterId, commit.chainId)
        ensures IsChainOf(s.book, q.masterId, commit.chainId)
      {
        assert CommitOk(s, commit);
      }
      if q.Finishing? && q.chainId in b.chains {
        StillDone(s.book, b, masters, q.chainId);
      }
    }
    forall commit <- s.commits
      ensures CommitOk(after, commit)
    {
      assert CommitOk(s, commit);
    }
    forall d <- b.chains, e <- b.chains | b.chains[d].questChainMasterId == b.chains[e].questChainMasterId
      ensures d == e
    {
      assert d != c ==> !IsChainOf(s.book, m, d) || ChainOf(s.book, m).Some?;
      assert e != c ==> !IsChainOf(s.book, m, e) || ChainOf(s.book, m).Some?;
    }
    forall d
      ensures ChainDoneOk(after, masters, d)
    {
      assert ChainDoneOk(s, masters, d);
    }
  }

  lemma StartKeeps(b: Book, masters: Masters, c: Id, m: Id, expiredAt: Option<int>)
    requires BookOk(b, masters) && m in masters && c !in b.used && c !in b.chains
    ensures forall k {:trigger Keeps(b, Start(b, c, m, masters[m], expiredAt), k)} :: Keeps(b, Start(b, c, m, masters[m], expiredAt), k)
  {
    forall k
      ensures Keeps(b, Start(b, c, m, masters[m], expiredAt), k)
    {
      if k in b.quests {
        assert QuestOk(b, masters, k);
      }
    }
  }

  /** After is the state once the finish of the chain has committed. */
  ghost predicate IsFinished(s: State, after: State, request: nat, c: Id, commit: Commit) {
    && request in s.requests && s.requests[request].Finishing? && IsChainOf(s.book, s.requests[request].masterId, c)
    && commit == Commit(s.requests[request].masterId, c, s.requests[request].readAt, s.step)
    && after == State(Finish(s.book, c), s.requests - {request}, s.commits + [commit], s.step + 1)
  }

  lemma FinishedCommits(masters: Masters, s: State, after: State, request: nat, c: Id, commit: Commit)
    requires Inv(s, masters) && IsFinished(s, after, request, c, commit)
    ensures forall other <- after.commits :: CommitOk(after, other)
    ensures forall i, j :: 0 <= i < j < |after.commits| && after.commits[i].chainId == after.commits[j].chainId ==>
              Overlap(after.commits[i], after.commits[j])
  {
    assert RequestOk(s, masters, s.requests[request]) && ChainOk(s.book, masters, c);
    forall other <- after.commits
      ensures CommitOk(after, other)
    {
      assert other != commit ==> CommitOk(s, other);
    }
    forall i, j | 0 <= i < j < |after.commits| && after.commits[i].chainId == after.commits[j].chainId
      ensures Overlap(after.commits[i], after.commits[j])
    {
      assert after.commits[i] in s.commits && CommitOk(s, after.commits[i]);
    }
  }

  lemma FinishedRewards(masters: Masters, s: State, after: State, request: nat, c: Id, commit: Commit)
    requires Inv(s, masters) && IsFinished(s, after, request, c, commit)
    ensures forall d {:trigger Finishes(after.commits, d)} :: after.book.chainRewards[d] == Finishes(after.commits, d)
  {
    assert after.commits[..|s.commits|] == s.commits;
    forall d
      ensures after.book.chainRewards[d] == Finishes(after.commits, d)
    {
      assert s.book.chainRewards[d] == Finishes(s.commits, d);
    }
  }

  lemma FinishedChains(masters: Masters, s: State, after: State, request: nat, c: Id, commit: Commit)
    requires Inv(s, masters) && IsFinished(s, after, request, c, commit)
    ensures forall d {:trigger ChainDoneOk(after, masters, d)} :: ChainDoneOk(after, masters, d)
  {
    LongerStillFinished(s.commits, commit);
    forall d
      ensures ChainDoneOk(after, masters, d)
    {
      assert ChainDoneOk(s, masters, d);
      if d in s.book.chains {
        var m := s.book.chains[d].questChainMasterId;
        assert WasFinished(s.commits, m) ==> WasFinished(after.commits, m);
      }
    }
  }

  lemma FinishKeepsInv(masters: Masters, s: State, after: State, request: nat, c: Id, commit: Commit)
    requires Inv(s, masters) && IsFinished(s, after, request, c, commit)
    ensures Inv(after, masters)
  {
    FinishOk(s.book, masters, c);
    FinishedCommits(masters, s, after, request, c, commit);
    FinishedRewards(masters, s, after, request, c, commit);
    FinishedChains(masters, s, after, request, c, commit);
    LongerStillFinished(s.commits, commit);
    forall r <- after.requests
      ensures RequestOk(after, masters, after.requests[r])
    {
      assert RequestOk(s, masters, s.requests[r]);
      if s.requests[r].Finishing? {
        FinishedRequest(masters, s, after, s.requests[r], c, commit);
      }
    }
  }

  lemma FinishedRequest(masters: Masters, s: State, after: State, q: Request, c: Id, commit: Commit)
    requires q.Finishing? && RequestOk(s, masters, q) && c in s.book.chains && commit.at == s.step
    requires after.book == Finish(s.book, c) && after.commits == s.commits + [commit] && after.step == s.step + 1
    ensures RequestOk(after, masters, q)
  {
    if q.chainId in after.book.chains {
      StillDone(s.book, after.book, masters, q.chainId);
    }
    forall other <- after.commits | IsChainOf(after.book, q.masterId, other.chainId)
      ensures q.readAt < other.at
    {
      assert other in s.commits || other == commit;
    }
  }

  lemma LongerStillFinished(commits: seq<Commit>, commit: Commit)
    ensures forall m {:trigger WasFinished(commits, m)} :: WasFinished(commits, m) ==> WasFinished(commits + [commit], m)
    ensures WasFinished(commits + [commit], commit.masterId)
  {
    forall m | WasFinished(commits, m)
      ensures WasFinished(commits + [commit], m)
    {
      var i :| 0 <= i < |commits| && commits[i].masterId == m;
      assert (commits + [commit])[i].masterId == m;
    }
    assert (commits + [commit])[|commits|] == commit;
  }

  /** Every event keeps the invariant. */
  lemma NextKeepsInv(masters: Masters, s: State, e: Event)
    requires Inv(s, masters)
    ensures Inv(Next(masters, s, e), masters)
  {
    AdvanceKeepsInv(masters, s, s.book);
    match e
    case ReadStart(request, masterId, now, funded) =>
      if funded && request !in s.requests && CanStart(s.book, masters, masterId, now) {
        ReadStartKeepsInv(masters, s, request, masterId, now);
      }
    case CommitStart(request, c, expiredAt, paid) =>
      DropKeepsInv(masters, s, request);
      if AfterCommitStart(masters, s, request, c, expiredAt, paid).book != s.book {
        StartKeepsInv(masters, s, request, c, expiredAt);
      }
    case ReadFinish(request, masterId, now) =>
      if AfterReadFinish(masters, s, request, masterId, now) != s {
        ReadFinishKeepsInv(masters, s, request, masterId, now, ChainOf(s.book, masterId).value);
      }
    case CommitFinish(request) =>
      DropKeepsInv(masters, s, request);
      if request in s.requests && s.requests[request].Finishing? && ChainOf(s.book, s.requests[request].masterId).Some? {
        var q, c := s.requests[request], ChainOf(s.book, s.requests[request].masterId).value;
        FinishKeepsInv(masters, s, Next(masters, s, e), request, c, Commit(q.masterId, c, q.readAt, s.step));
      }
    case _ =>
      QuestsAdvance(masters, s.book, e);
      AdvanceKeepsInv(masters, s, AfterQuests(masters, s.book, e));
  }

  lemma {:induction false} RunKeepsInv(masters: Masters, events: seq<Event>)
    ensures Inv(Run(masters, events), masters)
  {
    if events != [] {
      RunKeepsInv(masters, events[..|events| - 1]);
      NextKeepsInv(masters, Run(masters, events[..|events| - 1]), events[|events| - 1]);
    }
  }

  // ----- What holds in every run -----

  /** The rewards of a chain are handed out once for every finish committed on it. */
  lemma RewardsAreFinishes(masters: Masters, events: seq<Event>, c: Id)
    ensures var s := Run(masters, events); s.book.chainRewards[c] == Finishes(s.commits, c)
  {
    RunKeepsInv(masters, events);
  }

  lemma {:induction false} TwoFinishes(commits: seq<Commit>, c: Id)
    ensures Finishes(commits, c) >= 1 <==> exists i :: 0 <= i < |commits| && commits[i].chainId == c
    ensures Finishes(commits, c) >= 2 <==> exists i, j :: 0 <= i < j < |commits| && commits[i].chainId == commits[j].chainId == c
  {
    if commits != [] {
      var n := |commits| - 1;
      TwoFinishes(commits[..n], c);
      assert forall i :: 0 <= i < n ==> commits[..n][i] == commits[i];
    }
  }

  /** They are handed out more than once exactly if a finish of the chain committed although another
      request, which committed later, had read before. */
  lemma RewardedOnceIff(masters: Masters, events: seq<Event>, c: Id)
    ensures var s := Run(masters, events);
            (s.book.chainRewards[c] <= 1 <==>
               !exists i, j :: 0 <= i < |s.commits| && 0 <= j < |s.commits|
                 && s.commits[i].chainId == c && Overlap(s.commits[i], s.commits[j]))
  {
    var s := Run(masters, events);
    RunKeepsInv(masters, events);
    RewardsAreFinishes(masters, events, c);
    TwoFinishes(s.commits, c);
    if i, j :| 0 <= i < |s.commits| && 0 <= j < |s.commits| && s.commits[i].chainId == c && Overlap(s.commits[i], s.commits[j]) {
      var lo, hi := if i < j then i else j, if i < j then j else i;
      assert s.commits[lo].chainId == s.commits[hi].chainId == c;
    }
    if s.book.chainRewards[c] >= 2 {
      var i, j :| 0 <= i < j < |s.commits| && s.commits[i].chainId == s.commits[j].chainId == c;
      assert Overlap(s.commits[i], s.commits[j]);
    }
  }

  /** Once a finish of the chain has committed, no request reads it successfully any more. */
  lemma ReadsPrecedeFirstFinish(masters: Masters, events: seq<Event>, i: nat, j: nat)
    requires var s := Run(masters, events); i < |s.commits| && j < |s.commits| && s.commits[i].chainId == s.commits[j].chainId
    ensures var s := Run(masters, events); s.commits[j].readAt < s.commits[i].at
  {
    RunKeepsInv(masters, events);
    CommitsOverlap(masters, Run(masters, events), i, j);
  }

  lemma CommitsOverlap(masters: Masters, s: State, i: nat, j: nat)
    requires Inv(s, masters) && i < |s.commits| && j < |s.commits| && s.commits[i].chainId == s.commits[j].chainId
    ensures s.commits[j].readAt < s.commits[i].at
  {
    if i < j {
      assert Overlap(s.commits[i], s.commits[j]);
    } else if j < i {
      assert Overlap(s.commits[j], s.commits[i]);
    }
    assert CommitOk(s, s.commits[j]);
  }

  /** A chain is only ever started after the chain before it was finished. */
  lemma PredecessorWasFinished(masters: Masters, events: seq<Event>, c: Id)
    requires c in Run(masters, events).book.chains
    ensures var s := Run(masters, events); var m := s.book.chains[c].questChainMasterId;
            && m in masters
            && (masters[m].beforeQuestChainId.Some? ==> WasFinished(s.commits, masters[m].beforeQuestChainId.value))
  {
    RunKeepsInv(masters, events);
    var s := Run(masters, events);
    assert ChainOk(s.book, masters, c) && ChainDoneOk(s, masters, c);
  }

  lemma ReadChainIsFound(masters: Masters, s: State, request: nat)
    requires Inv(s, masters) && request in s.requests && s.requests[request].Finishing?
    ensures var q := s.requests[request];
            q.chainId in s.book.chains ==> ChainOf(s.book, q.masterId) == Some(q.chainId) && AllDone(s.book, masters, q.chainId)
  {
    assert RequestOk(s, masters, s.requests[request]);
    FoundIsChain(s.book, s.requests[request].masterId, s.requests[request].chainId);
  }

  /** A request commits on the chain it read if that is still there, and its quests are still completed. */
  lemma FinishesWhatItRead(masters: Masters, events: seq<Event>, request: nat)
    requires var s := Run(masters, events);
             request in s.requests && s.requests[request].Finishing? && s.requests[request].chainId in s.book.chains
    ensures var s := Run(masters, events); var q := s.requests[request];
            ChainOf(s.book, q.masterId) == Some(q.chainId) && AllDone(s.book, masters, q.chainId)
  {
    RunKeepsInv(masters, events);
    ReadChainIsFound(masters, Run(masters, events), request);
  }

  lemma RunStep(masters: Masters, events: seq<Event>, e: Event)
    ensures Run(masters, events + [e]) == Next(masters, Run(masters, events), e)
  {
    assert (events + [e])[..|events|] == events;
  }

  const QUEST: QuestMaster := QuestMaster(None, false, 1, true)
  const MASTERS: Masters := map[1 := ChainMaster(map[5 := QUEST], None, None, None)]

  /** One quest, completed; two requests read the chain before either commits. */
  const OVERLAPPING: seq<Event> := [
    ReadStart(0, 1, 0, true), CommitStart(0, 7, None, true), CompleteQuest(Key(7, 5), 1),
    ReadFinish(1, 1, 2), ReadFinish(2, 1, 2), CommitFinish(1), CommitFinish(2)
  ]

  lemma ChainStarted(events: seq<Event>, book: Book)
    requires events == [ReadStart(0, 1, 0, true), CommitStart(0, 7, None, true), CompleteQuest(Key(7, 5), 1)]
    requires book == Book(map[7 := Chain(1, false, None)], map[Key(7, 5) := Some(1)], multiset{Key(7, 5)}, multiset{}, {7})
    ensures Run(MASTERS, events) == State(book, map[], [], 3)
  {
    RunStep(MASTERS, [], ReadStart(0, 1, 0, true));
    assert [] + [ReadStart(0, 1, 0, true)] == [ReadStart(0, 1, 0, true)];
    assert CanStart(EMPTY.book, MASTERS, 1, 0);
    var s1 := Run(MASTERS, [ReadStart(0, 1, 0, true)]);
    assert s1 == State(EMPTY.book, map[0 := Starting(1)], [], 1);
    RunStep(MASTERS, [ReadStart(0, 1, 0, true)], CommitStart(0, 7, None, true));
    var s2 := Run(MASTERS, [ReadStart(0, 1, 0, true)] + [CommitStart(0, 7, None, true)]);
    assert FirstQuests(7, MASTERS[1]) == {Key(7, 5)};
    assert s2 == State(Book(map[7 := Chain(1, false, None)], map[Key(7, 5) := None], multiset{}, multiset{}, {7}), map[], [], 2);
    RunStep(MASTERS, [ReadStart(0, 1, 0, true)] + [CommitStart(0, 7, None, true)], CompleteQuest(Key(7, 5), 1));
    assert QuestOk(s2.book, MASTERS, Key(7, 5));
    assert events == [ReadStart(0, 1, 0, true)] + [CommitStart(0, 7, None, true)] + [CompleteQuest(Key(7, 5), 1)];
  }

  lemma BothRead(events: seq<Event>, book: Book)
    requires Run(MASTERS, events) == State(book, map[], [], 3)
    requires book.chains == map[7 := Chain(1, false, None)] && book.quests == map[Key(7, 5) := Some(1)]
    ensures Run(MASTERS, events + [ReadFinish(1, 1, 2)] + [ReadFinish(2, 1, 2)])
            == State(book, map[1 := Finishing(1, 7, 3), 2 := Finishing(1, 7, 4)], [], 5)
  {
    assert IsChainOf(book, 1, 7) && CanFinish(book, MASTERS, 1, 2, 7);
    RunStep(MASTERS, events, ReadFinish(1, 1, 2));
    var s := Run(MASTERS, events + [ReadFinish(1, 1, 2)]);
    assert s == State(book, map[1 := Finishing(1, 7, 3)], [], 4);
    RunStep(MASTERS, events + [ReadFinish(1, 1, 2)], ReadFinish(2, 1, 2));
  }

  /** Two overlapping requests hand out the rewards of the chain twice. */
  lemma RewardedTwice()
    ensures Run(MASTERS, OVERLAPPING).book.chainRewards[7] == 2
  {
    var events := OVERLAPPING[..3];
    var book := Book(map[7 := Chain(1, false, None)], map[Key(7, 5) := Some(1)], multiset{Key(7, 5)}, multiset{}, {7});
    ChainStarted(events, book);
    BothRead(events, book);
    var read := events + [ReadFinish(1, 1, 2)] + [ReadFinish(2, 1, 2)];
    RunStep(MASTERS, read, CommitFinish(1));
    RunStep(MASTERS, read + [CommitFinish(1)], CommitFinish(2));
    assert OVERLAPPING == read + [CommitFinish(1)] + [CommitFinish(2)];
    assert IsChainOf(book, 1, 7);
    var s := Run(MASTERS, read + [CommitFinish(1)]);
    assert s.book == Finish(book, 7) && s.requests == map[2 := Finishing(1, 7, 4)];
    assert IsChainOf(s.book, 1, 7);
  }

  // ----- The requests -----

  class QuestDesk {
    const masters: Masters
    var state: State

    ghost predicate Valid()
      reads this
    {
      Inv(state, masters)
    }

    constructor (masters: Masters)
      ensures Valid() && this.masters == masters && state == EMPTY
    {
      this.masters := masters;
      state := EMPTY;
      new;
      RunKeepsInv(masters, []);
    }

    method ReadStart(request: nat, masterId: Id, now: int, funded: bool) returns (r: Result<()>)
      requires Valid() && request !in state.requests
      modifies this
      ensures Valid() && state == Next(masters, old(state), Event.ReadStart(request, masterId, now, funded))
      ensures r.Ok? <==>
                && masterId in masters && InPeriod(masters[masterId], now) && funded
                && PredecessorCompleted(old(state).book, masters[masterId])
    {
      NextKeepsInv(masters, state, Event.ReadStart(request, masterId, now, funded));
      state := state.(step := state.step + 1);
      if masterId !in masters {
        return Err("unknown quest chain master id");
      }
      var master := masters[masterId];
      if !InPeriod(master, now) {
        return Err("The quest chain is outside the validity period.");
      }
      if !funded {
        return Err("balance insufficient");
      }
      if master.beforeQuestChainId.Some? {
        var b := state.book;
        var has := set d | d in b.chains && IsChainOf(b, master.beforeQuestChainId.value, d) && b.chains[d].completed;
        assert forall d :: IsChainOf(b, master.beforeQuestChainId.value, d) && b.chains[d].completed <==> d in has;
        if has == {} {
          return Err("You must complete the other quest chains first!");
        }
      }
      state := state.(requests := state.requests[request := Starting(masterId)]);
      return Ok(());
    }

    /** Creates the chain with its first quests and takes the price; the unique key refuses a second chain
        of the master. */
    method CommitStart(request: nat, id: Id, expiredAt: Option<int>, paid: bool) returns (r: Result<()>)
      requires Valid() && request in state.requests && state.requests[request].Starting? && id !in state.book.used
      modifies this
      ensures Valid() && state == Next(masters, old(state), Event.CommitStart(request, id, expiredAt, paid))
      ensures r.Ok? <==> paid && forall c <- old(state).book.chains ::
                old(state).book.chains[c].questChainMasterId != old(state).requests[request].masterId
      ensures r.Ok? ==> var m := old(state).requests[request].masterId;
                        m in masters && state.book == Start(old(state).book, id, m, masters[m], expiredAt)
      ensures r.Err? ==> state.book == old(state).book
    {
      NextKeepsInv(masters, state, Event.CommitStart(request, id, expiredAt, paid));
      assert RequestOk(state, masters, state.requests[request]);
      var masterId := state.requests[request].masterId;
      state := state.(requests := state.requests - {request}, step := state.step + 1);
      if c :| c in state.book.chains && state.book.chains[c].questChainMasterId == masterId {
        assert IsChainOf(state.book, masterId, c);
        return Err("unique constraint");
      }
      if !paid {
        return Err("balance over zero");
      }
      state := state.(book := Start(state.book, id, masterId, masters[masterId], expiredAt));
      return Ok(());
    }

    method ReadFinish(request: nat, masterId: Id, now: int) returns (r: Result<Id>)
      requires Valid() && request !in state.requests
      modifies this
      ensures Valid() && state == Next(masters, old(state), Event.ReadFinish(request, masterId, now))
      ensures r.Ok? <==> exists c :: CanFinish(old(state).book, masters, masterId, now, c)
      ensures r.Ok? ==> CanFinish(old(state).book, masters, masterId, now, r.value)
      ensures r.Ok? ==> state.requests == old(state).requests[request := Finishing(masterId, r.value, old(state).step)]
    {
      NextKeepsInv(masters, state, Event.ReadFinish(request, masterId, now));
      var step := state.step;
      state := state.(step := step + 1);
      if masterId !in masters {
        return Err("unknown quest chain master id");
      }
      var master := masters[masterId];
      if !InPeriod(master, now) {
        return Err("The quest chain is outside the validity period.");
      }
      if c :| c in state.book.chains && state.book.chains[c].questChainMasterId == masterId {
        FoundIsChain(state.book, masterId, c);
        var chain := state.book.chains[c];
        if chain.completed {
          return Err("this chain is already completed");
        }
        if IsExpired(chain, now) {
          return Err("this chain is already expired");
        }
        CountMeansAllDone(state.book, masters, c);
        if |CompletedOf(state.book, c)| != |master.quests| {
          return Err("uncompleted quest exists");
        }
        state := state.(requests := state.requests[request := Finishing(masterId, c, step)]);
        return Ok(c);
      }
      return Err("unknown quest chain id");
    }

    /** The transaction at the end: it finds the chain by its master and looks at nothing else. */
    method CommitFinish(request: nat) returns (r: Result<Id>)
      requires Valid() && request in state.requests && state.requests[request].Finishing?
      modifies this
      ensures Valid() && state == Next(masters, old(state), Event.CommitFinish(request))
      ensures r.Ok? <==> exists c :: IsChainOf(old(state).book, old(state).requests[request].masterId, c)
      ensures r.Ok? ==> r.value in state.book.chains && state.book.chains[r.value].completed
      ensures state.book.chainRewards ==
              if r.Ok? then old(state).book.chainRewards + multiset{r.value} else old(state).book.chainRewards
      ensures state.book.quests == old(state).book.quests && state.book.rewards == old(state).book.rewards
      ensures r.Ok? && old(state).requests[request].chainId in old(state).book.chains ==>
                r.value == old(state).requests[request].chainId && AllDone(old(state).book, masters, r.value)
    {
      ghost var s := state;
      NextKeepsInv(masters, s, Event.CommitFinish(request));
      var q := state.requests[request];
      if c :| c in state.book.chains && state.book.chains[c].questChainMasterId == q.masterId {
        FinishesFound(masters, s, request, c);
        var commit := Commit(q.masterId, c, q.readAt, state.step);
        state := State(Finish(state.book, c), state.requests - {request}, state.commits + [commit], state.step + 1);
        return Ok(c);
      }
      assert ChainOf(s.book, q.masterId).None?;
      state := state.(requests := state.requests - {request}, step := state.step + 1);
      return Err("record to update not found");
    }
  }

  /** A chain found by its master is the one the request read, if that is still there. */
  lemma FinishesFound(masters: Masters, s: State, request: nat, c: Id)
    requires Inv(s, masters) && request in s.requests && s.requests[request].Finishing?
    requires IsChainOf(s.book, s.requests[request].masterId, c)
    ensures var q := s.requests[request];
            && Next(masters, s, CommitFinish(request)) == State(
                 Finish(s.book, c), s.requests - {request}, s.commits + [Commit(q.masterId, c, q.readAt, s.step)], s.step + 1)
            && (q.chainId in s.book.chains ==> c == q.chainId && AllDone(Finish(s.book, c), masters, c))
  {
    FoundIsChain(s.book, s.requests[request].masterId, c);
    ReadChainIsFound(masters, s, request);
  }
}
