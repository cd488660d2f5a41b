/** The recursive quest check of src/helpers/quests.ts. Between its transactions other requests of the
    same user may complete and open quests and delete chains that ended long ago. */
module QuestChecker {
  import opened Collections
  import opened Common
  import opened QuestBook

  /** A moment as the check sees it: the time, the progress made, and what other requests do just then. */
  datatype Moment = Moment(now: int, progress: Key -> int, completes: seq<Key>, opens: seq<Key>, deletes: seq<Id>)

  /** A first pass: when it began, what it found, and the order in which it took the quests in progress. */
  datatype Pass = Pass(book: Book, tick: nat, order: seq<Key>)

  /** A round: its first pass and what that left behind. */
  datatype Round = Round(pass: Pass, after: Book)

  datatype Outcome = Finished | Threw

  /** The quests getInProgressQuests selects. */
  function InProgress(b: Book): set<Key> {
    set k | k in b.quests && b.quests[k].None? && k.questChainId in b.chains && !b.chains[k.questChainId].completed
  }

  predicate HasEnded(master: ChainMaster, now: int) {
    master.endAt.Some? && master.endAt.value < now
  }

  /** Both ends of the period belong to it, and a chain is still good at the moment it expires. */
  lemma PeriodIs(master: ChainMaster, chain: Chain, now: int)
    ensures HasEnded(master, now) <==> !(master.endAt.None? || now <= master.endAt.value)
    ensures InPeriod(master, now) <==> (master.startAt.None? || now >= master.startAt.value) && !HasEnded(master, now)
    ensures IsExpired(chain, now) <==> !(chain.expiredAt.None? || now <= chain.expiredAt.value)
  {
  }

  /** What a pass looks at: the quests without an end of the chains that are not completed. */
  lemma InProgressIff(b: Book, k: Key)
    ensures k in InProgress(b) <==>
              k in b.quests && !IsCompleted(b, k) && k.questChainId in b.chains && !b.chains[k.questChainId].completed
  {
  }

  ghost predicate Lists(order: seq<Key>, keys: set<Key>) {
    && (forall k :: k in order <==> k in keys)
    && (forall i, j :: 0 <= i < j < |order| ==> order[i] != order[j])
  }

  /** A quest may be opened: its chain and master exist and all quests before it are completed. */
  predicate CanOpen(b: Book, masters: Masters, k: Key) {
    && k !in b.quests && k.questChainId in b.chains && b.chains[k.questChainId].questChainMasterId in masters
    && var quests := masters[b.chains[k.questChainId].questChainMasterId].quests;
       && k.questMasterId in quests && quests[k.questMasterId].beforeQuestIds.Some?
       && forall before <- quests[k.questMasterId].beforeQuestIds.value :: IsCompleted(b, Key(k.questChainId, before))
  }

  /** Quests opened since then belong to other chains, or to this one, only. */
  ghost predicate OnlyElsewhere(a: Book, b: Book, c: Id) {
    forall k <- b.quests :: k in a.quests || k.questChainId != c
  }

  ghost predicate OnlyIn(a: Book, b: Book, c: Id) {
    forall k <- b.quests :: k in a.quests || k.questChainId == c
  }

  /** Of the quests not completed before, at most these are completed since. */
  ghost predicate CompletesAtMost(a: Book, b: Book, keys: set<Key>) {
    forall k {:trigger IsCompleted(b, k)} :: IsCompleted(b, k) ==> IsCompleted(a, k) || k in keys
  }

  lemma AtMostTransitive(a: Book, b: Book, c: Book, keys: set<Key>, more: set<Key>)
    requires CompletesAtMost(a, b, keys) && CompletesAtMost(b, c, more)
    ensures CompletesAtMost(a, c, keys + more)
    ensures more <= keys ==> CompletesAtMost(a, c, keys)
  {
    forall k | IsCompleted(c, k)
      ensures IsCompleted(a, k) || k in keys || k in more
    {
      assert IsCompleted(c, k) ==> IsCompleted(b, k) || k in more;
    }
  }

  lemma OpenAdvances(b: Book, masters: Masters, k: Key)
    requires BookOk(b, masters) && CanOpen(b, masters, k)
    ensures BookOk(Open(b, k), masters) && Advances(b, Open(b, k)) && Open(b, k).chains == b.chains
    ensures CompletesAtMost(b, Open(b, k), {})
  {
    OpenOk(b, masters, k);
  }

  lemma CompleteAdvances(b: Book, masters: Masters, k: Key, now: int)
    requires BookOk(b, masters) && k in b.quests && QuestOk(b, masters, k)
    ensures var after := Complete(b, k, MasterOf(b, masters, k).hasReward, now);
            BookOk(after, masters) && Advances(b, after) && after.chains == b.chains && CompletesAtMost(b, after, {k})
  {
    CompleteOk(b, masters, k, now);
  }

  class QuestProgressChecker {
    const masters: Masters
    const world: nat -> Moment
    const addMonth: int -> int
    var book: Book
    var tick: nat

    ghost predicate Valid()
      reads this
    {
      BookOk(book, masters)
    }

    /** The chain ended more than a month ago. */
    predicate EndedLongAgo(chain: Chain, now: int) {
      && chain.questChainMasterId in masters
      && var master := masters[chain.questChainMasterId];
         HasEnded(master, now) && addMonth(master.endAt.value) < now
    }

    /** A chain ended long ago once a month has gone by after its end, not at its end already. */
    lemma EndedLongAgoIff(chain: Chain, now: int)
      ensures EndedLongAgo(chain, now) <==>
                && chain.questChainMasterId in masters
                && masters[chain.questChainMasterId].endAt.Some?
                && masters[chain.questChainMasterId].endAt.value < now
                && addMonth(masters[chain.questChainMasterId].endAt.value) < now
    {
    }

    /** No other request opens quests or deletes chains. */
    ghost predicate Quiet() {
      forall t :: world(t).opens == [] && world(t).deletes == []
    }

    /** Another request deletes the chain at this moment. */
    predicate RivalDeletes(chain: Chain, c: Id, t: nat) {
      c in world(t).deletes && EndedLongAgo(chain, world(t).now)
    }

    /** The pass deletes the chain of its j-th quest, or finds it gone. */
    predicate PassDeletes(p: Pass, c: Id, j: nat) {
      && j < |p.order| && p.order[j].questChainId == c && c in p.book.chains
      && EndedLongAgo(p.book.chains[c], world(p.tick + j + 1).now)
    }

    /** Whether the chain is gone when the pass comes to its i-th quest: it was deleted by the pass itself at
        an earlier quest of the chain, or by another request before the moment t. */
    ghost predicate IsGone(p: Pass, c: Id, i: nat, t: nat)
      requires c in p.book.chains
    {
      || (exists j: nat {:trigger PassDeletes(p, c, j)} :: j < i && PassDeletes(p, c, j))
      || (exists s: nat {:trigger RivalDeletes(p.book.chains[c], c, s)} :: p.tick <= s < t && RivalDeletes(p.book.chains[c], c, s))
    }

    /** The pass wants to delete the chain of its i-th quest, and the chain is gone. */
    ghost predicate FailsAt(p: Pass, i: nat) {
      && i < |p.order| && PassDeletes(p, p.order[i].questChainId, i)
      && IsGone(p, p.order[i].questChainId, i, p.tick + i + 1)
    }

    ghost predicate Fails(p: Pass) {
      exists i: nat {:trigger FailsAt(p, i)} :: FailsAt(p, i)
    }

    /** The chain never ends, and never expires, while the world goes on. */
    ghost predicate StaysOpen(chain: Chain)
    {
      && chain.questChainMasterId in masters
      && forall t :: !HasEnded(masters[chain.questChainMasterId], world(t).now) && !IsExpired(chain, world(t).now)
    }

    /** When the pass comes to its i-th quest, the chain has not ended and the goal is reached. */
    ghost predicate ReachedAt(p: Pass, i: nat) {
      && i < |p.order| && p.order[i].questChainId in p.book.chains
      && var m := p.book.chains[p.order[i].questChainId].questChainMasterId;
         && m in masters && p.order[i].questMasterId in masters[m].quests
         && !HasEnded(masters[m], world(p.tick + i + 1).now)
         && world(p.tick + i + 1).progress(p.order[i]) >= masters[m].quests[p.order[i].questMasterId].progressGoal
    }

    /** In a chain that is on, the goal itself is enough and one less is not; an ended chain completes nothing. */
    lemma GoalIsEnough(p: Pass, i: nat)
      requires i < |p.order| && p.order[i].questChainId in p.book.chains
      requires p.book.chains[p.order[i].questChainId].questChainMasterId in masters
      requires p.order[i].questMasterId in masters[p.book.chains[p.order[i].questChainId].questChainMasterId].quests
      ensures var master := masters[p.book.chains[p.order[i].questChainId].questChainMasterId];
              var seen, goal := world(p.tick + i + 1), master.quests[p.order[i].questMasterId].progressGoal;
              && (master.endAt.Some? && master.endAt.value < seen.now ==> !ReachedAt(p, i))
              && (master.endAt.None? || seen.now <= master.endAt.value ==> (seen.progress(p.order[i]) < goal <==> !ReachedAt(p, i)))
    {
    }

    ghost predicate ReachesAny(p: Pass) {
      exists i: nat {:trigger ReachedAt(p, i)} :: ReachedAt(p, i)
    }

    /** The quests other requests complete at the moment t. */
    function RivalCompletes(t: nat): set<Key> {
      set k <- world(t).completes
    }

    /** Chains that stay open are not deleted. */
    ghost predicate OpenChainsStay(a: Book, b: Book) {
      forall c <- a.chains :: StaysOpen(a.chains[c]) ==> c in b.chains
    }

    constructor (masters: Masters, world: nat -> Moment, addMonth: int -> int)
      ensures Valid() && book == Book(map[], map[], multiset{}, multiset{}, {})
      ensures this.masters == masters && this.world == world && this.addMonth == addMonth
    {
      this.masters, this.world, this.addMonth := masters, world, addMonth;
      book, tick := Book(map[], map[], multiset{}, multiset{}, {}), 0;
    }

    /** Exactly the rivals' deletions happened. */
    ghost predicate OnlyRivalsDeleted(a: Book, b: Book, t: nat) {
      forall c {:trigger c in a.chains} {:trigger c in b.chains} :: c in b.chains <==> c in a.chains && !RivalDeletes(a.chains[c], c, t)
    }

    /** Time passes, and other requests complete and open quests and delete chains. */
    method Disturb()
      requires Valid()
      modifies this
      ensures Valid() && Advances(old(book), book) && tick == old(tick) + 1
      ensures OnlyRivalsDeleted(old(book), book, old(tick))
      ensures CompletesAtMost(old(book), book, RivalCompletes(old(tick)))
      ensures Quiet() ==> book.quests.Keys == old(book).quests.Keys && book.chains == old(book).chains
    {
      var moment := world(tick);
      DisturbQuests();
      tick := tick + 1;
      ghost var before := book;
      for i := 0 to |moment.deletes|
        invariant Valid() && Advances(old(book), book) && tick == old(tick) + 1
        invariant CompletesAtMost(old(book), book, RivalCompletes(old(tick)))
        invariant forall c {:trigger c in before.chains} {:trigger c in book.chains} ::
                    c in book.chains <==> c in before.chains && !(c in moment.deletes[..i] && EndedLongAgo(before.chains[c], moment.now))
        invariant Quiet() ==> book == before
      {
        var c := moment.deletes[i];
        assert moment.deletes[..i + 1] == moment.deletes[..i] + [c];
        if c in book.chains && EndedLongAgo(book.chains[c], moment.now) {
          DeleteOk(book, masters, c);
          ghost var kept := book;
          book := Delete(book, c);
          AdvancesTransitive(old(book), kept, book);
          AtMostTransitive(old(book), kept, book, RivalCompletes(old(tick)), {});
        }
      }
      assert moment.deletes[..|moment.deletes|] == moment.deletes;
    }

    method DisturbQuests()
      requires Valid()
      modifies `book
      ensures Valid() && Advances(old(book), book) && book.chains == old(book).chains
      ensures CompletesAtMost(old(book), book, RivalCompletes(tick))
      ensures Quiet() ==> book.quests.Keys == old(book).quests.Keys
    {
      var moment := world(tick);
      for i := 0 to |moment.completes|
        invariant Valid() && Advances(old(book), book) && book.chains == old(book).chains
        invariant CompletesAtMost(old(book), book, RivalCompletes(tick))
        invariant Quiet() ==> book.quests.Keys == old(book).quests.Keys
      {
        var k := moment.completes[i];
        if k in book.quests {
          assert QuestOk(book, masters, k);
          CompleteAdvances(book, masters, k, moment.now);
          var master := masters[book.chains[k.questChainId].questChainMasterId].quests[k.questMasterId];
          ghost var before := book;
          book := Complete(book, k, master.hasReward, moment.now);
          AdvancesTransitive(old(book), before, book);
          AtMostTransitive(old(book), before, book, RivalCompletes(tick), {k});
        }
      }
      for i := 0 to |moment.opens|
        invariant Valid() && Advances(old(book), book) && book.chains == old(book).chains
        invariant CompletesAtMost(old(book), book, RivalCompletes(tick))
        invariant Quiet() ==> book.quests.Keys == old(book).quests.Keys
      {
        var k := moment.opens[i];
        if CanOpen(book, masters, k) {
          OpenAdvances(book, masters, k);
          ghost var before := book;
          book := Open(book, k);
          AdvancesTransitive(old(book), before, book);
          AtMostTransitive(old(book), before, book, RivalCompletes(tick), {});
        }
      }
    }

    /** A quest the pass finds reached is completed, unless its chain is gone. */
    ghost predicate DoneAt(p: Pass, b: Book, i: nat) {
      ReachedAt(p, i) ==> p.order[i].questChainId !in b.chains || IsCompleted(b, p.order[i])
    }

    /** What is completed while the pass checks its i-th quest. */
    ghost function CompletedAt(p: Pass, i: nat): set<Key> {
      RivalCompletes(p.tick + i) + if ReachedAt(p, i) then {p.order[i]} else {}
    }

    /** The chain of the i-th quest ended long ago, and is gone already. */
    ghost predicate IsRefused(p: Pass, a: Book, i: nat)
      requires i < |p.order| && p.order[i].questChainId in p.book.chains
    {
      var c := p.order[i].questChainId;
      && EndedLongAgo(p.book.chains[c], world(p.tick + i + 1).now)
      && (c !in a.chains || RivalDeletes(p.book.chains[c], c, p.tick + i))
    }

    /** The chains left by the check of the i-th quest: rivals delete theirs, the check that of the quest. */
    ghost predicate ChainsAfter(p: Pass, a: Book, b: Book, i: nat)
      requires i < |p.order|
    {
      forall c <- p.book.chains ::
        c in b.chains <==>
          && c in a.chains && !RivalDeletes(p.book.chains[c], c, p.tick + i)
          && !(c == p.order[i].questChainId && EndedLongAgo(p.book.chains[c], world(p.tick + i + 1).now))
    }

    lemma ChainsAfterCheck(p: Pass, a: Book, mid: Book, b: Book, i: nat)
      requires i < |p.order| && p.order[i].questChainId in p.book.chains
      requires Advances(p.book, a) && OnlyRivalsDeleted(a, mid, p.tick + i)
      requires b.chains == if EndedLongAgo(p.book.chains[p.order[i].questChainId], world(p.tick + i + 1).now)
                           then mid.chains - {p.order[i].questChainId} else mid.chains
      ensures ChainsAfter(p, a, b, i)
    {
      forall c <- p.book.chains
        ensures c in b.chains <==>
                  && c in a.chains && !RivalDeletes(p.book.chains[c], c, p.tick + i)
                  && !(c == p.order[i].questChainId && EndedLongAgo(p.book.chains[c], world(p.tick + i + 1).now))
      {
        assert c in a.chains ==> a.chains[c] == p.book.chains[c];
      }
    }

    /** The transaction that completes a quest; without effect if it is gone or completed already. */
    method TryComplete(k: Key, ghost questMaster: QuestMaster, hasReward: bool, now: int)
      requires Valid() && hasReward == questMaster.hasReward
      requires k in book.quests && QuestOk(book, masters, k) ==> questMaster == MasterOf(book, masters, k)
      modifies `book
      ensures Valid() && Advances(old(book), book) && book.chains == old(book).chains
      ensures k in old(book).quests ==> IsCompleted(book, k)
      ensures CompletesAtMost(old(book), book, {k})
    {
      if k in book.quests {
        assert QuestOk(book, masters, k);
        CompleteAdvances(book, masters, k, now);
        book := Complete(book, k, hasReward, now);
      }
    }

    method DeleteChain(c: Id)
      requires Valid()
      modifies `book
      ensures Valid() && Advances(old(book), book) && book.chains == old(book).chains - {c}
      ensures CompletesAtMost(old(book), book, {})
    {
      DeleteOk(book, masters, c);
      book := Delete(book, c);
    }

    /** What the check of the i-th quest makes of the book. */
    ghost predicate IsChecked(p: Pass, a: Book, b: Book, i: nat)
      requires i < |p.order|
    {
      Advances(a, b) && ChainsAfter(p, a, b, i) && DoneAt(p, b, i) && CompletesAtMost(a, b, CompletedAt(p, i))
    }

    /** One quest in progress: its chain is deleted when it ended more than a month ago, and otherwise the
        quest is completed when its goal is reached. */
    method CheckOne(ghost p: Pass, ghost i: nat, k: Key, chainMaster: ChainMaster) returns (o: Outcome, completes: bool)
      requires Valid() && Advances(p.book, book) && i < |p.order| && k == p.order[i] && tick == p.tick + i
      requires k in p.book.quests && QuestOk(p.book, masters, k)
      requires chainMaster == masters[p.book.chains[k.questChainId].questChainMasterId]
      modifies this
      ensures Valid() && tick == old(tick) + 1
      ensures o.Threw? <==> IsRefused(p, old(book), i)
      ensures IsChecked(p, old(book), book, i) && (completes <==> ReachedAt(p, i))
    {
      completes := false;
      ghost var before := book;
      Disturb();
      ghost var mid := book;
      var moment := world(tick);
      if HasEnded(chainMaster, moment.now) {
        if addMonth(chainMaster.endAt.value) < moment.now {
          if k.questChainId !in book.chains {
            ChainsAfterCheck(p, before, mid, book, i);
            return Threw, completes;
          }
          DeleteChain(k.questChainId);
          AdvancesTransitive(before, mid, book);
          AtMostTransitive(before, mid, book, RivalCompletes(old(tick)), {});
        }
        ChainsAfterCheck(p, before, mid, book, i);
        return Finished, completes;
      }
      var questMaster := chainMaster.quests[k.questMasterId];
      if moment.progress(k) >= questMaster.progressGoal {
        completes := true;
        assert Keeps(p.book, before, k) && Keeps(before, book, k);
        TryComplete(k, questMaster, questMaster.hasReward, moment.now);
        AdvancesTransitive(before, mid, book);
        AtMostTransitive(before, mid, book, RivalCompletes(old(tick)), {k});
      }
      ChainsAfterCheck(p, before, mid, book, i);
      return Finished, completes;
    }

    lemma GoneOneMore(p: Pass, c: Id, i: nat, t: nat)
      requires c in p.book.chains && p.tick <= t
      ensures IsGone(p, c, i, t + 1) <==> IsGone(p, c, i, t) || RivalDeletes(p.book.chains[c], c, t)
      ensures IsGone(p, c, i + 1, t) <==> IsGone(p, c, i, t) || PassDeletes(p, c, i)
    {
    }

    /** The chains that were there when the pass began and are not any more are exactly those gone. */
    ghost predicate GoneExactly(p: Pass, b: Book, i: nat) {
      forall c <- p.book.chains :: c !in b.chains <==> IsGone(p, c, i, p.tick + i)
    }

    lemma GoneStaysExact(p: Pass, a: Book, b: Book, i: nat)
      requires i < |p.order| && GoneExactly(p, a, i) && ChainsAfter(p, a, b, i)
      ensures GoneExactly(p, b, i + 1)
    {
      forall c <- p.book.chains
        ensures c !in b.chains <==> IsGone(p, c, i + 1, p.tick + (i + 1))
      {
        var gone := IsGone(p, c, i, p.tick + i);
        assert c !in a.chains <==> gone;
        assert IsGone(p, c, i + 1, p.tick + i + 1) <==> gone || RivalDeletes(p.book.chains[c], c, p.tick + i) || PassDeletes(p, c, i) by {
          GoneOneMore(p, c, i, p.tick + i);
          GoneOneMore(p, c, i, p.tick + i + 1);
        }
      }
    }

    lemma FailsIffRefused(p: Pass, a: Book, i: nat)
      requires i < |p.order| && p.order[i].questChainId in p.book.chains && GoneExactly(p, a, i)
      ensures FailsAt(p, i) <==> IsRefused(p, a, i)
    {
      var c := p.order[i].questChainId;
      var gone := IsGone(p, c, i, p.tick + i + 1);
      assert gone <==> c !in a.chains || RivalDeletes(p.book.chains[c], c, p.tick + i) by {
        GoneOneMore(p, c, i, p.tick + i);
      }
      assert FailsAt(p, i) <==> PassDeletes(p, c, i) && gone;
    }

    /** Among the first i quests of the pass the reached ones are completed, and quests that were not there
        or not completed are completed only if reached, or by other requests. */
    ghost predicate ReachedDone(p: Pass, b: Book, i: nat, hasCompleteQuest: bool) {
      && (hasCompleteQuest <==> exists j: nat {:trigger ReachedAt(p, j)} :: j < i && ReachedAt(p, j))
      && (forall j: nat {:trigger DoneAt(p, b, j)} :: j < i ==> DoneAt(p, b, j))
      && (forall k {:trigger IsCompleted(b, k)} :: IsCompleted(b, k) ==> IsCompleted(p.book, k) || CompletedWithin(p, i, k))
    }

    ghost predicate CompletedWithin(p: Pass, i: nat, k: Key) {
      || (exists j: nat {:trigger ReachedAt(p, j)} :: j < i && ReachedAt(p, j) && p.order[j] == k)
      || (exists t: nat {:trigger world(t)} :: p.tick <= t < p.tick + i && k in world(t).completes)
    }

    lemma DoneStays(p: Pass, a: Book, b: Book, j: nat)
      requires DoneAt(p, a, j) && Advances(a, b)
      ensures DoneAt(p, b, j)
    {
      if ReachedAt(p, j) {
        assert Keeps(a, b, p.order[j]);
      }
    }

    lemma WithinStays(p: Pass, i: nat, k: Key)
      ensures CompletedWithin(p, i, k) ==> CompletedWithin(p, i + 1, k)
      ensures ReachedAt(p, i) ==> CompletedWithin(p, i + 1, p.order[i])
      ensures k in world(p.tick + i).completes ==> CompletedWithin(p, i + 1, k)
    {
    }

    lemma ReachedStaysDone(p: Pass, a: Book, b: Book, i: nat, before: bool, completes: bool)
      requires i < |p.order| && ReachedDone(p, a, i, before) && Advances(a, b)
      requires completes <==> ReachedAt(p, i)
      requires DoneAt(p, b, i) && CompletesAtMost(a, b, CompletedAt(p, i))
      ensures ReachedDone(p, b, i + 1, before || completes)
    {
      forall j: nat | j < i + 1
        ensures DoneAt(p, b, j)
      {
        if j < i {
          DoneStays(p, a, b, j);
        }
      }
      forall k | IsCompleted(b, k)
        ensures IsCompleted(p.book, k) || CompletedWithin(p, i + 1, k)
      {
        WithinStays(p, i, k);
      }
    }

    lemma OpenChainsStayFurther(p: Pass, a: Book, b: Book, i: nat)
      requires i < |p.order| && OpenChainsStay(p.book, a) && ChainsAfter(p, a, b, i)
      ensures OpenChainsStay(p.book, b)
    {
      forall c <- p.book.chains | StaysOpen(p.book.chains[c])
        ensures c in b.chains
      {
        assert c in a.chains;
      }
    }

    /** How far the pass has come. */
    ghost predicate CheckedUpTo(p: Pass, b: Book, i: nat, hasCompleteQuest: bool) {
      && i <= |p.order| && Advances(p.book, b) && GoneExactly(p, b, i)
      && (forall j: nat {:trigger FailsAt(p, j)} :: j < i ==> !FailsAt(p, j))
      && OpenChainsStay(p.book, b) && ReachedDone(p, b, i, hasCompleteQuest)
    }

    lemma OneMoreChecked(p: Pass, a: Book, b: Book, i: nat, before: bool, completes: bool)
      requires i < |p.order| && p.order[i].questChainId in p.book.chains
      requires CheckedUpTo(p, a, i, before) && IsChecked(p, a, b, i)
      requires !IsRefused(p, a, i) && (completes <==> ReachedAt(p, i))
      ensures CheckedUpTo(p, b, i + 1, before || completes)
    {
      AdvancesTransitive(p.book, a, b);
      FailsIffRefused(p, a, i);
      GoneStaysExact(p, a, b, i);
      OpenChainsStayFurther(p, a, b, i);
      ReachedStaysDone(p, a, b, i, before, completes);
    }

    lemma PassStops(p: Pass, a: Book, b: Book, i: nat, before: bool)
      requires i < |p.order| && p.order[i].questChainId in p.book.chains
      requires CheckedUpTo(p, a, i, before) && IsChecked(p, a, b, i) && IsRefused(p, a, i)
      ensures Fails(p) && Advances(p.book, b) && OpenChainsStay(p.book, b)
    {
      AdvancesTransitive(p.book, a, b);
      FailsIffRefused(p, a, i);
      OpenChainsStayFurther(p, a, b, i);
    }

    lemma QuestOfPass(p: Pass, i: nat)
      requires BookOk(p.book, masters) && Lists(p.order, InProgress(p.book)) && i < |p.order|
      ensures p.order[i] in p.book.quests && QuestOk(p.book, masters, p.order[i])
    {
      assert p.order[i] in p.order;
    }

    /** What a pass that comes to its end brings about. */
    ghost predicate PassDone(p: Pass, b: Book) {
      && !Fails(p) && GoneExactly(p, b, |p.order|)
      && (forall j: nat {:trigger DoneAt(p, b, j)} :: DoneAt(p, b, j))
      && (forall k {:trigger IsCompleted(b, k)} :: IsCompleted(b, k) ==> IsCompleted(p.book, k) || CompletedWithin(p, |p.order|, k))
    }

    lemma AllChecked(p: Pass, b: Book, hasCompleteQuest: bool)
      requires CheckedUpTo(p, b, |p.order|, hasCompleteQuest)
      ensures PassDone(p, b)
      ensures hasCompleteQuest <==> ReachesAny(p)
    {
      forall j: nat
        ensures DoneAt(p, b, j)
      {
        assert j >= |p.order| ==> !ReachedAt(p, j);
      }
    }

    method CheckNext(ghost p: Pass, ghost i: nat, k: Key, chains: map<Id, Chain>, before: bool)
      returns (o: Outcome, hasCompleteQuest: bool)
      requires Valid() && i < |p.order| && k == p.order[i] && tick == p.tick + i
      requires BookOk(p.book, masters) && Lists(p.order, InProgress(p.book)) && chains == p.book.chains
      requires CheckedUpTo(p, book, i, before)
      modifies this
      ensures Valid() && tick == old(tick) + 1
      ensures o.Threw? ==> Fails(p) && Advances(p.book, book) && OpenChainsStay(p.book, book)
      ensures o.Finished? ==> CheckedUpTo(p, book, i + 1, hasCompleteQuest)
    {
      ghost var was := book;
      QuestOfPass(p, i);
      var chainMaster := masters[chains[k.questChainId].questChainMasterId];
      var completes;
      o, completes := CheckOne(p, i, k, chainMaster);
      hasCompleteQuest := before || completes;
      if o.Threw? {
        PassStops(p, was, book, i, before);
      } else {
        OneMoreChecked(p, was, book, i, before, completes);
      }
    }

    /** The first pass over all quests in progress. It fails exactly when it comes to a quest of a chain that
        ended long ago and is deleted already. */
    method CompleteQuests() returns (o: Outcome, hasCompleteQuest: bool, ghost pass: Pass)
      requires Valid()
      modifies this
      ensures Valid() && Advances(old(book), book)
      ensures pass.book == old(book) && pass.tick == old(tick) && Lists(pass.order, InProgress(old(book)))
      ensures o.Threw? <==> Fails(pass)
      ensures OpenChainsStay(old(book), book)
      ensures o.Finished? ==> tick == pass.tick + |pass.order| && PassDone(pass, book)
      ensures o.Finished? ==> (hasCompleteQuest <==> ReachesAny(pass))
    {
      hasCompleteQuest := false;
      ghost var start := book;
      var chains := book.chains;
      var inProgresses := ListOf(InProgress(book));
      ghost var p := Pass(book, tick, inProgresses);
      for i := 0 to |inProgresses|
        invariant Valid() && tick == p.tick + i
        invariant CheckedUpTo(p, book, i, hasCompleteQuest)
      {
        o, hasCompleteQuest := CheckNext(p, i, inProgresses[i], chains, hasCompleteQuest);
        if o.Threw? {
          return o, hasCompleteQuest, p;
        }
      }
      AllChecked(p, book, hasCompleteQuest);
      return Finished, hasCompleteQuest, p;
    }

    /** Two quests in progress of a chain that ended long ago. */
    ghost predicate TwoInProgress(b: Book, k: Key, l: Key, now: int) {
      && k in InProgress(b) && l in InProgress(b) && k != l && k.questChainId == l.questChainId
      && EndedLongAgo(b.chains[k.questChainId], now)
    }

    /** When no other request deletes chains and none comes of age during the pass, it fails exactly if some
        chain that ended long ago has two quests in progress. */
    lemma FailsIffTwoInProgress(p: Pass)
      requires Lists(p.order, InProgress(p.book))
      requires forall t {:trigger world(t)} :: world(t).deletes == []
      requires forall t, c {:trigger EndedLongAgo(p.book.chains[c], world(t).now)} :: c in p.book.chains ==>
                 (EndedLongAgo(p.book.chains[c], world(t).now) <==> EndedLongAgo(p.book.chains[c], world(p.tick).now))
      ensures Fails(p) <==> exists k, l :: TwoInProgress(p.book, k, l, world(p.tick).now)
    {
      if Fails(p) {
        var i: nat :| FailsAt(p, i);
        var c := p.order[i].questChainId;
        var j: nat :| j < i && PassDeletes(p, c, j);
        assert p.order[i] in p.order && p.order[j] in p.order;
        assert TwoInProgress(p.book, p.order[j], p.order[i], world(p.tick).now);
      }
      if k, l :| TwoInProgress(p.book, k, l, world(p.tick).now) {
        var i: nat :| i < |p.order| && p.order[i] == k;
        var j: nat :| j < |p.order| && p.order[j] == l;
        TwoFail(p, if i < j then i else j, if i < j then j else i);
      }
    }

    lemma TwoFail(p: Pass, j: nat, i: nat)
      requires j < i < |p.order| && p.order[i].questChainId == p.order[j].questChainId
      requires p.order[i].questChainId in p.book.chains
      requires var chain := p.book.chains[p.order[i].questChainId];
               EndedLongAgo(chain, world(p.tick + i + 1).now) && EndedLongAgo(chain, world(p.tick + j + 1).now)
      ensures Fails(p)
    {
      var c := p.order[i].questChainId;
      assert PassDeletes(p, c, j) && PassDeletes(p, c, i);
      assert IsGone(p, c, i, p.tick + i + 1);
      assert FailsAt(p, i);
    }

    /** Everything the snapshot unlocks in the chain is open, unless the chain is gone. */
    ghost predicate AllOpened(start: Book, b: Book, c: Id) {
      c in b.chains ==>
        forall k: Key {:trigger CanOpen(start, masters, k)} :: k.questChainId == c && CanOpen(start, masters, k) ==> k in b.quests
    }

    /** The quests up to the i-th are open if the snapshot unlocks them. */
    ghost predicate OpenedUpTo(start: Book, b: Book, c: Id, list: seq<Id>, i: nat) {
      c in b.chains ==>
        forall j :: 0 <= j < i && j < |list| && CanOpen(start, masters, Key(c, list[j])) ==> Key(c, list[j]) in b.quests
    }

    lemma OneMoreOpened(start: Book, a: Book, b: Book, c: Id, list: seq<Id>, i: nat)
      requires i < |list| && OpenedUpTo(start, a, c, list, i) && Advances(a, b)
      requires c in b.chains && CanOpen(start, masters, Key(c, list[i])) ==> Key(c, list[i]) in b.quests
      ensures OpenedUpTo(start, b, c, list, i + 1)
    {
      forall j | 0 <= j < i && CanOpen(start, masters, Key(c, list[j])) && c in b.chains
        ensures Key(c, list[j]) in b.quests
      {
        assert Keeps(a, b, Key(c, list[j]));
      }
    }

    lemma ListedAreAll(start: Book, b: Book, c: Id, list: seq<Id>)
      requires c in start.chains && start.chains[c].questChainMasterId in masters
      requires forall q <- masters[start.chains[c].questChainMasterId].quests :: Key(c, q) !in start.quests ==> q in list
      requires OpenedUpTo(start, b, c, list, |list|)
      ensures AllOpened(start, b, c)
    {
      if c in b.chains {
        forall k: Key | k.questChainId == c && CanOpen(start, masters, k)
          ensures k in b.quests
        {
          assert k.questMasterId in list;
          var j :| 0 <= j < |list| && list[j] == k.questMasterId;
          assert k == Key(c, list[j]);
        }
      }
    }

    /** The second pass on one chain: opens every quest whose preceding quests were completed when the
        rows were read. It fails only if another request opens the quest or deletes the chain first. */
    method OpenChain(start: Book, c: Id) returns (o: Outcome, forceReCheck: bool)
      requires Valid() && BookOk(start, masters) && Advances(start, book) && c in start.chains
      requires Quiet() ==> OnlyElsewhere(start, book, c) && book.chains == start.chains
      modifies this
      ensures Valid() && Advances(start, book) && Advances(old(book), book) && OpenChainsStay(old(book), book)
      ensures forceReCheck ==> WalletLeft(book, masters) < WalletLeft(old(book), masters)
      ensures Quiet() ==> o.Finished? && OnlyIn(old(book), book, c) && book.chains == start.chains
      ensures o.Finished? ==> AllOpened(start, book, c)
    {
      forceReCheck := false;
      assert ChainOk(start, masters, c);
      var quests := masters[start.chains[c].questChainMasterId].quests;
      var notOpen: set<Id> := set q | q in quests && Key(c, q) !in start.quests;
      var notOpenQuests := ListOf(notOpen);
      assert forall j :: 0 <= j < |notOpenQuests| ==> notOpenQuests[j] in notOpen;
      for i := 0 to |notOpenQuests|
        invariant Valid() && Advances(start, book) && Advances(old(book), book) && OpenChainsStay(old(book), book)
        invariant WalletLeft(book, masters) <= WalletLeft(old(book), masters)
        invariant forceReCheck ==> WalletLeft(book, masters) != WalletLeft(old(book), masters)
        invariant Quiet() ==> OnlyIn(old(book), book, c) && book.chains == start.chains
        invariant Quiet() ==> forall j :: i <= j < |notOpenQuests| ==> Key(c, notOpenQuests[j]) !in book.quests
        invariant OpenedUpTo(start, book, c, notOpenQuests, i)
      {
        var q := notOpenQuests[i];
        assert q in notOpen;
        ghost var before := book;
        var unlocked;
        o, unlocked := OpenOne(start, c, q, quests);
        AdvancesTransitive(old(book), before, book);
        if o.Threw? {
          return;
        }
        forceReCheck := forceReCheck || (unlocked && quests[q].connectWallet);
        OneMoreOpened(start, before, book, c, notOpenQuests, i);
      }
      ListedAreAll(start, book, c, notOpenQuests);
      return Finished, forceReCheck;
    }

    method OpenOne(start: Book, c: Id, q: Id, quests: map<Id, QuestMaster>) returns (o: Outcome, unlocked: bool)
      requires Valid() && Advances(start, book) && c in start.chains
      requires start.chains[c].questChainMasterId in masters && quests == masters[start.chains[c].questChainMasterId].quests
      requires q in quests && Key(c, q) !in start.quests && quests[q].beforeQuestIds.Some?
      modifies this
      ensures Valid() && Advances(start, book) && Advances(old(book), book) && OpenChainsStay(old(book), book)
      ensures WalletLeft(book, masters) <= WalletLeft(old(book), masters)
      ensures unlocked && quests[q].connectWallet ==> WalletLeft(book, masters) != WalletLeft(old(book), masters)
      ensures unlocked ==> Key(c, q) in book.quests && book.quests[Key(c, q)] == None
      ensures o.Finished? && CanOpen(start, masters, Key(c, q)) ==> Key(c, q) in book.quests
      ensures Quiet() ==>
                && book.chains == old(book).chains
                && book.quests.Keys == old(book).quests.Keys + (if unlocked then {Key(c, q)} else {})
                && (o.Threw? ==> Key(c, q) in old(book).quests || c !in old(book).chains)
    {
      var beforeQuestIds := quests[q].beforeQuestIds.value;
      var hasNoCompleteQuest := false;
      for j := 0 to |beforeQuestIds|
        invariant !hasNoCompleteQuest <==> forall l :: 0 <= l < j ==> IsCompleted(start, Key(c, beforeQuestIds[l]))
      {
        if !IsCompleted(start, Key(c, beforeQuestIds[j])) {
          hasNoCompleteQuest := true;
        }
      }
      if hasNoCompleteQuest {
        return Finished, false;
      }
      Disturb();
      AdvancesTransitive(start, old(book), book);
      WalletLeftShrinks(old(book), book, masters);
      var k := Key(c, q);
      if k in book.quests || c !in book.chains {
        return Threw, false;
      }
      forall before <- beforeQuestIds
        ensures IsCompleted(book, Key(c, before))
      {
        assert Keeps(start, book, Key(c, before));
      }
      OpenAdvances(book, masters, k);
      ghost var kept := book;
      book := Open(book, k);
      AdvancesTransitive(start, kept, book);
      AdvancesTransitive(old(book), kept, book);
      WalletLeftShrinks(kept, book, masters);
      assert quests[q].connectWallet ==> k in WalletLeft(kept, masters);
      return Finished, true;
    }

    lemma StayOpened(start: Book, a: Book, b: Book, c: Id)
      requires AllOpened(start, a, c) && Advances(a, b)
      ensures AllOpened(start, b, c)
    {
      if c in b.chains {
        forall k: Key | k.questChainId == c && CanOpen(start, masters, k)
          ensures k in b.quests
        {
          assert Keeps(a, b, k);
        }
      }
    }

    /** Everything the snapshot unlocks is open, in the chains that were neither completed nor expired. */
    ghost predicate UnlockedOpened(start: Book, b: Book, now: int) {
      forall c <- start.chains :: !start.chains[c].completed && !IsExpired(start.chains[c], now) ==> AllOpened(start, b, c)
    }

    /** The second pass over all chains that are neither completed nor expired. */
    method OpenQuests() returns (o: Outcome, forceReCheck: bool)
      requires Valid()
      modifies this
      ensures Valid() && Advances(old(book), book) && OpenChainsStay(old(book), book)
      ensures forceReCheck ==> WalletLeft(book, masters) < WalletLeft(old(book), masters)
      ensures Quiet() ==> o.Finished?
      ensures o.Finished? ==> UnlockedOpened(old(book), book, world(old(tick)).now)
    {
      forceReCheck := false;
      var start := book;
      var now := world(tick).now;
      var chains: set<Id> := set c | c in book.chains && !book.chains[c].completed && !IsExpired(book.chains[c], now);
      var inProgresses := ListOf(chains);
      for i := 0 to |inProgresses|
        invariant Valid() && BookOk(start, masters) && Advances(start, book) && OpenChainsStay(start, book)
        invariant forceReCheck ==> WalletLeft(book, masters) < WalletLeft(start, masters)
        invariant Quiet() ==> book.chains == start.chains
        invariant Quiet() ==> forall j :: i <= j < |inProgresses| ==> OnlyElsewhere(start, book, inProgresses[j])
        invariant forall j :: 0 <= j < i ==> AllOpened(start, book, inProgresses[j])
      {
        assert inProgresses[i] in chains;
        ghost var before := book;
        var force;
        o, force := OpenChain(start, inProgresses[i]);
        WalletLeftShrinks(before, book, masters);
        WalletLeftShrinks(start, before, masters);
        if o.Threw? {
          return;
        }
        forceReCheck := forceReCheck || force;
        forall j | 0 <= j < i
          ensures AllOpened(start, book, inProgresses[j])
        {
          StayOpened(start, before, book, inProgresses[j]);
        }
      }
      forall c <- chains
        ensures AllOpened(start, book, c)
      {
        assert c in inProgresses;
      }
      return Finished, forceReCheck;
    }

    /** What a round that comes to its end brings about: quests are completed as they are reached, and what
        follows is open if any was. */
    ghost predicate RoundDone(r: Round, b: Book) {
      && PassDone(r.pass, r.after) && Advances(r.pass.book, r.after) && Advances(r.after, b)
      && (ReachesAny(r.pass) ==> UnlockedOpened(r.after, b, world(r.pass.tick + |r.pass.order|).now))
    }

    lemma RoundStaysDone(r: Round, a: Book, b: Book)
      requires RoundDone(r, a) && Advances(a, b)
      ensures RoundDone(r, b)
    {
      AdvancesTransitive(r.after, a, b);
      if ReachesAny(r.pass) {
        forall c <- r.after.chains | AllOpened(r.after, a, c)
          ensures AllOpened(r.after, b, c)
        {
          StayOpened(r.after, a, b, c);
        }
      }
    }

    /** The rounds: each starts from what is there then, and only the last of them may have failed. */
    ghost predicate Rounds(start: Book, t: nat, rounds: seq<Round>) {
      && rounds != [] && rounds[0].pass.book == start && rounds[0].pass.tick == t
      && (forall r <- rounds :: Lists(r.pass.order, InProgress(r.pass.book)) && Advances(start, r.pass.book))
      && forall i :: 0 <= i < |rounds| - 1 ==> !Fails(rounds[i].pass)
    }

    lemma FirstRound(round: Round)
      requires Lists(round.pass.order, InProgress(round.pass.book)) && Advances(round.pass.book, round.pass.book)
      ensures Rounds(round.pass.book, round.pass.tick, [round]) && [round][|[round]| - 1] == round
    {
    }

    lemma AdvancesSelf(b: Book)
      ensures Advances(b, b)
    {
    }

    lemma MoreRounds(start: Book, round: Round, checked: Book, t: nat, rest: seq<Round>)
      requires Rounds(start, round.pass.tick, [round]) && !Fails(round.pass) && Advances(start, checked)
      requires Rounds(checked, t, rest)
      ensures Rounds(start, round.pass.tick, [round] + rest) && ([round] + rest)[|rest|] == rest[|rest| - 1]
    {
      assert [round][0] == round;
      forall r <- [round] + rest
        ensures Lists(r.pass.order, InProgress(r.pass.book)) && Advances(start, r.pass.book)
      {
        if r in rest {
          AdvancesTransitive(start, checked, r.pass.book);
        }
      }
    }

    lemma RoundIsDone(round: Round, b: Book, hasCompleteQuest: bool)
      requires PassDone(round.pass, round.after) && Advances(round.pass.book, round.after) && Advances(round.after, b)
      requires hasCompleteQuest <==> ReachesAny(round.pass)
      requires hasCompleteQuest ==> UnlockedOpened(round.after, b, world(round.pass.tick + |round.pass.order|).now)
      ensures RoundDone(round, b)
    {
    }

    /** One round: the first pass, and the second one if a quest was completed. */
    method CheckOnce() returns (o: Outcome, forceReCheck: bool, ghost round: Round)
      requires Valid()
      modifies this
      ensures Valid() && Advances(old(book), book) && OpenChainsStay(old(book), book)
      ensures Rounds(old(book), old(tick), [round])
      ensures Fails(round.pass) ==> o.Threw?
      ensures o.Threw? ==> Fails(round.pass) || !Quiet()
      ensures o.Finished? ==> RoundDone(round, book)
      ensures o.Finished? && forceReCheck ==> |WalletLeft(book, masters)| < |WalletLeft(old(book), masters)|
    {
      var hasCompleteQuest;
      ghost var pass;
      forceReCheck := false;
      o, hasCompleteQuest, pass := CompleteQuests();
      ghost var completed := book;
      round := Round(pass, completed);
      AdvancesSelf(pass.book);
      FirstRound(round);
      if o.Threw? {
        return;
      }
      if hasCompleteQuest {
        WalletLeftShrinks(pass.book, completed, masters);
        o, forceReCheck := OpenQuests();
        AdvancesTransitive(pass.book, completed, book);
        if o.Threw? {
          return;
        }
        if forceReCheck {
          SubsetSize(WalletLeft(book, masters), WalletLeft(pass.book, masters));
        }
      } else {
        AdvancesSelf(completed);
      }
      RoundIsDone(round, book, hasCompleteQuest);
    }

    /** Completes what is reached, opens what follows, and starts over when a wallet quest was opened. It
        comes to an end because every such round leaves fewer wallet quests unopened. Undisturbed, it fails
        exactly when the first pass of its last round does. */
    method CheckAndUpdate() returns (o: Outcome, ghost rounds: seq<Round>)
      requires Valid()
      modifies this
      ensures Valid() && Advances(old(book), book) && OpenChainsStay(old(book), book)
      ensures Rounds(old(book), old(tick), rounds)
      ensures Fails(rounds[|rounds| - 1].pass) ==> o.Threw?
      ensures o.Threw? ==> Fails(rounds[|rounds| - 1].pass) || !Quiet()
      ensures o.Finished? ==> forall r <- rounds :: RoundDone(r, book)
      decreases |WalletLeft(book, masters)|
    {
      var forceReCheck;
      ghost var round;
      o, forceReCheck, round := CheckOnce();
      rounds := [round];
      if o.Finished? && forceReCheck {
        ghost var start, checked, t := round.pass.book, book, tick;
        ghost var rest;
        o, rest := CheckAndUpdate();
        AdvancesTransitive(start, checked, book);
        MoreRounds(start, round, checked, t, rest);
        RoundStaysDone(round, checked, book);
        rounds := [round] + rest;
      }
    }
  }

  /** A chain with two first quests, started before its end and looked at long after it. */
  method EndedChainStops() returns (o: Outcome)
    ensures o.Threw?
  {
    var quest := QuestMaster(None, false, 1, false);
    var master := ChainMaster(map[1 := quest, 2 := quest], None, Some(0), None);
    var moment := Moment(100, (k: Key) => 0, [], [], []);
    var checker := new QuestProgressChecker(map[1 := master], (t: nat) => moment, (end: int) => end + 30);
    StartOk(checker.book, checker.masters, 7, 1, None);
    checker.book := Start(checker.book, 7, 1, master, None);
    ghost var b := checker.book;
    var hasCompleteQuest;
    ghost var pass;
    o, hasCompleteQuest, pass := checker.CompleteQuests();
    assert Key(7, 1) in FirstQuests(7, master) && Key(7, 2) in FirstQuests(7, master);
    assert checker.TwoInProgress(b, Key(7, 1), Key(7, 2), 100);
    checker.FailsIffTwoInProgress(pass);
  }
}
