/** Quests of one user, src/helpers/quests.ts and src/use_cases/quest_usecase.ts: what may happen to the
    rows, step by step. */
module QuestBook {
  import opened Common

  type Id = nat

  datatype QuestMaster = QuestMaster(
    beforeQuestIds: Option<seq<Id>>,
    connectWallet: bool,
    progressGoal: int,
    hasReward: bool
  )

  datatype ChainMaster = ChainMaster(
    quests: map<Id, QuestMaster>,
    startAt: Option<int>,
    endAt: Option<int>,
    beforeQuestChainId: Option<Id>
  )

  predicate InPeriod(master: ChainMaster, now: int) {
    (master.startAt.Some? ==> master.startAt.value <= now) && (master.endAt.Some? ==> now <= master.endAt.value)
  }

  type Masters = map<Id, ChainMaster>

  datatype Chain = Chain(questChainMasterId: Id, completed: bool, expiredAt: Option<int>)

  datatype Key = Key(questChainId: Id, questMasterId: Id)

  predicate IsExpired(chain: Chain, now: int) {
    chain.expiredAt.Some? && chain.expiredAt.value < now
  }

  /** The user's chains and quests, the quest rewards ever handed out, the chain rewards ever handed out,
      and every chain id ever used. */
  datatype Book = Book(
    chains: map<Id, Chain>,
    quests: map<Key, Option<int>>,
    rewards: multiset<Key>,
    chainRewards: multiset<Id>,
    used: set<Id>
  )

  // ----- Invariants -----

  predicate IsCompleted(b: Book, k: Key) {
    k in b.quests && b.quests[k].Some?
  }

  /** The quest belongs to its chain, and is a first quest or follows completed ones only. */
  ghost predicate QuestOk(b: Book, masters: Masters, k: Key) {
    && k.questChainId in b.chains
    && b.chains[k.questChainId].questChainMasterId in masters
    && var quests := masters[b.chains[k.questChainId].questChainMasterId].quests;
       && k.questMasterId in quests
       && (quests[k.questMasterId].beforeQuestIds.Some? ==>
             forall before <- quests[k.questMasterId].beforeQuestIds.value :: IsCompleted(b, Key(k.questChainId, before)))
  }

  /** Every first quest of the chain is there. */
  ghost predicate ChainOk(b: Book, masters: Masters, c: Id) {
    c in b.chains ==>
      && c in b.used && b.chains[c].questChainMasterId in masters
      && var quests := masters[b.chains[c].questChainMasterId].quests;
         forall q <- quests :: quests[q].beforeQuestIds.None? ==> Key(c, q) in b.quests
  }

  /** A reward is handed out once, when the quest is completed. */
  ghost predicate RewardOk(b: Book, masters: Masters, k: Key) {
    && b.rewards[k] <= 1
    && (b.rewards[k] > 0 ==> k.questChainId in b.used)
    && (k.questChainId in b.chains && k !in b.quests ==> b.rewards[k] == 0)
    && (k in b.quests && QuestOk(b, masters, k) ==>
          (b.rewards[k] == 1 <==> IsCompleted(b, k) && MasterOf(b, masters, k).hasReward))
  }

  ghost function MasterOf(b: Book, masters: Masters, k: Key): QuestMaster
    requires QuestOk(b, masters, k)
  {
    masters[b.chains[k.questChainId].questChainMasterId].quests[k.questMasterId]
  }

  ghost predicate BookOk(b: Book, masters: Masters) {
    && (forall k <- b.quests {:trigger QuestOk(b, masters, k)} :: QuestOk(b, masters, k))
    && (forall c {:trigger ChainOk(b, masters, c)} :: ChainOk(b, masters, c))
    && (forall k {:trigger RewardOk(b, masters, k)} :: RewardOk(b, masters, k))
  }

  // ----- Over time -----

  /** While no chain is started or finished: quests stay, and stay completed, unless their chain goes. */
  ghost predicate Advances(a: Book, b: Book) {
    && (forall c <- b.chains :: c in a.chains && b.chains[c] == a.chains[c])
    && (forall k {:trigger Keeps(a, b, k)} :: Keeps(a, b, k))
    && a.rewards <= b.rewards && b.chainRewards == a.chainRewards && b.used == a.used
  }

  ghost predicate Keeps(a: Book, b: Book, k: Key) {
    k in a.quests ==>
      || (k in b.quests && (a.quests[k].Some? ==> b.quests[k] == a.quests[k]))
      || k.questChainId !in b.chains
  }

  lemma AdvancesTransitive(a: Book, b: Book, c: Book)
    requires Advances(a, b) && Advances(b, c)
    ensures Advances(a, c)
  {
    forall k
      ensures Keeps(a, c, k)
    {
      assert Keeps(a, b, k) && Keeps(b, c, k);
    }
  }

  /** The wallet quests not opened yet, in all chains. */
  ghost function WalletLeft(b: Book, masters: Masters): set<Key> {
    set c, q | c in b.chains && b.chains[c].questChainMasterId in masters
               && q in masters[b.chains[c].questChainMasterId].quests
               && masters[b.chains[c].questChainMasterId].quests[q].connectWallet && Key(c, q) !in b.quests
      :: Key(c, q)
  }

  lemma WalletLeftShrinks(a: Book, b: Book, masters: Masters)
    requires Advances(a, b)
    ensures WalletLeft(b, masters) <= WalletLeft(a, masters)
  {
    forall k | k in WalletLeft(b, masters)
      ensures k in WalletLeft(a, masters)
    {
      assert Keeps(a, b, k);
    }
  }

  // ----- Steps -----

  /** One transaction: the quest is completed and rewarded, unless it is gone or completed already. */
  function Complete(b: Book, k: Key, hasReward: bool, now: int): Book {
    if k in b.quests && b.quests[k].None? then
      b.(quests := b.quests[k := Some(now)], rewards := if hasReward then b.rewards + multiset{k} else b.rewards)
    else b
  }

  function Open(b: Book, k: Key): Book {
    b.(quests := b.quests[k := None])
  }

  /** A chain goes with all its quests. */
  function Delete(b: Book, c: Id): Book {
    b.(chains := b.chains - {c}, quests := map k | k in b.quests && k.questChainId != c :: b.quests[k])
  }

  function FirstQuests(c: Id, master: ChainMaster): set<Key> {
    set q | q in master.quests && master.quests[q].beforeQuestIds.None? :: Key(c, q)
  }

  /** A new chain starts with its first quests. */
  function Start(b: Book, c: Id, masterId: Id, master: ChainMaster, expiredAt: Option<int>): Book {
    var firsts := map k | k in FirstQuests(c, master) :: None;
    b.(chains := b.chains[c := Chain(masterId, false, expiredAt)], quests := b.quests + firsts, used := b.used + {c})
  }

  // ----- The steps row by row -----

  /** A new chain is neither completed nor without its first quests, and no other row changes. */
  lemma StartIs(b: Book, c: Id, masterId: Id, master: ChainMaster, expiredAt: Option<int>)
    ensures var after := Start(b, c, masterId, master, expiredAt);
            && after.chains.Keys == b.chains.Keys + {c}
            && after.chains[c].questChainMasterId == masterId && !after.chains[c].completed && after.chains[c].expiredAt == expiredAt
            && (forall d <- b.chains :: d != c ==> after.chains[d] == b.chains[d])
            && (forall q <- master.quests :: master.quests[q].beforeQuestIds.None? ==>
                  Key(c, q) in after.quests && after.quests[Key(c, q)].None?)
            && (forall k <- after.quests ::
                  || (k in b.quests && after.quests[k] == b.quests[k])
                  || (k.questChainId == c && k.questMasterId in master.quests && master.quests[k.questMasterId].beforeQuestIds.None?))
            && after.rewards == b.rewards && after.chainRewards == b.chainRewards && after.used == b.used + {c}
  {
    forall q <- master.quests | master.quests[q].beforeQuestIds.None?
      ensures Key(c, q) in FirstQuests(c, master)
    {
    }
  }

  /** The moment of completion is recorded once, with the reward if there is one. */
  lemma CompleteIs(b: Book, k: Key, hasReward: bool, now: int)
    ensures var after := Complete(b, k, hasReward, now);
            if k !in b.quests || b.quests[k].Some? then after == b
            else
              && after.quests.Keys == b.quests.Keys && after.quests[k] == Some(now)
              && (forall l <- b.quests :: l != k ==> after.quests[l] == b.quests[l])
              && after.rewards[k] == b.rewards[k] + (if hasReward then 1 else 0)
              && (forall l :: l != k ==> after.rewards[l] == b.rewards[l])
              && after.chains == b.chains && after.chainRewards == b.chainRewards && after.used == b.used
  {
  }

  /** A quest opens without an end; a chain goes with its quests and nobody else's, and keeps its rewards. */
  lemma OpenAndDeleteAre(b: Book, k: Key, c: Id)
    ensures k in Open(b, k).quests && Open(b, k).quests[k].None? && Open(b, k) == b.(quests := Open(b, k).quests)
    ensures Open(b, k).quests.Keys == b.quests.Keys + {k} && forall l <- b.quests :: l != k ==> Open(b, k).quests[l] == b.quests[l]
    ensures var after := Delete(b, c);
            && after == b.(chains := after.chains, quests := after.quests)
            && (forall d :: d in after.chains <==> d in b.chains && d != c)
            && (forall d <- after.chains :: after.chains[d] == b.chains[d])
            && (forall l :: l in after.quests <==> l in b.quests && l.questChainId != c)
            && (forall l <- after.quests :: after.quests[l] == b.quests[l])
  {
  }

  lemma CompleteOk(b: Book, masters: Masters, k: Key, now: int)
    requires BookOk(b, masters) && k in b.quests && QuestOk(b, masters, k)
    ensures BookOk(Complete(b, k, MasterOf(b, masters, k).hasReward, now), masters)
  {
    var after := Complete(b, k, MasterOf(b, masters, k).hasReward, now);
    forall l <- after.quests
      ensures QuestOk(after, masters, l)
    {
      assert QuestOk(b, masters, l);
    }
    forall c
      ensures ChainOk(after, masters, c)
    {
      assert ChainOk(b, masters, c);
    }
    assert ChainOk(b, masters, k.questChainId);
    forall l
      ensures RewardOk(after, masters, l)
    {
      assert RewardOk(b, masters, l);
      if l in b.quests {
        assert QuestOk(b, masters, l);
      }
    }
  }

  lemma OpenOk(b: Book, masters: Masters, k: Key)
    requires BookOk(b, masters) && k !in b.quests
    requires QuestOk(b, masters, k)
    ensures BookOk(Open(b, k), masters)
  {
    var after := Open(b, k);
    forall l <- after.quests
      ensures QuestOk(after, masters, l)
    {
      assert QuestOk(b, masters, l);
    }
    forall c
      ensures ChainOk(after, masters, c)
    {
      assert ChainOk(b, masters, c);
    }
    forall l
      ensures RewardOk(after, masters, l)
    {
      assert RewardOk(b, masters, l);
      if l in b.quests {
        assert QuestOk(b, masters, l);
      }
    }
  }

  lemma DeleteOk(b: Book, masters: Masters, c: Id)
    requires BookOk(b, masters)
    ensures BookOk(Delete(b, c), masters)
  {
    var after := Delete(b, c);
    forall l <- after.quests
      ensures QuestOk(after, masters, l)
    {
      assert QuestOk(b, masters, l);
    }
    forall d
      ensures ChainOk(after, masters, d)
    {
      assert ChainOk(b, masters, d);
    }
    forall l
      ensures RewardOk(after, masters, l)
    {
      assert RewardOk(b, masters, l);
      if l in b.quests {
        assert QuestOk(b, masters, l);
      }
    }
  }

  lemma StartOk(b: Book, masters: Masters, c: Id, masterId: Id, expiredAt: Option<int>)
    requires BookOk(b, masters) && masterId in masters && c !in b.used
    ensures BookOk(Start(b, c, masterId, masters[masterId], expiredAt), masters)
  {
    var after := Start(b, c, masterId, masters[masterId], expiredAt);
    assert ChainOk(b, masters, c);
    forall l <- after.quests
      ensures QuestOk(after, masters, l)
    {
      if l in b.quests {
        assert QuestOk(b, masters, l);
      }
    }
    forall d
      ensures ChainOk(after, masters, d)
    {
      assert ChainOk(b, masters, d);
      if d == c {
        forall q <- masters[masterId].quests | masters[masterId].quests[q].beforeQuestIds.None?
          ensures Key(c, q) in after.quests
        {
          assert Key(c, q) in FirstQuests(c, masters[masterId]);
        }
      }
    }
    forall l
      ensures RewardOk(after, masters, l)
    {
      assert RewardOk(b, masters, l);
      if l in b.quests {
        assert QuestOk(b, masters, l);
      }
    }
  }

  // ----- Finishing a chain -----

  function CompletedOf(b: Book, c: Id): set<Key> {
    set k | k in b.quests && k.questChainId == c && b.quests[k].Some?
  }

  function KeysOf(c: Id, quests: map<Id, QuestMaster>): set<Key> {
    set q | q in quests :: Key(c, q)
  }

  ghost predicate AllDone(b: Book, masters: Masters, c: Id) {
    && c in b.chains && b.chains[c].questChainMasterId in masters
    && forall q <- masters[b.chains[c].questChainMasterId].quests :: IsCompleted(b, Key(c, q))
  }

  lemma {:induction false} AsManyKeys(c: Id, quests: map<Id, QuestMaster>)
    ensures |KeysOf(c, quests)| == |quests|
    decreases |quests|
  {
    if quests == map[] {
      assert KeysOf(c, quests) == {};
    } else {
      var q :| q in quests;
      AsManyKeys(c, quests - {q});
      assert KeysOf(c, quests) == KeysOf(c, quests - {q}) + {Key(c, q)};
    }
  }

  /** Comparing numbers is enough: as many completed quests as the master has means all of them. */
  lemma CountMeansAllDone(b: Book, masters: Masters, c: Id)
    requires BookOk(b, masters) && c in b.chains && b.chains[c].questChainMasterId in masters
    ensures |CompletedOf(b, c)| == |masters[b.chains[c].questChainMasterId].quests| <==> AllDone(b, masters, c)
  {
    var quests := masters[b.chains[c].questChainMasterId].quests;
    AsManyKeys(c, quests);
    forall k | k in CompletedOf(b, c)
      ensures k in KeysOf(c, quests)
    {
      assert QuestOk(b, masters, k);
    }
    var missing := KeysOf(c, quests) - CompletedOf(b, c);
    assert KeysOf(c, quests) == CompletedOf(b, c) + missing;
    forall q <- quests
      ensures Key(c, q) in KeysOf(c, quests)
      ensures Key(c, q) in missing <==> !IsCompleted(b, Key(c, q))
    {
    }
  }

  /** The transaction at the end: nothing in it asks whether the chain is completed already. */
  function Finish(b: Book, c: Id): Book
    requires c in b.chains
  {
    b.(chains := b.chains[c := b.chains[c].(completed := true)], chainRewards := b.chainRewards + multiset{c})
  }

  lemma FinishIs(b: Book, c: Id)
    requires c in b.chains
    ensures var after := Finish(b, c);
            && after == b.(chains := after.chains, chainRewards := after.chainRewards)
            && after.chains.Keys == b.chains.Keys && after.chains[c].completed
            && after.chains[c].questChainMasterId == b.chains[c].questChainMasterId && after.chains[c].expiredAt == b.chains[c].expiredAt
            && (forall d <- b.chains :: d != c ==> after.chains[d] == b.chains[d])
            && after.chainRewards[c] == b.chainRewards[c] + 1
            && (forall d :: d != c ==> after.chainRewards[d] == b.chainRewards[d])
  {
  }

  lemma FinishOk(b: Book, masters: Masters, c: Id)
    requires BookOk(b, masters) && c in b.chains
    ensures BookOk(Finish(b, c), masters)
  {
    var after := Finish(b, c);
    forall l <- after.quests
      ensures QuestOk(after, masters, l)
    {
      assert QuestOk(b, masters, l);
    }
    forall d
      ensures ChainOk(after, masters, d)
    {
      assert ChainOk(b, masters, d);
    }
    forall l
      ensures RewardOk(after, masters, l)
    {
      assert RewardOk(b, masters, l);
      if l in b.quests {
        assert QuestOk(b, masters, l);
      }
    }
  }
}
