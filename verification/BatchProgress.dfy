/** Which of many pending blocks one pass of src/apps/confirmer/confirmer.ts gets to: the query takes the
    first 1000 of its order, and a pass over more of them still moves the chain on. */
module BatchProgress {
  import opened BlockTree
  import opened BlockCaching
  import opened Collections
  import opened Confirming

  /** The other pending blocks that come before h, or tie with it. */
  ghost function Before(t: Table, h: Hash, order: Order): set<Hash> {
    set x | x in PendingHashes(t) && h in t && x != h && InOrder(order, t[x].number, t[h].number)
  }

  ghost predicate OnePendingPerHeight(t: Table) {
    forall a, b :: a in PendingHashes(t) && b in PendingHashes(t) && t[a].number == t[b].number ==> a == b
  }

  /** As many rows as there are, up to 1000. */
  lemma BatchIsCut(t: Table, batch: seq<Block>, order: Order)
    requires PendingBatch(t, batch, order, 1000)
    ensures |batch| == Min(1000, |PendingHashes(t)|)
  {
    DistinctHashes(t, batch);
    SubsetSize(HashesOf(batch), PendingHashes(t));
    if h :| h in PendingHashes(t) - HashesOf(batch) {
      assert |batch| == 1000;
    } else {
      assert HashesOf(batch) == PendingHashes(t);
    }
  }

  /** A block is reached if fewer than 1000 others come before it or tie with it. */
  lemma ReachedIf(t: Table, batch: seq<Block>, order: Order, h: Hash)
    requires PendingBatch(t, batch, order, 1000) && h in PendingHashes(t)
    requires |Before(t, h, order)| < 1000
    ensures h in HashesOf(batch)
  {
    if h !in HashesOf(batch) {
      DistinctHashes(t, batch);
      assert HashesOf(batch) <= Before(t, h, order);
      SubsetSize(HashesOf(batch), Before(t, h, order));
    }
  }

  /** With one pending block per height, exactly then. */
  lemma ReachedIff(t: Table, batch: seq<Block>, order: Order, h: Hash)
    requires PendingBatch(t, batch, order, 1000) && h in PendingHashes(t) && OnePendingPerHeight(t)
    ensures h in HashesOf(batch) <==> |Before(t, h, order)| < 1000
  {
    if h in HashesOf(batch) {
      DistinctHashes(t, batch);
      forall x <- Before(t, h, order)
        ensures x in HashesOf(batch) - {h}
      {
        assert t[h] in batch;
        assert x !in HashesOf(batch) ==> InOrder(order, t[h].number, t[x].number);
      }
      SubsetSize(Before(t, h, order), HashesOf(batch) - {h});
    } else {
      if |Before(t, h, order)| < 1000 {
        ReachedIf(t, batch, order, h);
      }
    }
  }

  // ----- The confirming pass -----

  /** With one pending block per height the pass never throws. */
  lemma NothingOwned(t: Table, k: nat)
    requires OnePendingPerHeight(t)
    ensures !Throws(t, k)
  {
    forall batch: seq<Block> | PendingBatch(t, batch, Descending, 1000)
      ensures !Owned(t, batch, k)
    {
      forall a: Block, b: Block | a in batch && b in batch && a.number == b.number
        ensures a.hash == b.hash
      {
        assert a.hash in HashesOf(batch) && b.hash in HashesOf(batch);
      }
    }
  }

  /** And it confirms exactly the blocks with k descendants below fewer than 1000 pending ones. */
  lemma ConfirmedIff(t: Table, t': Table, k: nat, h: Hash)
    requires forall c <- t :: t[c].state == CONFIRMED ==> HasChain(t, c, k)
    requires ConfirmStep(t, t', k) && OnePendingPerHeight(t) && h in PendingHashes(t)
    ensures h in t' && (t'[h].state == CONFIRMED <==> HasChain(t, h, k) && |Before(t, h, Descending)| < 1000)
  {
    var batch :| PendingBatch(t, batch, Descending, 1000) && t' == SetStates(t, ToConfirm(t, batch, k), CONFIRMED);
    ReachedIff(t, batch, Descending, h);
    ShortcutsAreSound(t, h, k, k);
    InToConfirm(t, batch, k, h);
    StateIs(t, ToConfirm(t, batch, k), h);
  }

  lemma StateIs(t: Table, hs: set<Hash>, h: Hash)
    requires h in PendingHashes(t)
    ensures SetStates(t, hs, CONFIRMED)[h].state == CONFIRMED <==> h in hs
  {
  }

  lemma InToConfirm(t: Table, batch: seq<Block>, k: nat, h: Hash)
    ensures h in ToConfirm(t, batch, k) <==> h in HashesOf(batch) && Supported(t, h, k)
  {
  }

  /** From one block of a pending chain to the one above it, one more comes before. */
  lemma OneMoreBefore(t: Table, lower: Hash, upper: Hash)
    requires OnePendingPerHeight(t) && IsChild(t, upper, lower)
    requires lower in PendingHashes(t) && upper in PendingHashes(t)
    ensures Before(t, lower, Descending) == Before(t, upper, Descending) + {upper}
  {
  }

  lemma {:induction false} ManyBefore(t: Table, p: seq<Hash>, i: nat)
    requires OnePendingPerHeight(t) && IsDescent(t, p) && (forall h <- p :: h in PendingHashes(t)) && i < |p|
    ensures |Before(t, p[i], Descending)| <= |Before(t, p[|p| - 1], Descending)| + |p| - 1 - i
    decreases |p| - i
  {
    if i < |p| - 1 {
      Step(t, p, i);
      OneMoreBefore(t, p[i], p[i + 1]);
      ManyBefore(t, p, i + 1);
    }
  }

  lemma EndOfDescent(t: Table, p: seq<Hash>, i: nat)
    requires IsDescent(t, p) && i < |p|
    ensures HasChain(t, p[i], |p| - 1 - i)
  {
    PartOfDescent(t, p, i, |p|);
    assert p[i..|p|][0] == p[i];
  }

  /** However many blocks are pending: a pending chain of more than k blocks gets its block k below the tip
      confirmed, as long as fewer than 1000 - k pending blocks lie above the tip. */
  lemma ChainMovesOn(t: Table, t': Table, k: nat, p: seq<Hash>)
    requires forall c <- t :: t[c].state == CONFIRMED ==> HasChain(t, c, k)
    requires ConfirmStep(t, t', k) && OnePendingPerHeight(t)
    requires IsDescent(t, p) && |p| > k && forall h <- p :: h in PendingHashes(t)
    requires |Before(t, p[|p| - 1], Descending)| + k < 1000
    ensures p[|p| - 1 - k] in t' && t'[p[|p| - 1 - k]].state == CONFIRMED
  {
    var i := |p| - 1 - k;
    ManyBefore(t, p, i);
    EndOfDescent(t, p, i);
    ConfirmedIff(t, t', k, p[i]);
  }

  // ----- The invalidating pass -----

  /** A block that loses by itself is invalidated if fewer than 1000 pending blocks come before it or tie
      with it; if more do, and none ties, it stays PENDING. */
  lemma LoserInvalidatedIff(t: Table, t': Table, h: Hash)
    requires InvalidateStep(t, t') && h in PendingHashes(t) && LosesAlone(t, h)
    ensures h in t'
    ensures |Before(t, h, Ascending)| < 1000 ==> t'[h].state == INVALIDATED
    ensures OnePendingPerHeight(t) && |Before(t, h, Ascending)| >= 1000 ==> t'[h].state == PENDING
  {
    var batch :| PendingBatch(t, batch, Ascending, 1000) && t' == SetStates(t, ToInvalidate(t, batch), INVALIDATED);
    if |Before(t, h, Ascending)| < 1000 {
      ReachedIf(t, batch, Ascending, h);
      assert CondemnedPath(t, HashesOf(batch), h, [h]);
      assert Condemned(t, HashesOf(batch), h);
    } else if OnePendingPerHeight(t) {
      ReachedIff(t, batch, Ascending, h);
    }
  }
}
