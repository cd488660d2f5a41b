/** Safety of the confirmer over every run: the watcher adds blocks, the two passes settle them,
    in any order and any number of times. */
module Finality {
  import opened Collections
  import opened BlockTree
  import opened BlockCaching
  import opened Confirming

  /** The watcher records new PENDING blocks and touches nothing else. */
  ghost predicate Watch(t: Table, t': Table) {
    && Linked(t')
    && (forall h {:trigger Watched(t, t', h)} :: Watched(t, t', h))
  }

  ghost predicate Watched(t: Table, t': Table, h: Hash) {
    if h in t then h in t' && t'[h] == t[h] else h in t' ==> t'[h].state == PENDING
  }

  ghost predicate Next(t: Table, t': Table, k: nat) {
    Watch(t, t') || ConfirmStep(t, t', k) || InvalidateStep(t, t')
  }

  ghost predicate Run(run: seq<Table>, k: nat) {
    && |run| > 0
    && Linked(run[0])
    && (forall h <- run[0] :: run[0][h].state == PENDING)
    && (forall i :: 0 <= i < |run| - 1 ==> Next(run[i], run[i + 1], k))
  }

  /** A settled state has its reason in the tree. */
  ghost predicate Justified(t: Table, h: Hash, k: nat) {
    h in t ==>
      && (t[h].state == CONFIRMED ==> HasChain(t, h, k))
      && (t[h].state == INVALIDATED ==> Doomed(t, h))
  }

  /** What every step keeps, whatever the chain does. */
  ghost predicate Inv(t: Table, k: nat) {
    Linked(t) && forall h {:trigger Justified(t, h, k)} :: Justified(t, h, k)
  }

  lemma ConfirmedChain(t: Table, h: Hash, k: nat)
    requires Inv(t, k) && h in t && t[h].state == CONFIRMED
    ensures HasChain(t, h, k)
  {
    assert Justified(t, h, k);
  }

  lemma InvalidatedDoomed(t: Table, h: Hash, k: nat)
    requires Inv(t, k) && h in t && t[h].state == INVALIDATED
    ensures Doomed(t, h)
  {
    assert Justified(t, h, k);
  }

  /** Under the invariant the depth search is the plain question for k descendants. */
  lemma SupportedIsChain(t: Table, h: Hash, k: nat)
    requires Inv(t, k)
    ensures Supported(t, h, k) <==> HasChain(t, h, k)
  {
    forall c <- t | t[c].state == CONFIRMED
      ensures HasChain(t, c, k)
    {
      ConfirmedChain(t, c, k);
    }
    ShortcutsAreSound(t, h, k, k);
  }

  // ----- Every step keeps the invariant -----

  lemma DoomedGrows(t: Table, t': Table, h: Hash)
    requires Grows(t, t') && KeepsSettled(t, t') && Doomed(t, h)
    ensures Doomed(t', h)
  {
    var q :| Descends(t, q, h) && HasConfirmedRival(t, q);
    DescendsGrows(t, t', q, h);
    var s :| ConfirmedRival(t, q, s);
    assert SameBlock(t, t', q) && SameBlock(t, t', s) && SettledAlike(t, t', s);
    assert ConfirmedRival(t', q, s);
  }

  lemma UnchangedRowJustified(t: Table, t': Table, k: nat, h: Hash)
    requires Inv(t, k) && Grows(t, t') && KeepsSettled(t, t')
    requires h in t && h in t' && t'[h].state == t[h].state
    ensures Justified(t', h, k)
  {
    if t[h].state == CONFIRMED {
      ConfirmedChain(t, h, k);
      ChainGrows(t, t', h, k);
    } else if t[h].state == INVALIDATED {
      InvalidatedDoomed(t, h, k);
      DoomedGrows(t, t', h);
    }
  }

  lemma ConfirmKeepsInv(t: Table, t': Table, k: nat)
    requires Inv(t, k) && ConfirmStep(t, t', k)
    ensures Inv(t', k)
  {
    ConfirmStepIsPointwise(t, t', k);
    SameLinks(t, t');
    forall h {:trigger Justified(t', h, k)} | h in t
      ensures Justified(t', h, k)
    {
      ConfirmedRowJustified(t, t', k, h);
    }
  }

  lemma ConfirmedRowJustified(t: Table, t': Table, k: nat, h: Hash)
    requires Inv(t, k) && ConfirmStep(t, t', k) && Grows(t, t') && KeepsSettled(t, t')
    requires h in t
    ensures Justified(t', h, k)
  {
    ConfirmedRow(t, t', k, h);
    if t'[h] == t[h] {
      UnchangedRowJustified(t, t', k, h);
    } else {
      SupportedIsChain(t, h, k);
      ChainGrows(t, t', h, k);
    }
  }

  lemma CondemnedIsDoomed(t: Table, k: nat, batch: set<Hash>, h: Hash)
    requires Inv(t, k) && Condemned(t, batch, h)
    ensures Doomed(t, h)
  {
    var p :| CondemnedPath(t, batch, h, p);
    assert Descends(t, p[0], h);
    if !HasConfirmedRival(t, p[0]) {
      var parent := t[p[0]].parentHash;
      InvalidatedDoomed(t, parent, k);
      var q :| Descends(t, q, parent) && HasConfirmedRival(t, q);
      RecordedParent(t, p[0]);
      DescendsToChild(t, p[0], parent);
      DescendsTransitive(t, q, parent, p[0]);
      DescendsTransitive(t, q, p[0], h);
    }
  }

  lemma InvalidateKeepsInv(t: Table, t': Table, k: nat)
    requires Inv(t, k) && InvalidateStep(t, t')
    ensures Inv(t', k)
  {
    InvalidateStepIsPointwise(t, t');
    SameLinks(t, t');
    forall h {:trigger Justified(t', h, k)} | h in t
      ensures Justified(t', h, k)
    {
      InvalidatedRowJustified(t, t', k, h);
    }
  }

  lemma InvalidatedRowJustified(t: Table, t': Table, k: nat, h: Hash)
    requires Inv(t, k) && InvalidateStep(t, t') && Grows(t, t') && KeepsSettled(t, t')
    requires h in t
    ensures Justified(t', h, k)
  {
    var batch := InvalidatedRow(t, t', h);
    if Condemned(t, batch, h) {
      CondemnedIsDoomed(t, k, batch, h);
      DoomedGrows(t, t', h);
    } else {
      UnchangedRowJustified(t, t', k, h);
    }
  }

  lemma WatchIsPointwise(t: Table, t': Table)
    requires Watch(t, t')
    ensures Grows(t, t') && KeepsSettled(t, t')
  {
    forall h
      ensures SameBlock(t, t', h) && SettledAlike(t, t', h)
    {
      assert Watched(t, t', h);
    }
  }

  lemma WatchKeepsInv(t: Table, t': Table, k: nat)
    requires Inv(t, k) && Watch(t, t')
    ensures Inv(t', k)
  {
    WatchIsPointwise(t, t');
    forall h {:trigger Justified(t', h, k)} | h in t'
      ensures Justified(t', h, k)
    {
      assert Watched(t, t', h);
      if h in t {
        UnchangedRowJustified(t, t', k, h);
      }
    }
  }

  lemma NextKeepsInv(t: Table, t': Table, k: nat)
    requires Inv(t, k) && Next(t, t', k)
    ensures Inv(t', k)
  {
    if Watch(t, t') {
      WatchKeepsInv(t, t', k);
    } else if ConfirmStep(t, t', k) {
      ConfirmKeepsInv(t, t', k);
    } else {
      InvalidateKeepsInv(t, t', k);
    }
  }

  /** No step forgets a block, and none touches a settled state. */
  lemma StepGrows(t: Table, t': Table, k: nat)
    requires Next(t, t', k)
    ensures Grows(t, t') && KeepsSettled(t, t')
  {
    if Watch(t, t') {
      WatchIsPointwise(t, t');
    } else if ConfirmStep(t, t', k) {
      ConfirmStepIsPointwise(t, t', k);
    } else {
      InvalidateStepIsPointwise(t, t');
    }
  }

  // ----- What the invariant means while no fork is k deep -----

  ghost predicate OneConfirmedPerHeight(t: Table) {
    forall h <- t :: t[h].state == CONFIRMED ==> !HasConfirmedRival(t, h)
  }

  ghost predicate ConfirmedHaveSoundAncestors(t: Table) {
    forall h, a :: h in t && a in t && t[h].state == CONFIRMED && Descends(t, a, h) ==> t[a].state != INVALIDATED
  }

  ghost predicate Safe(t: Table, k: nat) {
    && OneConfirmedPerHeight(t)
    && ConfirmedHaveSoundAncestors(t)
    && !Throws(t, k)
  }

  lemma NoRivals(t: Table, k: nat, h: Hash)
    requires Inv(t, k) && NoDeepFork(t, k) && HasChain(t, h, k)
    ensures !HasConfirmedRival(t, h)
  {
    forall s | ConfirmedRival(t, h, s)
      ensures HasChain(t, s, k)
    {
      ConfirmedChain(t, s, k);
    }
  }

  lemma DoomedHasNoChain(t: Table, k: nat, h: Hash)
    requires Inv(t, k) && NoDeepFork(t, k) && Doomed(t, h)
    ensures !HasChain(t, h, k)
  {
    var q :| Descends(t, q, h) && HasConfirmedRival(t, q);
    if HasChain(t, h, k) {
      AncestorHasChain(t, q, h, k);
      NoRivals(t, k, q);
    }
  }

  lemma InvIsSafe(t: Table, k: nat)
    requires Inv(t, k) && NoDeepFork(t, k)
    ensures Safe(t, k)
  {
    forall h <- t | t[h].state == CONFIRMED
      ensures !HasConfirmedRival(t, h)
    {
      ConfirmedChain(t, h, k);
      NoRivals(t, k, h);
    }
    forall h, a | h in t && a in t && t[h].state == CONFIRMED && Descends(t, a, h)
      ensures t[a].state != INVALIDATED
    {
      ConfirmedChain(t, h, k);
      AncestorHasChain(t, a, h, k);
      if t[a].state == INVALIDATED {
        InvalidatedDoomed(t, a, k);
        DoomedHasNoChain(t, k, a);
      }
    }
    forall batch: seq<Block> | PendingBatch(t, batch, Descending, BATCH_SIZE)
      ensures !Owned(t, batch, k)
    {
      forall b <- batch
        ensures Supported(t, b.hash, k) <==> HasChain(t, b.hash, k)
      {
        SupportedIsChain(t, b.hash, k);
      }
    }
  }

  lemma NoDeepForkBefore(t: Table, t': Table, k: nat)
    requires Grows(t, t') && NoDeepFork(t', k)
    ensures NoDeepFork(t, k)
  {
    forall a, b | a in t && b in t && t[a].number == t[b].number && HasChain(t, a, k) && HasChain(t, b, k)
      ensures a == b
    {
      ChainGrows(t, t', a, k);
      ChainGrows(t, t', b, k);
      assert SameBlock(t, t', a) && SameBlock(t, t', b);
    }
  }

  lemma {:induction false} RunKeepsInv(run: seq<Table>, k: nat, i: nat)
    requires Run(run, k) && i < |run|
    ensures Inv(run[i], k)
  {
    if i > 0 {
      RunKeepsInv(run, k, i - 1);
      assert Next(run[i - 1], run[i - 1 + 1], k);
      NextKeepsInv(run[i - 1], run[i], k);
    }
  }

  lemma {:induction false} RunGrows(run: seq<Table>, k: nat, i: nat, j: nat)
    requires Run(run, k) && i <= j < |run|
    ensures Grows(run[i], run[j]) && KeepsSettled(run[i], run[j])
    decreases j - i
  {
    if i < j {
      RunGrows(run, k, i, j - 1);
      assert Next(run[j - 1], run[j - 1 + 1], k);
      StepGrows(run[j - 1], run[j], k);
      GrowsTransitive(run[i], run[j - 1], run[j]);
    }
  }

  lemma GrowsTransitive(t: Table, t': Table, t'': Table)
    requires Grows(t, t') && Grows(t', t'') && KeepsSettled(t, t') && KeepsSettled(t', t'')
    ensures Grows(t, t'') && KeepsSettled(t, t'')
  {
    forall h
      ensures SameBlock(t, t'', h) && SettledAlike(t, t'', h)
    {
      assert SameBlock(t, t', h) && SameBlock(t', t'', h) && SettledAlike(t, t', h) && SettledAlike(t', t'', h);
    }
  }

  /** Finality: as long as the chain never showed a fork of depth k, every state on the way is safe,
      and a settled block is settled for good. */
  lemma ReorgFinality(run: seq<Table>, k: nat)
    requires Run(run, k) && NoDeepFork(run[|run| - 1], k)
    ensures forall i :: 0 <= i < |run| ==> Safe(run[i], k)
    ensures forall i, j, h :: 0 <= i <= j < |run| && h in run[i] && run[i][h].state != PENDING ==>
              h in run[j] && run[j][h].state == run[i][h].state
  {
    forall i | 0 <= i < |run|
      ensures Safe(run[i], k)
    {
      RunKeepsInv(run, k, i);
      RunGrows(run, k, i, |run| - 1);
      NoDeepForkBefore(run[i], run[|run| - 1], k);
      InvIsSafe(run[i], k);
    }
    forall i, j, h | 0 <= i <= j < |run| && h in run[i] && run[i][h].state != PENDING
      ensures h in run[j] && run[j][h].state == run[i][h].state
    {
      RunGrows(run, k, i, j);
      assert SettledAlike(run[i], run[j], h);
    }
  }

  /** What the "owned" check does not see: a pass that does not throw still confirms a second block
      of a height exactly when a block with k descendants turns up beside one CONFIRMED earlier. */
  lemma SecondConfirmationIff(t: Table, t': Table, k: nat, batch: seq<Block>)
    requires Inv(t, k) && OneConfirmedPerHeight(t)
    requires PendingBatch(t, batch, Descending, BATCH_SIZE) && !Owned(t, batch, k)
    requires t' == SetStates(t, ToConfirm(t, batch, k), CONFIRMED)
    ensures OneConfirmedPerHeight(t')
       <==> forall b <- batch :: HasChain(t, b.hash, k) ==> !HasConfirmedRival(t, b.hash)
  {
    forall b <- batch
      ensures Supported(t, b.hash, k) <==> HasChain(t, b.hash, k)
    {
      SupportedIsChain(t, b.hash, k);
    }
    if OneConfirmedPerHeight(t') {
      forall b <- batch | HasChain(t, b.hash, k)
        ensures !HasConfirmedRival(t, b.hash)
      {
        assert b.hash in ToConfirm(t, batch, k);
        forall s | ConfirmedRival(t, b.hash, s)
          ensures ConfirmedRival(t', b.hash, s)
        {
        }
      }
    }
    if forall b <- batch :: HasChain(t, b.hash, k) ==> !HasConfirmedRival(t, b.hash) {
      forall h, s | h in t' && t'[h].state == CONFIRMED && ConfirmedRival(t', h, s)
        ensures false
      {
        NoNewRivals(t, batch, k, h, s);
        assert ConfirmedRival(t, h, s);
      }
    }
  }

  lemma NoNewRivals(t: Table, batch: seq<Block>, k: nat, h: Hash, s: Hash)
    requires PendingBatch(t, batch, Descending, BATCH_SIZE) && !Owned(t, batch, k)
    requires forall b <- batch :: Supported(t, b.hash, k) ==> !HasConfirmedRival(t, b.hash)
    requires h in t && s in t && h != s && t[h].number == t[s].number
    requires t[h].state == CONFIRMED || h in ToConfirm(t, batch, k)
    requires t[s].state == CONFIRMED || s in ToConfirm(t, batch, k)
    ensures t[h].state == CONFIRMED && t[s].state == CONFIRMED
  {
    assert h in ToConfirm(t, batch, k) ==> !ConfirmedRival(t, h, s);
    assert s in ToConfirm(t, batch, k) ==> !ConfirmedRival(t, s, h);
  }

  // ----- A run that confirms twice -----

  predicate Different(a: Hash, b: Hash, c: Hash, d: Hash, root: Hash) {
    a != b && a != c && a != d && b != c && b != d && c != d && root != a && root != b && root != c && root != d
  }

  /** Two blocks on top of each other. */
  function Two(a: Hash, b: Hash, root: Hash, state: BlockState): Table
    requires a != b
  {
    map[a := Block(0, a, root, state), b := Block(1, b, a, PENDING)]
  }

  lemma SupportedByOne(t: Table, h: Hash)
    requires h in t
    ensures Supported(t, h, 1) <==> exists c :: IsChild(t, c, h)
  {
    SupportedThroughChild(t, h, 1);
    forall c | IsChild(t, c, h)
      ensures Supported(t, c, 0)
    {
      assert SupportPath(t, c, 0, [c]);
    }
  }

  lemma FirstConfirmed(a: Hash, b: Hash, root: Hash)
    requires a != b && root != a && root != b
    ensures Next(Two(a, b, root, PENDING), Two(a, b, root, CONFIRMED), 1)
  {
    var t := Two(a, b, root, PENDING);
    var batch := [t[b], t[a]];
    SupportedByOne(t, a);
    SupportedByOne(t, b);
    assert IsChild(t, b, a);
    assert ToConfirm(t, batch, 1) == {a};
    assert PendingBatch(t, batch, Descending, BATCH_SIZE);
    assert Two(a, b, root, CONFIRMED) == SetStates(t, {a}, CONFIRMED);
    assert ConfirmStep(t, Two(a, b, root, CONFIRMED), 1);
  }

  lemma NothingInvalidated(a: Hash, b: Hash, root: Hash)
    requires a != b && root != a && root != b
    ensures Next(Two(a, b, root, CONFIRMED), Two(a, b, root, CONFIRMED), 1)
  {
    var t := Two(a, b, root, CONFIRMED);
    var batch := [t[b]];
    assert !LosesAlone(t, b);
    forall p
      ensures !CondemnedPath(t, HashesOf(batch), b, p)
    {
      if IsDescent(t, p) && forall x <- p :: x in HashesOf(batch) {
        assert p[0] in p;
      }
    }
    assert ToInvalidate(t, batch) == {};
    assert PendingBatch(t, batch, Ascending, BATCH_SIZE);
    assert t == SetStates(t, {}, INVALIDATED);
    assert InvalidateStep(t, t);
  }

  /** The same with a fork beside them, whose first block is in the given state. */
  function Four(a: Hash, b: Hash, c: Hash, d: Hash, root: Hash, state: BlockState): Table
    requires Different(a, b, c, d, root)
  {
    map[a := Block(0, a, root, CONFIRMED), b := Block(1, b, a, PENDING), c := Block(0, c, root, state), d := Block(1, d, c, PENDING)]
  }

  lemma ForkBatch(t: Table, a: Hash, b: Hash, c: Hash, d: Hash, root: Hash, batch: seq<Block>)
    requires Different(a, b, c, d, root) && t == Four(a, b, c, d, root, PENDING)
    requires batch == [Block(1, b, a, PENDING), Block(1, d, c, PENDING), Block(0, c, root, PENDING)]
    ensures PendingBatch(t, batch, Descending, BATCH_SIZE)
  {
    assert batch[0].hash == b && batch[1].hash == d && batch[2].hash == c;
    assert PendingHashes(t) == {b, d, c};
    assert HashesOf(batch) == {b, d, c};
  }

  lemma ForkSupport(t: Table, a: Hash, b: Hash, c: Hash, d: Hash, root: Hash)
    requires Different(a, b, c, d, root) && t == Four(a, b, c, d, root, PENDING)
    ensures !Supported(t, b, 1) && Supported(t, c, 1) && !Supported(t, d, 1)
  {
    SupportedByOne(t, b);
    SupportedByOne(t, c);
    SupportedByOne(t, d);
    assert IsChild(t, d, c);
  }

  lemma ForkToConfirm(t: Table, a: Hash, b: Hash, c: Hash, d: Hash, root: Hash, batch: seq<Block>)
    requires !Supported(t, b, 1) && Supported(t, c, 1) && !Supported(t, d, 1) && c != b && c != d
    requires batch == [Block(1, b, a, PENDING), Block(1, d, c, PENDING), Block(0, c, root, PENDING)]
    ensures ToConfirm(t, batch, 1) == {c} && !Owned(t, batch, 1)
  {
    assert batch[2] in batch;
  }

  lemma ForkSettled(a: Hash, b: Hash, c: Hash, d: Hash, root: Hash)
    requires Different(a, b, c, d, root)
    ensures Four(a, b, c, d, root, CONFIRMED) == SetStates(Four(a, b, c, d, root, PENDING), {c}, CONFIRMED)
  {
  }

  lemma SecondConfirmed(a: Hash, b: Hash, c: Hash, d: Hash, root: Hash)
    requires Different(a, b, c, d, root)
    ensures Next(Four(a, b, c, d, root, PENDING), Four(a, b, c, d, root, CONFIRMED), 1)
  {
    var t, t' := Four(a, b, c, d, root, PENDING), Four(a, b, c, d, root, CONFIRMED);
    var batch := [Block(1, b, a, PENDING), Block(1, d, c, PENDING), Block(0, c, root, PENDING)];
    ForkBatch(t, a, b, c, d, root, batch);
    ForkSupport(t, a, b, c, d, root);
    ForkToConfirm(t, a, b, c, d, root, batch);
    ForkSettled(a, b, c, d, root);
    BatchConfirms(t, t', batch, 1);
  }

  lemma BatchConfirms(t: Table, t': Table, batch: seq<Block>, k: nat)
    requires PendingBatch(t, batch, Descending, BATCH_SIZE) && !Owned(t, batch, k)
    requires t' == SetStates(t, ToConfirm(t, batch, k), CONFIRMED)
    ensures Next(t, t', k)
  {
    assert ConfirmStep(t, t', k);
  }

  lemma ForkRecorded(a: Hash, b: Hash, c: Hash, d: Hash, root: Hash)
    requires Different(a, b, c, d, root)
    ensures Next(Two(a, b, root, CONFIRMED), Four(a, b, c, d, root, PENDING), 1)
  {
    var polled, forked := Two(a, b, root, CONFIRMED), Four(a, b, c, d, root, PENDING);
    forall h {:trigger Watched(polled, forked, h)}
      ensures Watched(polled, forked, h)
    {
    }
    assert Linked(forked);
    assert Watch(polled, forked);
  }

  lemma TwoConfirmed(a: Hash, b: Hash, c: Hash, d: Hash, root: Hash)
    requires Different(a, b, c, d, root)
    ensures !OneConfirmedPerHeight(Four(a, b, c, d, root, CONFIRMED))
  {
    assert ConfirmedRival(Four(a, b, c, d, root, CONFIRMED), a, c);
  }

  lemma RunOfFive(t0: Table, t1: Table, t2: Table, t3: Table, t4: Table, k: nat)
    requires Linked(t0) && forall h <- t0 :: t0[h].state == PENDING
    requires Next(t0, t1, k) && Next(t1, t2, k) && Next(t2, t3, k) && Next(t3, t4, k)
    ensures Run([t0, t1, t2, t3, t4], k)
  {
    var run := [t0, t1, t2, t3, t4];
    forall i | 0 <= i < |run| - 1
      ensures Next(run[i], run[i + 1], k)
    {
      if i == 0 {
      } else if i == 1 {
      } else if i == 2 {
      } else {
      }
    }
  }

  lemma FirstIsPending(a: Hash, b: Hash, root: Hash)
    requires a != b && root != a && root != b
    ensures var t := Two(a, b, root, PENDING); Linked(t) && forall h <- t :: t[h].state == PENDING
  {
  }

  /** Two blocks are recorded and polled, a fork of the same depth is recorded afterwards, and the next
      pass confirms a second block of the same height without any error. */
  lemma ConfirmedTwice(a: Hash, b: Hash, c: Hash, d: Hash, root: Hash)
    requires Different(a, b, c, d, root)
    ensures var first, polled := Two(a, b, root, PENDING), Two(a, b, root, CONFIRMED);
            var forked, after := Four(a, b, c, d, root, PENDING), Four(a, b, c, d, root, CONFIRMED);
            Run([first, polled, polled, forked, after], 1) && !OneConfirmedPerHeight(after)
  {
    FirstIsPending(a, b, root);
    FirstConfirmed(a, b, root);
    NothingInvalidated(a, b, root);
    ForkRecorded(a, b, c, d, root);
    SecondConfirmed(a, b, c, d, root);
    TwoConfirmed(a, b, c, d, root);
    RunOfFive(Two(a, b, root, PENDING), Two(a, b, root, CONFIRMED), Two(a, b, root, CONFIRMED),
              Four(a, b, c, d, root, PENDING), Four(a, b, c, d, root, CONFIRMED), 1);
  }

  // ----- One poll on everything pending -----

  /** The facts about the tables of a poll that the fixpoint rests on. */
  ghost predicate Polled(t: Table, middle: Table, t': Table, k: nat) {
    && Inv(t, k) && Inv(t', k)
    && Grows(t, t') && Grows(t', t) && Grows(middle, t') && Grows(t', middle)
    && NoDeepFork(t, k) && NoDeepFork(t', k)
    && (forall h {:trigger h in middle} :: h in t' <==> h in middle)
    && InvalidateStep(middle, t')
    && |PendingHashes(middle)| <= BATCH_SIZE
  }

  lemma PollShape(t: Table, middle: Table, t': Table, k: nat)
    requires Inv(t, k) && NoDeepFork(t, k) && |PendingHashes(t)| <= BATCH_SIZE
    requires ConfirmStep(t, middle, k) && InvalidateStep(middle, t')
    ensures Polled(t, middle, t', k)
  {
    ConfirmKeepsInv(t, middle, k);
    InvalidateKeepsInv(middle, t', k);
    ConfirmStepIsPointwise(t, middle, k);
    InvalidateStepIsPointwise(middle, t');
    GrowsBothWays(t, middle, t');
    NoDeepForkBefore(t', t, k);
    forall h <- PendingHashes(middle)
      ensures h in PendingHashes(t)
    {
      assert SettledAlike(t, middle, h);
    }
    SubsetSize(PendingHashes(middle), PendingHashes(t));
  }

  lemma GrowsBothWays(t: Table, middle: Table, t': Table)
    requires Grows(t, middle) && Grows(middle, t) && Grows(middle, t') && Grows(t', middle)
    ensures Grows(t, t') && Grows(t', t)
  {
    forall h
      ensures SameBlock(t, t', h) && SameBlock(t', t, h)
    {
      assert SameBlock(t, middle, h) && SameBlock(middle, t, h) && SameBlock(middle, t', h) && SameBlock(t', middle, h);
    }
  }

  /** After a poll over at most a full batch every state is determined by the tree alone. */
  lemma PollReachesFixpoint(t: Table, middle: Table, t': Table, k: nat)
    requires Inv(t, k) && NoDeepFork(t, k) && |PendingHashes(t)| <= 1000
    requires ConfirmStep(t, middle, k) && InvalidateStep(middle, t')
    ensures forall h <- t' :: t'[h].state == CONFIRMED <==> HasChain(t', h, k)
    ensures forall h <- t' :: t'[h].state == INVALIDATED <==> Doomed(t', h)
  {
    PollShape(t, middle, t', k);
    forall h <- t'
      ensures t'[h].state == CONFIRMED <==> HasChain(t', h, k)
    {
      ConfirmedAfterPoll(t, middle, t', k, h);
    }
    forall h <- t'
      ensures t'[h].state == INVALIDATED <==> Doomed(t', h)
    {
      InvalidatedAfterPoll(t, middle, t', k, h);
    }
  }

  lemma ConfirmedAfterPoll(t: Table, middle: Table, t': Table, k: nat, h: Hash)
    requires Polled(t, middle, t', k) && ConfirmStep(t, middle, k) && |PendingHashes(t)| <= BATCH_SIZE
    requires h in t'
    ensures t'[h].state == CONFIRMED <==> HasChain(t', h, k)
  {
    if t'[h].state == CONFIRMED {
      ConfirmedChain(t', h, k);
    } else if HasChain(t', h, k) {
      assert SameBlock(t', t, h);
      ChainGrows(t', t, h, k);
      if t[h].state == INVALIDATED {
        InvalidatedDoomed(t, h, k);
        DoomedHasNoChain(t, k, h);
      } else {
        SupportedIsChain(t, h, k);
        ConfirmedRow(t, middle, k, h);
        if t[h].state == PENDING {
          FullConfirmedRow(t, middle, k, h);
        }
        assert middle[h].state == CONFIRMED;
        InvalidateStepIsPointwise(middle, t');
      }
    }
  }

  lemma InvalidatedAfterPoll(t: Table, middle: Table, t': Table, k: nat, h: Hash)
    requires Polled(t, middle, t', k)
    requires h in t'
    ensures t'[h].state == INVALIDATED <==> Doomed(t', h)
  {
    if t'[h].state == INVALIDATED {
      InvalidatedDoomed(t', h, k);
    }
    if Doomed(t', h) {
      DoomedInvalidated(t, middle, t', k, h);
    }
  }

  lemma DoomedInvalidated(t: Table, middle: Table, t': Table, k: nat, h: Hash)
    requires Polled(t, middle, t', k) && Doomed(t', h)
    ensures h in t' && t'[h].state == INVALIDATED
  {
    var p := PathToDoomed(t', h);
    DoomedPathInvalidated(t, middle, t', k, p, |p| - 1);
  }

  lemma PathToDoomed(t: Table, h: Hash) returns (p: seq<Hash>)
    requires Doomed(t, h)
    ensures IsDescent(t, p) && HasConfirmedRival(t, p[0]) && p[|p| - 1] == h
  {
    var q :| Descends(t, q, h) && HasConfirmedRival(t, q);
    p :| IsDescent(t, p) && p[0] == q && p[|p| - 1] == h;
  }

  /** The invalidation travels down a path from the block that lost its height. */
  lemma {:induction false} DoomedPathInvalidated(t: Table, middle: Table, t': Table, k: nat, p: seq<Hash>, i: nat)
    requires Polled(t, middle, t', k)
    requires IsDescent(t', p) && HasConfirmedRival(t', p[0]) && i < |p|
    ensures p[i] in t' && t'[p[i]].state == INVALIDATED
  {
    if i == 0 {
      RivalInvalidated(t, middle, t', k, p[0]);
    } else {
      DoomedPathInvalidated(t, middle, t', k, p, i - 1);
      Step(t', p, i - 1);
      ChildOfInvalidated(t, middle, t', k, p[i - 1], p[i]);
    }
  }

  lemma RivalInvalidated(t: Table, middle: Table, t': Table, k: nat, h: Hash)
    requires Polled(t, middle, t', k) && HasConfirmedRival(t', h)
    ensures h in t' && t'[h].state == INVALIDATED
  {
    var s :| ConfirmedRival(t', h, s);
    InvalidateStepIsPointwise(middle, t');
    assert SameBlock(t', middle, h) && SameBlock(t', middle, s);
    assert ConfirmedRival(middle, h, s);
    NotConfirmed(t', k, h);
    LosesAfterPoll(middle, t', h);
  }

  lemma ChildOfInvalidated(t: Table, middle: Table, t': Table, k: nat, parent: Hash, h: Hash)
    requires Polled(t, middle, t', k) && IsChild(t', h, parent) && t'[parent].state == INVALIDATED
    ensures h in t' && t'[h].state == INVALIDATED
  {
    InvalidatedDoomed(t', parent, k);
    DoomedChild(t', parent, h);
    NotConfirmedIfDoomed(t', k, h);
    assert SameBlock(t', middle, h) && SameBlock(t', middle, parent);
    InvalidateStepIsPointwise(middle, t');
    if middle[parent].state == INVALIDATED {
      LosesAfterPoll(middle, t', h);
    } else {
      CondemnedChild(middle, t', parent, h);
    }
  }

  lemma DoomedChild(t: Table, parent: Hash, h: Hash)
    requires IsChild(t, h, parent) && Doomed(t, parent)
    ensures Doomed(t, h)
  {
    var q :| Descends(t, q, parent) && HasConfirmedRival(t, q);
    DescendsToChild(t, h, parent);
    DescendsTransitive(t, q, parent, h);
  }

  lemma NotConfirmedIfDoomed(t: Table, k: nat, h: Hash)
    requires Inv(t, k) && NoDeepFork(t, k) && h in t && Doomed(t, h)
    ensures t[h].state != CONFIRMED
  {
    DoomedHasNoChain(t, k, h);
    if t[h].state == CONFIRMED {
      ConfirmedChain(t, h, k);
    }
  }

  lemma NotConfirmed(t: Table, k: nat, h: Hash)
    requires Inv(t, k) && NoDeepFork(t, k) && h in t && HasConfirmedRival(t, h)
    ensures t[h].state != CONFIRMED
  {
    if t[h].state == CONFIRMED {
      ConfirmedChain(t, h, k);
      NoRivals(t, k, h);
    }
  }

  /** A block that loses by itself and does not end up CONFIRMED is INVALIDATED by a full pass. */
  lemma LosesAfterPoll(middle: Table, t': Table, h: Hash)
    requires InvalidateStep(middle, t') && |PendingHashes(middle)| <= BATCH_SIZE
    requires LosesAlone(middle, h) && h in t' && t'[h].state != CONFIRMED
    ensures t'[h].state == INVALIDATED
  {
    var batch := InvalidatedRow(middle, t', h);
    if h in batch {
      assert IsDescent(middle, [h]);
      assert CondemnedPath(middle, batch, h, [h]);
    }
  }

  /** So is the child of a block that the pass invalidates. */
  lemma CondemnedChild(middle: Table, t': Table, parent: Hash, h: Hash)
    requires InvalidateStep(middle, t') && |PendingHashes(middle)| <= BATCH_SIZE
    requires IsChild(middle, h, parent) && parent in t' && h in t'
    requires middle[parent].state != INVALIDATED && t'[parent].state == INVALIDATED && t'[h].state != CONFIRMED
    ensures t'[h].state == INVALIDATED
  {
    var batch := InvalidatedRow(middle, t', parent);
    var same := InvalidatedRow(middle, t', h);
    var q :| CondemnedPath(middle, batch, parent, q);
    if h in batch {
      DescentToChild(middle, q, h);
      assert CondemnedPath(middle, batch, h, q + [h]);
    }
  }

  ghost predicate HasInvalidatedAncestor(t: Table, h: Hash) {
    exists a :: a != h && a in t && Descends(t, a, h) && t[a].state == INVALIDATED
  }

  /** The same fixpoint read off a block's neighbourhood: what stays PENDING has no k descendants,
      no CONFIRMED rival and no INVALIDATED ancestor, and a CONFIRMED block's parent is CONFIRMED. */
  lemma StillPendingExactly(t: Table, middle: Table, t': Table, k: nat)
    requires Inv(t, k) && NoDeepFork(t, k) && |PendingHashes(t)| <= 1000
    requires ConfirmStep(t, middle, k) && InvalidateStep(middle, t')
    ensures forall h <- t' :: t'[h].state == PENDING <==>
              !HasChain(t', h, k) && !HasConfirmedRival(t', h) && !HasInvalidatedAncestor(t', h)
    ensures forall h, parent :: IsChild(t', h, parent) && t'[h].state == CONFIRMED ==> t'[parent].state == CONFIRMED
  {
    PollShape(t, middle, t', k);
    forall h <- t'
      ensures t'[h].state == PENDING <==>
                !HasChain(t', h, k) && !HasConfirmedRival(t', h) && !HasInvalidatedAncestor(t', h)
    {
      PendingAfterPoll(t, middle, t', k, h);
    }
    forall h, parent | IsChild(t', h, parent) && t'[h].state == CONFIRMED
      ensures t'[parent].state == CONFIRMED
    {
      ParentConfirmed(t, middle, t', k, h, parent);
    }
  }

  lemma PendingAfterPoll(t: Table, middle: Table, t': Table, k: nat, h: Hash)
    requires Polled(t, middle, t', k) && ConfirmStep(t, middle, k) && h in t' && |PendingHashes(t)| <= BATCH_SIZE
    ensures t'[h].state == PENDING <==>
              !HasChain(t', h, k) && !HasConfirmedRival(t', h) && !HasInvalidatedAncestor(t', h)
  {
    ConfirmedAfterPoll(t, middle, t', k, h);
    InvalidatedAfterPoll(t, middle, t', k, h);
    DoomedNearby(t, middle, t', k, h);
  }

  lemma ParentConfirmed(t: Table, middle: Table, t': Table, k: nat, h: Hash, parent: Hash)
    requires Polled(t, middle, t', k) && ConfirmStep(t, middle, k) && |PendingHashes(t)| <= BATCH_SIZE
    requires IsChild(t', h, parent) && t'[h].state == CONFIRMED
    ensures t'[parent].state == CONFIRMED
  {
    ConfirmedAfterPoll(t, middle, t', k, h);
    ConfirmedAfterPoll(t, middle, t', k, parent);
    DescendsToChild(t', h, parent);
    AncestorHasChain(t', parent, h, k);
  }

  lemma DoomedNearby(t: Table, middle: Table, t': Table, k: nat, h: Hash)
    requires Polled(t, middle, t', k) && h in t'
    ensures Doomed(t', h) <==> HasConfirmedRival(t', h) || HasInvalidatedAncestor(t', h)
  {
    DescendsReflexive(t', h);
    if Doomed(t', h) {
      var q :| Descends(t', q, h) && HasConfirmedRival(t', q);
      if q != h {
        RivalInvalidated(t, middle, t', k, q);
        assert HasInvalidatedAncestor(t', h);
      }
    }
    if HasInvalidatedAncestor(t', h) {
      var a :| a != h && a in t' && Descends(t', a, h) && t'[a].state == INVALIDATED;
      InvalidatedDoomed(t', a, k);
      var q :| Descends(t', q, a) && HasConfirmedRival(t', q);
      DescendsTransitive(t', q, a, h);
    }
  }
}
