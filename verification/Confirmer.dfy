/** The two passes of src/apps/confirmer/confirmer.ts that settle the state of the recorded blocks. */
module Confirming {
  import opened Common
  import opened BlockTree
  import opened BlockCaching
  import Utils

  const BATCH_SIZE: nat := 1000

  // ----- Confirming -----

  /** The depth search below h with its shortcut: a path of d children, or a shorter path that
      reaches a CONFIRMED block. */
  ghost predicate Supported(t: Table, h: Hash, d: nat) {
    exists p :: SupportPath(t, h, d, p)
  }

  predicate IsConfirmed(t: Table, h: Hash) {
    h in t && t[h].state == CONFIRMED
  }

  ghost predicate SupportPath(t: Table, h: Hash, d: nat, p: seq<Hash>) {
    && IsDescent(t, p)
    && p[0] == h
    && (|p| == d + 1 || (1 < |p| <= d && IsConfirmed(t, p[|p| - 1])))
  }

  lemma SupportedThroughChild(t: Table, h: Hash, d: nat)
    requires h in t && d > 0
    ensures Supported(t, h, d) <==> exists c :: IsChild(t, c, h) && (t[c].state == CONFIRMED || Supported(t, c, d - 1))
  {
    if Supported(t, h, d) {
      var p :| SupportPath(t, h, d, p);
      Step(t, p, 0);
      PartOfDescent(t, p, 1, |p|);
      assert p[1..|p|] == p[1..];
      if |p| > 2 || d == 1 {
        assert SupportPath(t, p[1], d - 1, p[1..]);
      }
      assert IsChild(t, p[1], h);
    }
    if c :| IsChild(t, c, h) && (t[c].state == CONFIRMED || Supported(t, c, d - 1)) {
      ChildDescent(t, c, h);
      if t[c].state == CONFIRMED || d == 1 {
        assert SupportPath(t, h, d, [h, c]);
      } else {
        var q :| SupportPath(t, c, d - 1, q);
        DescentFromParent(t, h, q);
        assert SupportPath(t, h, d, [h] + q);
      }
    }
  }

  /** A block found worth confirming supports its parent at every smaller depth. */
  lemma SupportedChildSuffices(t: Table, c: Hash, h: Hash, k: nat, d: nat)
    requires IsChild(t, c, h) && Supported(t, c, k) && d <= k
    ensures Supported(t, h, d)
  {
    var q :| SupportPath(t, c, k, q);
    var p := [h] + q;
    DescentFromParent(t, h, q);
    if |p| > d {
      PartOfDescent(t, p, 0, d + 1);
      assert SupportPath(t, h, d, p[0..d + 1]);
    } else {
      assert SupportPath(t, h, d, p);
    }
  }

  /** While every CONFIRMED block has k descendants, the shortcut changes nothing: the search
      answers whether there are d descendants. */
  lemma ShortcutsAreSound(t: Table, h: Hash, k: nat, d: nat)
    requires forall c <- t :: t[c].state == CONFIRMED ==> HasChain(t, c, k)
    requires d <= k
    ensures Supported(t, h, d) <==> HasChain(t, h, d)
  {
    if Supported(t, h, d) {
      var p :| SupportPath(t, h, d, p);
      if |p| != d + 1 {
        var c := p[|p| - 1];
        assert Descends(t, h, c) && HasChain(t, c, k);
        AncestorHasChain(t, h, c, k);
        ShorterChain(t, h, k, d);
      }
    }
    if HasChain(t, h, d) {
      var p :| IsDescent(t, p) && p[0] == h && |p| == d + 1;
      assert SupportPath(t, h, d, p);
    }
  }

  ghost function ToConfirm(t: Table, batch: seq<Block>, k: nat): set<Hash> {
    set b <- batch | Supported(t, b.hash, k) :: b.hash
  }

  /** Two blocks of one height are both worth confirming. */
  ghost predicate Owned(t: Table, batch: seq<Block>, k: nat) {
    exists a, b :: a in batch && b in batch && a.hash != b.hash && a.number == b.number
                   && Supported(t, a.hash, k) && Supported(t, b.hash, k)
  }

  method ShouldConfirm(cache: BlockCache, hashesToConfirm: set<Hash>, block: Block, depthNeeded: int, ghost k: nat)
    returns (should: bool)
    requires cache.Valid() && depthNeeded <= k
    requires block.hash in cache.source.rows && cache.source.rows[block.hash] == block
    requires forall h <- hashesToConfirm :: Supported(cache.source.rows, h, k)
    modifies cache
    ensures cache.Valid()
    ensures should == Supported(cache.source.rows, block.hash, if depthNeeded > 0 then depthNeeded else 0)
    decreases if depthNeeded > 0 then depthNeeded else 0
  {
    ghost var t := cache.source.rows;
    if depthNeeded <= 0 {
      assert SupportPath(t, block.hash, 0, [block.hash]);
      return true;
    }
    SupportedThroughChild(t, block.hash, depthNeeded);
    var children := cache.GetChildren(block);
    if exists child <- children :: child.state == CONFIRMED || child.hash in hashesToConfirm {
      ghost var child :| child in children && (child.state == CONFIRMED || child.hash in hashesToConfirm);
      assert IsChild(t, child.hash, block.hash);
      if child.state != CONFIRMED {
        SupportedChildSuffices(t, child.hash, block.hash, k, depthNeeded);
      }
      return true;
    }
    for i := 0 to |children|
      invariant cache.Valid()
      invariant forall j :: 0 <= j < i ==> !Supported(t, children[j].hash, depthNeeded - 1)
    {
      assert children[i] in children;
      var shouldConfirmChild := ShouldConfirm(cache, hashesToConfirm, children[i], depthNeeded - 1, k);
      if shouldConfirmChild {
        assert IsChild(t, children[i].hash, block.hash);
        return true;
      }
    }
    forall c | IsChild(t, c, block.hash)
      ensures t[c].state != CONFIRMED && !Supported(t, c, depthNeeded - 1)
    {
      assert t[c] in children;
    }
    return false;
  }

  /** `serialFilter(shouldConfirm, generation)` */
  method Confirmable(cache: BlockCache, hashesToConfirm: set<Hash>, generation: seq<Block>, k: nat) returns (result: seq<Block>)
    requires cache.Valid() && RowsOnce(cache.source.rows, generation)
    requires forall h <- hashesToConfirm :: Supported(cache.source.rows, h, k)
    modifies cache
    ensures cache.Valid()
    ensures forall b :: b in result <==> b in generation && Supported(cache.source.rows, b.hash, k)
    ensures RowsOnce(cache.source.rows, result)
  {
    ghost var t := cache.source.rows;
    result := [];
    for i := 0 to |generation|
      invariant cache.Valid()
      invariant forall b :: b in result <==> b in generation[..i] && Supported(t, b.hash, k)
      invariant RowsOnce(t, result)
    {
      var item := generation[i];
      var itemResult := ShouldConfirm(cache, hashesToConfirm, item, k, k);
      assert generation[..i + 1] == generation[..i] + [item];
      if itemResult {
        result := result + [item];
      }
    }
    assert generation[..|generation|] == generation;
  }

  /** One generation of the descending pass: its confirmable block joins the hashes to confirm; two of
      them mean that the chain got owned. */
  method ConfirmGeneration(cache: BlockCache, hashesToConfirm: set<Hash>, ghost batch: seq<Block>,
                           generations: seq<seq<Block>>, i: nat, k: nat)
    returns (after: Option<set<Hash>>)
    requires cache.Valid() && GenerationsOf(cache.source.rows, batch, generations) && i < |generations|
    requires hashesToConfirm == ConfirmedUpTo(cache.source.rows, generations, i, k)
    modifies cache
    ensures cache.Valid()
    ensures after.None? ==> Owned(cache.source.rows, batch, k)
    ensures after.Some? ==> after.value == ConfirmedUpTo(cache.source.rows, generations, i + 1, k)
                            && AtMostOneSupported(cache.source.rows, generations[i], k)
  {
    ghost var t := cache.source.rows;
    var confirmable := Confirmable(cache, hashesToConfirm, generations[i], k);
    if |confirmable| > 1 {
      TwoConfirmable(t, batch, generations, i, confirmable, k);
      return None;
    }
    OneGeneration(t, generations, i, confirmable, k);
    if |confirmable| == 1 {
      var confirmHash := confirmable[0].hash;
      assert HashesOf(confirmable) == {confirmHash};
      return Some(hashesToConfirm + {confirmHash});
    }
    return Some(hashesToConfirm);
  }

  method ConfirmGenerations(cache: BlockCache, ghost batch: seq<Block>, generations: seq<seq<Block>>, k: nat)
    returns (hashesToConfirm: Option<set<Hash>>)
    requires cache.Valid() && GenerationsOf(cache.source.rows, batch, generations)
    modifies cache
    ensures hashesToConfirm.None? <==> Owned(cache.source.rows, batch, k)
    ensures hashesToConfirm.Some? ==> hashesToConfirm.value == ToConfirm(cache.source.rows, batch, k)
  {
    ghost var t := cache.source.rows;
    var hashes: set<Hash> := {};
    for i := 0 to |generations|
      invariant cache.Valid()
      invariant hashes == ConfirmedUpTo(t, generations, i, k)
      invariant forall j :: 0 <= j < i ==> AtMostOneSupported(t, generations[j], k)
    {
      var after := ConfirmGeneration(cache, hashes, batch, generations, i, k);
      if after.None? {
        return None;
      }
      hashes := after.value;
    }
    NotOwned(t, batch, generations, k);
    AllConfirmed(t, batch, generations, k);
    return Some(hashes);
  }

  method ConfirmBlocks(store: BlockStore, k: nat) returns (r: Result<()>, ghost batch: seq<Block>)
    modifies store
    ensures PendingBatch(old(store.rows), batch, Descending, 1000)
    ensures r.Err? <==> Owned(old(store.rows), batch, k)
    ensures r.Err? ==> store.rows == old(store.rows)
    ensures r.Ok? ==> store.rows == SetStates(old(store.rows), ToConfirm(old(store.rows), batch, k), CONFIRMED)
  {
    var cache := new BlockCache(store);
    var pendingBlocks := store.FindPending(Descending, BATCH_SIZE);
    batch := pendingBlocks;
    var generations := Utils.GroupBy(pendingBlocks, (block: Block) => block.number);
    GenerationsOfBatch(store.rows, batch, generations);
    var hashesToConfirm := ConfirmGenerations(cache, batch, generations, k);
    if hashesToConfirm.None? {
      return Err("Blockchain got owned."), batch;
    }
    store.UpdateStates(hashesToConfirm.value, CONFIRMED);
    r := Ok(());
  }

  ghost predicate AtMostOneSupported(t: Table, generation: seq<Block>, k: nat) {
    forall a, b :: a in generation && b in generation && Supported(t, a.hash, k) && Supported(t, b.hash, k) ==> a == b
  }

  ghost function ConfirmedUpTo(t: Table, generations: seq<seq<Block>>, i: nat, k: nat): set<Hash>
    requires i <= |generations|
  {
    set j, b | 0 <= j < i && b in generations[j] && Supported(t, b.hash, k) :: b.hash
  }

  ghost predicate InSome(generations: seq<seq<Block>>, b: Block) {
    exists i :: 0 <= i < |generations| && b in generations[i]
  }

  /** The groups of a descending batch: all of it, each height in one group. */
  ghost predicate GenerationsOf(t: Table, batch: seq<Block>, generations: seq<seq<Block>>) {
    && (forall b :: b in batch <==> InSome(generations, b))
    && (forall i :: 0 <= i < |generations| ==> |generations[i]| > 0 && RowsOnce(t, generations[i]))
    && (forall i :: 0 <= i < |generations| ==> forall b <- generations[i] :: b.number == generations[i][0].number)
    && (forall i, j :: 0 <= i < j < |generations| ==> generations[i][0].number > generations[j][0].number)
  }

  lemma GenerationsOfBatch(t: Table, batch: seq<Block>, generations: seq<seq<Block>>)
    requires PendingBatch(t, batch, Descending, BATCH_SIZE)
    requires generations == Utils.Groups(batch, (block: Block) => block.number)
    ensures GenerationsOf(t, batch, generations)
  {
    var key := (block: Block) => block.number;
    Utils.GroupsAreRuns(batch, key);
    Utils.SortedGroups(batch, key);
    forall b
      ensures b in batch <==> InSome(generations, b)
    {
      Utils.ConcatMembers(generations, b);
    }
    forall i | 0 <= i < |generations|
      ensures RowsOnce(t, generations[i])
    {
      GroupRowsOnce(t, generations, i);
    }
    forall i | 0 <= i < |generations|
      ensures forall b <- generations[i] :: b.number == generations[i][0].number
    {
      forall b <- generations[i]
        ensures b.number == generations[i][0].number
      {
        assert key(b) == key(generations[i][0]);
      }
    }
    forall i, j | 0 <= i < j < |generations|
      ensures generations[i][0].number > generations[j][0].number
    {
      assert key(generations[i][0]) > key(generations[j][0]);
    }
  }

  lemma {:induction false} GroupRowsOnce(t: Table, groups: seq<seq<Block>>, i: nat)
    requires RowsOnce(t, Utils.Concat(groups)) && i < |groups|
    ensures RowsOnce(t, groups[i])
  {
    var m := |groups| - 1;
    var before := Utils.Concat(groups[..m]);
    var all := Utils.Concat(groups);
    assert all[..|before|] == before && all[|before|..] == groups[m];
    if i < m {
      assert RowsOnce(t, before);
      GroupRowsOnce(t, groups[..m], i);
    } else {
      assert forall j :: 0 <= j < |groups[m]| ==> groups[m][j] == all[|before| + j];
    }
  }

  lemma NotOwned(t: Table, batch: seq<Block>, generations: seq<seq<Block>>, k: nat)
    requires GenerationsOf(t, batch, generations)
    requires forall j :: 0 <= j < |generations| ==> AtMostOneSupported(t, generations[j], k)
    ensures !Owned(t, batch, k)
  {
    forall a, b | a in batch && b in batch && a.number == b.number && Supported(t, a.hash, k) && Supported(t, b.hash, k)
      ensures a == b
    {
      assert InSome(generations, a) && InSome(generations, b);
      var i :| 0 <= i < |generations| && a in generations[i];
      var j :| 0 <= j < |generations| && b in generations[j];
      assert generations[i][0].number == generations[j][0].number;
      assert i == j;
      assert AtMostOneSupported(t, generations[i], k);
    }
  }

  lemma AllConfirmed(t: Table, batch: seq<Block>, generations: seq<seq<Block>>, k: nat)
    requires GenerationsOf(t, batch, generations)
    ensures ConfirmedUpTo(t, generations, |generations|, k) == ToConfirm(t, batch, k)
  {
  }

  lemma TwoConfirmable(t: Table, batch: seq<Block>, generations: seq<seq<Block>>, i: nat, confirmable: seq<Block>, k: nat)
    requires GenerationsOf(t, batch, generations) && i < |generations|
    requires RowsOnce(t, confirmable) && |confirmable| > 1
    requires forall b :: b in confirmable <==> b in generations[i] && Supported(t, b.hash, k)
    ensures Owned(t, batch, k)
  {
    var a, b := confirmable[0], confirmable[1];
    assert a in confirmable && b in confirmable;
    assert InSome(generations, a) && InSome(generations, b);
  }

  /** One generation's contribution to the set of blocks to confirm. */
  lemma OneGeneration(t: Table, generations: seq<seq<Block>>, i: nat, confirmable: seq<Block>, k: nat)
    requires i < |generations| && RowsOnce(t, confirmable) && |confirmable| <= 1
    requires forall b :: b in confirmable <==> b in generations[i] && Supported(t, b.hash, k)
    ensures ConfirmedUpTo(t, generations, i + 1, k) == ConfirmedUpTo(t, generations, i, k) + HashesOf(confirmable)
    ensures AtMostOneSupported(t, generations[i], k)
  {
    forall b <- confirmable
      ensures b.hash in ConfirmedUpTo(t, generations, i + 1, k)
    {
      assert b in generations[i];
    }
  }

  // ----- Invalidating -----

  /** q loses by itself: its recorded parent is INVALIDATED, or another block of its height is CONFIRMED. */
  ghost predicate LosesAlone(t: Table, q: Hash) {
    q in t && ((t[q].parentHash in t && t[t[q].parentHash].state == INVALIDATED) || HasConfirmedRival(t, q))
  }

  /** h hangs, through blocks of the batch, below a block of the batch that loses by itself. */
  ghost predicate Condemned(t: Table, batch: set<Hash>, h: Hash) {
    exists p :: CondemnedPath(t, batch, h, p)
  }

  ghost predicate CondemnedPath(t: Table, batch: set<Hash>, h: Hash, p: seq<Hash>) {
    && IsDescent(t, p)
    && p[|p| - 1] == h
    && (forall x <- p :: x in batch)
    && LosesAlone(t, p[0])
  }

  lemma CondemnedThroughParent(t: Table, batch: set<Hash>, h: Hash)
    requires Linked(t) && h in t
    ensures Condemned(t, batch, h)
       <==> h in batch && (LosesAlone(t, h) || Condemned(t, batch, t[h].parentHash))
  {
    if Condemned(t, batch, h) {
      var p :| CondemnedPath(t, batch, h, p);
      var m := |p| - 1;
      if m > 0 {
        Step(t, p, m - 1);
        PartOfDescent(t, p, 0, m);
        assert CondemnedPath(t, batch, t[h].parentHash, p[0..m]);
      }
    }
    if h in batch && LosesAlone(t, h) {
      assert IsDescent(t, [h]);
      assert CondemnedPath(t, batch, h, [h]);
    } else if h in batch && Condemned(t, batch, t[h].parentHash) {
      var q :| CondemnedPath(t, batch, t[h].parentHash, q);
      DescentInTable(t, q);
      RecordedParent(t, h);
      DescentToChild(t, q, h);
      assert CondemnedPath(t, batch, h, q + [h]);
    }
  }

  ghost function ToInvalidate(t: Table, batch: seq<Block>): set<Hash> {
    set b <- batch | Condemned(t, HashesOf(batch), b.hash) :: b.hash
  }

  method ShouldInvalidate(cache: BlockCache, hashesToInvalidate: set<Hash>, block: Block) returns (should: bool)
    requires cache.Valid() && Linked(cache.source.rows)
    requires block.hash in cache.source.rows && cache.source.rows[block.hash] == block
    modifies cache
    ensures cache.Valid()
    ensures should == (block.parentHash in hashesToInvalidate || LosesAlone(cache.source.rows, block.hash))
  {
    ghost var t := cache.source.rows;
    if block.parentHash in hashesToInvalidate {
      return true;
    }
    var parent := cache.GetParent(block);
    assert LinkedAt(t, block.hash);
    if parent.Some? && parent.value.state == INVALIDATED {
      return true;
    }
    var others := cache.GetGeneration(block.number);
    should := HasConfirmedOther(t, others, block);
  }

  /** Whether another block of the height is CONFIRMED. */
  method HasConfirmedOther(ghost t: Table, others: seq<Block>, block: Block) returns (has: bool)
    requires RowsOnce(t, others) && HashesOf(others) == Generation(t, block.number).Keys
    requires block.hash in t && t[block.hash] == block
    ensures has <==> HasConfirmedRival(t, block.hash)
  {
    for i := 0 to |others|
      invariant forall j :: 0 <= j < i ==> !(others[j].hash != block.hash && others[j].state == CONFIRMED)
    {
      var other := others[i];
      if other.hash != block.hash && other.state == CONFIRMED {
        assert other in others;
        assert other.hash in HashesOf(others);
        assert ConfirmedRival(t, block.hash, other.hash);
        return true;
      }
    }
    forall s | s in t && t[s].number == block.number
      ensures t[s] in others
    {
      InRows(t, others, t[s]);
    }
    assert forall other <- others :: other.hash == block.hash || other.state != CONFIRMED;
    return false;
  }

  method InvalidateBlocks(store: BlockStore) returns (ghost batch: seq<Block>)
    requires Linked(store.rows)
    modifies store
    ensures PendingBatch(old(store.rows), batch, Ascending, 1000)
    ensures store.rows == SetStates(old(store.rows), ToInvalidate(old(store.rows), batch), INVALIDATED)
  {
    ghost var t := store.rows;
    var cache := new BlockCache(store);
    var pendingBlocks := store.FindPending(Ascending, BATCH_SIZE);
    batch := pendingBlocks;
    ghost var all := HashesOf(batch);
    var hashesToInvalidate: set<Hash> := {};

    for i := 0 to |pendingBlocks|
      invariant cache.Valid() && store.rows == t
      invariant hashesToInvalidate == set j | 0 <= j < i && Condemned(t, all, batch[j].hash) :: batch[j].hash
    {
      var block := pendingBlocks[i];
      assert block in batch && block.hash in all;
      CondemnedThroughParent(t, all, block.hash);
      ParentComesEarlier(t, batch, i);
      var should := ShouldInvalidate(cache, hashesToInvalidate, block);
      if should {
        hashesToInvalidate := hashesToInvalidate + {block.hash};
      }
    }
    assert hashesToInvalidate == ToInvalidate(t, batch);
    store.UpdateStates(hashesToInvalidate, INVALIDATED);
  }

  /** In ascending order a condemned parent was already looked at. */
  lemma ParentComesEarlier(t: Table, batch: seq<Block>, i: nat)
    requires Linked(t) && PendingBatch(t, batch, Ascending, BATCH_SIZE) && i < |batch|
    ensures Condemned(t, HashesOf(batch), batch[i].parentHash)
       <==> exists j :: 0 <= j < i && batch[j].hash == batch[i].parentHash && Condemned(t, HashesOf(batch), batch[j].hash)
  {
    if Condemned(t, HashesOf(batch), batch[i].parentHash) {
      var p :| CondemnedPath(t, HashesOf(batch), batch[i].parentHash, p);
      assert p[|p| - 1] in HashesOf(batch);
      var b :| b in batch && b.hash == batch[i].parentHash;
      var j :| 0 <= j < |batch| && batch[j] == b;
      assert i <= j ==> InOrder(Ascending, batch[i].number, batch[j].number);
      assert batch[i] in batch && b in batch;
      RecordedParent(t, batch[i].hash);
    }
  }

  method CheckBlocks(store: BlockStore, k: nat) returns (r: Result<()>, ghost middle: Table)
    requires Linked(store.rows)
    modifies store
    ensures r.Err? ==> store.rows == old(store.rows) && Throws(old(store.rows), k)
    ensures r.Ok? ==> ConfirmStep(old(store.rows), middle, k) && InvalidateStep(middle, store.rows)
  {
    ghost var batch;
    middle := store.rows;
    r, batch := ConfirmBlocks(store, k);
    if r.Err? {
      return;
    }
    middle := store.rows;
    ConfirmStepIsPointwise(old(store.rows), middle, k);
    SameLinks(old(store.rows), middle);
    batch := InvalidateBlocks(store);
  }

  // ----- The passes as relations between tables -----

  ghost predicate ConfirmStep(t: Table, t': Table, k: nat) {
    exists batch :: && PendingBatch(t, batch, Descending, BATCH_SIZE)
                    && !Owned(t, batch, k)
                    && t' == SetStates(t, ToConfirm(t, batch, k), CONFIRMED)
  }

  ghost predicate Throws(t: Table, k: nat) {
    exists batch :: PendingBatch(t, batch, Descending, BATCH_SIZE) && Owned(t, batch, k)
  }

  ghost predicate InvalidateStep(t: Table, t': Table) {
    exists batch :: && PendingBatch(t, batch, Ascending, BATCH_SIZE)
                    && t' == SetStates(t, ToInvalidate(t, batch), INVALIDATED)
  }

  /** The confirming pass row by row: a PENDING row with enough support may be settled. */
  lemma ConfirmedRow(t: Table, t': Table, k: nat, h: Hash)
    requires ConfirmStep(t, t', k) && h in t
    ensures h in t'
    ensures t'[h] == t[h] || (t[h].state == PENDING && Supported(t, h, k) && t'[h] == t[h].(state := CONFIRMED))
  {
    var batch :| && PendingBatch(t, batch, Descending, BATCH_SIZE)
                 && t' == SetStates(t, ToConfirm(t, batch, k), CONFIRMED);
    if h in ToConfirm(t, batch, k) {
      assert h in HashesOf(batch);
    }
  }

  lemma ConfirmStepIsPointwise(t: Table, t': Table, k: nat)
    requires ConfirmStep(t, t', k)
    ensures t.Keys == t'.Keys && Grows(t, t') && Grows(t', t) && KeepsSettled(t, t')
  {
    forall h | h in t
      ensures SameBlock(t, t', h) && SameBlock(t', t, h) && SettledAlike(t, t', h)
    {
      ConfirmedRow(t, t', k, h);
    }
  }

  lemma InvalidatedRow(t: Table, t': Table, h: Hash) returns (batch: set<Hash>)
    requires InvalidateStep(t, t') && h in t
    ensures h in t' && batch <= PendingHashes(t)
    ensures t'[h] == if Condemned(t, batch, h) then t[h].(state := INVALIDATED) else t[h]
    ensures |PendingHashes(t)| <= BATCH_SIZE ==> batch == PendingHashes(t)
  {
    var blocks :| && PendingBatch(t, blocks, Ascending, BATCH_SIZE)
                  && t' == SetStates(t, ToInvalidate(t, blocks), INVALIDATED);
    batch := HashesOf(blocks);
    if Condemned(t, batch, h) {
      var p :| CondemnedPath(t, batch, h, p);
      assert p[|p| - 1] in batch;
      assert h in ToInvalidate(t, blocks);
    }
    if |PendingHashes(t)| <= BATCH_SIZE {
      FullBatch(t, blocks, Ascending);
    }
  }

  lemma InvalidateStepIsPointwise(t: Table, t': Table)
    requires InvalidateStep(t, t')
    ensures t.Keys == t'.Keys && Grows(t, t') && Grows(t', t) && KeepsSettled(t, t')
    ensures forall h <- t :: t'[h].state == CONFIRMED <==> t[h].state == CONFIRMED
  {
    forall h | h in t
      ensures SameBlock(t, t', h) && SameBlock(t', t, h) && SettledAlike(t, t', h)
      ensures t'[h].state == CONFIRMED <==> t[h].state == CONFIRMED
    {
      var batch := InvalidatedRow(t, t', h);
      if Condemned(t, batch, h) {
        CondemnedInBatch(t, batch, h);
      }
    }
  }

  lemma CondemnedInBatch(t: Table, batch: set<Hash>, h: Hash)
    requires Condemned(t, batch, h)
    ensures h in batch
  {
  }

  // ----- Batches that hold everything pending -----

  lemma {:induction false} DistinctHashes(t: Table, batch: seq<Block>)
    requires RowsOnce(t, batch)
    ensures |HashesOf(batch)| == |batch|
  {
    if batch != [] {
      var n := |batch| - 1;
      var h := batch[n].hash;
      RowsBefore(t, batch);
      DistinctHashes(t, batch[..n]);
      assert HashesOf(batch) == HashesOf(batch[..n]) + {h};
    }
  }

  lemma RowsBefore(t: Table, batch: seq<Block>)
    requires RowsOnce(t, batch) && batch != []
    ensures var n := |batch| - 1;
            && RowsOnce(t, batch[..n]) && batch[n].hash !in HashesOf(batch[..n])
            && HashesOf(batch) == HashesOf(batch[..n]) + {batch[n].hash}
  {
    var n := |batch| - 1;
    assert batch == batch[..n] + [batch[n]];
    assert forall i :: 0 <= i < n ==> batch[..n][i] == batch[i];
  }

  lemma FullBatch(t: Table, batch: seq<Block>, order: Order)
    requires PendingBatch(t, batch, order, BATCH_SIZE) && |PendingHashes(t)| <= BATCH_SIZE
    ensures HashesOf(batch) == PendingHashes(t)
  {
    DistinctHashes(t, batch);
    var missing := PendingHashes(t) - HashesOf(batch);
    assert HashesOf(batch) + missing == PendingHashes(t);
    assert |HashesOf(batch) + missing| == |batch| + |missing|;
    assert missing == {} || |batch| == BATCH_SIZE;
  }

  lemma FullConfirmedRow(t: Table, t': Table, k: nat, h: Hash)
    requires ConfirmStep(t, t', k) && |PendingHashes(t)| <= BATCH_SIZE
    requires h in t && t[h].state == PENDING && Supported(t, h, k)
    ensures h in t' && t'[h].state == CONFIRMED
  {
    var batch :| && PendingBatch(t, batch, Descending, BATCH_SIZE)
                 && t' == SetStates(t, ToConfirm(t, batch, k), CONFIRMED);
    FullBatch(t, batch, Descending);
    ConfirmedMember(t, batch, k, h);
    StateSet(t, ToConfirm(t, batch, k), CONFIRMED, h);
  }

  lemma ConfirmedMember(t: Table, batch: seq<Block>, k: nat, h: Hash)
    requires h in HashesOf(batch) && Supported(t, h, k)
    ensures h in ToConfirm(t, batch, k)
  {
  }
}
