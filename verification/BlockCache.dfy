/** The blocks table with the queries the confirmer sends to it, and the lazily filled cache of
    src/helpers/blockchain.ts in front of it. */
module BlockCaching {
  import opened Common
  import opened BlockTree
  import Utils

  datatype Order = Ascending | Descending

  predicate InOrder(order: Order, a: int, b: int) {
    match order
    case Ascending => a <= b
    case Descending => a >= b
  }

  function PendingHashes(t: Table): set<Hash> {
    set h | h in t && t[h].state == PENDING
  }

  function HashesOf(blocks: seq<Block>): set<Hash> {
    set b <- blocks :: b.hash
  }

  /** Rows of t, each at most once. */
  ghost predicate RowsOnce(t: Table, blocks: seq<Block>) {
    && (forall b <- blocks :: b.hash in t && t[b.hash] == b)
    && (forall i, j :: 0 <= i < j < |blocks| ==> blocks[i].hash != blocks[j].hash)
  }

  /** A result of `findMany({ where: { state: PENDING }, orderBy: { number: order }, take })`:
      ties may come in any order, and only the far end may be cut off. */
  ghost predicate PendingBatch(t: Table, batch: seq<Block>, order: Order, take: nat) {
    && |batch| <= take
    && RowsOnce(t, batch)
    && HashesOf(batch) <= PendingHashes(t)
    && (forall i, j :: 0 <= i <= j < |batch| ==> InOrder(order, batch[i].number, batch[j].number))
    && (forall h <- PendingHashes(t) - HashesOf(batch) ::
          |batch| == take && forall b <- batch :: InOrder(order, b.number, t[h].number))
  }

  class BlockStore {
    var rows: Table

    constructor (rows: Table)
      ensures this.rows == rows
    {
      this.rows := rows;
    }

    method FindPending(order: Order, take: nat) returns (batch: seq<Block>)
      ensures PendingBatch(rows, batch, order, take)
    {
      batch := [];
      var rest := PendingHashes(rows);
      while |batch| < take && rest != {}
        invariant |batch| <= take
        invariant SelectedSoFar(rows, batch, rest, order)
        decreases take - |batch|
      {
        FirstInOrder(rows, rest, order);
        var h :| h in rest && forall x <- rest :: InOrder(order, rows[h].number, rows[x].number);
        SelectNext(rows, batch, rest, order, h);
        batch := batch + [rows[h]];
        rest := rest - {h};
      }
    }

    /** `findMany({ where: { number: { gte: start, lt: end } } })` */
    method FindRange(start: int, end: int) returns (blocks: seq<Block>)
      ensures RowsOnce(rows, blocks)
      ensures HashesOf(blocks) == set h | h in rows && start <= rows[h].number < end
    {
      blocks := [];
      var rest := set h | h in rows && start <= rows[h].number < end;
      ghost var all := rest;
      while rest != {}
        invariant RowsOnce(rows, blocks)
        invariant rest !! HashesOf(blocks) && rest + HashesOf(blocks) == all
      {
        var h :| h in rest;
        ghost var before := blocks;
        blocks := blocks + [rows[h]];
        rest := rest - {h};
        assert HashesOf(blocks) == HashesOf(before) + {h};
      }
    }

    /** `updateMany({ where: { hash: { in: hashes } }, data: { state } })` */
    method UpdateStates(hashes: set<Hash>, state: BlockState)
      modifies this
      ensures rows == SetStates(old(rows), hashes, state)
    {
      rows := SetStates(rows, hashes, state);
    }
  }

  /** The rows picked so far, in order, with none left over that should have come earlier. */
  ghost predicate SelectedSoFar(t: Table, batch: seq<Block>, rest: set<Hash>, order: Order) {
    && RowsOnce(t, batch)
    && rest !! HashesOf(batch)
    && rest + HashesOf(batch) == PendingHashes(t)
    && (forall i, j :: 0 <= i <= j < |batch| ==> InOrder(order, batch[i].number, batch[j].number))
    && (forall h <- rest, b <- batch :: InOrder(order, b.number, t[h].number))
  }

  lemma SelectNext(t: Table, batch: seq<Block>, rest: set<Hash>, order: Order, h: Hash)
    requires SelectedSoFar(t, batch, rest, order)
    requires h in rest && forall x <- rest :: x in t && InOrder(order, t[h].number, t[x].number)
    ensures SelectedSoFar(t, batch + [t[h]], rest - {h}, order)
  {
    OneMoreRow(t, batch, h);
    var after := batch + [t[h]];
    assert rest - {h} + HashesOf(after) == PendingHashes(t);
    forall i, j | 0 <= i <= j < |after|
      ensures InOrder(order, after[i].number, after[j].number)
    {
      if i < |batch| && j == |batch| {
        assert batch[i] in batch;
      }
    }
  }

  lemma OneMoreRow(t: Table, blocks: seq<Block>, h: Hash)
    requires RowsOnce(t, blocks) && h in t && h !in HashesOf(blocks)
    ensures RowsOnce(t, blocks + [t[h]])
    ensures HashesOf(blocks + [t[h]]) == HashesOf(blocks) + {h}
  {
    forall b <- blocks
      ensures b.hash != h
    {
      assert b.hash in HashesOf(blocks);
    }
    assert forall b <- blocks + [t[h]] :: b in blocks || b == t[h];
    forall x <- HashesOf(blocks) + {h}
      ensures x in HashesOf(blocks + [t[h]])
    {
      if x == h {
        assert t[h] in blocks + [t[h]];
      } else {
        var b :| b in blocks && b.hash == x;
        assert b in blocks + [t[h]];
      }
    }
  }

  lemma {:induction false} FirstInOrder(t: Table, hs: set<Hash>, order: Order)
    requires hs != {} && forall h <- hs :: h in t
    ensures exists h <- hs :: forall x <- hs :: InOrder(order, t[h].number, t[x].number)
    decreases hs
  {
    var h :| h in hs;
    var rest := hs - {h};
    if rest == {} {
      assert hs == {h};
    } else {
      FirstInOrder(t, rest, order);
      var g :| g in rest && forall x <- rest :: InOrder(order, t[g].number, t[x].number);
      var first := if InOrder(order, t[h].number, t[g].number) then h else g;
      assert forall x <- hs :: x == h || x in rest;
      assert forall x <- hs :: InOrder(order, t[first].number, t[x].number);
    }
  }

  /** All rows of one height. */
  function Generation(t: Table, number: int): map<Hash, Block> {
    map h | h in t && t[h].number == number :: t[h]
  }

  /** The rows whose heights are among numbers. */
  function RowsAtHeights(t: Table, numbers: set<int>): map<Hash, Block> {
    map h | h in t && t[h].number in numbers :: t[h]
  }

  const LOAD_RADIUS := 50

  class BlockCache {
    const source: BlockStore
    var hashBlocks: map<Hash, Block>
    var numberHashBlocks: map<int, map<Hash, Block>>

    /** Every cached height holds exactly that height's rows. */
    ghost predicate Valid()
      reads this, source
    {
      && (forall n <- numberHashBlocks :: numberHashBlocks[n] == Generation(source.rows, n))
      && hashBlocks == RowsAtHeights(source.rows, numberHashBlocks.Keys)
    }

    constructor (source: BlockStore)
      ensures Valid() && this.source == source && numberHashBlocks == map[]
    {
      this.source := source;
      this.hashBlocks := map[];
      this.numberHashBlocks := map[];
    }

    method Reset()
      modifies this
      ensures Valid() && numberHashBlocks == map[]
    {
      hashBlocks := map[];
      numberHashBlocks := map[];
    }

    method InsertBlock(block: Block, ghost t: Table, ghost cached: set<int>, ghost blocks: seq<Block>)
      requires block.hash in t && t[block.hash] == block
      requires numberHashBlocks == PartGenerations(t, cached, blocks) && hashBlocks == PartRows(t, cached, blocks)
      modifies this
      ensures numberHashBlocks == PartGenerations(t, cached, blocks + [block])
      ensures hashBlocks == PartRows(t, cached, blocks + [block])
    {
      var number, hash := block.number, block.hash;
      OneMoreBlock(t, cached, blocks, block);
      if number !in numberHashBlocks {
        numberHashBlocks := numberHashBlocks[number := map[]];
      }
      numberHashBlocks := numberHashBlocks[number := numberHashBlocks[number][hash := block]];
      hashBlocks := hashBlocks[hash := block];
    }

    method InsertBlocks(blocks: seq<Block>)
      requires Valid() && RowsOnce(source.rows, blocks)
      modifies this
      ensures numberHashBlocks == PartGenerations(source.rows, old(numberHashBlocks.Keys), blocks)
      ensures hashBlocks == PartRows(source.rows, old(numberHashBlocks.Keys), blocks)
    {
      ghost var t := source.rows;
      ghost var cached := numberHashBlocks.Keys;
      for i := 0 to |blocks|
        invariant numberHashBlocks == PartGenerations(t, cached, blocks[..i])
        invariant hashBlocks == PartRows(t, cached, blocks[..i])
      {
        assert blocks[..i + 1] == blocks[..i] + [blocks[i]];
        InsertBlock(blocks[i], t, cached, blocks[..i]);
      }
      assert blocks[..|blocks|] == blocks;
    }

    method LoadBlocks(start: int, end: int)
      requires Valid()
      modifies this
      ensures Valid()
      ensures numberHashBlocks.Keys == old(numberHashBlocks.Keys) + HeightsBetween(source.rows, start, end)
    {
      var blocks := source.FindRange(start, end);
      ghost var cached := numberHashBlocks.Keys;
      InsertBlocks(blocks);
      RangeComplete(source.rows, cached, blocks, start, end);
    }

    method GetBlock(number: int, hash: Hash) returns (r: Option<Block>)
      requires Valid()
      modifies this
      ensures Valid()
      ensures r.Some? ==> hash in source.rows && r.value == source.rows[hash]
      ensures hash in source.rows && number - 50 <= source.rows[hash].number < number + 50 ==> r.Some?
      ensures numberHashBlocks.Keys == old(numberHashBlocks.Keys)
                + if hash in old(hashBlocks) then {} else HeightsBetween(source.rows, number - 50, number + 50)
    {
      if hash !in hashBlocks {
        LoadBlocks(number - LOAD_RADIUS, number + LOAD_RADIUS);
      }
      r := if hash in hashBlocks then Some(hashBlocks[hash]) else None;
    }

    /** On a linked table this is the lookup by parent hash. */
    method GetParent(block: Block) returns (r: Option<Block>)
      requires Valid()
      modifies this
      ensures Valid()
      ensures r.Some? ==> block.parentHash in source.rows && r.value == source.rows[block.parentHash]
      ensures block.parentHash in source.rows && source.rows[block.parentHash].number == block.number - 1 ==> r.Some?
    {
      r := GetBlock(block.number - 1, block.parentHash);
    }

    method GetGeneration(blockNumber: int) returns (r: seq<Block>)
      requires Valid()
      modifies this
      ensures Valid()
      ensures RowsOnce(source.rows, r) && HashesOf(r) == Generation(source.rows, blockNumber).Keys
      ensures numberHashBlocks.Keys == old(numberHashBlocks.Keys)
                + if blockNumber in old(numberHashBlocks) then {} else HeightsBetween(source.rows, blockNumber - 50, blockNumber + 50)
    {
      if blockNumber !in numberHashBlocks {
        LoadBlocks(blockNumber - LOAD_RADIUS, blockNumber + LOAD_RADIUS);
      }
      if blockNumber in numberHashBlocks {
        r := ValuesOf(numberHashBlocks[blockNumber]);
      } else {
        r := [];
        assert Generation(source.rows, blockNumber) == map[];
      }
    }

    method GetChildren(block: Block) returns (r: seq<Block>)
      requires Valid() && block.hash in source.rows && source.rows[block.hash] == block
      modifies this
      ensures Valid()
      ensures forall b :: b in r <==> b.hash in source.rows && source.rows[b.hash] == b && IsChild(source.rows, b.hash, block.hash)
    {
      var childGeneration := GetGeneration(block.number + 1);
      r := Utils.Filter(childGeneration, (b: Block) => b.parentHash == block.hash);
      forall b: Block
        ensures b in childGeneration <==> b.hash in source.rows && source.rows[b.hash] == b && b.number == block.number + 1
      {
        InRows(source.rows, childGeneration, b);
      }
    }
  }

  ghost function HeightsBetween(t: Table, start: int, end: int): set<int> {
    set h | h in t && start <= t[h].number < end :: t[h].number
  }

  /** The cache in the middle of a load: heights cached before are complete, the others hold the
      blocks read so far. */
  ghost function PartGenerations(t: Table, cached: set<int>, blocks: seq<Block>): map<int, map<Hash, Block>> {
    map n | n in cached + NumbersOf(blocks) :: PartGeneration(t, cached, blocks, n)
  }

  ghost function PartGeneration(t: Table, cached: set<int>, blocks: seq<Block>, n: int): map<Hash, Block> {
    if n in cached then Generation(t, n) else map h | h in t && t[h].number == n && t[h] in blocks :: t[h]
  }

  ghost function PartRows(t: Table, cached: set<int>, blocks: seq<Block>): map<Hash, Block> {
    map h | h in t && (t[h].number in cached || t[h] in blocks) :: t[h]
  }

  ghost function NumbersOf(blocks: seq<Block>): set<int> {
    set b <- blocks :: b.number
  }

  lemma OneMoreBlock(t: Table, cached: set<int>, blocks: seq<Block>, block: Block)
    requires block.hash in t && t[block.hash] == block
    ensures var before := PartGenerations(t, cached, blocks);
            var widened := if block.number in before then before else before[block.number := map[]];
            PartGenerations(t, cached, blocks + [block])
            == widened[block.number := widened[block.number][block.hash := block]]
    ensures PartRows(t, cached, blocks + [block]) == PartRows(t, cached, blocks)[block.hash := block]
  {
    NumbersOneMore(blocks, block);
    PartRowsOneMore(t, cached, blocks, block);
    var before := PartGenerations(t, cached, blocks);
    var after := PartGenerations(t, cached, blocks + [block]);
    var widened := if block.number in before then before else before[block.number := map[]];
    forall n <- after
      ensures after[n] == if n == block.number then widened[n][block.hash := block] else widened[n]
    {
      PartGenerationOneMore(t, cached, blocks, block, n);
    }
  }

  lemma PartGenerationOneMore(t: Table, cached: set<int>, blocks: seq<Block>, block: Block, n: int)
    requires block.hash in t && t[block.hash] == block
    ensures var before := PartGeneration(t, cached, blocks, n);
            PartGeneration(t, cached, blocks + [block], n)
            == if n == block.number then before[block.hash := block] else before
    ensures n !in cached && n !in NumbersOf(blocks) ==> PartGeneration(t, cached, blocks, n) == map[]
  {
  }

  lemma PartRowsOneMore(t: Table, cached: set<int>, blocks: seq<Block>, block: Block)
    requires block.hash in t && t[block.hash] == block
    ensures PartRows(t, cached, blocks + [block]) == PartRows(t, cached, blocks)[block.hash := block]
  {
  }

  lemma NumbersOneMore(blocks: seq<Block>, block: Block)
    ensures NumbersOf(blocks + [block]) == NumbersOf(blocks) + {block.number}
  {
  }

  lemma RangeComplete(t: Table, cached: set<int>, blocks: seq<Block>, start: int, end: int)
    requires RowsOnce(t, blocks)
    requires HashesOf(blocks) == set h | h in t && start <= t[h].number < end
    ensures NumbersOf(blocks) == HeightsBetween(t, start, end)
    ensures forall n <- PartGenerations(t, cached, blocks) :: PartGenerations(t, cached, blocks)[n] == Generation(t, n)
    ensures PartRows(t, cached, blocks) == RowsAtHeights(t, cached + NumbersOf(blocks))
  {
    forall h <- t
      ensures t[h] in blocks <==> start <= t[h].number < end
      ensures t[h] in blocks <==> t[h].number in NumbersOf(blocks)
    {
      InRows(t, blocks, t[h]);
      if t[h].number in NumbersOf(blocks) {
        var b :| b in blocks && b.number == t[h].number;
        assert b.hash in HashesOf(blocks);
      }
    }
    forall n <- NumbersOf(blocks)
      ensures n in HeightsBetween(t, start, end)
    {
      var b :| b in blocks && b.number == n;
      assert b.hash in HashesOf(blocks);
    }
  }

  lemma InRows(t: Table, blocks: seq<Block>, b: Block)
    requires RowsOnce(t, blocks)
    ensures b in blocks <==> b.hash in HashesOf(blocks) && t[b.hash] == b
  {
  }

  /** `Array.from(generation.values())` */
  method ValuesOf(generation: map<Hash, Block>) returns (r: seq<Block>)
    requires forall h <- generation :: generation[h].hash == h
    ensures RowsOnce(generation, r) && HashesOf(r) == generation.Keys
  {
    r := [];
    var rest := generation.Keys;
    while rest != {}
      invariant RowsOnce(generation, r)
      invariant rest !! HashesOf(r) && rest + HashesOf(r) == generation.Keys
    {
      var h :| h in rest;
      ghost var before := r;
      r := r + [generation[h]];
      rest := rest - {h};
      assert HashesOf(r) == HashesOf(before) + {h};
    }
  }
}
