/** Last-writer-wins ownership of an item: updateItemOwner of src/helpers/blockchain.ts. */
module Ownership {
  import opened Common
  import Utils

  datatype NftState = IN_AKIVERSE | MOVING_TO_WALLET | IN_WALLET | MOVING_TO_AKIVERSE | BURNING | BURNED

  datatype Item = Item(
    userId: Option<string>,
    ownerWalletAddress: Option<string>,
    physicalWalletAddress: Option<string>,
    state: NftState,
    lastBlock: int,
    lastTransactionIndex: int
  )

  /** What the confirmer learnt about the item from one transaction. */
  datatype Update = Update(
    ownerWalletAddress: string,
    physicalWalletAddress: string,
    nftState: NftState,
    blockNumber: int,
    transactionIndex: int
  )

  type Users = map<string, string>

  // ----- isWalletAddressEqual -----

  function LowerChar(c: char): char {
    if 'A' <= c <= 'Z' then (c as int + 32) as char else c
  }

  function Lower(s: string): string {
    seq(|s|, i requires 0 <= i < |s| => LowerChar(s[i]))
  }

  predicate IsWalletAddressEqual(a: Option<string>, b: Option<string>) {
    match (a, b)
    case (None, None) => true
    case (Some(x), Some(y)) => Lower(x) == Lower(y)
    case _ => false
  }

  // ----- One update -----

  function ItemPosition(item: Item): seq<int> {
    [item.lastBlock, item.lastTransactionIndex]
  }

  function Position(u: Update): seq<int> {
    [u.blockNumber, u.transactionIndex]
  }

  function Written(users: Users, u: Update): Item {
    Item(
      if u.ownerWalletAddress in users then Some(users[u.ownerWalletAddress]) else None,
      Some(u.ownerWalletAddress),
      Some(u.physicalWalletAddress),
      u.nftState,
      u.blockNumber,
      u.transactionIndex)
  }

  predicate Agrees(item: Item, u: Update) {
    IsWalletAddressEqual(Some(u.ownerWalletAddress), item.ownerWalletAddress) && u.nftState == item.state
  }

  /** A newer update is written, an older one is dropped, and one of the same moment must agree. */
  function Applied(users: Users, item: Item, u: Update): Result<Item> {
    var comparison := Utils.Compare(ItemPosition(item), Position(u));
    if comparison < 0 then Ok(Written(users, u))
    else if comparison == 0 && !Agrees(item, u) then Err("one token went to two places at once")
    else Ok(item)
  }

  /** What an update does, field by field. The user is the one of the owner's wallet, which for an item in
      the locker is not the physical one. */
  lemma AppliedIs(users: Users, item: Item, u: Update)
    ensures var after := Applied(users, item, u);
            var newer := item.lastBlock < u.blockNumber
                         || (item.lastBlock == u.blockNumber && item.lastTransactionIndex < u.transactionIndex);
            var sameMoment := item.lastBlock == u.blockNumber && item.lastTransactionIndex == u.transactionIndex;
            && (newer ==>
                  && after.Ok?
                  && after.value.userId.Some? == (u.ownerWalletAddress in users)
                  && (after.value.userId.Some? ==> after.value.userId.value == users[u.ownerWalletAddress])
                  && after.value.ownerWalletAddress == Some(u.ownerWalletAddress)
                  && after.value.physicalWalletAddress == Some(u.physicalWalletAddress)
                  && after.value.state == u.nftState
                  && after.value.lastBlock == u.blockNumber
                  && after.value.lastTransactionIndex == u.transactionIndex)
            && (!newer && !sameMoment ==> after == Ok(item))
            && (sameMoment ==>
                  if u.nftState == item.state && item.ownerWalletAddress.Some?
                     && Lower(item.ownerWalletAddress.value) == Lower(u.ownerWalletAddress)
                  then after == Ok(item) else after.Err?)
  {
    ComparePairs(item.lastBlock, item.lastTransactionIndex, u.blockNumber, u.transactionIndex);
  }

  lemma ComparePairs(a: int, b: int, c: int, d: int)
    ensures Utils.Compare([a, b], [c, d]) < 0 <==> a < c || (a == c && b < d)
    ensures Utils.Compare([a, b], [c, d]) == 0 <==> a == c && b == d
  {
    assert [a, b][1..] == [b] && [c, d][1..] == [d] && [b][1..] == [] && [d][1..] == [];
    assert Utils.Compare([], []) == 0;
    assert Utils.Compare([b], [d]) == if b < d then -1 else if b > d then 1 else Utils.Compare([], []);
    assert Utils.Compare([a, b], [c, d]) == if a < c then -1 else if a > c then 1 else Utils.Compare([b], [d]);
  }

  /** Addresses are compared without regard to the case of the letters A to Z. */
  lemma LowerIs(s: string, i: nat)
    requires i < |s|
    ensures |Lower(s)| == |s|
    ensures 65 <= s[i] as int <= 90 ==> Lower(s)[i] as int == s[i] as int + 'a' as int - 'A' as int
    ensures !(65 <= s[i] as int <= 90) ==> Lower(s)[i] == s[i]
  {
  }

  /** An item is known by its NFT type and token id. */
  datatype Token = Token(nftType: string, tokenId: string)

  class ItemStore {
    var items: map<Token, Item>
    const users: Users

    constructor (items: map<Token, Item>, users: Users)
      ensures this.items == items && this.users == users
    {
      this.items := items;
      this.users := users;
    }

    method UpdateItemOwner(token: Token, u: Update) returns (r: Result<bool>)
      modifies this
      ensures r == Ok(false) <==> token !in old(items)
      ensures token in old(items) && Applied(users, old(items)[token], u).Ok? ==>
                r == Ok(true) && items == old(items)[token := Applied(users, old(items)[token], u).value]
      ensures r.Err? <==> token in old(items) && Applied(users, old(items)[token], u).Err?
      ensures r != Ok(true) ==> items == old(items)
    {
      if token !in items {
        return Ok(false);
      }
      var item := items[token];
      var comparison := Utils.CompareArrays([item.lastBlock, item.lastTransactionIndex], [u.blockNumber, u.transactionIndex]);
      if comparison < 0 {
        var userId := if u.ownerWalletAddress in users then Some(users[u.ownerWalletAddress]) else None;
        items := items[token := Item(
          userId, Some(u.ownerWalletAddress), Some(u.physicalWalletAddress), u.nftState, u.blockNumber, u.transactionIndex)];
        return Ok(true);
      }
      if comparison == 0 {
        if !IsWalletAddressEqual(Some(u.ownerWalletAddress), item.ownerWalletAddress) || u.nftState != item.state {
          return Err("one token went to two places at once");
        }
      }
      return Ok(true);
    }
  }

  // ----- Lists of updates -----

  function ApplyAll(users: Users, item: Item, updates: seq<Update>): Result<Item> {
    if updates == [] then Ok(item)
    else
      match ApplyAll(users, item, updates[..|updates| - 1])
      case Ok(current) => Applied(users, current, updates[|updates| - 1])
      case Err(e) => Err(e)
  }

  /** Information about the same moment has the same content, also what the item already holds. */
  ghost predicate Consistent(item: Item, updates: set<Update>) {
    && (forall u, v :: u in updates && v in updates && Position(u) == Position(v) ==> u == v)
    && (forall u :: u in updates && Position(u) == ItemPosition(item) ==> Agrees(item, u))
  }

  ghost function Elements(updates: seq<Update>): set<Update> {
    set u <- updates
  }

  /** item after the updates: the newest of them, or the old item if none is newer. */
  ghost predicate NewestOf(users: Users, item: Item, updates: set<Update>, after: Item) {
    && (after == item || exists u :: u in updates && after == Written(users, u) && Utils.Compare(ItemPosition(item), Position(u)) < 0)
    && (forall u :: u in updates ==> Utils.Compare(Position(u), ItemPosition(after)) <= 0)
  }

  lemma {:induction false} NothingThrowsNewestWins(users: Users, item: Item, updates: seq<Update>)
    requires Consistent(item, Elements(updates))
    ensures ApplyAll(users, item, updates).Ok?
    ensures NewestOf(users, item, Elements(updates), ApplyAll(users, item, updates).value)
    ensures Utils.Compare(ItemPosition(item), ItemPosition(ApplyAll(users, item, updates).value)) <= 0
  {
    if updates == [] {
      Utils.CompareZero(ItemPosition(item), ItemPosition(item));
    } else {
      var n := |updates| - 1;
      var before, u := updates[..n], updates[n];
      assert updates == before + [u];
      assert Elements(updates) == Elements(before) + {u};
      NothingThrowsNewestWins(users, item, before);
      OneMoreUpdate(users, item, Elements(before), u, ApplyAll(users, item, before).value);
    }
  }

  lemma OneMoreUpdate(users: Users, item: Item, updates: set<Update>, u: Update, current: Item)
    requires Consistent(item, updates + {u})
    requires NewestOf(users, item, updates, current)
    requires Utils.Compare(ItemPosition(item), ItemPosition(current)) <= 0
    ensures Applied(users, current, u).Ok?
    ensures NewestOf(users, item, updates + {u}, Applied(users, current, u).value)
    ensures Utils.Compare(ItemPosition(item), ItemPosition(Applied(users, current, u).value)) <= 0
  {
    var here, there := ItemPosition(current), Position(u);
    Utils.CompareAntisymmetric(here, there);
    Utils.CompareZero(here, there);
    if Utils.Compare(here, there) == 0 {
      assert Agrees(current, u);
    }
    if Utils.Compare(here, there) < 0 {
      Utils.CompareZero(there, there);
      Utils.CompareTransitive(ItemPosition(item), here, there);
      Utils.CompareZero(ItemPosition(item), there);
      Utils.CompareAntisymmetric(ItemPosition(item), here);
      forall v <- updates
        ensures Utils.Compare(Position(v), there) <= 0
      {
        Utils.CompareTransitive(Position(v), here, there);
      }
    }
  }

  lemma NewestIsUnique(users: Users, item: Item, updates: set<Update>, a: Item, b: Item)
    requires Consistent(item, updates)
    requires NewestOf(users, item, updates, a) && NewestOf(users, item, updates, b)
    ensures a == b
  {
    Utils.CompareAntisymmetric(ItemPosition(a), ItemPosition(b));
    Utils.CompareZero(ItemPosition(a), ItemPosition(b));
    Utils.CompareAntisymmetric(ItemPosition(item), ItemPosition(a));
    Utils.CompareAntisymmetric(ItemPosition(item), ItemPosition(b));
    if a != item {
      var u :| u in updates && a == Written(users, u) && Utils.Compare(ItemPosition(item), Position(u)) < 0;
      assert Utils.Compare(Position(u), ItemPosition(b)) <= 0;
    }
    if b != item {
      var v :| v in updates && b == Written(users, v) && Utils.Compare(ItemPosition(item), Position(v)) < 0;
      assert Utils.Compare(Position(v), ItemPosition(a)) <= 0;
    }
  }

  /** Updates commute: two lists of the same updates, in any order and with any repeats, leave the
      item in the same state, and neither throws. */
  lemma UpdatesCommute(users: Users, item: Item, one: seq<Update>, other: seq<Update>)
    requires Consistent(item, Elements(one)) && Elements(one) == Elements(other)
    ensures ApplyAll(users, item, one).Ok?
    ensures ApplyAll(users, item, one) == ApplyAll(users, item, other)
  {
    NothingThrowsNewestWins(users, item, one);
    NothingThrowsNewestWins(users, item, other);
    NewestIsUnique(users, item, Elements(one), ApplyAll(users, item, one).value, ApplyAll(users, item, other).value);
  }

  /** The stored position never moves back, consistent updates or not. */
  lemma {:induction false} PositionNeverDecreases(users: Users, item: Item, updates: seq<Update>)
    ensures ApplyAll(users, item, updates).Ok? ==>
              Utils.Compare(ItemPosition(item), ItemPosition(ApplyAll(users, item, updates).value)) <= 0
  {
    if updates == [] {
      Utils.CompareZero(ItemPosition(item), ItemPosition(item));
    } else {
      var n := |updates| - 1;
      PositionNeverDecreases(users, item, updates[..n]);
      if ApplyAll(users, item, updates).Ok? {
        var current := ApplyAll(users, item, updates[..n]).value;
        if Utils.Compare(ItemPosition(current), Position(updates[n])) < 0 {
          Utils.CompareTransitive(ItemPosition(item), ItemPosition(current), Position(updates[n]));
        }
      }
    }
  }
}
