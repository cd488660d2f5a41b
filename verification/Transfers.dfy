/** How src/apps/confirmer/confirmer.ts reduces the transfers of one token in one transaction to
    the two ends of its path, and how it groups the transfer rows before that. */
module Transfers {
  import Collections
  import opened Common
  import Sums
  import Utils

  datatype Transfer = Transfer(from: string, to: string)

  // ----- Sums over a list of transfers -----

  ghost function Weight(transfers: seq<Transfer>, weight: Transfer -> int): int {
    if transfers == [] then 0
    else Weight(transfers[..|transfers| - 1], weight) + weight(transfers[|transfers| - 1])
  }

  lemma {:induction false} WeightConcat(a: seq<Transfer>, b: seq<Transfer>, weight: Transfer -> int)
    ensures Weight(a + b, weight) == Weight(a, weight) + Weight(b, weight)
  {
    if b == [] {
      assert a + b == a;
    } else {
      var n := |b| - 1;
      WeightConcat(a, b[..n], weight);
      assert (a + b)[..|a + b| - 1] == a + b[..n];
    }
  }

  /** The order of the transfers does not matter. */
  lemma {:induction false} WeightOfPermutation(a: seq<Transfer>, b: seq<Transfer>, weight: Transfer -> int)
    requires multiset(a) == multiset(b)
    ensures Weight(a, weight) == Weight(b, weight)
  {
    if a == [] {
      assert |multiset(b)| == 0;
    } else {
      var n := |a| - 1;
      var x := a[n];
      assert a == a[..n] + [x];
      assert x in multiset(b);
      var j :| 0 <= j < |b| && b[j] == x;
      WeightWithout(b, j, weight);
      MultisetWithout(b, j);
      WeightOfPermutation(a[..n], b[..j] + b[j + 1..], weight);
    }
  }

  lemma WeightWithout(b: seq<Transfer>, j: nat, weight: Transfer -> int)
    requires j < |b|
    ensures Weight(b, weight) == Weight(b[..j] + b[j + 1..], weight) + weight(b[j])
  {
    WeightConcat(b[..j], b[j + 1..], weight);
    WeightConcat(b[..j + 1], b[j + 1..], weight);
    assert b == b[..j + 1] + b[j + 1..];
    WeightLast(b, j, weight);
  }

  lemma WeightLast(b: seq<Transfer>, j: nat, weight: Transfer -> int)
    requires j < |b|
    ensures Weight(b[..j + 1], weight) == Weight(b[..j], weight) + weight(b[j])
  {
    assert b[..j + 1][..j] == b[..j];
  }

  lemma MultisetWithout(b: seq<Transfer>, j: nat)
    requires j < |b|
    ensures multiset(b[..j] + b[j + 1..]) == multiset(b) - multiset{b[j]}
  {
    assert b == b[..j] + [b[j]] + b[j + 1..];
  }

  // ----- getEndpoint -----

  function One(condition: bool): int {
    if condition then 1 else 0
  }

  /** How often the token enters the address minus how often it leaves. */
  ghost function Net(transfers: seq<Transfer>, address: string): int {
    Weight(transfers, (t: Transfer) => One(t.to == address) - One(t.from == address))
  }

  ghost function Addresses(transfers: seq<Transfer>): set<string> {
    (set t <- transfers :: t.from) + (set t <- transfers :: t.to)
  }

  ghost predicate PathLike(transfers: seq<Transfer>) {
    forall a <- Addresses(transfers) :: -1 <= Net(transfers, a) <= 1
  }

  ghost function Ends(transfers: seq<Transfer>, endpoint: int): set<string> {
    set a | a in Addresses(transfers) && Net(transfers, a) == endpoint
  }

  ghost function NetMap(transfers: seq<Transfer>): map<string, int> {
    map a | a in Addresses(transfers) :: Net(transfers, a)
  }

  lemma NetOneMore(transfers: seq<Transfer>, t: Transfer, address: string)
    ensures Net(transfers + [t], address) == Net(transfers, address) + One(t.to == address) - One(t.from == address)
  {
  }

  lemma AddressesOneMore(transfers: seq<Transfer>, t: Transfer)
    ensures Addresses(transfers + [t]) == Addresses(transfers) + {t.from, t.to}
  {
  }

  lemma {:induction false} NetElsewhere(transfers: seq<Transfer>, address: string)
    requires address !in Addresses(transfers)
    ensures Net(transfers, address) == 0
  {
    if transfers != [] {
      var n := |transfers| - 1;
      assert transfers == transfers[..n] + [transfers[n]];
      AddressesOneMore(transfers[..n], transfers[n]);
      NetElsewhere(transfers[..n], address);
      NetOneMore(transfers[..n], transfers[n], address);
    }
  }

  function GetOrZero(m: map<string, int>, a: string): int {
    if a in m then m[a] else 0
  }

  /** One transfer's two updates of the map of counts. */
  function Moved(m: map<string, int>, t: Transfer): map<string, int> {
    var entered := m[t.to := GetOrZero(m, t.to) + 1];
    entered[t.from := GetOrZero(entered, t.from) - 1]
  }

  lemma NetMapAt(transfers: seq<Transfer>, t: Transfer, a: string)
    requires a in Addresses(transfers) || a == t.from || a == t.to
    ensures Net(transfers + [t], a) == Moved(NetMap(transfers), t)[a]
  {
    NetOneMore(transfers, t, a);
    if a !in Addresses(transfers) {
      NetElsewhere(transfers, a);
    }
  }

  lemma NetMapOneMore(transfers: seq<Transfer>, t: Transfer)
    ensures NetMap(transfers + [t]) == Moved(NetMap(transfers), t)
  {
    AddressesOneMore(transfers, t);
    var after := NetMap(transfers + [t]);
    forall a <- after
      ensures after[a] == Moved(NetMap(transfers), t)[a]
    {
      NetMapAt(transfers, t, a);
    }
  }

  lemma NetMapPrefix(transfers: seq<Transfer>, i: nat)
    requires i < |transfers|
    ensures NetMap(transfers[..i + 1]) == Moved(NetMap(transfers[..i]), transfers[i])
  {
    assert transfers[..i + 1] == transfers[..i] + [transfers[i]];
    NetMapOneMore(transfers[..i], transfers[i]);
  }

  method CountMove(toMinusFrom: map<string, int>, t: Transfer) returns (after: map<string, int>)
    ensures after == Moved(toMinusFrom, t)
  {
    after := toMinusFrom[t.to := GetOrZero(toMinusFrom, t.to) + 1];
    after := after[t.from := GetOrZero(after, t.from) - 1];
  }

  method CountMoves(transfers: seq<Transfer>) returns (toMinusFrom: map<string, int>)
    ensures toMinusFrom == NetMap(transfers)
  {
    toMinusFrom := map[];
    for i := 0 to |transfers|
      invariant toMinusFrom == NetMap(transfers[..i])
    {
      NetMapPrefix(transfers, i);
      toMinusFrom := CountMove(toMinusFrom, transfers[i]);
    }
    assert transfers[..|transfers|] == transfers;
  }

  /** What getEndpoint promises: the one place where the path ends (or begins), null without one,
      and an error for what is no path. */
  ghost predicate IsEndpoint(r: Result<Option<string>>, transfers: seq<Transfer>, endpoint: int) {
    && (r.Err? <==> !PathLike(transfers) || |Ends(transfers, endpoint)| > 1)
    && (r == Ok(None) ==> Ends(transfers, endpoint) == {})
    && (r.Ok? && r.value.Some? ==> Ends(transfers, endpoint) == {r.value.value})
  }

  method GetEndpoint(transfers: seq<Transfer>, endpoint: int) returns (r: Result<Option<string>>)
    requires endpoint == -1 || endpoint == 1
    ensures IsEndpoint(r, transfers, endpoint)
  {
    var toMinusFrom := CountMoves(transfers);
    var entries := toMinusFrom.Keys;
    while entries != {}
      invariant entries <= toMinusFrom.Keys
      invariant forall a <- toMinusFrom.Keys - entries :: -1 <= toMinusFrom[a] <= 1
      decreases entries
    {
      var a :| a in entries;
      if toMinusFrom[a] > 1 || toMinusFrom[a] < -1 {
        return Err("Invalid transfer path.");
      }
      entries := entries - {a};
    }

    forall a <- Addresses(transfers)
      ensures -1 <= Net(transfers, a) <= 1
    {
      assert a in toMinusFrom.Keys - entries;
    }
    var endpoints := set a | a in toMinusFrom && toMinusFrom[a] == endpoint;
    assert endpoints == Ends(transfers, endpoint);
    if |endpoints| > 1 {
      return Err("Invalid transfer path.");
    }
    if |endpoints| == 0 {
      return Ok(None);
    }
    var a :| a in endpoints;
    Collections.SingletonIs(endpoints, a);
    return Ok(Some(a));
  }

  // ----- Both ends of arbitrary input -----

  lemma {:induction false} NetsCancel(transfers: seq<Transfer>)
    ensures Sums.Sum(NetMap(transfers)) == 0
  {
    if transfers == [] {
      Sums.SumZero(NetMap(transfers));
    } else {
      var n := |transfers| - 1;
      var before, t := transfers[..n], transfers[n];
      assert transfers == before + [t];
      NetsCancel(before);
      NetMapOneMore(before, t);
      var entered := NetMap(before)[t.to := GetOrZero(NetMap(before), t.to) + 1];
      Sums.SumUpdate(NetMap(before), t.to, GetOrZero(NetMap(before), t.to) + 1);
      Sums.SumUpdate(entered, t.from, GetOrZero(entered, t.from) - 1);
    }
  }

  /** On path-like input there are as many places where a path may begin as where it may end:
      looking for either end throws for both or for neither, and is null for both or for neither. */
  lemma AsManyBeginningsAsEnds(transfers: seq<Transfer>)
    requires PathLike(transfers)
    ensures |Ends(transfers, 1)| == |Ends(transfers, -1)|
  {
    NetsCancel(transfers);
    var m := NetMap(transfers);
    Sums.SumOfSigns(m);
    assert Ends(transfers, 1) == Sums.KeysOf(m, 1);
    assert Ends(transfers, -1) == Sums.KeysOf(m, -1);
  }

  method GetLastAndFirst(transfers: seq<Transfer>) returns (to: Result<Option<string>>, from: Result<Option<string>>)
    ensures to.Err? <==> from.Err?
    ensures to == Ok(None) <==> from == Ok(None)
    ensures forall walk :: WalkOf(walk, transfers) ==> to == LastOf(walk) && from == FirstOf(walk)
  {
    if PathLike(transfers) {
      AsManyBeginningsAsEnds(transfers);
    }
    to := GetEndpoint(transfers, 1);
    from := GetEndpoint(transfers, -1);
    forall walk | WalkOf(walk, transfers)
      ensures to == LastOf(walk) && from == FirstOf(walk)
    {
      WalkEnds(walk, transfers);
      ReadOff(to, transfers, 1, LastOf(walk).value);
      ReadOff(from, transfers, -1, FirstOf(walk).value);
    }
  }

  lemma ReadOff(r: Result<Option<string>>, transfers: seq<Transfer>, endpoint: int, expected: Option<string>)
    requires IsEndpoint(r, transfers, endpoint) && PathLike(transfers)
    requires Ends(transfers, endpoint) == if expected.None? then {} else {expected.value}
    ensures r == Ok(expected)
  {
    var ends := Ends(transfers, endpoint);
    assert expected.Some? ==> |ends| == 1 && expected.value in ends;
    assert r.Ok? && r.value.Some? ==> r.value.value in ends;
  }

  // ----- Walks -----

  function Edges(walk: seq<string>): seq<Transfer> {
    if |walk| <= 1 then [] else Edges(walk[..|walk| - 1]) + [Transfer(walk[|walk| - 2], walk[|walk| - 1])]
  }

  /** The transfers are the steps of the walk, in any order. */
  ghost predicate WalkOf(walk: seq<string>, transfers: seq<Transfer>) {
    |walk| > 0 && multiset(transfers) == multiset(Edges(walk))
  }

  function LastOf(walk: seq<string>): Result<Option<string>>
    requires |walk| > 0
  {
    Ok(if walk[0] == walk[|walk| - 1] then None else Some(walk[|walk| - 1]))
  }

  function FirstOf(walk: seq<string>): Result<Option<string>>
    requires |walk| > 0
  {
    Ok(if walk[0] == walk[|walk| - 1] then None else Some(walk[0]))
  }

  lemma {:induction false} NetOfWalk(walk: seq<string>, a: string)
    requires |walk| > 0
    ensures Net(Edges(walk), a) == One(a == walk[|walk| - 1]) - One(a == walk[0])
  {
    if |walk| > 1 {
      var n := |walk| - 1;
      NetOfWalk(walk[..n], a);
      NetOneMore(Edges(walk[..n]), Transfer(walk[n - 1], walk[n]), a);
    }
  }

  lemma WalkEnds(walk: seq<string>, transfers: seq<Transfer>)
    requires WalkOf(walk, transfers)
    ensures PathLike(transfers)
    ensures var first, last := walk[0], walk[|walk| - 1];
            && Ends(transfers, 1) == (if first == last then {} else {last})
            && Ends(transfers, -1) == (if first == last then {} else {first})
  {
    var first, last := walk[0], walk[|walk| - 1];
    forall a
      ensures Net(transfers, a) == One(a == last) - One(a == first)
    {
      WeightOfPermutation(transfers, Edges(walk), (t: Transfer) => One(t.to == a) - One(t.from == a));
      NetOfWalk(walk, a);
    }
    if first != last {
      forall a | a == first || a == last
        ensures a in Addresses(transfers)
      {
        if a !in Addresses(transfers) {
          NetElsewhere(transfers, a);
        }
      }
    }
  }

  // ----- getDepositor -----

  ghost function Entered(transfers: seq<Transfer>, address: string): int {
    Weight(transfers, (t: Transfer) => One(t.to == address))
  }

  lemma {:induction false} FilterCounts(transfers: seq<Transfer>, address: string)
    ensures |Utils.Filter(transfers, (t: Transfer) => t.to == address)| == Entered(transfers, address)
  {
    if transfers != [] {
      FilterCounts(transfers[..|transfers| - 1], address);
    }
  }

  method GetDepositor(transfers: seq<Transfer>, akiverseLockerAddress: string) returns (r: Result<string>)
    ensures r.Ok? <==> Entered(transfers, akiverseLockerAddress) == 1
    ensures r.Ok? ==> Transfer(r.value, akiverseLockerAddress) in transfers
  {
    var transfersToLocker := Utils.Filter(transfers, (t: Transfer) => t.to == akiverseLockerAddress);
    FilterCounts(transfers, akiverseLockerAddress);
    if |transfersToLocker| != 1 {
      return Err("Invalid deposit.");
    }
    assert transfersToLocker[0] in transfersToLocker;
    return Ok(transfersToLocker[0].from);
  }

  lemma {:induction false} EnteredAtLeastOnce(transfers: seq<Transfer>, t: Transfer)
    requires t in transfers
    ensures Entered(transfers, t.to) >= 1
  {
    var n := |transfers| - 1;
    assert transfers == transfers[..n] + [transfers[n]];
    if transfers[n] == t {
      EnteredNonNegative(transfers[..n], t.to);
    } else {
      EnteredAtLeastOnce(transfers[..n], t);
    }
  }

  lemma {:induction false} EnteredNonNegative(transfers: seq<Transfer>, address: string)
    ensures Entered(transfers, address) >= 0
  {
    if transfers != [] {
      EnteredNonNegative(transfers[..|transfers| - 1], address);
    }
  }

  lemma {:induction false} EnteredWalk(walk: seq<string>, address: string)
    requires |walk| > 0
    ensures Entered(Edges(walk), address) == 0 <==> address !in walk[1..]
  {
    if |walk| > 1 {
      var n := |walk| - 1;
      var edges := Edges(walk);
      assert edges[..|edges| - 1] == Edges(walk[..n]);
      EnteredWalk(walk[..n], address);
      EnteredNonNegative(Edges(walk[..n]), address);
      assert walk[1..] == walk[..n][1..] + [walk[n]];
    }
  }

  /** The walk comes to the address exactly once, at its k-th stop. */
  ghost predicate EntersOnceAt(walk: seq<string>, address: string, k: int) {
    0 < k < |walk| && walk[k] == address && forall j :: 0 < j < |walk| && walk[j] == address ==> j == k
  }

  lemma {:induction false} EnteredOnceIff(walk: seq<string>, address: string)
    requires |walk| > 0
    ensures Entered(Edges(walk), address) == 1 <==> exists k :: EntersOnceAt(walk, address, k)
  {
    if |walk| > 1 {
      var n := |walk| - 1;
      var edges, before := Edges(walk), walk[..n];
      assert edges[..|edges| - 1] == Edges(before);
      EnteredOnceIff(before, address);
      EnteredWalk(before, address);
      if walk[n] == address {
        if address !in before[1..] {
          assert forall j :: 0 < j < n ==> before[1..][j - 1] == walk[j];
          assert EntersOnceAt(walk, address, n);
        } else {
          var j :| 0 <= j < |before[1..]| && before[1..][j] == address;
          assert walk[j + 1] == address;
          EnteredNonNegative(Edges(before), address);
        }
      } else {
        SameEntrance(walk, before, address);
      }
    }
  }

  lemma SameEntrance(walk: seq<string>, before: seq<string>, address: string)
    requires |walk| > 1 && before == walk[..|walk| - 1] && walk[|walk| - 1] != address
    ensures (exists k :: EntersOnceAt(walk, address, k)) <==> exists k :: EntersOnceAt(before, address, k)
  {
    forall k
      ensures EntersOnceAt(before, address, k) <==> EntersOnceAt(walk, address, k)
    {
      assert forall j :: 0 < j < |before| ==> before[j] == walk[j];
    }
  }

  predicate IsStep(walk: seq<string>, t: Transfer, k: int) {
    0 < k < |walk| && t == Transfer(walk[k - 1], walk[k])
  }

  lemma {:induction false} EdgeAt(walk: seq<string>, t: Transfer)
    requires t in Edges(walk)
    ensures exists k :: IsStep(walk, t, k)
  {
    var n := |walk| - 1;
    if t in Edges(walk[..n]) {
      EdgeAt(walk[..n], t);
      var k :| IsStep(walk[..n], t, k);
      assert IsStep(walk, t, k);
    } else {
      assert IsStep(walk, t, n);
    }
  }

  lemma {:induction false} StepIsEdge(walk: seq<string>, k: int)
    requires 0 < k < |walk|
    ensures Transfer(walk[k - 1], walk[k]) in Edges(walk)
  {
    var n := |walk| - 1;
    if k < n {
      StepIsEdge(walk[..n], k);
    }
  }

  /** On any walk getDepositor succeeds exactly if the walk comes to the locker once, and returns where it
      came from. */
  lemma DepositorAt(walk: seq<string>, transfers: seq<Transfer>, locker: string, depositor: string)
    requires WalkOf(walk, transfers)
    ensures Entered(transfers, locker) == 1 <==> exists k :: EntersOnceAt(walk, locker, k)
    ensures forall k :: EntersOnceAt(walk, locker, k) ==>
              && Transfer(walk[k - 1], locker) in transfers
              && (Transfer(depositor, locker) in transfers ==> depositor == walk[k - 1])
  {
    WeightOfPermutation(transfers, Edges(walk), (t: Transfer) => One(t.to == locker));
    EnteredOnceIff(walk, locker);
    forall k | EntersOnceAt(walk, locker, k)
      ensures Transfer(walk[k - 1], locker) in transfers
      ensures Transfer(depositor, locker) in transfers ==> depositor == walk[k - 1]
    {
      StepIsEdge(walk, k);
      assert Transfer(walk[k - 1], locker) in multiset(Edges(walk));
      if Transfer(depositor, locker) in transfers {
        assert Transfer(depositor, locker) in multiset(transfers);
        EdgeAt(walk, Transfer(depositor, locker));
        var j :| IsStep(walk, Transfer(depositor, locker), j);
      }
    }
  }

  // ----- Grouping the rows of checkTransfers -----

  datatype TransferRow = TransferRow(
    blockHash: string,
    transactionIndex: int,
    nftType: string,
    tokenId: string,
    transfer: Transfer
  )

  /** The key the grouping is meant to use: one token in one transaction of one block. */
  function IntendedKey(row: TransferRow): (string, int, string, string) {
    (row.blockHash, row.transactionIndex, row.nftType, row.tokenId)
  }

  /** The key it does use: the query does not select the block hash, so that part is always empty. */
  function SelectedKey(row: TransferRow): (string, int, string, string) {
    ("", row.transactionIndex, row.nftType, row.tokenId)
  }

  /** The same token at the same place within its block, or within two blocks. */
  predicate SameToken(one: TransferRow, two: TransferRow) {
    one.transactionIndex == two.transactionIndex && one.nftType == two.nftType && one.tokenId == two.tokenId
  }

  /** The rows are grouped as intended exactly when no two neighbours differ in their block alone. */
  lemma GroupedAsIntendedIff(rows: seq<TransferRow>)
    ensures Utils.Groups(rows, SelectedKey) == Utils.Groups(rows, IntendedKey)
       <==> forall i :: 0 <= i < |rows| - 1 && SameToken(rows[i], rows[i + 1]) ==> rows[i].blockHash == rows[i + 1].blockHash
  {
    Utils.SameGroupsIffSameNeighbours(rows, SelectedKey, IntendedKey);
  }

  /** Two forks that record the same move at the same place: the rows fall into one group, the group
      is no path, and getEndpoint throws, although each row alone is a plain move. */
  lemma ForkedTransferMerged(one: TransferRow, two: TransferRow)
    requires SelectedKey(one) == SelectedKey(two) && one.blockHash != two.blockHash
    requires one.transfer == two.transfer && one.transfer.from != one.transfer.to
    ensures Utils.Groups([one, two], SelectedKey) == [[one, two]]
    ensures Utils.Groups([one, two], IntendedKey) == [[one], [two]]
    ensures !PathLike([one.transfer, two.transfer])
    ensures WalkOf([one.transfer.from, one.transfer.to], [one.transfer])
  {
    assert [one, two][..1] == [one] && [one][..0] == [];
    assert Utils.Groups([one], SelectedKey) == [[one]] == Utils.Groups([one], IntendedKey);
    assert [one] + [two] == [one, two];
    TwiceIsNoPath(one.transfer);
    var walk := [one.transfer.from, one.transfer.to];
    assert walk[..1] == [one.transfer.from];
    assert Edges(walk[..1]) == [];
  }

  lemma TwiceIsNoPath(t: Transfer)
    requires t.from != t.to
    ensures !PathLike([t, t])
  {
    NetOneMore([], t, t.to);
    NetOneMore([t], t, t.to);
    assert [] + [t] == [t] && [t] + [t] == [t, t];
    assert t in [t, t];
    assert t.to in Addresses([t, t]) && Net([t, t], t.to) == 2;
  }
}
