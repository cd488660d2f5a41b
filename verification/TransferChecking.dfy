/** checkTransfers of src/apps/confirmer/confirmer.ts: the rows of settled blocks, group by group, become
    updates of the items' owners. */
module TransferChecking {
  import opened Common
  import opened Ownership
  import opened Transfers
  import Utils

  /** A PENDING transfer of a block that is CONFIRMED or INVALIDATED. */
  datatype Row = Row(id: nat, blockNumber: int, confirmed: bool, row: TransferRow)

  function TransfersOf(group: seq<Row>): (transfers: seq<Transfer>)
    ensures |transfers| == |group|
  {
    seq(|group|, i requires 0 <= i < |group| => group[i].row.transfer)
  }

  function TokenOf(group: seq<Row>): Token
    requires group != []
  {
    Token(group[0].row.nftType, group[0].row.tokenId)
  }

  /** The rows of the group take the state of the first one's block. */
  function StatesOf(group: seq<Row>): map<nat, bool>
    requires group != []
  {
    map id | id in IdsOf(group) :: group[0].confirmed
  }

  function IdsOf(group: seq<Row>): set<nat> {
    set row <- group :: row.id
  }

  // ----- What a group says about its token -----

  /** The result of getEndpoint, as a function. */
  ghost function EndpointOf(transfers: seq<Transfer>, endpoint: int): Result<Option<string>> {
    if !PathLike(transfers) || |Ends(transfers, endpoint)| > 1 then Err("Invalid transfer path.")
    else if Ends(transfers, endpoint) == {} then Ok(None)
    else
      var a :| a in Ends(transfers, endpoint);
      Ok(Some(a))
  }

  lemma EndpointIs(r: Result<Option<string>>, transfers: seq<Transfer>, endpoint: int)
    requires IsEndpoint(r, transfers, endpoint)
    ensures r.Err? <==> EndpointOf(transfers, endpoint).Err?
    ensures r.Ok? ==> r == EndpointOf(transfers, endpoint)
  {
    if r.Ok? && r.value.Some? {
      var ends := Ends(transfers, endpoint);
      assert r.value.value in ends;
      var a :| a in ends && EndpointOf(transfers, endpoint) == Ok(Some(a));
    }
  }

  /** The result of getDepositor, as a function. */
  ghost function DepositorOf(transfers: seq<Transfer>, locker: string): Result<string> {
    if Entered(transfers, locker) == 1 && exists from :: Transfer(from, locker) in transfers then
      var from :| Transfer(from, locker) in transfers;
      Ok(from)
    else Err("Invalid deposit.")
  }

  lemma {:induction false} OneEntrance(transfers: seq<Transfer>, locker: string, a: string, b: string)
    requires Entered(transfers, locker) == 1
    requires Transfer(a, locker) in transfers && Transfer(b, locker) in transfers
    ensures a == b
  {
    var n := |transfers| - 1;
    var before := transfers[..n];
    assert transfers == before + [transfers[n]];
    EnteredNonNegative(before, locker);
    if transfers[n].to == locker {
      if Transfer(a, locker) in before {
        EnteredAtLeastOnce(before, Transfer(a, locker));
      }
      if Transfer(b, locker) in before {
        EnteredAtLeastOnce(before, Transfer(b, locker));
      }
    } else {
      OneEntrance(before, locker, a, b);
    }
  }

  /** What the group makes known: nothing, an update of its token, or a contradiction. */
  ghost function Outcome(group: seq<Row>, locker: string): Result<Option<Update>>
    requires group != []
  {
    var transfers := TransfersOf(group);
    match EndpointOf(transfers, 1)
    case Err(e) => Err(e)
    case Ok(None) => Ok(None)
    case Ok(Some(to)) =>
      var first := group[0];
      if !first.confirmed then Ok(None)
      else if IsWalletAddressEqual(Some(to), Some(locker)) then
        match DepositorOf(transfers, locker)
        case Err(e) => Err(e)
        case Ok(depositor) => Ok(Some(Update(depositor, to, IN_AKIVERSE, first.blockNumber, first.row.transactionIndex)))
      else Ok(Some(Update(to, to, IN_WALLET, first.blockNumber, first.row.transactionIndex)))
  }

  /** The items, and the rows settled so far with whether they were CONFIRMED or INVALIDATED. Rows about
      unknown tokens stay PENDING. */
  datatype Progress = Progress(items: map<Token, Item>, settled: map<nat, bool>)

  ghost function CheckGroup(users: Users, p: Progress, group: seq<Row>, locker: string): Result<Progress>
    requires group != []
  {
    var token := TokenOf(group);
    match Outcome(group, locker)
    case Err(e) => Err(e)
    case Ok(None) => Ok(p.(settled := p.settled + StatesOf(group)))
    case Ok(Some(u)) =>
      if token !in p.items then Ok(p)
      else
        match Applied(users, p.items[token], u)
        case Err(e) => Err(e)
        case Ok(item) => Ok(Progress(p.items[token := item], p.settled + StatesOf(group)))
  }

  ghost function CheckGroups(users: Users, p: Progress, groups: seq<seq<Row>>, locker: string): Result<Progress>
    requires forall i :: 0 <= i < |groups| ==> groups[i] != []
  {
    if groups == [] then Ok(p)
    else
      match CheckGroups(users, p, groups[..|groups| - 1], locker)
      case Err(e) => Err(e)
      case Ok(before) => CheckGroup(users, before, groups[|groups| - 1], locker)
  }

  /** The i-th group throws, and the effects are exactly those of the groups before it. */
  ghost predicate StoppedAt(users: Users, p: Progress, now: Progress, groups: seq<seq<Row>>, i: int, locker: string)
    requires forall j :: 0 <= j < |groups| ==> groups[j] != []
  {
    && 0 <= i < |groups|
    && CheckGroups(users, p, groups[..i], locker) == Ok(now)
    && CheckGroup(users, now, groups[i], locker).Err?
  }

  // ----- The loop -----

  class TransferChecker {
    const akiverseLockerAddress: string
    const store: ItemStore
    var settled: map<nat, bool>

    constructor (locker: string, store: ItemStore)
      ensures akiverseLockerAddress == locker && this.store == store && settled == map[]
    {
      akiverseLockerAddress, this.store, settled := locker, store, map[];
    }

    ghost function Now(): Progress
      reads this, store
    {
      Progress(store.items, settled)
    }

    method CheckOneGroup(rowGroup: seq<Row>) returns (r: Result<()>)
      requires rowGroup != []
      modifies this, store
      ensures r.Err? <==> CheckGroup(store.users, old(Now()), rowGroup, akiverseLockerAddress).Err?
      ensures r.Ok? ==> Ok(Now()) == CheckGroup(store.users, old(Now()), rowGroup, akiverseLockerAddress)
      ensures r.Err? ==> Now() == old(Now())
    {
      var transfers := TransfersOf(rowGroup);
      var to := GetEndpoint(transfers, 1);
      EndpointIs(to, transfers, 1);
      if to.Err? {
        return Err(to.message);
      }
      if to.value.Some? && rowGroup[0].confirmed {
        var first := rowGroup[0];
        var isDeposit := IsWalletAddressEqual(to.value, Some(akiverseLockerAddress));
        var nftState := if isDeposit then IN_AKIVERSE else IN_WALLET;
        var ownerWalletAddress := to.value.value;
        if isDeposit {
          var depositor := GetDepositor(transfers, akiverseLockerAddress);
          DepositorIs(depositor, transfers, akiverseLockerAddress);
          if depositor.Err? {
            return Err(depositor.message);
          }
          ownerWalletAddress := depositor.value;
        }
        var didUpdate := store.UpdateItemOwner(TokenOf(rowGroup), Update(
          ownerWalletAddress, to.value.value, nftState, first.blockNumber, first.row.transactionIndex));
        if didUpdate.Err? {
          return Err(didUpdate.message);
        }
        if !didUpdate.value {
          return Ok(());
        }
      }
      settled := settled + StatesOf(rowGroup);
      return Ok(());
    }

    /** All groups, in order, until one throws; what the groups before it did stays. */
    method CheckTransfers(rows: seq<Row>) returns (r: Result<()>)
      modifies this, store
      ensures var groups := Utils.Groups(rows, KeyOf);
              && (r.Err? <==> CheckGroups(store.users, old(Now()), groups, akiverseLockerAddress).Err?)
              && (r.Ok? ==> Ok(Now()) == CheckGroups(store.users, old(Now()), groups, akiverseLockerAddress))
              && (r.Err? ==> exists i :: StoppedAt(store.users, old(Now()), Now(), groups, i, akiverseLockerAddress))
    {
      var groups := Utils.GroupBy(rows, KeyOf);
      ghost var start := Now();
      for i := 0 to |groups|
        invariant Ok(Now()) == CheckGroups(store.users, start, groups[..i], akiverseLockerAddress)
      {
        OneMoreGroup(store.users, start, groups, i, akiverseLockerAddress);
        r := CheckOneGroup(groups[i]);
        if r.Err? {
          ErrStays(store.users, start, groups, i + 1, akiverseLockerAddress);
          assert StoppedAt(store.users, start, Now(), groups, i, akiverseLockerAddress);
          return;
        }
      }
      assert groups[..|groups|] == groups;
      return Ok(());
    }
  }

  function KeyOf(row: Row): (string, int, string, string) {
    SelectedKey(row.row)
  }

  lemma OneMoreGroup(users: Users, p: Progress, groups: seq<seq<Row>>, i: nat, locker: string)
    requires forall j :: 0 <= j < |groups| ==> groups[j] != []
    requires i < |groups| && CheckGroups(users, p, groups[..i], locker).Ok?
    ensures CheckGroups(users, p, groups[..i + 1], locker) ==
            CheckGroup(users, CheckGroups(users, p, groups[..i], locker).value, groups[i], locker)
  {
    assert groups[..i + 1][..i] == groups[..i];
  }

  lemma {:induction false} ErrStays(users: Users, p: Progress, groups: seq<seq<Row>>, i: nat, locker: string)
    requires forall j :: 0 <= j < |groups| ==> groups[j] != []
    requires i <= |groups| && CheckGroups(users, p, groups[..i], locker).Err?
    ensures CheckGroups(users, p, groups, locker).Err?
    decreases |groups| - i
  {
    if i < |groups| {
      assert groups[..i + 1][..i] == groups[..i];
      ErrStays(users, p, groups, i + 1, locker);
    } else {
      assert groups[..i] == groups;
    }
  }

  lemma DepositorIs(r: Result<string>, transfers: seq<Transfer>, locker: string)
    requires r.Ok? <==> Entered(transfers, locker) == 1
    requires r.Ok? ==> Transfer(r.value, locker) in transfers
    ensures r.Err? <==> DepositorOf(transfers, locker).Err?
    ensures r.Ok? ==> r == DepositorOf(transfers, locker)
  {
    if r.Ok? {
      var from :| Transfer(from, locker) in transfers && DepositorOf(transfers, locker) == Ok(from);
      OneEntrance(transfers, locker, r.value, from);
    }
  }

  // ----- What it amounts to -----

  function UpdateIn(outcome: Result<Option<Update>>): seq<Update> {
    if outcome.Ok? && outcome.value.Some? then [outcome.value.value] else []
  }

  /** The updates of one token, in the order of the groups. */
  ghost function UpdatesOf(groups: seq<seq<Row>>, locker: string, token: Token): seq<Update>
    requires forall i :: 0 <= i < |groups| ==> groups[i] != []
  {
    if groups == [] then []
    else
      var last := groups[|groups| - 1];
      UpdatesOf(groups[..|groups| - 1], locker, token)
      + if TokenOf(last) == token then UpdateIn(Outcome(last, locker)) else []
  }

  /** When nothing throws, every known token has had exactly its updates applied, and unknown tokens stay
      unknown. */
  lemma {:induction false} EveryTokenUpdated(users: Users, p: Progress, groups: seq<seq<Row>>, locker: string, token: Token)
    requires forall i :: 0 <= i < |groups| ==> groups[i] != []
    requires CheckGroups(users, p, groups, locker).Ok?
    ensures var after := CheckGroups(users, p, groups, locker).value;
            && (token in after.items <==> token in p.items)
            && (token in p.items ==> ApplyAll(users, p.items[token], UpdatesOf(groups, locker, token)) == Ok(after.items[token]))
  {
    if groups != [] {
      var n := |groups| - 1;
      EveryTokenUpdated(users, p, groups[..n], locker, token);
      var before := CheckGroups(users, p, groups[..n], locker).value;
      if token in p.items {
        TokenUpdated(users, before, groups[n], locker, token, p.items[token], UpdatesOf(groups[..n], locker, token));
      }
    }
  }

  lemma TokenUpdated(users: Users, p: Progress, group: seq<Row>, locker: string, token: Token, item: Item, updates: seq<Update>)
    requires group != [] && CheckGroup(users, p, group, locker).Ok?
    requires token in p.items && ApplyAll(users, item, updates) == Ok(p.items[token])
    ensures var after := CheckGroup(users, p, group, locker).value;
            var more := if TokenOf(group) == token then UpdateIn(Outcome(group, locker)) else [];
            token in after.items && ApplyAll(users, item, updates + more) == Ok(after.items[token])
  {
    assert updates + [] == updates;
    var outcome := Outcome(group, locker);
    if outcome.Ok? && outcome.value.Some? {
      assert (updates + [outcome.value.value])[..|updates|] == updates;
    }
  }

  // ----- Settled rows -----

  /** A group is left PENDING exactly if it would move a token nobody knows. */
  ghost predicate StaysPending(known: set<Token>, group: seq<Row>)
    requires group != []
  {
    && group[0].confirmed
    && Ends(TransfersOf(group), 1) != {}
    && Token(group[0].row.nftType, group[0].row.tokenId) !in known
  }

  ghost predicate IsRowOf(group: seq<Row>, id: nat) {
    exists row <- group :: row.id == id
  }

  lemma GroupSettled(users: Users, p: Progress, group: seq<Row>, locker: string, id: nat)
    requires group != [] && CheckGroup(users, p, group, locker).Ok?
    ensures var after := CheckGroup(users, p, group, locker).value;
            && after.items.Keys == p.items.Keys
            && (if IsRowOf(group, id) && !StaysPending(p.items.Keys, group) then
                  id in after.settled && after.settled[id] == group[0].confirmed
                else SameAt(p.settled, after.settled, id))
  {
    assert IsRowOf(group, id) <==> id in IdsOf(group);
  }

  predicate SameAt(before: map<nat, bool>, after: map<nat, bool>, id: nat) {
    (id in after <==> id in before) && (id in before ==> after[id] == before[id])
  }

  /** Rows of no group keep their state. */
  lemma {:induction false} OthersUntouched(users: Users, p: Progress, groups: seq<seq<Row>>, locker: string, id: nat)
    requires forall i :: 0 <= i < |groups| ==> groups[i] != []
    requires CheckGroups(users, p, groups, locker).Ok?
    requires forall i :: 0 <= i < |groups| ==> !IsRowOf(groups[i], id)
    ensures var after := CheckGroups(users, p, groups, locker).value;
            after.items.Keys == p.items.Keys && SameAt(p.settled, after.settled, id)
  {
    if groups != [] {
      var n := |groups| - 1;
      assert forall i :: 0 <= i < n ==> groups[..n][i] == groups[i];
      OthersUntouched(users, p, groups[..n], locker, id);
      GroupSettled(users, CheckGroups(users, p, groups[..n], locker).value, groups[n], locker, id);
    }
  }

  /** When nothing throws, a PENDING row of one group takes the state of its block, unless the group would
      move an unknown token: then it stays PENDING. */
  lemma {:induction false} RowsSettled(users: Users, p: Progress, groups: seq<seq<Row>>, locker: string, i: nat, id: nat)
    requires forall j :: 0 <= j < |groups| ==> groups[j] != []
    requires CheckGroups(users, p, groups, locker).Ok?
    requires i < |groups| && IsRowOf(groups[i], id) && id !in p.settled
    requires forall j :: 0 <= j < |groups| && j != i ==> !IsRowOf(groups[j], id)
    ensures var after := CheckGroups(users, p, groups, locker).value;
            && after.items.Keys == p.items.Keys
            && (id in after.settled <==> !StaysPending(p.items.Keys, groups[i]))
            && (id in after.settled ==> after.settled[id] == groups[i][0].confirmed)
  {
    var n := |groups| - 1;
    assert forall j :: 0 <= j < n ==> groups[..n][j] == groups[j];
    if i < n {
      RowsSettled(users, p, groups[..n], locker, i, id);
    } else {
      OthersUntouched(users, p, groups[..n], locker, id);
    }
    GroupSettled(users, CheckGroups(users, p, groups[..n], locker).value, groups[n], locker, id);
  }

  // ----- Groups of dead forks -----

  /** A group of an INVALIDATED block throws only if it is no path; otherwise its rows are settled as
      INVALIDATED and no item moves, known or not. */
  lemma InvalidatedGroup(users: Users, p: Progress, group: seq<Row>, locker: string)
    requires group != [] && !group[0].confirmed
    ensures var after := CheckGroup(users, p, group, locker);
            && (after.Ok? <==> PathLike(TransfersOf(group)) && |Ends(TransfersOf(group), 1)| <= 1)
            && (after.Ok? ==>
                  && after.value.items == p.items
                  && (forall row <- group :: row.id in after.value.settled && !after.value.settled[row.id])
                  && (forall id :: !IsRowOf(group, id) ==> SameAt(p.settled, after.value.settled, id)))
  {
    if CheckGroup(users, p, group, locker).Ok? {
      forall row <- group
        ensures row.id in CheckGroup(users, p, group, locker).value.settled
        ensures !CheckGroup(users, p, group, locker).value.settled[row.id]
      {
        assert IsRowOf(group, row.id);
        GroupSettled(users, p, group, locker, row.id);
      }
      forall id | !IsRowOf(group, id)
        ensures SameAt(p.settled, CheckGroup(users, p, group, locker).value.settled, id)
      {
        GroupSettled(users, p, group, locker, id);
      }
    }
  }

  /** The groups of CONFIRMED blocks. */
  ghost function ConfirmedOnly(groups: seq<seq<Row>>): (kept: seq<seq<Row>>)
    requires forall i :: 0 <= i < |groups| ==> groups[i] != []
    ensures forall i :: 0 <= i < |kept| ==> kept[i] != [] && kept[i][0].confirmed
  {
    if groups == [] then []
    else
      var last := groups[|groups| - 1];
      ConfirmedOnly(groups[..|groups| - 1]) + if last[0].confirmed then [last] else []
  }

  ghost predicate DeadForksArePaths(groups: seq<seq<Row>>)
    requires forall i :: 0 <= i < |groups| ==> groups[i] != []
  {
    forall i :: 0 <= i < |groups| ==> IsPathIfDead(groups[i])
  }

  ghost predicate IsPathIfDead(group: seq<Row>)
    requires group != []
  {
    group[0].confirmed || (PathLike(TransfersOf(group)) && |Ends(TransfersOf(group), 1)| <= 1)
  }

  lemma PathsOneMore(groups: seq<seq<Row>>)
    requires groups != [] && forall i :: 0 <= i < |groups| ==> groups[i] != []
    ensures DeadForksArePaths(groups) <==> DeadForksArePaths(groups[..|groups| - 1]) && IsPathIfDead(groups[|groups| - 1])
  {
    assert forall i :: 0 <= i < |groups| - 1 ==> groups[..|groups| - 1][i] == groups[i];
  }

  lemma KeptOneMore(users: Users, p: Progress, groups: seq<seq<Row>>, locker: string)
    requires groups != [] && forall i :: 0 <= i < |groups| ==> groups[i] != []
    requires groups[|groups| - 1][0].confirmed
    ensures var n := |groups| - 1;
            CheckGroups(users, p, ConfirmedOnly(groups), locker) ==
            match CheckGroups(users, p, ConfirmedOnly(groups[..n]), locker)
            case Err(e) => Err(e)
            case Ok(before) => CheckGroup(users, before, groups[n], locker)
  {
    var kept := ConfirmedOnly(groups);
    assert kept[..|kept| - 1] == ConfirmedOnly(groups[..|groups| - 1]);
  }

  lemma OnlyItemsMatter(users: Users, p: Progress, q: Progress, group: seq<Row>, locker: string)
    requires group != [] && p.items == q.items
    ensures var one, other := CheckGroup(users, p, group, locker), CheckGroup(users, q, group, locker);
            (one.Ok? <==> other.Ok?) && (one.Ok? ==> one.value.items == other.value.items)
  {
  }

  lemma {:induction false} UpdatesAreConfirmed(groups: seq<seq<Row>>, locker: string, token: Token)
    requires forall i :: 0 <= i < |groups| ==> groups[i] != []
    ensures UpdatesOf(groups, locker, token) == UpdatesOf(ConfirmedOnly(groups), locker, token)
  {
    if groups != [] {
      var n := |groups| - 1;
      UpdatesAreConfirmed(groups[..n], locker, token);
      var kept := ConfirmedOnly(groups);
      if groups[n][0].confirmed {
        assert kept[..|kept| - 1] == ConfirmedOnly(groups[..n]);
      } else {
        assert kept == ConfirmedOnly(groups[..n]);
        assert UpdateIn(Outcome(groups[n], locker)) == [];
      }
    }
  }

  /** The items end as if the groups of INVALIDATED blocks had not been there; the most such a group can do
      is to throw, when it is no path. */
  lemma {:induction false} DeadForksMoveNothing(users: Users, p: Progress, groups: seq<seq<Row>>, locker: string)
    requires forall i :: 0 <= i < |groups| ==> groups[i] != []
    ensures var all, kept := CheckGroups(users, p, groups, locker), CheckGroups(users, p, ConfirmedOnly(groups), locker);
            && (all.Ok? <==> kept.Ok? && DeadForksArePaths(groups))
            && (all.Ok? ==> all.value.items == kept.value.items)
  {
    if groups != [] {
      var n := |groups| - 1;
      DeadForksMoveNothing(users, p, groups[..n], locker);
      PathsOneMore(groups);
      var before := CheckGroups(users, p, groups[..n], locker);
      if groups[n][0].confirmed {
        KeptOneMore(users, p, groups, locker);
        if before.Ok? {
          OnlyItemsMatter(users, before.value, CheckGroups(users, p, ConfirmedOnly(groups[..n]), locker).value, groups[n], locker);
        }
      } else {
        DeadForkDropped(groups);
        if before.Ok? {
          InvalidatedGroup(users, before.value, groups[n], locker);
        }
      }
    }
  }

  lemma DeadForkDropped(groups: seq<seq<Row>>)
    requires groups != [] && (forall i :: 0 <= i < |groups| ==> groups[i] != []) && !groups[|groups| - 1][0].confirmed
    ensures ConfirmedOnly(groups) == ConfirmedOnly(groups[..|groups| - 1])
  {
  }

  /** The group is a walk of one token: what it makes known in terms of that walk. */
  lemma OutcomeOfWalk(group: seq<Row>, walk: seq<string>, locker: string)
    requires group != [] && WalkOf(walk, TransfersOf(group)) && group[0].confirmed
    ensures var last := walk[|walk| - 1]; var first := group[0];
            var outcome := Outcome(group, locker);
            if walk[0] == last then outcome == Ok(None)
            else if !IsWalletAddressEqual(Some(last), Some(locker)) then
              outcome == Ok(Some(Update(last, last, IN_WALLET, first.blockNumber, first.row.transactionIndex)))
            else
              && (outcome.Ok? <==> exists k :: EntersOnceAt(walk, locker, k))
              && (forall k :: EntersOnceAt(walk, locker, k) ==>
                    outcome == Ok(Some(Update(walk[k - 1], last, IN_AKIVERSE, first.blockNumber, first.row.transactionIndex))))
  {
    var transfers := TransfersOf(group);
    WalkEnds(walk, transfers);
    var depositor := DepositorOf(transfers, locker);
    DepositorAt(walk, transfers, locker, if depositor.Ok? then depositor.value else "");
  }

  /** An update reaches the item of its group's token and no other one. */
  lemma GroupMovesItem(users: Users, p: Progress, group: seq<Row>, locker: string)
    requires group != [] && Outcome(group, locker).Ok? && Outcome(group, locker).value.Some?
    ensures var token, u := Token(group[0].row.nftType, group[0].row.tokenId), Outcome(group, locker).value.value;
            var after := CheckGroup(users, p, group, locker);
            if token !in p.items then after == Ok(p)
            else
              && (after.Ok? <==> Applied(users, p.items[token], u).Ok?)
              && (after.Ok? ==>
                    && after.value.items.Keys == p.items.Keys
                    && Applied(users, p.items[token], u) == Ok(after.value.items[token])
                    && forall other <- p.items :: other != token ==> after.value.items[other] == p.items[other])
  {
  }

  /** Nothing throws exactly if every group makes sense and every known token takes all its updates. */
  lemma {:induction false} NothingThrowsIff(users: Users, p: Progress, groups: seq<seq<Row>>, locker: string)
    requires forall i :: 0 <= i < |groups| ==> groups[i] != []
    ensures CheckGroups(users, p, groups, locker).Ok? <==> AllSound(groups, locker) && AllTaken(users, p, groups, locker)
  {
    if groups != [] {
      var n := |groups| - 1;
      NothingThrowsIff(users, p, groups[..n], locker);
      SoundOneMore(groups, locker);
      if CheckGroups(users, p, groups[..n], locker).Err? {
        TakenBefore(users, p, groups, locker);
      } else if Outcome(groups[n], locker).Ok? {
        LastGroupTaken(users, p, groups, locker);
      }
    }
  }

  ghost predicate AllSound(groups: seq<seq<Row>>, locker: string)
    requires forall i :: 0 <= i < |groups| ==> groups[i] != []
  {
    forall i :: 0 <= i < |groups| ==> Outcome(groups[i], locker).Ok?
  }

  ghost predicate AllTaken(users: Users, p: Progress, groups: seq<seq<Row>>, locker: string)
    requires forall i :: 0 <= i < |groups| ==> groups[i] != []
  {
    forall token <- p.items :: TakesAll(users, p, groups, locker, token)
  }

  lemma SoundOneMore(groups: seq<seq<Row>>, locker: string)
    requires groups != [] && forall i :: 0 <= i < |groups| ==> groups[i] != []
    ensures AllSound(groups, locker) <==> AllSound(groups[..|groups| - 1], locker) && Outcome(groups[|groups| - 1], locker).Ok?
  {
    var n := |groups| - 1;
    assert forall i :: 0 <= i < n ==> groups[..n][i] == groups[i];
  }

  lemma TakenBefore(users: Users, p: Progress, groups: seq<seq<Row>>, locker: string)
    requires groups != [] && forall i :: 0 <= i < |groups| ==> groups[i] != []
    ensures AllTaken(users, p, groups, locker) ==> AllTaken(users, p, groups[..|groups| - 1], locker)
  {
    if AllTaken(users, p, groups, locker) {
      forall token <- p.items
        ensures TakesAll(users, p, groups[..|groups| - 1], locker, token)
      {
        assert TakesAll(users, p, groups, locker, token);
        UpdatesOneMore(users, p, groups, locker, token);
      }
    }
  }

  ghost predicate TakesAll(users: Users, p: Progress, groups: seq<seq<Row>>, locker: string, token: Token)
    requires forall i :: 0 <= i < |groups| ==> groups[i] != []
  {
    token in p.items ==> ApplyAll(users, p.items[token], UpdatesOf(groups, locker, token)).Ok?
  }

  lemma UpdatesOneMore(users: Users, p: Progress, groups: seq<seq<Row>>, locker: string, token: Token)
    requires groups != [] && (forall i :: 0 <= i < |groups| ==> groups[i] != []) && token in p.items
    ensures var n := |groups| - 1;
            var before, all := UpdatesOf(groups[..n], locker, token), UpdatesOf(groups, locker, token);
            var outcome := Outcome(groups[n], locker);
            if TokenOf(groups[n]) == token && outcome.Ok? && outcome.value.Some? then
              ApplyAll(users, p.items[token], all) ==
              match ApplyAll(users, p.items[token], before)
              case Err(e) => Err(e)
              case Ok(item) => Applied(users, item, outcome.value.value)
            else all == before
  {
    var n := |groups| - 1;
    var before, outcome := UpdatesOf(groups[..n], locker, token), Outcome(groups[n], locker);
    if outcome.Ok? && outcome.value.Some? {
      assert (before + [outcome.value.value])[..|before|] == before;
    }
  }

  lemma LastGroupTaken(users: Users, p: Progress, groups: seq<seq<Row>>, locker: string)
    requires groups != [] && forall i :: 0 <= i < |groups| ==> groups[i] != []
    requires var n := |groups| - 1;
             CheckGroups(users, p, groups[..n], locker).Ok? && Outcome(groups[n], locker).Ok? && AllTaken(users, p, groups[..n], locker)
    ensures CheckGroups(users, p, groups, locker).Ok? <==> AllTaken(users, p, groups, locker)
  {
    var n := |groups| - 1;
    var before := CheckGroups(users, p, groups[..n], locker).value;
    forall token <- p.items
      ensures TakesAll(users, p, groups, locker, token) <==>
                token != TokenOf(groups[n]) || CheckGroup(users, before, groups[n], locker).Ok?
    {
      assert TakesAll(users, p, groups[..n], locker, token);
      EveryTokenUpdated(users, p, groups[..n], locker, token);
      UpdatesOneMore(users, p, groups, locker, token);
    }
    EveryTokenUpdated(users, p, groups[..n], locker, TokenOf(groups[n]));
  }

  /** If every group makes sense and no two confirmed updates of a token contradict each other at the same
      moment, nothing throws, and every item ends as the newest of its confirmed updates says, whatever
      order the groups come in. */
  lemma ItemFollowsNewest(users: Users, p: Progress, groups: seq<seq<Row>>, locker: string, token: Token)
    requires forall i :: 0 <= i < |groups| ==> groups[i] != []
    requires AllSound(groups, locker)
    requires forall t <- p.items :: Consistent(p.items[t], Elements(UpdatesOf(ConfirmedOnly(groups), locker, t)))
    requires token in p.items
    ensures var r := CheckGroups(users, p, groups, locker);
            && r.Ok? && token in r.value.items
            && NewestOf(users, p.items[token], Elements(UpdatesOf(ConfirmedOnly(groups), locker, token)), r.value.items[token])
  {
    forall t <- p.items
      ensures TakesAll(users, p, groups, locker, t)
    {
      UpdatesAreConfirmed(groups, locker, t);
      NothingThrowsNewestWins(users, p.items[t], UpdatesOf(groups, locker, t));
    }
    NothingThrowsIff(users, p, groups, locker);
    EveryTokenUpdated(users, p, groups, locker, token);
    UpdatesAreConfirmed(groups, locker, token);
    NothingThrowsNewestWins(users, p.items[token], UpdatesOf(groups, locker, token));
  }
}
