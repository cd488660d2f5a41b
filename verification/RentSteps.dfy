/** What the daily rent run may do to rows and machines, step by step, and why the steps add up. */
module RentSteps {
  import opened Common
  import opened RentSettlement

  datatype Disturbance = Disturbance(moves: seq<Move>, crash: bool)

  datatype Outcome = Finished | Crashed | Threw

  /** How a transaction ends; in the last two cases it is rolled back. */
  datatype Commit = Committed | TerasBalanceOverZero | IllegalState

  /** A row of the queries grouped by owner. */
  datatype OwnerTotal = OwnerTotal(owner: Id, sumFees: int, count: nat)

  /** The balance check of the database turned a debit down. */
  datatype Refusal = Refusal(user: Id, balance: int, amount: int)

  datatype GameCenter = GameCenter(userId: Option<Id>, placementAllowed: bool)

  datatype Machine = Machine(
    userId: Option<Id>,
    gameCenter: Option<GameCenter>,
    position: Option<nat>,
    autoRenewLease: bool,
    installedAt: Option<int>
  )

  type Machines = map<Id, Machine>

  // ----- Queries -----

  function GroupOf(fees: Fees, rows: set<Key>, ownerOf: RentalFee -> Id, owner: Id): set<Key> {
    set k | k in rows && k in fees && ownerOf(fees[k]) == owner
  }

  method SumOf(fees: Fees, rows: set<Key>) returns (sum: int)
    requires rows <= fees.Keys
    ensures sum == SumFees(fees, rows)
  {
    sum := 0;
    var rest := rows;
    SumNone(fees);
    assert rows - rest == {};
    while rest != {}
      invariant rest <= rows
      invariant sum == SumFees(fees, rows - rest)
      decreases |rest|
    {
      var k :| k in rest;
      assert rows - (rest - {k}) == (rows - rest) + {k};
      SumDisjoint(fees, rows - rest, {k});
      SumOne(fees, k);
      sum := sum + fees[k].fee;
      rest := rest - {k};
    }
    assert rows - {} == rows;
  }

  /** One total for each owner that has rows. */
  ghost predicate AreTotals(fees: Fees, rows: set<Key>, ownerOf: RentalFee -> Id, totals: seq<OwnerTotal>) {
    && (forall i, j :: 0 <= i < j < |totals| ==> totals[i].owner != totals[j].owner)
    && (forall t <- totals :: t.count == |GroupOf(fees, rows, ownerOf, t.owner)| > 0
                              && t.sumFees == SumFees(fees, GroupOf(fees, rows, ownerOf, t.owner)))
    && (forall k <- rows :: k in fees && exists t :: t in totals && t.owner == ownerOf(fees[k]))
  }

  /** select sum(fee), count(*) ... group by owner */
  method TotalsBy(fees: Fees, rows: set<Key>, ownerOf: RentalFee -> Id) returns (totals: seq<OwnerTotal>)
    requires rows <= fees.Keys
    ensures AreTotals(fees, rows, ownerOf, totals)
  {
    totals := [];
    var rest := rows;
    while rest != {}
      invariant rest <= rows
      invariant forall i, j :: 0 <= i < j < |totals| ==> totals[i].owner != totals[j].owner
      invariant forall t <- totals :: t.count == |GroupOf(fees, rows, ownerOf, t.owner)| > 0
                                      && t.sumFees == SumFees(fees, GroupOf(fees, rows, ownerOf, t.owner))
      invariant forall k <- rows :: k in rest <==> forall t <- totals :: t.owner != ownerOf(fees[k])
      decreases |rest|
    {
      var k :| k in rest;
      var owner := ownerOf(fees[k]);
      var group := GroupOf(fees, rest, ownerOf, owner);
      assert group == GroupOf(fees, rows, ownerOf, owner);
      assert k in group;
      var sum := SumOf(fees, group);
      var total := OwnerTotal(owner, sum, |group|);
      totals := totals + [total];
      rest := rest - group;
    }
  }

  function ItemsFrom(list: seq<Key>, i: nat): set<Key> {
    set j | i <= j < |list| :: list[j]
  }

  lemma ItemsFromNext(list: seq<Key>, i: nat)
    requires i < |list|
    requires forall i, j :: 0 <= i < j < |list| ==> list[i] != list[j]
    ensures list[i] in ItemsFrom(list, i)
    ensures ItemsFrom(list, i + 1) == ItemsFrom(list, i) - {list[i]}
  {
  }

  // ----- Machines -----

  predicate InstalledBefore(m: Machine, date: int) {
    m.installedAt.Some? && m.installedAt.value < date
  }

  function Removed(machines: Machines, ids: set<Id>): Machines {
    map m | m in machines ::
      if m in ids then machines[m].(gameCenter := None, position := None) else machines[m]
  }

  /** The machine is in no center any more; its owner, its terms and its date stay. */
  predicate TakenOut(before: Machine, after: Machine) {
    && after.gameCenter.None? && after.position.None?
    && after.userId == before.userId && after.autoRenewLease == before.autoRenewLease && after.installedAt == before.installedAt
  }

  /** Eviction also forgets when the machine was installed. */
  function Uninstalled(machines: Machines, ids: set<Id>): Machines {
    map m | m in machines ::
      if m in ids then machines[m].(gameCenter := None, position := None, installedAt := None) else machines[m]
  }

  function NotRenewed(machines: Machines, date: int): set<Id> {
    set m | m in machines && !machines[m].autoRenewLease && InstalledBefore(machines[m], date)
  }

  function PlacementNotAllowed(machines: Machines, date: int): set<Id> {
    set m | m in machines && machines[m].gameCenter.Some? && !machines[m].gameCenter.value.placementAllowed
            && InstalledBefore(machines[m], date)
  }

  /** A machine in use that was installed before the date leaves when it is not renewed or its center closed. */
  predicate Leaves(m: Machine, date: int) {
    && m.installedAt.Some? && m.installedAt.value < date
    && (!m.autoRenewLease || (m.gameCenter.Some? && !m.gameCenter.value.placementAllowed))
  }

  /** The machine is as it was, or it is out of its center for a reason: it leaves, or its row was not paid
      for. Owner and terms stay. */
  predicate StaysOrGoes(before: Machine, after: Machine, k: Key, fees: Fees, date: int) {
    || after == before
    || (&& (Leaves(before, date) || (k in fees && fees[k].collectState.UNINSTALLED?))
        && after.gameCenter.None? && after.position.None?
        && after.userId == before.userId && after.autoRenewLease == before.autoRenewLease)
  }

  /** Eviction takes out the machines of rows that were given up, and nothing else. */
  lemma EvictedGo(a: Fees, b: Fees, machines: Machines, dateStr: string, m: Id)
    requires RunAdvances(a, b, dateStr) && a.Keys == b.Keys && m in machines
    ensures var after := Uninstalled(machines, Evicted(a, b));
            m in after && (after[m] == machines[m] || (Key(dateStr, m) in b && b[Key(dateStr, m)].collectState.UNINSTALLED?))
    ensures var after := Uninstalled(machines, Evicted(a, b))[m];
            after != machines[m] ==>
              && after.gameCenter.None? && after.position.None? && after.installedAt.None?
              && after.userId == machines[m].userId && after.autoRenewLease == machines[m].autoRenewLease
  {
    if m in Evicted(a, b) {
      var k :| k in a && k in b && a[k].collectState.UNPROCESSED? && b[k].collectState.UNINSTALLED? && k.arcadeMachineId == m;
      assert k.date == dateStr;
      assert k == Key(dateStr, m);
    }
  }

  lemma MachinesGoForAReason(start: Machines, due: Machines, a: Fees, b: Fees, dateStr: string, date: int)
    requires RunAdvances(a, b, dateStr) && a.Keys == b.Keys && due.Keys == start.Keys
    requires forall m <- due :: due[m] == start[m] || (Leaves(start[m], date) && TakenOut(start[m], due[m]))
    ensures forall m <- start :: m in due && StaysOrGoes(start[m], Uninstalled(due, Evicted(a, b))[m], Key(dateStr, m), b, date)
  {
    forall m <- start
      ensures StaysOrGoes(start[m], Uninstalled(due, Evicted(a, b))[m], Key(dateStr, m), b, date)
    {
      EvictedGo(a, b, due, dateStr, m);
    }
  }

  /** The machines that owe rent for the date. */
  function Due(machines: Machines, date: int): set<Id> {
    set m | m in machines && machines[m].gameCenter.Some? && machines[m].gameCenter.value.placementAllowed
            && machines[m].autoRenewLease && InstalledBefore(machines[m], date)
            && machines[m].userId.Some? && machines[m].gameCenter.value.userId.Some?
            && machines[m].userId != machines[m].gameCenter.value.userId
  }

  const INSTALLATION_FEE_OF_DAY: nat := 120

  function NewRows(dateStr: string, machines: Machines, date: int): Fees {
    map k | k in (set m | m in Due(machines, date) :: Key(dateStr, m)) ::
      var m := machines[k.arcadeMachineId];
      RentalFee(m.userId.value, m.gameCenter.value.userId.value, INSTALLATION_FEE_OF_DAY, UNPROCESSED, UNPAID)
  }

  /** The machine stands in an open center, is renewed and was installed before the date, and the two have
      different known owners. */
  predicate OwesRent(m: Machine, date: int) {
    match (m.gameCenter, m.userId)
    case (Some(center), Some(user)) =>
      center.placementAllowed && m.autoRenewLease && m.installedAt.Some? && m.installedAt.value < date
      && center.userId.Some? && center.userId.value != user
    case _ => false
  }

  /** The owner of the machine owes 120 to the owner of the center. */
  predicate IsRentOf(row: RentalFee, m: Machine) {
    && m.userId == Some(row.arcadeMachineOwnerId)
    && m.gameCenter.Some? && m.gameCenter.value.userId == Some(row.gameCenterOwnerId)
    && row.fee == 120
  }

  /** The rows of the date are exactly the rents owed then. */
  ghost predicate RentRecorded(fees: Fees, machines: Machines, dateStr: string, date: int) {
    && (forall m {:trigger Key(dateStr, m)} :: Key(dateStr, m) in fees <==> m in machines && OwesRent(machines[m], date))
    && (forall m {:trigger Key(dateStr, m)} :: m in machines && Key(dateStr, m) in fees ==>
          IsRentOf(fees[Key(dateStr, m)], machines[m]))
  }

  lemma NewRowsRecordRent(fees: Fees, machines: Machines, dateStr: string, date: int)
    requires forall k <- fees :: k.date != dateStr
    ensures RentRecorded(fees + NewRows(dateStr, machines, date), machines, dateStr, date)
    ensures forall k <- NewRows(dateStr, machines, date) ::
              NewRows(dateStr, machines, date)[k].collectState.UNPROCESSED? && NewRows(dateStr, machines, date)[k].paymentState.UNPAID?
  {
    forall m
      ensures Key(dateStr, m) in NewRows(dateStr, machines, date) <==> m in machines && OwesRent(machines[m], date)
    {
      assert m in Due(machines, date) <==> m in machines && OwesRent(machines[m], date);
    }
  }

  /** Removing machines that owe nothing leaves the rents as they are. */
  lemma RentOfAllMachines(fees: Fees, all: Machines, kept: Machines, dateStr: string, date: int)
    requires RentRecorded(fees, kept, dateStr, date) && kept.Keys == all.Keys
    requires forall m <- all :: kept[m] == all[m] || (!OwesRent(all[m], date) && !OwesRent(kept[m], date))
    ensures RentRecorded(fees, all, dateStr, date)
  {
  }

  lemma RentStaysRecorded(a: Fees, b: Fees, machines: Machines, dateStr: string, date: int)
    requires RentRecorded(a, machines, dateStr, date) && RunAdvances(a, b, dateStr) && b.Keys == a.Keys
    ensures RentRecorded(b, machines, dateStr, date)
  {
    forall m | m in machines && Key(dateStr, m) in b
      ensures IsRentOf(b[Key(dateStr, m)], machines[m])
    {
      assert IsRentOf(a[Key(dateStr, m)], machines[m]);
    }
  }

  /** Foreign keys. */
  predicate OwnersExist(m: Machine, users: set<Id>) {
    && (m.userId.Some? ==> m.userId.value in users)
    && (m.gameCenter.Some? && m.gameCenter.value.userId.Some? ==> m.gameCenter.value.userId.value in users)
  }

  ghost predicate MachinesOk(machines: Machines, users: set<Id>) {
    forall m <- machines {:trigger OwnersExist(machines[m], users)} :: OwnersExist(machines[m], users)
  }

  lemma MachinesStayOk(a: Machines, b: Machines, users: set<Id>)
    requires MachinesOk(a, users)
    requires forall m <- b :: m in a && b[m].userId == a[m].userId && (b[m].gameCenter.None? || b[m] == a[m])
    ensures MachinesOk(b, users)
  {
    forall m <- b
      ensures OwnersExist(b[m], users)
    {
      assert OwnersExist(a[m], users);
    }
  }

  // ----- What the rows keep -----

  /** Rent of a date is paid out only when its collection is complete, and to one owner all at once. */
  predicate PaidTogether(k: Key, l: Key, a: RentalFee, b: RentalFee) {
    k.date == l.date && a.paymentState.PAID? ==>
      && !b.collectState.UNPROCESSED?
      && (b.collectState.COLLECTED? && b.gameCenterOwnerId == a.gameCenterOwnerId ==> b.paymentState.PAID?)
  }

  ghost predicate RowsOk(fees: Fees, users: set<Id>) {
    && (forall k <- fees {:trigger fees[k]} :: RowOk(fees[k], users))
    && (forall k <- fees, l <- fees {:trigger PaidTogether(k, l, fees[k], fees[l])} :: PaidTogether(k, l, fees[k], fees[l]))
  }

  lemma CollectKeepsRows(fees: Fees, users: set<Id>, rows: set<Key>, state: CollectState)
    requires RowsOk(fees, users) && !state.UNPROCESSED?
    requires forall k <- rows :: k in fees && fees[k].collectState.UNPROCESSED?
    ensures RowsOk(SetCollect(fees, rows, state), users)
  {
    var fees' := SetCollect(fees, rows, state);
    forall k <- fees', l <- fees'
      ensures PaidTogether(k, l, fees'[k], fees'[l])
    {
      assert PaidTogether(k, l, fees[k], fees[l]);
    }
  }

  lemma PayKeepsRows(fees: Fees, users: set<Id>, date: string, owner: Id)
    requires RowsOk(fees, users) && UnprocessedRows(fees, date) == {}
    ensures RowsOk(SetPaid(fees, CollectedFor(fees, date, owner)), users)
  {
    var fees' := SetPaid(fees, CollectedFor(fees, date, owner));
    forall k <- fees', l <- fees'
      ensures PaidTogether(k, l, fees'[k], fees'[l])
    {
      assert PaidTogether(k, l, fees[k], fees[l]);
      assert l !in UnprocessedRows(fees, date);
    }
  }

  /** When some rent of an owner is unpaid on a date, none of it is paid. */
  lemma NonePaidBefore(fees: Fees, users: set<Id>, date: string, owner: Id)
    requires RowsOk(fees, users) && PayableFor(fees, date, owner) != {}
    ensures CollectedFor(fees, date, owner) == PayableFor(fees, date, owner)
  {
    var l :| l in PayableFor(fees, date, owner);
    forall k | k in CollectedFor(fees, date, owner)
      ensures k in PayableFor(fees, date, owner)
    {
      assert PaidTogether(k, l, fees[k], fees[l]);
    }
  }

  lemma NewRowsOk(fees: Fees, users: set<Id>, dateStr: string, machines: Machines, date: int)
    requires RowsOk(fees, users) && MachinesOk(machines, users)
    requires forall k <- fees :: k.date != dateStr
    ensures RowsOk(fees + NewRows(dateStr, machines, date), users)
  {
    var fees' := fees + NewRows(dateStr, machines, date);
    forall k <- fees', l <- fees'
      ensures PaidTogether(k, l, fees'[k], fees'[l]) && RowOk(fees'[k], users)
    {
      if k in fees && l in fees {
        assert PaidTogether(k, l, fees[k], fees[l]);
      }
      if k !in fees {
        assert OwnersExist(machines[k.arcadeMachineId], users);
      }
    }
  }

  lemma LedgerAfterInsert(balances: Balances, fees: Fees, outside: Balances, dateStr: string, machines: Machines, date: int)
    requires Ledger(balances, fees, outside)
    requires forall k <- fees :: k.date != dateStr
    ensures Ledger(balances, fees + NewRows(dateStr, machines, date), outside)
  {
    var fees' := fees + NewRows(dateStr, machines, date);
    forall u {:trigger LedgerOf(balances, fees', outside, u)}
      ensures LedgerOf(balances, fees', outside, u)
    {
      assert LedgerOf(balances, fees, outside, u);
      assert CreditedRows(fees', u) == CreditedRows(fees, u);
      assert DebitedRows(fees', u) == DebitedRows(fees, u);
      SumOverSameTerms(fees, fees', DebitedRows(fees, u));
      SumOverSameTerms(fees, fees', CreditedRows(fees, u));
    }
  }

  // ----- What the world may do -----

  /** A move the database let through, and when it came. */
  datatype Accepted = Accepted(at: nat, move: Move)

  ghost predicate FromWorld(world: nat -> Disturbance, tick: nat, a: Accepted) {
    a.at < tick && a.move in world(a.at).moves
  }

  ghost function After(opening: Balances, accepted: seq<Accepted>): (balances: Balances)
    ensures balances.Keys == opening.Keys
  {
    if accepted == [] then opening
    else Moved(After(opening, accepted[..|accepted| - 1]), accepted[|accepted| - 1].move)
  }

  // ----- What collecting may do -----

  /** The rows, the machines, and the debits refused so far. */
  datatype View = View(fees: Fees, machines: Machines, refusals: seq<Refusal>)

  ghost predicate RefusedSince(a: View, b: View, owner: Id) {
    exists i :: |a.refusals| <= i < |b.refusals| && RefusedFor(b.refusals[i], owner)
  }

  predicate RefusedFor(r: Refusal, owner: Id) {
    r.user == owner && r.balance < r.amount
  }

  /** A row is left alone, or is collected, or is evicted because a debit of its owner was refused. */
  ghost predicate RowCollects(a: View, b: View, k: Key, date: string)
    requires k in a.fees && k in b.fees
  {
    var before, after := a.fees[k], b.fees[k];
    || after == before
    || (&& k.date == date && before.collectState.UNPROCESSED?
        && (|| after == before.(collectState := COLLECTED)
            || (after == before.(collectState := UNINSTALLED) && RefusedSince(a, b, before.arcadeMachineOwnerId))))
  }

  function Evicted(a: Fees, b: Fees): set<Id> {
    set k | k in a && k in b && a[k].collectState.UNPROCESSED? && b[k].collectState.UNINSTALLED? :: k.arcadeMachineId
  }

  /** What collecting may do: rows as above, and exactly the machines of the evicted rows are uninstalled. */
  ghost predicate Collects(a: View, b: View, date: string) {
    && a.fees.Keys == b.fees.Keys
    && a.refusals <= b.refusals
    && (forall k <- a.fees {:trigger RowCollects(a, b, k, date)} :: RowCollects(a, b, k, date))
    && b.machines == Uninstalled(a.machines, Evicted(a.fees, b.fees))
  }

  lemma CollectsTransitive(a: View, b: View, c: View, date: string)
    requires Collects(a, b, date) && Collects(b, c, date)
    ensures Collects(a, c, date)
  {
    forall k <- a.fees
      ensures RowCollects(a, c, k, date)
    {
      assert RowCollects(a, b, k, date) && RowCollects(b, c, k, date);
      var owner := a.fees[k].arcadeMachineOwnerId;
      if RefusedSince(a, b, owner) {
        var i :| |a.refusals| <= i < |b.refusals| && RefusedFor(b.refusals[i], owner);
        assert RefusedFor(c.refusals[i], owner);
      }
    }
    assert Evicted(a.fees, c.fees) == Evicted(a.fees, b.fees) + Evicted(b.fees, c.fees) by {
      EvictedTransitive(a, b, c, date);
    }
  }

  lemma EvictedTransitive(a: View, b: View, c: View, date: string)
    requires Collects(a, b, date) && Collects(b, c, date)
    ensures Evicted(a.fees, c.fees) == Evicted(a.fees, b.fees) + Evicted(b.fees, c.fees)
  {
    forall k <- a.fees
      ensures (a.fees[k].collectState.UNPROCESSED? && c.fees[k].collectState.UNINSTALLED?) <==>
              || (a.fees[k].collectState.UNPROCESSED? && b.fees[k].collectState.UNINSTALLED?)
              || (b.fees[k].collectState.UNPROCESSED? && c.fees[k].collectState.UNINSTALLED?)
    {
      assert RowCollects(a, b, k, date) && RowCollects(b, c, k, date);
    }
  }

  lemma CollectingIsAllowed(a: View, date: string, rows: set<Key>)
    requires forall k <- rows :: k in a.fees && k.date == date && a.fees[k].collectState.UNPROCESSED?
    ensures Collects(a, a.(fees := SetCollect(a.fees, rows, COLLECTED)), date)
  {
  }

  lemma RefusingIsAllowed(a: View, date: string, r: Refusal)
    requires r.balance < r.amount
    ensures Collects(a, a.(refusals := a.refusals + [r]), date)
    ensures RefusedSince(a, a.(refusals := a.refusals + [r]), r.user)
  {
    var b := a.(refusals := a.refusals + [r]);
    assert Evicted(a.fees, b.fees) == {};
    assert RefusedFor(b.refusals[|a.refusals|], r.user);
  }

  lemma EvictingIsAllowed(a: View, b: View, k: Key)
    requires k in b.fees && b.fees[k].collectState.UNPROCESSED?
    requires Collects(a, b, k.date) && RefusedSince(a, b, b.fees[k].arcadeMachineOwnerId)
    ensures Collects(a, b.(fees := SetCollect(b.fees, {k}, UNINSTALLED), machines := Uninstalled(b.machines, {k.arcadeMachineId})), k.date)
  {
    var c := b.(fees := SetCollect(b.fees, {k}, UNINSTALLED), machines := Uninstalled(b.machines, {k.arcadeMachineId}));
    forall l <- a.fees
      ensures RowCollects(a, c, l, k.date)
    {
      assert RowCollects(a, b, l, k.date);
    }
    assert RowCollects(a, b, k, k.date);
    assert Evicted(a.fees, c.fees) == Evicted(a.fees, b.fees) + {k.arcadeMachineId};
  }

  // ----- Collecting from one owner -----

  /** What collecting from one owner may do: the rows of all others are unchanged. */
  ghost predicate CollectsFrom(a: View, b: View, date: string, owner: Id) {
    && Collects(a, b, date)
    && forall k <- a.fees :: a.fees[k].arcadeMachineOwnerId != owner ==> b.fees[k] == a.fees[k]
  }

  lemma NothingCollected(a: View, date: string, owner: Id)
    ensures CollectsFrom(a, a, date, owner)
  {
  }

  /** Collecting goes on: one more step on rows of the owner. */
  lemma CollectingGoesOn(start: View, a: View, b: View, date: string, owner: Id, rows: set<Key>)
    requires CollectsFrom(start, a, date, owner) && Collects(a, b, date)
    requires b.fees == a.fees || b.fees == SetCollect(a.fees, rows, COLLECTED)
    requires rows <= UnprocessedOf(a.fees, date, owner)
    ensures CollectsFrom(start, b, date, owner)
    ensures UnprocessedOf(b.fees, date, owner) == UnprocessedOf(a.fees, date, owner) - (if b.fees == a.fees then {} else rows)
  {
    CollectsTransitive(start, a, b, date);
    if b.fees != a.fees {
      OthersKeepRows(start, a, b, date, owner, rows, COLLECTED);
    }
  }

  /** A row is given up after a refusal. */
  lemma EvictionGoesOn(start: View, a: View, date: string, owner: Id, k: Key)
    requires CollectsFrom(start, a, date, owner) && RefusedSince(start, a, owner)
    requires k in UnprocessedOf(a.fees, date, owner)
    ensures var b := a.(fees := SetCollect(a.fees, {k}, UNINSTALLED), machines := Uninstalled(a.machines, {k.arcadeMachineId}));
            && CollectsFrom(start, b, date, owner)
            && UnprocessedOf(b.fees, date, owner) == UnprocessedOf(a.fees, date, owner) - {k}
  {
    var b := a.(fees := SetCollect(a.fees, {k}, UNINSTALLED), machines := Uninstalled(a.machines, {k.arcadeMachineId}));
    EvictingIsAllowed(start, a, k);
    OthersKeepRows(start, a, b, date, owner, {k}, UNINSTALLED);
  }

  lemma OthersKeepRows(start: View, a: View, b: View, date: string, owner: Id, rows: set<Key>, state: CollectState)
    requires CollectsFrom(start, a, date, owner) && !state.UNPROCESSED?
    requires rows <= UnprocessedOf(a.fees, date, owner)
    requires b.fees == SetCollect(a.fees, rows, state)
    ensures forall k <- start.fees :: start.fees[k].arcadeMachineOwnerId != owner ==> b.fees[k] == start.fees[k]
    ensures UnprocessedOf(b.fees, date, owner) == UnprocessedOf(a.fees, date, owner) - rows
  {
    forall k <- start.fees | start.fees[k].arcadeMachineOwnerId != owner
      ensures b.fees[k] == start.fees[k]
    {
      assert a.fees[k] == start.fees[k];
      assert k !in rows;
    }
  }

  // ----- Collecting from all owners -----

  ghost predicate TotalOf(fees: Fees, rows: set<Key>, t: OwnerTotal) {
    t.sumFees == SumFees(fees, rows) && t.count == |rows| > 0
  }

  ghost predicate IsListed(totals: seq<OwnerTotal>, owner: Id) {
    exists j :: 0 <= j < |totals| && totals[j].owner == owner
  }

  /** While collecting: the owners before i are done, the totals of the others are still right, and
      there are no other owners. */
  ghost predicate ToCollect(fees: Fees, date: string, totals: seq<OwnerTotal>, i: nat) {
    && (forall j, l :: 0 <= j < l < |totals| ==> totals[j].owner != totals[l].owner)
    && (forall j :: 0 <= j < i <= |totals| ==> UnprocessedOf(fees, date, totals[j].owner) == {})
    && (forall j :: i <= j < |totals| ==> TotalOf(fees, UnprocessedOf(fees, date, totals[j].owner), totals[j]))
    && (forall k <- UnprocessedRows(fees, date) :: IsListed(totals, fees[k].arcadeMachineOwnerId))
  }

  lemma CollectionStarts(fees: Fees, date: string, totals: seq<OwnerTotal>)
    requires AreTotals(fees, UnprocessedRows(fees, date), (r: RentalFee) => r.arcadeMachineOwnerId, totals)
    ensures ToCollect(fees, date, totals, 0)
  {
    var ownerOf := (r: RentalFee) => r.arcadeMachineOwnerId;
    forall j | 0 <= j < |totals|
      ensures TotalOf(fees, UnprocessedOf(fees, date, totals[j].owner), totals[j])
    {
      assert totals[j] in totals;
      assert GroupOf(fees, UnprocessedRows(fees, date), ownerOf, totals[j].owner) == UnprocessedOf(fees, date, totals[j].owner);
    }
  }

  lemma OwnerExists(fees: Fees, users: set<Id>, date: string, t: OwnerTotal)
    requires RowsOk(fees, users) && TotalOf(fees, UnprocessedOf(fees, date, t.owner), t)
    ensures t.owner in users
  {
  }

  lemma CollectionAdvances(a: View, b: View, date: string, totals: seq<OwnerTotal>, i: nat)
    requires i < |totals| && ToCollect(a.fees, date, totals, i)
    requires CollectsFrom(a, b, date, totals[i].owner)
    requires UnprocessedOf(b.fees, date, totals[i].owner) == {}
    ensures ToCollect(b.fees, date, totals, i + 1)
  {
    forall k | k in UnprocessedRows(b.fees, date)
      ensures k in UnprocessedRows(a.fees, date) && b.fees[k] == a.fees[k]
    {
      assert RowCollects(a, b, k, date);
    }
    forall j | 0 <= j < |totals| && j != i
      ensures UnprocessedOf(b.fees, date, totals[j].owner) == UnprocessedOf(a.fees, date, totals[j].owner)
      ensures SumFees(b.fees, UnprocessedOf(b.fees, date, totals[j].owner)) ==
              SumFees(a.fees, UnprocessedOf(a.fees, date, totals[j].owner))
    {
      OtherTotals(a, b, date, totals[i].owner, totals[j].owner);
    }
  }

  lemma OtherTotals(a: View, b: View, date: string, owner: Id, other: Id)
    requires CollectsFrom(a, b, date, owner) && owner != other
    ensures UnprocessedOf(b.fees, date, other) == UnprocessedOf(a.fees, date, other)
    ensures SumFees(b.fees, UnprocessedOf(b.fees, date, other)) == SumFees(a.fees, UnprocessedOf(a.fees, date, other))
  {
    forall k <- a.fees
      ensures k in UnprocessedOf(b.fees, date, other) <==> k in UnprocessedOf(a.fees, date, other)
    {
      assert RowCollects(a, b, k, date);
    }
    SumOverSameTerms(a.fees, b.fees, UnprocessedOf(a.fees, date, other));
  }

  lemma CollectionEnds(fees: Fees, date: string, totals: seq<OwnerTotal>)
    requires ToCollect(fees, date, totals, |totals|)
    ensures UnprocessedRows(fees, date) == {}
  {
  }

  // ----- Paying -----

  function PayableRows(fees: Fees, date: string): set<Key> {
    set k | k in fees && k.date == date && fees[k].collectState.COLLECTED? && fees[k].paymentState.UNPAID?
  }

  /** A row is left alone, or its collected rent is paid out. */
  predicate RowPays(before: RentalFee, after: RentalFee) {
    || after == before
    || (before.collectState.COLLECTED? && before.paymentState.UNPAID? && after == before.(paymentState := PAID))
  }

  /** What paying may do. */
  ghost predicate Pays(a: Fees, b: Fees, date: string) {
    && a.Keys == b.Keys
    && forall k <- a :: RowPays(a[k], b[k]) && (k.date != date ==> b[k] == a[k])
  }

  /** While paying: the owners before i are paid, the totals of the others are still right, and there are
      no other owners. */
  ghost predicate ToPay(fees: Fees, date: string, totals: seq<OwnerTotal>, i: nat) {
    && (forall j, l :: 0 <= j < l < |totals| ==> totals[j].owner != totals[l].owner)
    && (forall j :: 0 <= j < i <= |totals| ==> PayableFor(fees, date, totals[j].owner) == {})
    && (forall j :: i <= j < |totals| ==> TotalOf(fees, PayableFor(fees, date, totals[j].owner), totals[j]))
    && (forall k <- PayableRows(fees, date) :: IsListed(totals, fees[k].gameCenterOwnerId))
  }

  lemma PaymentStarts(fees: Fees, date: string, totals: seq<OwnerTotal>)
    requires AreTotals(fees, PayableRows(fees, date), (r: RentalFee) => r.gameCenterOwnerId, totals)
    ensures ToPay(fees, date, totals, 0)
  {
    var ownerOf := (r: RentalFee) => r.gameCenterOwnerId;
    forall j | 0 <= j < |totals|
      ensures TotalOf(fees, PayableFor(fees, date, totals[j].owner), totals[j])
    {
      assert totals[j] in totals;
      assert GroupOf(fees, PayableRows(fees, date), ownerOf, totals[j].owner) == PayableFor(fees, date, totals[j].owner);
    }
  }

  lemma PayeeExists(fees: Fees, users: set<Id>, date: string, t: OwnerTotal)
    requires RowsOk(fees, users) && TotalOf(fees, PayableFor(fees, date, t.owner), t)
    ensures t.owner in users
  {
  }

  lemma PayingGoesOn(start: Fees, fees: Fees, date: string, owner: Id)
    requires Pays(start, fees, date)
    ensures Pays(start, SetPaid(fees, PayableFor(fees, date, owner)), date)
    ensures UnprocessedRows(start, date) == {} ==> UnprocessedRows(fees, date) == {}
  {
  }

  lemma PaymentAdvances(fees: Fees, date: string, totals: seq<OwnerTotal>, i: nat)
    requires i < |totals| && ToPay(fees, date, totals, i)
    ensures ToPay(SetPaid(fees, PayableFor(fees, date, totals[i].owner)), date, totals, i + 1)
  {
    var rows := PayableFor(fees, date, totals[i].owner);
    var fees' := SetPaid(fees, rows);
    forall j | 0 <= j < |totals|
      ensures PayableFor(fees', date, totals[j].owner) == if j == i then {} else PayableFor(fees, date, totals[j].owner)
      ensures SumFees(fees', PayableFor(fees, date, totals[j].owner)) == SumFees(fees, PayableFor(fees, date, totals[j].owner))
    {
      SumsUnderSetPaid(fees, rows, PayableFor(fees, date, totals[j].owner));
    }
    forall k | k in PayableRows(fees', date)
      ensures k in PayableRows(fees, date) && fees'[k] == fees[k]
    {
    }
  }

  lemma PaymentEnds(fees: Fees, date: string, totals: seq<OwnerTotal>)
    requires ToPay(fees, date, totals, |totals|)
    ensures PayableRows(fees, date) == {}
  {
  }

  // ----- The whole run -----

  /** What a run may do: rows move forward only, and only rows of its date. */
  ghost predicate RunAdvances(a: Fees, b: Fees, date: string) {
    && Advances(a, b)
    && forall k <- b :: k.date != date ==> k in a && b[k] == a[k]
  }

  lemma RunAdvancesTransitive(a: Fees, b: Fees, c: Fees, date: string)
    requires RunAdvances(a, b, date) && RunAdvances(b, c, date)
    ensures RunAdvances(a, c, date)
  {
  }

  lemma CollectingAdvances(a: View, b: View, date: string)
    requires Collects(a, b, date)
    ensures RunAdvances(a.fees, b.fees, date)
  {
    forall k <- a.fees
      ensures RowAdvances(a.fees[k], b.fees[k]) && (k.date != date ==> b.fees[k] == a.fees[k])
    {
      assert RowCollects(a, b, k, date);
    }
  }

  lemma PayingAdvances(start: Fees, a: Fees, b: Fees, date: string)
    requires Pays(a, b, date)
    ensures RunAdvances(a, b, date)
    ensures UnprocessedRows(a, date) == {} ==> UnprocessedRows(b, date) == {}
    ensures Evicted(start, b) == Evicted(start, a)
  {
    assert forall l <- a :: l !in UnprocessedRows(a, date) ==> l !in UnprocessedRows(b, date);
    assert forall k <- a :: a[k].collectState == b[k].collectState;
  }

  /** A row the run of its date is through with. */
  predicate Settled(row: RentalFee) {
    || (row.collectState.UNINSTALLED? && row.paymentState.UNPAID?)
    || (row.collectState.COLLECTED? && row.paymentState.PAID?)
  }

  lemma AllSettled(fees: Fees, users: set<Id>, date: string)
    requires RowsOk(fees, users) && UnprocessedRows(fees, date) == {} && PayableRows(fees, date) == {}
    ensures forall k <- fees :: k.date == date ==> Settled(fees[k])
  {
    forall k <- fees | k.date == date
      ensures Settled(fees[k])
    {
      assert k !in UnprocessedRows(fees, date) && k !in PayableRows(fees, date) && RowOk(fees[k], users);
    }
  }

  /** A machine that is still placed has paid its rent for the date, or stands in its owner's own game
      center, or one of the two has no owner. */
  predicate NoFreeRide(m: Machine, k: Key, fees: Fees, date: int) {
    m.gameCenter.Some? && InstalledBefore(m, date) ==>
      && m.autoRenewLease && m.gameCenter.value.placementAllowed
      && (m.userId.Some? && m.gameCenter.value.userId.Some? && m.userId != m.gameCenter.value.userId ==>
            k in fees && fees[k].collectState.COLLECTED? && fees[k].paymentState.PAID?)
  }

  /** What the two removal steps leave behind. */
  predicate Cleared(m: Machine, date: int) {
    m.gameCenter.Some? && InstalledBefore(m, date) ==> m.autoRenewLease && m.gameCenter.value.placementAllowed
  }

  ghost predicate AllDue(a: View, dateStr: string, date: int) {
    && (forall m <- a.machines :: Cleared(a.machines[m], date))
    && (forall m <- a.machines :: OwesRent(a.machines[m], date) ==>
          Key(dateStr, m) in a.fees && a.fees[Key(dateStr, m)].collectState.UNPROCESSED?)
  }

  lemma NoFreeRides(a: View, b: View, dateStr: string, date: int)
    requires AllDue(a, dateStr, date)
    requires b.fees.Keys == a.fees.Keys && b.machines == Uninstalled(a.machines, Evicted(a.fees, b.fees))
    requires forall k <- b.fees :: k.date == dateStr ==> Settled(b.fees[k])
    ensures forall m <- b.machines :: NoFreeRide(b.machines[m], Key(dateStr, m), b.fees, date)
  {
  }
}
