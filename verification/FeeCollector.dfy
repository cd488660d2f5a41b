/** One executor of the daily rent run, transaction by transaction. Before each transaction the rest of
    the system may move Teras and the process may crash, as an arbitrary world decides; what a crash
    leaves behind, the next run picks up. */
module FeeCollector {
  import opened Collections
  import opened RentSettlement
  import opened RentSteps

  class Settlement {
    const world: nat -> Disturbance
    ghost const opening: Balances
    var balances: Balances
    var fees: Fees
    var machines: Machines
    var tick: nat
    ghost var accepted: seq<Accepted>
    ghost var refusals: seq<Refusal>

    /** The balances are the opening balances plus the accepted moves of the world plus rent taken and
        given; see RentSettlement.LedgerOf. */
    ghost predicate Valid()
      reads this
    {
      && Ledger(balances, fees, After(opening, accepted))
      && balances.Keys == opening.Keys
      && RowsOk(fees, balances.Keys)
      && MachinesOk(machines, balances.Keys)
      && (forall a <- accepted {:trigger FromWorld(world, tick, a)} :: FromWorld(world, tick, a))
    }

    ghost function Now(): View
      reads this
    {
      View(fees, machines, refusals)
    }

    constructor (world: nat -> Disturbance, opening: Balances, machines: Machines)
      requires forall u <- opening :: opening[u] >= 0
      requires MachinesOk(machines, opening.Keys)
      ensures Valid() && fees == map[] && this.machines == machines
      ensures this.world == world && this.opening == opening && balances == opening && accepted == []
    {
      this.world, this.opening, this.balances, this.machines := world, opening, opening, machines;
      fees, tick, accepted, refusals := map[], 0, [], [];
      new;
      forall u {:trigger LedgerOf(balances, fees, opening, u)}
        ensures LedgerOf(balances, fees, opening, u)
      {
        assert DebitedRows(fees, u) == {} && CreditedRows(fees, u) == {};
        SumNone(fees);
      }
    }

    method Apply(ghost at: nat, m: Move)
      requires Valid() && at < tick && m in world(at).moves
      modifies `balances, `accepted
      ensures Valid() && old(accepted) <= accepted
    {
      if m.user in balances && balances[m.user] + m.delta >= 0 {
        ghost var outside := After(opening, accepted);
        LedgerAfterMove(balances, fees, outside, m);
        balances := balances[m.user := balances[m.user] + m.delta];
        accepted := accepted + [Accepted(at, m)];
        assert accepted[..|accepted| - 1] == old(accepted);
        assert balances == Moved(old(balances), m);
        assert After(opening, accepted) == Moved(outside, m);
      }
    }

    /** Whatever happens between two transactions. */
    method Disturb() returns (crash: bool)
      requires Valid()
      modifies `balances, `tick, `accepted
      ensures Valid() && tick == old(tick) + 1 && old(accepted) <= accepted
      ensures crash == world(old(tick)).crash
    {
      crash := world(tick).crash;
      var moves := world(tick).moves;
      tick := tick + 1;
      assert forall a <- accepted :: FromWorld(world, old(tick), a);
      for i := 0 to |moves|
        invariant Valid() && tick == old(tick) + 1 && old(accepted) <= accepted
      {
        Apply(old(tick), moves[i]);
      }
    }

    // ----- Transactions -----

    /** The rows of the rent due on a date, unless the date has rows already. */
    method InsertCollectData(dateStr: string, date: int)
      requires Valid()
      modifies `fees
      ensures Valid()
      ensures (exists k :: k in old(fees) && k.date == dateStr) ==> fees == old(fees)
      ensures (forall k <- old(fees) :: k.date != dateStr) ==>
                && RentRecorded(fees, machines, dateStr, date)
                && (forall k <- fees :: k.date == dateStr ==> fees[k].collectState.UNPROCESSED? && fees[k].paymentState.UNPAID?)
      ensures RunAdvances(old(fees), fees, dateStr)
    {
      if k :| k in fees && k.date == dateStr {
        return;
      }
      LedgerAfterInsert(balances, fees, After(opening, accepted), dateStr, machines, date);
      NewRowsOk(fees, balances.Keys, dateStr, machines, date);
      NewRowsRecordRent(fees, machines, dateStr, date);
      fees := fees + NewRows(dateStr, machines, date);
    }

    /** The two updates of a collecting transaction, once its checks have passed. */
    method Debit(owner: Id, rows: set<Key>, amount: int)
      requires Valid() && owner in balances
      requires forall k <- rows :: k in fees && fees[k].collectState.UNPROCESSED? && fees[k].arcadeMachineOwnerId == owner
      requires amount == SumFees(fees, rows) && balances[owner] >= amount
      modifies `balances, `fees
      ensures Valid()
      ensures balances == old(balances)[owner := old(balances)[owner] - amount]
      ensures fees == SetCollect(old(fees), rows, COLLECTED)
    {
      LedgerAfterCollecting(balances, fees, After(opening, accepted), owner, rows);
      CollectKeepsRows(fees, balances.Keys, rows, COLLECTED);
      balances := balances[owner := balances[owner] - amount];
      fees := SetCollect(fees, rows, COLLECTED);
    }

    /** The database turns a debit down. */
    method Refuse(user: Id, amount: int)
      requires Valid() && user in balances && balances[user] < amount
      modifies `refusals
      ensures Valid()
      ensures refusals == old(refusals) + [Refusal(user, balances[user], amount)]
    {
      refusals := refusals + [Refusal(user, balances[user], amount)];
    }

    /** One debit for all the rows of an owner. */
    method BulkCollect(date: string, row: OwnerTotal) returns (r: Commit)
      requires Valid() && row.owner in balances
      requires row.sumFees == SumFees(fees, UnprocessedOf(fees, date, row.owner))
      modifies `balances, `fees, `refusals
      ensures Valid()
      ensures r.TerasBalanceOverZero? <==> old(balances)[row.owner] < row.sumFees
      ensures r.IllegalState? <==> old(balances)[row.owner] >= row.sumFees
                                   && |UnprocessedOf(old(fees), date, row.owner)| != row.count
      ensures r.Committed? ==>
                && balances == old(balances)[row.owner := old(balances)[row.owner] - row.sumFees]
                && fees == SetCollect(old(fees), UnprocessedOf(old(fees), date, row.owner), COLLECTED)
      ensures !r.Committed? ==> balances == old(balances) && fees == old(fees)
      ensures Collects(old(Now()), Now(), date)
      ensures r.TerasBalanceOverZero? ==> RefusedSince(old(Now()), Now(), row.owner)
    {
      if balances[row.owner] < row.sumFees {
        RefusingIsAllowed(Now(), date, Refusal(row.owner, balances[row.owner], row.sumFees));
        Refuse(row.owner, row.sumFees);
        return TerasBalanceOverZero;
      }
      var rows := UnprocessedOf(fees, date, row.owner);
      if |rows| != row.count {
        return IllegalState;
      }
      CollectingIsAllowed(Now(), date, rows);
      Debit(row.owner, rows, row.sumFees);
      return Committed;
    }

    /** One debit for one row. */
    method CollectRow(k: Key) returns (r: Commit)
      requires Valid() && k in fees
      modifies `balances, `fees, `refusals
      ensures Valid()
      ensures var row := old(fees)[k]; var owner := row.arcadeMachineOwnerId;
              && (r.TerasBalanceOverZero? <==> old(balances)[owner] < row.fee)
              && (r.IllegalState? <==> old(balances)[owner] >= row.fee && !row.collectState.UNPROCESSED?)
              && (r.Committed? ==> balances == old(balances)[owner := old(balances)[owner] - row.fee]
                                   && fees == SetCollect(old(fees), {k}, COLLECTED))
              && (r.TerasBalanceOverZero? ==> RefusedSince(old(Now()), Now(), owner))
      ensures !r.Committed? ==> balances == old(balances) && fees == old(fees)
      ensures Collects(old(Now()), Now(), k.date)
    {
      var owner := fees[k].arcadeMachineOwnerId;
      if balances[owner] < fees[k].fee {
        RefusingIsAllowed(Now(), k.date, Refusal(owner, balances[owner], fees[k].fee));
        Refuse(owner, fees[k].fee);
        return TerasBalanceOverZero;
      }
      if !fees[k].collectState.UNPROCESSED? {
        return IllegalState;
      }
      SumOne(fees, k);
      CollectingIsAllowed(Now(), k.date, {k});
      Debit(owner, {k}, fees[k].fee);
      return Committed;
    }

    /** The row is given up and its machine leaves the game center. */
    method EvictRow(k: Key) returns (r: Commit)
      requires Valid() && k in fees
      modifies `fees, `machines
      ensures Valid()
      ensures r == if old(fees)[k].collectState.UNPROCESSED? then Committed else IllegalState
      ensures r.Committed? ==> && fees == SetCollect(old(fees), {k}, UNINSTALLED)
                               && machines == Uninstalled(old(machines), {k.arcadeMachineId})
      ensures !r.Committed? ==> fees == old(fees) && machines == old(machines)
    {
      if !fees[k].collectState.UNPROCESSED? {
        return IllegalState;
      }
      LedgerAfterEviction(balances, fees, After(opening, accepted), {k});
      CollectKeepsRows(fees, balances.Keys, {k}, UNINSTALLED);
      fees := SetCollect(fees, {k}, UNINSTALLED);
      MachinesStayOk(machines, Uninstalled(machines, {k.arcadeMachineId}), balances.Keys);
      machines := Uninstalled(machines, {k.arcadeMachineId});
      return Committed;
    }

    /** One credit for all the rows of a game center owner; the update does not ask for unpaid rows. */
    method Pay(date: string, row: OwnerTotal) returns (r: Commit)
      requires Valid() && row.owner in balances && UnprocessedRows(fees, date) == {}
      requires row.sumFees == SumFees(fees, PayableFor(fees, date, row.owner))
      requires row.count == |PayableFor(fees, date, row.owner)| > 0
      modifies `balances, `fees
      ensures Valid() && r.Committed?
      ensures balances == old(balances)[row.owner := old(balances)[row.owner] + row.sumFees]
      ensures fees == SetPaid(old(fees), PayableFor(old(fees), date, row.owner))
    {
      var rows := CollectedFor(fees, date, row.owner);
      NonePaidBefore(fees, balances.Keys, date, row.owner);
      if |rows| != row.count {
        return IllegalState;
      }
      SumNonNegative(fees, rows);
      PayKeepsRows(fees, balances.Keys, date, row.owner);
      LedgerAfterPayingIff(balances, fees, After(opening, accepted), date, row.owner, row.sumFees);
      balances := balances[row.owner := balances[row.owner] + row.sumFees];
      fees := SetPaid(fees, rows);
      return Committed;
    }

    // ----- The run -----

    /** Collects from one machine owner: all at once, or, when the balance does not allow it, row by row
        until a debit is refused; from then on the rows are given up. */
    method CollectFrom(date: string, row: OwnerTotal) returns (o: Outcome)
      requires Valid() && row.owner in balances
      requires row.sumFees == SumFees(fees, UnprocessedOf(fees, date, row.owner))
      requires row.count == |UnprocessedOf(fees, date, row.owner)|
      modifies this
      ensures Valid() && !o.Threw? && old(accepted) <= accepted
      ensures CollectsFrom(old(Now()), Now(), date, row.owner)
      ensures o.Finished? ==> UnprocessedOf(fees, date, row.owner) == {}
    {
      ghost var start := Now();
      NothingCollected(start, date, row.owner);
      var crash := Disturb();
      if crash {
        return Crashed;
      }
      ghost var seen := accepted;
      var terasBalance := balances[row.owner];
      var success := false;
      if terasBalance >= row.sumFees {
        o, success := TryBulk(start, date, row);
        PrefixTransitive(old(accepted), seen, accepted);
        if o != Finished || success {
          return;
        }
        seen := accepted;
      }
      o := CollectRowByRow(start, date, row.owner);
      PrefixTransitive(old(accepted), seen, accepted);
    }

    method TryBulk(ghost start: View, date: string, row: OwnerTotal) returns (o: Outcome, success: bool)
      requires Valid() && row.owner in balances
      requires row.sumFees == SumFees(fees, UnprocessedOf(fees, date, row.owner))
      requires row.count == |UnprocessedOf(fees, date, row.owner)|
      requires CollectsFrom(start, Now(), date, row.owner)
      modifies this
      ensures Valid() && !o.Threw? && old(accepted) <= accepted && balances.Keys == old(balances.Keys)
      ensures CollectsFrom(start, Now(), date, row.owner)
      ensures o.Finished? && success ==> UnprocessedOf(fees, date, row.owner) == {}
    {
      var crash := Disturb();
      if crash {
        return Crashed, false;
      }
      var r := BulkCollect(date, row);
      CollectingGoesOn(start, old(Now()), Now(), date, row.owner, old(UnprocessedOf(fees, date, row.owner)));
      return if r.IllegalState? then Threw else Finished, r.Committed?;
    }

    method CollectRowByRow(ghost start: View, date: string, owner: Id) returns (o: Outcome)
      requires Valid() && CollectsFrom(start, Now(), date, owner)
      modifies this
      ensures Valid() && !o.Threw? && old(accepted) <= accepted
      ensures CollectsFrom(start, Now(), date, owner)
      ensures o.Finished? ==> UnprocessedOf(fees, date, owner) == {}
    {
      var crash := Disturb();
      if crash {
        return Crashed;
      }
      var ownerArcadeMachineFees := ListOf(UnprocessedOf(fees, date, owner));
      var lowerTerasBalanced := false;
      for i := 0 to |ownerArcadeMachineFees|
        invariant Valid() && old(accepted) <= accepted
        invariant CollectsFrom(start, Now(), date, owner)
        invariant lowerTerasBalanced ==> RefusedSince(start, Now(), owner)
        invariant UnprocessedOf(fees, date, owner) == ItemsFrom(ownerArcadeMachineFees, i)
      {
        ItemsFromNext(ownerArcadeMachineFees, i);
        o, lowerTerasBalanced := CollectOrEvict(start, date, owner, ownerArcadeMachineFees[i], lowerTerasBalanced);
        if o != Finished {
          return;
        }
      }
      return Finished;
    }

    method CollectOrEvict(ghost start: View, date: string, owner: Id, amFee: Key, lower: bool)
      returns (o: Outcome, lowerTerasBalanced: bool)
      requires Valid() && amFee in UnprocessedOf(fees, date, owner)
      requires CollectsFrom(start, Now(), date, owner)
      requires lower ==> RefusedSince(start, Now(), owner)
      modifies this
      ensures Valid() && !o.Threw? && old(accepted) <= accepted
      ensures CollectsFrom(start, Now(), date, owner)
      ensures lowerTerasBalanced ==> RefusedSince(start, Now(), owner)
      ensures o.Finished? ==> UnprocessedOf(fees, date, owner) == old(UnprocessedOf(fees, date, owner)) - {amFee}
    {
      lowerTerasBalanced := lower;
      o := Finished;
      if !lowerTerasBalanced {
        o, lowerTerasBalanced := TryToCollect(start, date, owner, amFee);
      }
      if o.Finished? && lowerTerasBalanced {
        o := GiveUp(start, date, owner, amFee);
      }
    }

    method TryToCollect(ghost start: View, date: string, owner: Id, amFee: Key)
      returns (o: Outcome, lowerTerasBalanced: bool)
      requires Valid() && amFee in UnprocessedOf(fees, date, owner)
      requires CollectsFrom(start, Now(), date, owner)
      modifies this
      ensures Valid() && !o.Threw? && old(accepted) <= accepted
      ensures CollectsFrom(start, Now(), date, owner)
      ensures lowerTerasBalanced ==> RefusedSince(start, Now(), owner)
      ensures UnprocessedOf(fees, date, owner) ==
              old(UnprocessedOf(fees, date, owner)) - (if o.Finished? && !lowerTerasBalanced then {amFee} else {})
    {
      var crash := Disturb();
      if crash {
        return Crashed, false;
      }
      var r := CollectRow(amFee);
      CollectingGoesOn(start, old(Now()), Now(), date, owner, {amFee});
      return if r.IllegalState? then Threw else Finished, r.TerasBalanceOverZero?;
    }

    method GiveUp(ghost start: View, date: string, owner: Id, amFee: Key) returns (o: Outcome)
      requires Valid() && amFee in UnprocessedOf(fees, date, owner)
      requires CollectsFrom(start, Now(), date, owner) && RefusedSince(start, Now(), owner)
      modifies this
      ensures Valid() && !o.Threw? && old(accepted) <= accepted
      ensures CollectsFrom(start, Now(), date, owner) && RefusedSince(start, Now(), owner)
      ensures o.Finished? ==> UnprocessedOf(fees, date, owner) == old(UnprocessedOf(fees, date, owner)) - {amFee}
    {
      var crash := Disturb();
      if crash {
        return Crashed;
      }
      EvictionGoesOn(start, Now(), date, owner, amFee);
      var r := EvictRow(amFee);
      return if r.Committed? then Finished else Threw;
    }

    /** Collects the rent of a date. When it gets to the end, no row is left UNPROCESSED. */
    method CollectFees(date: string) returns (o: Outcome)
      requires Valid()
      modifies this
      ensures Valid() && !o.Threw? && old(accepted) <= accepted
      ensures Collects(old(Now()), Now(), date)
      ensures o.Finished? ==> UnprocessedRows(fees, date) == {}
    {
      NothingCollected(Now(), date, 0);
      var totals := TotalsBy(fees, UnprocessedRows(fees, date), (r: RentalFee) => r.arcadeMachineOwnerId);
      CollectionStarts(fees, date, totals);
      for i := 0 to |totals|
        invariant Valid() && old(accepted) <= accepted
        invariant Collects(old(Now()), Now(), date)
        invariant ToCollect(fees, date, totals, i)
      {
        ghost var before := Now();
        OwnerExists(fees, balances.Keys, date, totals[i]);
        o := CollectFrom(date, totals[i]);
        CollectsTransitive(old(Now()), before, Now(), date);
        if o != Finished {
          return;
        }
        CollectionAdvances(before, Now(), date, totals, i);
      }
      CollectionEnds(fees, date, totals);
      return Finished;
    }

    method PayOne(ghost start: Fees, date: string, gcFees: seq<OwnerTotal>, i: nat) returns (o: Outcome)
      requires Valid() && i < |gcFees|
      requires UnprocessedRows(start, date) == {} && Pays(start, fees, date) && ToPay(fees, date, gcFees, i)
      modifies `balances, `fees, `tick, `accepted
      ensures Valid() && !o.Threw? && old(accepted) <= accepted
      ensures Pays(start, fees, date)
      ensures o.Finished? ==> ToPay(fees, date, gcFees, i + 1)
    {
      var crash := Disturb();
      if crash {
        return Crashed;
      }
      PayeeExists(fees, balances.Keys, date, gcFees[i]);
      PayingGoesOn(start, fees, date, gcFees[i].owner);
      PaymentAdvances(fees, date, gcFees, i);
      var r := Pay(date, gcFees[i]);
      return Finished;
    }

    /** Pays the collected rent of a date to the game center owners. A failed payment would be logged and
        skipped; none fails, and when it gets to the end, no collected row is left unpaid. */
    method PayFees(date: string) returns (o: Outcome)
      requires Valid() && UnprocessedRows(fees, date) == {}
      modifies this
      ensures Valid() && !o.Threw? && old(accepted) <= accepted
      ensures Pays(old(fees), fees, date) && machines == old(machines) && refusals == old(refusals)
      ensures o.Finished? ==> PayableRows(fees, date) == {}
    {
      var gcFees := TotalsBy(fees, PayableRows(fees, date), (r: RentalFee) => r.gameCenterOwnerId);
      PaymentStarts(fees, date, gcFees);
      for i := 0 to |gcFees|
        invariant Valid() && old(accepted) <= accepted && machines == old(machines) && refusals == old(refusals)
        invariant Pays(old(fees), fees, date)
        invariant ToPay(fees, date, gcFees, i)
      {
        o := PayOne(old(fees), date, gcFees, i);
        if o != Finished {
          return;
        }
      }
      PaymentEnds(fees, date, gcFees);
      return Finished;
    }

    method CollectAndPay(date: string) returns (o: Outcome)
      requires Valid()
      modifies this
      ensures Valid() && !o.Threw? && old(accepted) <= accepted
      ensures o.Finished? ==> forall k <- fees :: k.date == date ==> Settled(fees[k])
      ensures RunAdvances(old(fees), fees, date) && fees.Keys == old(fees.Keys)
      ensures machines == Uninstalled(old(machines), Evicted(old(fees), fees))
    {
      o := CollectFees(date);
      CollectingAdvances(old(Now()), Now(), date);
      if o != Finished {
        return;
      }
      ghost var collected := fees;
      o := PayFees(date);
      PayingAdvances(old(fees), collected, fees, date);
      RunAdvancesTransitive(old(fees), collected, fees, date);
      if o.Finished? {
        AllSettled(fees, balances.Keys, date);
      }
    }

    /** No machine installed before the date stays placed without renewal; every other one is untouched. */
    method RemoveArcadeMachinesWithAutomaticRenewDisabled(date: int)
      requires Valid()
      modifies `machines
      ensures Valid() && machines.Keys == old(machines.Keys)
      ensures forall m <- machines :: machines[m].gameCenter.Some? && InstalledBefore(machines[m], date) ==> machines[m].autoRenewLease
      ensures forall m <- machines :: machines[m] != old(machines)[m] ==>
                && TakenOut(old(machines)[m], machines[m])
                && !old(machines)[m].autoRenewLease && InstalledBefore(old(machines)[m], date)
      ensures forall m <- machines :: !machines[m].autoRenewLease && InstalledBefore(machines[m], date) ==> machines[m].position.None?
    {
      MachinesStayOk(machines, Removed(machines, NotRenewed(machines, date)), balances.Keys);
      machines := Removed(machines, NotRenewed(machines, date));
    }

    /** No machine installed before the date stays in a closed center; every other one is untouched. */
    method RemoveArcadeMachinesInPlacementNotAllowedGameCenters(date: int)
      requires Valid()
      modifies `machines
      ensures Valid() && machines.Keys == old(machines.Keys)
      ensures forall m <- machines ::
                machines[m].gameCenter.Some? && InstalledBefore(machines[m], date) ==> machines[m].gameCenter.value.placementAllowed
      ensures forall m <- machines :: machines[m] != old(machines)[m] ==>
                && TakenOut(old(machines)[m], machines[m])
                && old(machines)[m].gameCenter.Some? && !old(machines)[m].gameCenter.value.placementAllowed
                && InstalledBefore(old(machines)[m], date)
    {
      MachinesStayOk(machines, Removed(machines, PlacementNotAllowed(machines, date)), balances.Keys);
      machines := Removed(machines, PlacementNotAllowed(machines, date));
    }

    /** Both removals: what stays is renewed and stands in an open center, and what goes owed no rent. */
    method RemoveMachines(date: int)
      requires Valid()
      modifies `machines
      ensures Valid() && machines.Keys == old(machines.Keys)
      ensures forall m <- machines :: Cleared(machines[m], date)
      ensures forall m <- machines :: machines[m] == old(machines)[m]
                                      || (!OwesRent(old(machines)[m], date) && !OwesRent(machines[m], date)
                                          && Leaves(old(machines)[m], date) && TakenOut(old(machines)[m], machines[m]))
    {
      RemoveArcadeMachinesWithAutomaticRenewDisabled(date);
      RemoveArcadeMachinesInPlacementNotAllowedGameCenters(date);
    }

    /** The removal steps and the rows of the day. */
    method Prepare(dateStr: string, date: int) returns (o: Outcome)
      requires Valid()
      modifies this
      ensures Valid() && !o.Threw? && old(accepted) <= accepted
      ensures RunAdvances(old(fees), fees, dateStr)
      ensures !o.Finished? ==> fees == old(fees)
      ensures machines.Keys == old(machines.Keys)
      ensures forall m <- machines :: machines[m] == old(machines)[m]
                                      || (Leaves(old(machines)[m], date) && TakenOut(old(machines)[m], machines[m]))
      ensures o.Finished? && (forall k <- old(fees) :: k.date != dateStr) ==>
                AllDue(Now(), dateStr, date) && RentRecorded(fees, old(machines), dateStr, date)
    {
      RemoveMachines(date);
      var crash := Disturb();
      if crash {
        return Crashed;
      }
      InsertCollectData(dateStr, date);
      if forall k <- old(fees) :: k.date != dateStr {
        RentOfAllMachines(fees, old(machines), machines, dateStr, date);
      }
      return Finished;
    }

    /** The whole run. Started again after any number of crashes, it settles every row of the date once:
        Valid is all it needs, and Valid keeps the ledger exact. The first run of a date leaves no
        machine in a game center that has not paid, and charges exactly the machines that owe rent, their
        owners and for the owners of their centers. A machine goes for one of the three reasons only. */
    method Execute(dateStr: string, date: int) returns (o: Outcome)
      requires Valid()
      modifies this
      ensures Valid() && !o.Threw? && old(accepted) <= accepted
      ensures RunAdvances(old(fees), fees, dateStr)
      ensures o.Finished? ==> forall k <- fees :: k.date == dateStr ==> Settled(fees[k])
      ensures o.Finished? && (forall k <- old(fees) :: k.date != dateStr) ==>
                forall m <- machines :: NoFreeRide(machines[m], Key(dateStr, m), fees, date)
      ensures (forall k <- old(fees) :: k.date != dateStr) ==>
                RentRecorded(fees, old(machines), dateStr, date) || (!o.Finished? && fees == old(fees))
      ensures forall m <- old(machines) :: m in machines && StaysOrGoes(old(machines)[m], machines[m], Key(dateStr, m), fees, date)
    {
      o := Prepare(dateStr, date);
      if o != Finished {
        return;
      }
      ghost var due := Now();
      o := CollectAndPay(dateStr);
      MachinesGoForAReason(old(machines), due.machines, due.fees, fees, dateStr, date);
      RunAdvancesTransitive(old(fees), due.fees, fees, dateStr);
      if forall k <- old(fees) :: k.date != dateStr {
        RentStaysRecorded(due.fees, fees, old(machines), dateStr, date);
        if o.Finished? {
          NoFreeRides(due, Now(), dateStr, date);
        }
      }
    }
  }
}
