/** The daily rent run of src/use_cases/collect_fee_usecase.ts. Between any two of its transactions
    other parts of the system may move Teras, and the process may crash; a later run starts over. */
module RentSettlement {
  import opened Collections
  import opened Common
  import Sums

  type Id = nat

  datatype CollectState = UNPROCESSED | COLLECTED | UNINSTALLED

  datatype PaymentState = UNPAID | PAID

  /** A row of rental_fees; its key is the date and the machine. */
  datatype Key = Key(date: string, arcadeMachineId: Id)

  datatype RentalFee = RentalFee(
    arcadeMachineOwnerId: Id,
    gameCenterOwnerId: Id,
    fee: nat,
    collectState: CollectState,
    paymentState: PaymentState
  )

  type Fees = map<Key, RentalFee>
  type Balances = map<Id, int>

  /** A change of one balance made elsewhere; the database refuses it if the balance would be negative. */
  datatype Move = Move(user: Id, delta: int)

  function Moved(balances: Balances, move: Move): Balances {
    if move.user in balances then balances[move.user := balances[move.user] + move.delta] else balances
  }

  // ----- Which rows -----

  function UnprocessedRows(fees: Fees, date: string): set<Key> {
    set k | k in fees && k.date == date && fees[k].collectState.UNPROCESSED?
  }

  function UnprocessedOf(fees: Fees, date: string, owner: Id): set<Key> {
    set k | k in fees && k.date == date && fees[k].collectState.UNPROCESSED? && fees[k].arcadeMachineOwnerId == owner
  }

  function CollectedFor(fees: Fees, date: string, owner: Id): set<Key> {
    set k | k in fees && k.date == date && fees[k].collectState.COLLECTED? && fees[k].gameCenterOwnerId == owner
  }

  function PayableFor(fees: Fees, date: string, owner: Id): set<Key> {
    set k | k in fees && k.date == date && fees[k].collectState.COLLECTED? && fees[k].paymentState.UNPAID?
            && fees[k].gameCenterOwnerId == owner
  }

  /** Rows whose rent was taken from u, and rows whose rent was given to u. */
  function DebitedRows(fees: Fees, u: Id): set<Key> {
    set k | k in fees && fees[k].collectState.COLLECTED? && fees[k].arcadeMachineOwnerId == u
  }

  function CreditedRows(fees: Fees, u: Id): set<Key> {
    set k | k in fees && fees[k].paymentState.PAID? && fees[k].gameCenterOwnerId == u
  }

  // ----- Sums of fees -----

  ghost function FeeIn(fees: Fees, rows: set<Key>): map<Key, int> {
    map k | k in fees :: if k in rows then fees[k].fee else 0
  }

  ghost function SumFees(fees: Fees, rows: set<Key>): int {
    Sums.Sum(FeeIn(fees, rows))
  }

  lemma SumNone(fees: Fees)
    ensures SumFees(fees, {}) == 0
  {
    Sums.SumZero(FeeIn(fees, {}));
  }

  lemma SumDisjoint(fees: Fees, a: set<Key>, b: set<Key>)
    requires a !! b
    ensures SumFees(fees, a + b) == SumFees(fees, a) + SumFees(fees, b)
  {
    Sums.SumPlus(FeeIn(fees, a), FeeIn(fees, b), FeeIn(fees, a + b));
  }

  lemma SumOne(fees: Fees, k: Key)
    requires k in fees
    ensures SumFees(fees, {k}) == fees[k].fee
  {
    Sums.SumRemove(FeeIn(fees, {k}), k);
    Sums.SumZero(FeeIn(fees, {k}) - {k});
  }

  lemma SumNonNegative(fees: Fees, rows: set<Key>)
    ensures SumFees(fees, rows) >= 0
  {
    SumNone(fees);
    Sums.SumMonotone(FeeIn(fees, {}), FeeIn(fees, rows));
  }

  // ----- The rows over time -----

  /** Only collected rent is paid out, and both parties are users. */
  predicate RowOk(row: RentalFee, users: set<Id>) {
    && (row.paymentState.PAID? ==> row.collectState.COLLECTED?)
    && row.arcadeMachineOwnerId in users && row.gameCenterOwnerId in users
  }

  predicate SameTerms(a: RentalFee, b: RentalFee) {
    a.arcadeMachineOwnerId == b.arcadeMachineOwnerId && a.gameCenterOwnerId == b.gameCenterOwnerId && a.fee == b.fee
  }

  /** A row moves forward only: it is collected or evicted once, and paid once, after collection. */
  predicate RowAdvances(a: RentalFee, b: RentalFee) {
    && SameTerms(a, b)
    && (a.collectState.UNPROCESSED? || b.collectState == a.collectState)
    && (a.paymentState.PAID? ==> b.paymentState.PAID?)
    && (b.paymentState.PAID? ==> b.collectState.COLLECTED? || a.paymentState.PAID?)
  }

  ghost predicate Advances(a: Fees, b: Fees) {
    forall k <- a :: k in b && RowAdvances(a[k], b[k])
  }

  lemma AdvancesTransitive(a: Fees, b: Fees, c: Fees)
    requires Advances(a, b) && Advances(b, c)
    ensures Advances(a, c)
  {
  }

  // ----- Transactions on the rows -----

  function SetCollect(fees: Fees, rows: set<Key>, state: CollectState): Fees {
    map k | k in fees :: if k in rows then fees[k].(collectState := state) else fees[k]
  }

  function SetPaid(fees: Fees, rows: set<Key>): Fees {
    map k | k in fees :: if k in rows then fees[k].(paymentState := PAID) else fees[k]
  }

  lemma SumsUnderSetCollect(fees: Fees, rows: set<Key>, state: CollectState, some: set<Key>)
    ensures SumFees(SetCollect(fees, rows, state), some) == SumFees(fees, some)
  {
    assert FeeIn(SetCollect(fees, rows, state), some) == FeeIn(fees, some);
  }

  lemma SumsUnderSetPaid(fees: Fees, rows: set<Key>, some: set<Key>)
    ensures SumFees(SetPaid(fees, rows), some) == SumFees(fees, some)
  {
    assert FeeIn(SetPaid(fees, rows), some) == FeeIn(fees, some);
  }

  // ----- The ledger -----

  /** u's balance is what it would be without rent, less the rent taken from u, plus the rent given to u.
      Each row enters each sum at most once, so nothing is debited or credited twice. */
  ghost predicate LedgerOf(balances: Balances, fees: Fees, outside: Balances, u: Id) {
    u in balances ==>
      && u in outside
      && balances[u] == outside[u] - SumFees(fees, DebitedRows(fees, u)) + SumFees(fees, CreditedRows(fees, u))
      && balances[u] >= 0
  }

  ghost predicate Ledger(balances: Balances, fees: Fees, outside: Balances) {
    forall u {:trigger LedgerOf(balances, fees, outside, u)} :: LedgerOf(balances, fees, outside, u)
  }

  lemma LedgerAfterCollecting(balances: Balances, fees: Fees, outside: Balances, owner: Id, rows: set<Key>)
    requires Ledger(balances, fees, outside) && owner in balances
    requires forall k <- rows :: k in fees && fees[k].collectState.UNPROCESSED? && fees[k].arcadeMachineOwnerId == owner
    requires balances[owner] >= SumFees(fees, rows)
    ensures Ledger(balances[owner := balances[owner] - SumFees(fees, rows)], SetCollect(fees, rows, COLLECTED), outside)
  {
    var fees' := SetCollect(fees, rows, COLLECTED);
    var balances' := balances[owner := balances[owner] - SumFees(fees, rows)];
    forall u {:trigger LedgerOf(balances', fees', outside, u)}
      ensures LedgerOf(balances', fees', outside, u)
    {
      assert LedgerOf(balances, fees, outside, u);
      assert CreditedRows(fees', u) == CreditedRows(fees, u);
      assert DebitedRows(fees', u) == if u == owner then DebitedRows(fees, u) + rows else DebitedRows(fees, u);
      SumDisjoint(fees, DebitedRows(fees, owner), rows);
      SumsUnderSetCollect(fees, rows, COLLECTED, DebitedRows(fees', u));
      SumsUnderSetCollect(fees, rows, COLLECTED, CreditedRows(fees', u));
    }
  }

  lemma LedgerAfterEviction(balances: Balances, fees: Fees, outside: Balances, rows: set<Key>)
    requires Ledger(balances, fees, outside)
    requires forall k <- rows :: k in fees && fees[k].collectState.UNPROCESSED?
    ensures Ledger(balances, SetCollect(fees, rows, UNINSTALLED), outside)
  {
    var fees' := SetCollect(fees, rows, UNINSTALLED);
    forall u {:trigger LedgerOf(balances, fees', outside, u)}
      ensures LedgerOf(balances, fees', outside, u)
    {
      assert LedgerOf(balances, fees, outside, u);
      assert CreditedRows(fees', u) == CreditedRows(fees, u);
      assert DebitedRows(fees', u) == DebitedRows(fees, u);
      SumsUnderSetCollect(fees, rows, UNINSTALLED, DebitedRows(fees', u));
      SumsUnderSetCollect(fees, rows, UNINSTALLED, CreditedRows(fees', u));
    }
  }

  /** Paying the given amount and marking the owner's COLLECTED rows keeps the ledger exactly when the
      amount is the rent of those rows not paid before. */
  lemma LedgerAfterPayingIff(balances: Balances, fees: Fees, outside: Balances, date: string, owner: Id, amount: nat)
    requires Ledger(balances, fees, outside) && owner in balances
    ensures Ledger(balances[owner := balances[owner] + amount], SetPaid(fees, CollectedFor(fees, date, owner)), outside)
       <==> amount == SumFees(fees, PayableFor(fees, date, owner))
  {
    var rows, payable := CollectedFor(fees, date, owner), PayableFor(fees, date, owner);
    var fees' := SetPaid(fees, rows);
    var balances' := balances[owner := balances[owner] + amount];
    forall u
      ensures SumFees(fees', DebitedRows(fees', u)) == SumFees(fees, DebitedRows(fees, u))
      ensures SumFees(fees', CreditedRows(fees', u)) ==
                SumFees(fees, CreditedRows(fees, u)) + (if u == owner then SumFees(fees, payable) else 0)
    {
      assert DebitedRows(fees', u) == DebitedRows(fees, u);
      assert CreditedRows(fees', u) == if u == owner then CreditedRows(fees, u) + payable else CreditedRows(fees, u);
      SumDisjoint(fees, CreditedRows(fees, owner), payable);
      SumsUnderSetPaid(fees, rows, DebitedRows(fees', u));
      SumsUnderSetPaid(fees, rows, CreditedRows(fees', u));
    }
    assert LedgerOf(balances, fees, outside, owner);
    if amount == SumFees(fees, payable) {
      forall u {:trigger LedgerOf(balances', fees', outside, u)}
        ensures LedgerOf(balances', fees', outside, u)
      {
        assert LedgerOf(balances, fees, outside, u);
      }
    } else {
      assert !LedgerOf(balances', fees', outside, owner);
    }
  }

  lemma LedgerAfterMove(balances: Balances, fees: Fees, outside: Balances, move: Move)
    requires Ledger(balances, fees, outside) && move.user in balances && balances[move.user] + move.delta >= 0
    requires move.user in outside
    ensures Ledger(Moved(balances, move), fees, Moved(outside, move))
  {
    forall u {:trigger LedgerOf(Moved(balances, move), fees, Moved(outside, move), u)}
      ensures LedgerOf(Moved(balances, move), fees, Moved(outside, move), u)
    {
      assert LedgerOf(balances, fees, outside, u);
    }
  }

  // ----- Conservation over all users -----

  ghost function PerUser(fees: Fees, rows: (Fees, Id) -> set<Key>, users: set<Id>): map<Id, int> {
    map u | u in users :: SumFees(fees, rows(fees, u))
  }

  lemma WithoutUser(fees: Fees, rows: (Fees, Id) -> set<Key>, users: set<Id>, all: set<Key>, u: Id)
    requires forall u, v | u in users && v in users && u != v :: rows(fees, u) !! rows(fees, v)
    requires forall k :: k in all <==> exists u | u in users :: k in rows(fees, u)
    requires u in users
    ensures forall k :: k in all - rows(fees, u) <==> exists v | v in users - {u} :: k in rows(fees, v)
    ensures rows(fees, u) + (all - rows(fees, u)) == all
  {
  }

  /** Summing user by user, over disjoint row sets, sums the rows of all users. */
  lemma {:induction false} SumByUser(fees: Fees, rows: (Fees, Id) -> set<Key>, users: set<Id>, all: set<Key>)
    requires forall u, v | u in users && v in users && u != v :: rows(fees, u) !! rows(fees, v)
    requires forall k :: k in all <==> exists u | u in users :: k in rows(fees, u)
    ensures Sums.Sum(PerUser(fees, rows, users)) == SumFees(fees, all)
    decreases |users|
  {
    if users == {} {
      assert PerUser(fees, rows, users) == map[];
      assert all == {};
      SumNone(fees);
    } else {
      var u :| u in users;
      Sums.SumRemove(PerUser(fees, rows, users), u);
      assert PerUser(fees, rows, users) - {u} == PerUser(fees, rows, users - {u});
      WithoutUser(fees, rows, users, all, u);
      SumByUser(fees, rows, users - {u}, all - rows(fees, u));
      SumDisjoint(fees, rows(fees, u), all - rows(fees, u));
    }
  }

  function AllDebited(fees: Fees): set<Key> {
    set k | k in fees && fees[k].collectState.COLLECTED?
  }

  function AllCredited(fees: Fees): set<Key> {
    set k | k in fees && fees[k].paymentState.PAID?
  }

  function InTransit(fees: Fees): set<Key> {
    set k | k in fees && fees[k].collectState.COLLECTED? && fees[k].paymentState.UNPAID?
  }

  /** All the Teras there are: balances plus the rent collected and not yet paid out change only by
      what other parts of the system move. */
  lemma TerasConserved(balances: Balances, fees: Fees, outside: Balances)
    requires Ledger(balances, fees, outside) && balances.Keys == outside.Keys
    requires forall k <- fees :: RowOk(fees[k], balances.Keys)
    ensures Sums.Sum(balances) + SumFees(fees, InTransit(fees)) == Sums.Sum(outside)
  {
    var users := balances.Keys;
    SumLedger(balances, fees, outside);
    DebitsByUser(fees, users);
    CreditsByUser(fees, users);
    SumDisjoint(fees, AllCredited(fees), InTransit(fees));
    assert AllCredited(fees) + InTransit(fees) == AllDebited(fees);
  }

  lemma SumLedger(balances: Balances, fees: Fees, outside: Balances)
    requires Ledger(balances, fees, outside) && balances.Keys == outside.Keys
    ensures Sums.Sum(balances) + Sums.Sum(PerUser(fees, DebitedRows, balances.Keys)) ==
            Sums.Sum(outside) + Sums.Sum(PerUser(fees, CreditedRows, balances.Keys))
  {
    var debits, credits := PerUser(fees, DebitedRows, balances.Keys), PerUser(fees, CreditedRows, balances.Keys);
    var gross := map u | u in balances :: balances[u] + debits[u];
    Sums.SumPlus(balances, debits, gross);
    forall u <- balances
      ensures gross[u] == outside[u] + credits[u]
    {
      assert LedgerOf(balances, fees, outside, u);
    }
    Sums.SumPlus(outside, credits, gross);
  }

  lemma DebitsByUser(fees: Fees, users: set<Id>)
    requires forall k <- fees :: RowOk(fees[k], users)
    ensures Sums.Sum(PerUser(fees, DebitedRows, users)) == SumFees(fees, AllDebited(fees))
  {
    forall k | k in AllDebited(fees)
      ensures exists u | u in users :: k in DebitedRows(fees, u)
    {
      assert k in DebitedRows(fees, fees[k].arcadeMachineOwnerId);
    }
    SumByUser(fees, DebitedRows, users, AllDebited(fees));
  }

  lemma CreditsByUser(fees: Fees, users: set<Id>)
    requires forall k <- fees :: RowOk(fees[k], users)
    ensures Sums.Sum(PerUser(fees, CreditedRows, users)) == SumFees(fees, AllCredited(fees))
  {
    forall k | k in AllCredited(fees)
      ensures exists u | u in users :: k in CreditedRows(fees, u)
    {
      assert k in CreditedRows(fees, fees[k].gameCenterOwnerId);
    }
    SumByUser(fees, CreditedRows, users, AllCredited(fees));
  }

  // ----- Overlapping runs -----

  /** A bulk collection may commit on totals read long before: rows only ever leave UNPROCESSED, so
      when the count still matches, the total still matches. Overlapping runs cannot debit twice. */
  lemma StaleCollectTotalsHold(past: Fees, now: Fees, date: string, owner: Id)
    requires Advances(past, now)
    requires forall k <- now :: k.date == date ==> k in past
    requires |UnprocessedOf(now, date, owner)| == |UnprocessedOf(past, date, owner)|
    ensures UnprocessedOf(now, date, owner) == UnprocessedOf(past, date, owner)
    ensures SumFees(now, UnprocessedOf(now, date, owner)) == SumFees(past, UnprocessedOf(past, date, owner))
  {
    var before, after := UnprocessedOf(past, date, owner), UnprocessedOf(now, date, owner);
    forall k | k in after
      ensures k in before
    {
      assert k in past && RowAdvances(past[k], now[k]);
    }
    SubsetSize(after, before);
    SumOverSameTerms(past, now, before);
  }

  /** Rows of equal fee in two tables have equal totals. */
  lemma {:induction false} SumOverSameTerms(a: Fees, b: Fees, rows: set<Key>)
    requires forall k <- rows :: k in a && k in b && a[k].fee == b[k].fee
    ensures SumFees(a, rows) == SumFees(b, rows)
    decreases |rows|
  {
    if rows == {} {
      SumNone(a);
      SumNone(b);
    } else {
      var k :| k in rows;
      SumOverSameTerms(a, b, rows - {k});
      assert rows == {k} + (rows - {k});
      SumDisjoint(a, {k}, rows - {k});
      SumDisjoint(b, {k}, rows - {k});
      SumOne(a, k);
      SumOne(b, k);
    }
  }

  /** Paying has no such protection: the update also matches rows paid before. A second payer that
      read its totals before the first one committed passes the count check, and pays again unless
      the total was nothing. */
  lemma SecondPayerPaysAgainIff(balances: Balances, fees: Fees, outside: Balances, date: string, owner: Id)
    requires Ledger(balances, fees, outside) && owner in balances
    requires CollectedFor(fees, date, owner) == PayableFor(fees, date, owner)
    ensures var amount := SumFees(fees, PayableFor(fees, date, owner));
            var once := balances[owner := balances[owner] + amount];
            var paid := SetPaid(fees, CollectedFor(fees, date, owner));
            && Ledger(once, paid, outside)
            && |CollectedFor(paid, date, owner)| == |PayableFor(fees, date, owner)|
            && (Ledger(once[owner := once[owner] + amount], SetPaid(paid, CollectedFor(paid, date, owner)), outside)
                <==> amount == 0)
  {
    var amount := SumFees(fees, PayableFor(fees, date, owner));
    SumNonNegative(fees, PayableFor(fees, date, owner));
    LedgerAfterPayingIff(balances, fees, outside, date, owner, amount);
    var once := balances[owner := balances[owner] + amount];
    var paid := SetPaid(fees, CollectedFor(fees, date, owner));
    assert CollectedFor(paid, date, owner) == CollectedFor(fees, date, owner);
    assert PayableFor(paid, date, owner) == {};
    SumNone(paid);
    LedgerAfterPayingIff(once, paid, outside, date, owner, amount);
  }

  /** The rent of one machine, collected and not yet paid: a day's 120 of user 1 for user 2. */
  function OneRent(date: string): Fees {
    map[Key(date, 7) := RentalFee(1, 2, 120, COLLECTED, UNPAID)]
  }

  const AFTER_COLLECTING: Balances := map[1 := 880, 2 := 0]
  const OUTSIDE: Balances := map[1 := 1000, 2 := 0]

  lemma OneRentLedger(date: string)
    ensures Ledger(AFTER_COLLECTING, OneRent(date), OUTSIDE)
    ensures CollectedFor(OneRent(date), date, 2) == PayableFor(OneRent(date), date, 2) == {Key(date, 7)}
    ensures SumFees(OneRent(date), {Key(date, 7)}) == 120
  {
    var fees := OneRent(date);
    SumNone(fees);
    SumOne(fees, Key(date, 7));
    assert DebitedRows(fees, 1) == {Key(date, 7)} && DebitedRows(fees, 2) == {};
    forall u {:trigger LedgerOf(AFTER_COLLECTING, fees, OUTSIDE, u)}
      ensures LedgerOf(AFTER_COLLECTING, fees, OUTSIDE, u)
    {
      assert CreditedRows(fees, u) == {};
    }
  }

  const PAID_ONCE: Balances := map[1 := 880, 2 := 120]
  const PAID_TWICE: Balances := map[1 := 880, 2 := 240]

  /** Two payers that both read the same unpaid rent: user 2 gets 240 for 120, and the ledger is off. */
  lemma PaidTwice(date: string)
    ensures Ledger(AFTER_COLLECTING, OneRent(date), OUTSIDE)
    ensures SumFees(OneRent(date), PayableFor(OneRent(date), date, 2)) == 120
    ensures var paid := SetPaid(OneRent(date), CollectedFor(OneRent(date), date, 2));
            && Ledger(PAID_ONCE, paid, OUTSIDE)
            && |CollectedFor(paid, date, 2)| == |PayableFor(OneRent(date), date, 2)|
            && !Ledger(PAID_TWICE, SetPaid(paid, CollectedFor(paid, date, 2)), OUTSIDE)
  {
    OneRentLedger(date);
    PaidTwiceIfCollected(OneRent(date), date);
  }

  lemma PaidTwiceIfCollected(fees: Fees, date: string)
    requires Ledger(AFTER_COLLECTING, fees, OUTSIDE)
    requires CollectedFor(fees, date, 2) == PayableFor(fees, date, 2) && SumFees(fees, PayableFor(fees, date, 2)) == 120
    ensures var paid := SetPaid(fees, CollectedFor(fees, date, 2));
            && Ledger(PAID_ONCE, paid, OUTSIDE)
            && |CollectedFor(paid, date, 2)| == |PayableFor(fees, date, 2)|
            && !Ledger(PAID_TWICE, SetPaid(paid, CollectedFor(paid, date, 2)), OUTSIDE)
  {
    Payments();
    SecondPayerPaysAgainIff(AFTER_COLLECTING, fees, OUTSIDE, date, 2);
  }

  lemma Payments()
    ensures 2 in AFTER_COLLECTING && AFTER_COLLECTING[2 := AFTER_COLLECTING[2] + 120] == PAID_ONCE
    ensures PAID_ONCE[2 := PAID_ONCE[2] + 120] == PAID_TWICE
  {
  }
}
