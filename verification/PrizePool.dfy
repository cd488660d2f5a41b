/** The prize pool of src/use_cases/paid_tournament_usecase.ts: the table of ratios, the rounding down to
    tens, and what is paid in all. Decimals are reals. */
module PrizePool {
  import opened Arithmetic
  import opened Collections
  import opened Common

  // ----- floorDecimalToIntegerValue -----

  function Trunc(value: real): int {
    if value >= 0.0 then value.Floor else -((-value).Floor)
  }

  function Pow10(k: nat): (p: nat)
    ensures p > 0
  {
    if k == 0 then 1 else 10 * Pow10(k - 1)
  }

  function Digits(n: nat): nat {
    if n < 10 then 1 else 1 + Digits(n / 10)
  }

  /** The length of the number written out, the sign included. */
  function Length(n: int): nat {
    if n < 0 then 1 + Digits(-n) else Digits(n)
  }

  function DivToInt(n: int, factor: int): int
    requires factor > 0
  {
    if n >= 0 then n / factor else -(-n / factor)
  }

  function FloorDecimalToIntegerValue(value: real, digits: int): Result<int> {
    if digits < 0 then Err("digits must be greater than 0")
    else if digits >= Length(Trunc(value)) then Err("Digits must be less than the number of integer digits.")
    else Ok(DivToInt(Trunc(value), Pow10(digits)) * Pow10(digits))
  }

  lemma {:induction false} DigitsOfNat(n: nat, k: nat)
    requires k > 0
    ensures Digits(n) > k <==> n >= Pow10(k)
    decreases k
  {
    if n >= 10 && k > 1 {
      DigitsOfNat(n / 10, k - 1);
    }
  }

  /** For amounts of at least one unit of the cut digits, and those only, the helper rounds down. */
  lemma FloorsIff(value: real, digits: nat)
    requires value >= 0.0
    ensures var r := FloorDecimalToIntegerValue(value, digits);
            && (r.Ok? <==> digits == 0 || value >= Pow10(digits) as real)
            && (r.Ok? ==> r.value as real <= value < (r.value + Pow10(digits)) as real && r.value % Pow10(digits) == 0)
  {
    if digits > 0 {
      DigitsOfNat(value.Floor, digits);
    }
    CutsDown(value.Floor, digits);
  }

  /** Below zero the helper rounds towards zero, and the sign counts as one of the digits. */
  lemma NegativesIff(value: real, digits: nat)
    requires value < 0.0
    ensures var r := FloorDecimalToIntegerValue(value, digits);
            && (r.Ok? <==> digits == 0 || (digits == 1 && value <= -1.0) || (digits > 1 && -value >= Pow10(digits - 1) as real))
            && (r.Ok? ==> (r.value - Pow10(digits)) as real < value <= r.value as real && r.value % Pow10(digits) == 0)
  {
    var n := (-value).Floor;
    if digits > 1 {
      DigitsOfNat(n, digits - 1);
    }
    CutsDown(n, digits);
    NegatedCut(n, Pow10(digits));
  }

  lemma NegatedCut(n: int, p: int)
    requires n >= 0 && p > 0
    ensures DivToInt(-n, p) * p == -(DivToInt(n, p) * p)
    ensures DivToInt(-n, p) * p % p == 0
  {
    var q := DivToInt(n, p);
    assert DivToInt(-n, p) == -q;
    assert -q * p == -(q * p);
    DivisionIsUnique(-q, 0, p);
  }

  lemma CutsDown(n: nat, digits: nat)
    ensures var cut := DivToInt(n, Pow10(digits)) * Pow10(digits);
            cut <= n < cut + Pow10(digits) && cut % Pow10(digits) == 0
  {
    Division(n, Pow10(digits));
    DivisionIsUnique(n / Pow10(digits), 0, Pow10(digits));
  }

  // ----- The prize table -----

  datatype Prize = Prize(ratio: real, min: int, max: int)

  datatype PrizeCalcSetting = PrizeCalcSetting(
    prizePoolRatio: real,
    prizeRatios: seq<Prize>,
    minimumRankForPrize: nat
  )

  const MAX_SAFE_INTEGER := 9007199254740991

  const UPTO30 := PrizeCalcSetting(0.8, [Prize(0.5, 1, 1), Prize(0.36, 2, 2), Prize(0.14, 3, 3)], 3)

  const UPTO50 := PrizeCalcSetting(
    0.7,
    [Prize(0.4, 1, 1), Prize(0.3, 2, 2), Prize(0.14, 3, 3), Prize(0.08, 4, 4), Prize(0.05, 5, 5), Prize(0.03, 6, 6)],
    6)

  const UPTO200 := PrizeCalcSetting(
    0.6,
    [Prize(0.4, 1, 1), Prize(0.18, 2, 2), Prize(0.1, 3, 3), Prize(0.06, 4, 4), Prize(0.04, 5, 8), Prize(0.02, 9, 11),
     Prize(0.01, 12, 15)],
    15)

  const ABOVE200 := PrizeCalcSetting(
    0.5,
    [Prize(0.4, 1, 1), Prize(0.14, 2, 2), Prize(0.08, 3, 3), Prize(0.06, 4, 5), Prize(0.04, 6, 8), Prize(0.02, 9, 11),
     Prize(0.014, 12, 13), Prize(0.01, 14, 17), Prize(0.004, 18, 20)],
    20)

  function FindPrizeCalcSetting(entries: int): Result<PrizeCalcSetting> {
    if 0 <= entries <= 30 then Ok(UPTO30)
    else if 31 <= entries <= 50 then Ok(UPTO50)
    else if 51 <= entries <= 200 then Ok(UPTO200)
    else if 201 <= entries <= MAX_SAFE_INTEGER then Ok(ABOVE200)
    else Err("prize calc setting not found")
  }

  /** The ranges follow each other from rank 1, without gap or overlap, with falling positive ratios. */
  ghost predicate Chained(prizes: seq<Prize>) {
    && prizes != [] && prizes[0].min == 1
    && (forall i :: 0 <= i < |prizes| ==> prizes[i].min <= prizes[i].max && prizes[i].ratio > 0.0)
    && (forall i :: 0 < i < |prizes| ==> prizes[i].min == prizes[i - 1].max + 1 && prizes[i].ratio < prizes[i - 1].ratio)
  }

  /** The ratios of the first n entries, each counted for every rank of its range. */
  function Weight(prizes: seq<Prize>, n: nat): real
    requires n <= |prizes|
  {
    if n == 0 then 0.0
    else Weight(prizes, n - 1) + Times(prizes[n - 1].ratio, prizes[n - 1].max - prizes[n - 1].min + 1)
  }

  function Times(ratio: real, n: int): real {
    ratio * n as real
  }

  ghost predicate WellFormed(setting: PrizeCalcSetting) {
    && Chained(setting.prizeRatios)
    && setting.prizeRatios[|setting.prizeRatios| - 1].max == setting.minimumRankForPrize
    && Weight(setting.prizeRatios, |setting.prizeRatios|) == 1.0
  }

  lemma Upto30IsWellFormed()
    ensures WellFormed(UPTO30)
  {
    var prizes := UPTO30.prizeRatios;
    assert Weight(prizes, 1) == 0.5;
    assert Weight(prizes, 2) == 0.86;
    assert Weight(prizes, 3) == 1.0;
  }

  lemma Upto50IsWellFormed()
    ensures WellFormed(UPTO50)
  {
    var prizes := UPTO50.prizeRatios;
    assert Weight(prizes, 1) == 0.4;
    assert Weight(prizes, 2) == 0.7;
    assert Weight(prizes, 3) == 0.84;
    assert Weight(prizes, 4) == 0.92;
    assert Weight(prizes, 5) == 0.97;
    assert Weight(prizes, 6) == 1.0;
  }

  lemma Upto200Weighs()
    ensures Weight(UPTO200.prizeRatios, 7) == 1.0
  {
    var prizes := UPTO200.prizeRatios;
    assert Weight(prizes, 1) == 0.4;
    assert Weight(prizes, 2) == 0.58;
    assert Weight(prizes, 3) == 0.68;
    assert Weight(prizes, 4) == 0.74;
    assert Weight(prizes, 5) == 0.9;
    assert Weight(prizes, 6) == 0.96;
  }

  lemma Upto200Chains()
    ensures Chained(UPTO200.prizeRatios)
  {
  }

  lemma Upto200IsWellFormed()
    ensures WellFormed(UPTO200)
  {
    Upto200Weighs();
    Upto200Chains();
  }

  lemma Above200Weighs()
    ensures Weight(ABOVE200.prizeRatios, 9) == 1.0
  {
    var prizes := ABOVE200.prizeRatios;
    assert Weight(prizes, 1) == 0.4;
    assert Weight(prizes, 2) == 0.54;
    assert Weight(prizes, 3) == 0.62;
    assert Weight(prizes, 4) == 0.74;
    assert Weight(prizes, 5) == 0.86;
    assert Weight(prizes, 6) == 0.92;
    assert Weight(prizes, 7) == 0.948;
    assert Weight(prizes, 8) == 0.988;
  }

  lemma Above200Chains()
    ensures Chained(ABOVE200.prizeRatios)
  {
  }

  lemma Above200IsWellFormed()
    ensures WellFormed(ABOVE200)
  {
    Above200Weighs();
    Above200Chains();
  }

  /** Every number of entries has a setting, and in each the ranges chain and the ratios add up to 1. */
  lemma TableIsWellFormed(entries: int)
    ensures var r := FindPrizeCalcSetting(entries);
            && (r.Ok? <==> 0 <= entries <= MAX_SAFE_INTEGER)
            && (r.Ok? ==> WellFormed(r.value) && 3 <= r.value.minimumRankForPrize <= 20)
  {
    Upto30IsWellFormed();
    Upto50IsWellFormed();
    Upto200IsWellFormed();
    Above200IsWellFormed();
  }

  // ----- The ratio of a rank -----

  predicate InRange(p: Prize, rank: int) {
    p.min <= rank <= p.max
  }

  /** find: the first entry, from the i-th on, whose range holds the rank. */
  function FindRatio(prizes: seq<Prize>, rank: int, i: nat): Option<real>
    requires i <= |prizes|
    decreases |prizes| - i
  {
    if i == |prizes| then None
    else if InRange(prizes[i], rank) then Some(prizes[i].ratio)
    else FindRatio(prizes, rank, i + 1)
  }

  lemma {:induction false} RangesAscend(prizes: seq<Prize>, j: nat, k: nat)
    requires Chained(prizes) && j < k < |prizes|
    ensures prizes[j].max < prizes[k].min && prizes[j].ratio > prizes[k].ratio
    decreases k
  {
    if j < k - 1 {
      RangesAscend(prizes, j, k - 1);
    }
  }

  lemma {:induction false} RangeOf(prizes: seq<Prize>, n: nat, rank: int) returns (k: nat)
    requires Chained(prizes) && 0 < n <= |prizes| && 1 <= rank <= prizes[n - 1].max
    ensures k < n && InRange(prizes[k], rank)
  {
    k := n - 1;
    if rank < prizes[k].min {
      k := RangeOf(prizes, n - 1, rank);
    }
  }

  lemma {:induction false} FoundAt(prizes: seq<Prize>, rank: int, i: nat, k: nat)
    requires Chained(prizes) && i <= k < |prizes| && InRange(prizes[k], rank)
    ensures FindRatio(prizes, rank, i) == Some(prizes[k].ratio)
    decreases k - i
  {
    if i < k {
      RangesAscend(prizes, i, k);
      FoundAt(prizes, rank, i + 1, k);
    }
  }

  lemma {:induction false} NotFound(prizes: seq<Prize>, rank: int, i: nat)
    requires Chained(prizes) && i <= |prizes| && (rank < 1 || rank > prizes[|prizes| - 1].max)
    ensures FindRatio(prizes, rank, i) == None
    decreases |prizes| - i
  {
    if i < |prizes| {
      NotFound(prizes, rank, i + 1);
      if i > 0 {
        RangesAscend(prizes, 0, i);
      }
      if i < |prizes| - 1 {
        RangesAscend(prizes, i, |prizes| - 1);
      }
    }
  }

  /** A rank lies in exactly one range if it is a prize rank, and in none otherwise. */
  lemma ExactlyOneRatio(setting: PrizeCalcSetting, rank: int)
    requires WellFormed(setting)
    ensures FindRatio(setting.prizeRatios, rank, 0).Some? <==> 1 <= rank <= setting.minimumRankForPrize
    ensures forall j, k :: 0 <= j < k < |setting.prizeRatios| && InRange(setting.prizeRatios[j], rank) ==>
              !InRange(setting.prizeRatios[k], rank)
  {
    var prizes := setting.prizeRatios;
    if 1 <= rank <= setting.minimumRankForPrize {
      var k := RangeOf(prizes, |prizes|, rank);
      FoundAt(prizes, rank, 0, k);
    } else {
      NotFound(prizes, rank, 0);
    }
    forall j, k | 0 <= j < k < |prizes| && InRange(prizes[j], rank)
      ensures !InRange(prizes[k], rank)
    {
      RangesAscend(prizes, j, k);
    }
  }

  function RatioOf(prizes: seq<Prize>, rank: int): real {
    var found := FindRatio(prizes, rank, 0);
    if found.Some? then found.value else 0.0
  }

  lemma RatiosFall(setting: PrizeCalcSetting, rank: int, worse: int)
    requires WellFormed(setting) && 1 <= rank <= worse <= setting.minimumRankForPrize
    ensures RatioOf(setting.prizeRatios, rank) >= RatioOf(setting.prizeRatios, worse) > 0.0
  {
    var prizes := setting.prizeRatios;
    var j := RangeOf(prizes, |prizes|, rank);
    var k := RangeOf(prizes, |prizes|, worse);
    FoundAt(prizes, rank, 0, j);
    FoundAt(prizes, worse, 0, k);
    if j < k {
      RangesAscend(prizes, j, k);
    } else if k < j {
      RangesAscend(prizes, k, j);
    }
  }

  // What each rank gets, written out.

  lemma {:induction false} RatioAt(prizes: seq<Prize>, rank: int, k: nat)
    requires Chained(prizes) && k < |prizes| && InRange(prizes[k], rank)
    ensures RatioOf(prizes, rank) == prizes[k].ratio
  {
    FoundAt(prizes, rank, 0, k);
  }

  lemma SmallTournaments(entries: int, rank: int)
    requires 0 <= entries <= 50
    ensures var r := FindPrizeCalcSetting(entries);
            && r.Ok? && r.value.minimumRankForPrize == (if entries <= 30 then 3 else 6)
            && (1 <= rank <= r.value.minimumRankForPrize ==>
                  RatioOf(r.value.prizeRatios, rank) ==
                  if entries <= 30 then [0.5, 0.36, 0.14][rank - 1] else [0.4, 0.3, 0.14, 0.08, 0.05, 0.03][rank - 1])
  {
    Upto30IsWellFormed();
    Upto50IsWellFormed();
    var setting := FindPrizeCalcSetting(entries).value;
    if 1 <= rank <= setting.minimumRankForPrize {
      RatioAt(setting.prizeRatios, rank, rank - 1);
    }
  }

  lemma MiddleTournaments(entries: int, rank: int)
    requires 51 <= entries <= 200
    ensures var r := FindPrizeCalcSetting(entries);
            && r.Ok? && r.value.minimumRankForPrize == 15
            && (1 <= rank <= 15 ==>
                  RatioOf(r.value.prizeRatios, rank) ==
                  [0.4, 0.18, 0.1, 0.06, 0.04, 0.04, 0.04, 0.04, 0.02, 0.02, 0.02, 0.01, 0.01, 0.01, 0.01][rank - 1])
  {
    Upto200IsWellFormed();
    if 1 <= rank <= 15 {
      RatioAt(UPTO200.prizeRatios, rank, if rank <= 4 then rank - 1 else if rank <= 8 then 4 else if rank <= 11 then 5 else 6);
    }
  }

  lemma LargeTournaments(entries: int, rank: int)
    requires 201 <= entries <= 9007199254740991
    ensures var r := FindPrizeCalcSetting(entries);
            && r.Ok? && r.value.minimumRankForPrize == 20
            && (1 <= rank <= 20 ==>
                  RatioOf(r.value.prizeRatios, rank) ==
                  [0.4, 0.14, 0.08, 0.06, 0.06, 0.04, 0.04, 0.04, 0.02, 0.02,
                   0.02, 0.014, 0.014, 0.01, 0.01, 0.01, 0.01, 0.004, 0.004, 0.004][rank - 1])
  {
    Above200IsWellFormed();
    if 1 <= rank <= 20 {
      RatioAt(ABOVE200.prizeRatios, rank,
              if rank <= 3 then rank - 1 else if rank <= 5 then 3 else if rank <= 8 then 4 else if rank <= 11 then 5
              else if rank <= 13 then 6 else if rank <= 17 then 7 else 8);
    }
  }

  function ShareOf(total: real, setting: PrizeCalcSetting, rank: int): real {
    total * RatioOf(setting.prizeRatios, rank)
  }

  function SumOfRatios(prizes: seq<Prize>, n: nat): real {
    if n == 0 then 0.0 else SumOfRatios(prizes, n - 1) + RatioOf(prizes, n)
  }

  lemma OneMore(ratio: real, n: int)
    ensures Times(ratio, n + 1) == Times(ratio, n) + ratio
    ensures Times(ratio, 0) == 0.0
  {
  }

  lemma {:induction false} SumWithinRange(prizes: seq<Prize>, k: nat, rank: int)
    requires Chained(prizes) && k < |prizes| && prizes[k].min - 1 <= rank <= prizes[k].max
    ensures rank >= 0
    ensures SumOfRatios(prizes, rank) == Weight(prizes, k) + Times(prizes[k].ratio, rank - prizes[k].min + 1)
    decreases k, rank - prizes[k].min + 1
  {
    OneMore(prizes[k].ratio, rank - prizes[k].min);
    if rank >= prizes[k].min {
      SumWithinRange(prizes, k, rank - 1);
      FoundAt(prizes, rank, 0, k);
    } else if k > 0 {
      SumWithinRange(prizes, k - 1, rank);
    }
  }

  /** Rank by rank, the ratios of all prize ranks add up to 1. */
  lemma RatiosSumToOne(setting: PrizeCalcSetting)
    requires WellFormed(setting)
    ensures SumOfRatios(setting.prizeRatios, setting.minimumRankForPrize) == 1.0
  {
    SumWithinRange(setting.prizeRatios, |setting.prizeRatios| - 1, setting.minimumRankForPrize);
  }

  // ----- calcPrize -----

  /** A prize: a share of at least ten Teras rounded down to tens, and nothing for a smaller share. */
  predicate IsPrize(share: real, prize: int) {
    if share < 10.0 then prize == 0 else prize % 10 == 0 && prize as real <= share < (prize + 10) as real
  }

  /** The share leaves one prize only, and a larger share never a smaller one. */
  lemma LargerShareWinsMore(share: real, prize: int, less: real, other: int)
    requires IsPrize(share, prize) && IsPrize(less, other) && share >= less
    ensures prize >= other >= 0
    ensures share == less ==> prize == other
  {
  }

  method CalcPrize(totalPrizeTeras: real, rank: int, setting: PrizeCalcSetting) returns (r: Result<int>)
    requires WellFormed(setting)
    ensures r.Ok? <==> 1 <= rank <= setting.minimumRankForPrize
    ensures r.Ok? ==> IsPrize(ShareOf(totalPrizeTeras, setting, rank), r.value)
  {
    ExactlyOneRatio(setting, rank);
    var ratio := FindRatio(setting.prizeRatios, rank, 0);
    if ratio.None? {
      return Err("prize ratio setting error");
    }
    var share := totalPrizeTeras * ratio.value;
    assert share == ShareOf(totalPrizeTeras, setting, rank);
    if share < 10.0 {
      return Ok(0);
    }
    r := FloorToTens(share);
  }

  method FloorToTens(share: real) returns (r: Result<int>)
    requires share >= 10.0
    ensures r.Ok? && IsPrize(share, r.value)
  {
    assert Pow10(1) == 10;
    FloorsIff(share, 1);
    r := FloorDecimalToIntegerValue(share, 1);
  }

  /** The prizes of the ranks from 1 on. */
  ghost predicate ArePrizes(total: real, setting: PrizeCalcSetting, prizes: seq<int>) {
    && |prizes| <= setting.minimumRankForPrize
    && forall i {:trigger PrizeAt(total, setting, prizes, i)} :: 0 <= i < |prizes| ==> PrizeAt(total, setting, prizes, i)
  }

  ghost predicate PrizeAt(total: real, setting: PrizeCalcSetting, prizes: seq<int>, i: nat)
    requires i < |prizes|
  {
    IsPrize(ShareOf(total, setting, i + 1), prizes[i])
  }

  lemma PrizesBefore(total: real, setting: PrizeCalcSetting, prizes: seq<int>)
    requires ArePrizes(total, setting, prizes) && prizes != []
    ensures ArePrizes(total, setting, prizes[..|prizes| - 1])
  {
    var before := prizes[..|prizes| - 1];
    forall i | 0 <= i < |before|
      ensures PrizeAt(total, setting, before, i)
    {
      assert PrizeAt(total, setting, prizes, i);
    }
  }

  lemma PrizesAfter(total: real, setting: PrizeCalcSetting, prizes: seq<int>, prize: int)
    requires ArePrizes(total, setting, prizes) && |prizes| < setting.minimumRankForPrize
    requires IsPrize(ShareOf(total, setting, |prizes| + 1), prize)
    ensures ArePrizes(total, setting, prizes + [prize])
  {
    var after := prizes + [prize];
    forall i | 0 <= i < |after|
      ensures PrizeAt(total, setting, after, i)
    {
      if i < |prizes| {
        assert PrizeAt(total, setting, prizes, i);
        assert after[i] == prizes[i];
      } else {
        assert i == |prizes| && after[i] == prize;
      }
    }
  }

  lemma Products(total: real, a: real, b: real)
    requires b > 0.0
    ensures total * (a + b) == total * a + total * b
    ensures total >= 0.0 ==> total * b >= 0.0
    ensures total < 0.0 ==> total * b < 0.0
    ensures a >= b && total >= 0.0 ==> total * a >= total * b
  {
    if a >= b && total >= 0.0 {
      assert total * (a - b) >= 0.0;
    }
  }

  /** A worse rank never wins more. */
  lemma PrizesFall(total: real, setting: PrizeCalcSetting, prizes: seq<int>, i: nat, j: nat)
    requires WellFormed(setting) && ArePrizes(total, setting, prizes) && i <= j < |prizes|
    ensures prizes[i] >= prizes[j] >= 0
  {
    assert PrizeAt(total, setting, prizes, i) && PrizeAt(total, setting, prizes, j);
    SharesFall(total, setting, i + 1, j + 1);
    if total >= 0.0 {
      LargerShareWinsMore(ShareOf(total, setting, i + 1), prizes[i], ShareOf(total, setting, j + 1), prizes[j]);
    }
  }

  lemma SharesFall(total: real, setting: PrizeCalcSetting, rank: int, worse: int)
    requires WellFormed(setting) && 1 <= rank <= worse <= setting.minimumRankForPrize
    ensures if total >= 0.0 then ShareOf(total, setting, rank) >= ShareOf(total, setting, worse)
            else ShareOf(total, setting, rank) < 0.0 && ShareOf(total, setting, worse) < 0.0
  {
    RatiosFall(setting, rank, worse);
    Products(total, RatioOf(setting.prizeRatios, rank), RatioOf(setting.prizeRatios, worse));
    Products(total, 0.0, RatioOf(setting.prizeRatios, rank));
  }

  // ----- The whole pool -----

  const TICKET_PER_TERAS_RATE := 100
  const PAID_TOURNAMENT_RESULT_RECORD_MINIMUM_RANK: nat := 20

  function CalcPrizeTerasSummary(entryCount: int, entryFeeOfTicket: int, setting: PrizeCalcSetting,
                                 prizeTerasAmount: Option<real>): real
  {
    (entryCount * entryFeeOfTicket * TICKET_PER_TERAS_RATE) as real * setting.prizePoolRatio
    + if prizeTerasAmount.Some? then prizeTerasAmount.value else 0.0
  }

  /** A ticket is worth 100 Teras; 80, 70, 60 or 50 percent of what was paid in make the pool, with the
      added prize on top. */
  lemma PoolIs(entries: int, entryFeeTickets: int, prizeTerasAmount: Option<real>)
    requires 0 <= entries <= 9007199254740991
    ensures var paidIn := (entries * entryFeeTickets * 100) as real;
            var added := if prizeTerasAmount.Some? then prizeTerasAmount.value else 0.0;
            CalcPrizeTerasSummary(entries, entryFeeTickets, FindPrizeCalcSetting(entries).value, prizeTerasAmount) ==
            if entries <= 30 then paidIn * 0.8 + added
            else if entries <= 50 then paidIn * 0.7 + added
            else if entries <= 200 then paidIn * 0.6 + added
            else paidIn * 0.5 + added
  {
  }

  /** The total paid on n ranks, against their share of the pool. */
  predicate Within(shares: real, paid: int, n: nat) {
    && paid >= 0
    && (if n == 0 then paid == 0 && shares == 0.0 else shares - (10 * n) as real < paid as real)
    && (shares >= 0.0 ==> paid as real <= shares)
    && (shares < 0.0 ==> paid == 0)
  }

  lemma WithinOneMore(shares: real, paid: int, n: nat, share: real, prize: int)
    requires Within(shares, paid, n) && IsPrize(share, prize)
    requires if share >= 0.0 then shares >= 0.0 else shares <= 0.0
    ensures Within(shares + share, paid + prize, n + 1)
  {
  }

  function SharesOf(total: real, setting: PrizeCalcSetting, n: nat): real {
    total * SumOfRatios(setting.prizeRatios, n)
  }

  lemma SharesOneMore(total: real, setting: PrizeCalcSetting, n: nat)
    requires WellFormed(setting) && n < setting.minimumRankForPrize
    ensures SharesOf(total, setting, 0) == 0.0
    ensures SharesOf(total, setting, n + 1) == SharesOf(total, setting, n) + ShareOf(total, setting, n + 1)
    ensures if total >= 0.0 then ShareOf(total, setting, n + 1) >= 0.0 else ShareOf(total, setting, n + 1) < 0.0
  {
    RatiosFall(setting, n + 1, n + 1);
    Products(total, SumOfRatios(setting.prizeRatios, n), RatioOf(setting.prizeRatios, n + 1));
  }

  lemma {:induction false} PaidBounds(total: real, setting: PrizeCalcSetting, prizes: seq<int>)
    requires WellFormed(setting) && ArePrizes(total, setting, prizes)
    ensures Within(SharesOf(total, setting, |prizes|), Total(prizes), |prizes|)
    ensures if total >= 0.0 then SharesOf(total, setting, |prizes|) >= 0.0 else SharesOf(total, setting, |prizes|) <= 0.0
  {
    if prizes != [] {
      var n := |prizes| - 1;
      PrizesBefore(total, setting, prizes);
      PaidBounds(total, setting, prizes[..n]);
      SharesOneMore(total, setting, n);
      assert PrizeAt(total, setting, prizes, n);
      WithinOneMore(SharesOf(total, setting, n), Total(prizes[..n]), n, ShareOf(total, setting, n + 1), prizes[n]);
    }
  }

  lemma {:induction false} SumsStayBelow(setting: PrizeCalcSetting, n: nat)
    requires WellFormed(setting) && n <= setting.minimumRankForPrize
    ensures SumOfRatios(setting.prizeRatios, n) <= 1.0
    decreases setting.minimumRankForPrize - n
  {
    if n < setting.minimumRankForPrize {
      SumsStayBelow(setting, n + 1);
      RatiosFall(setting, n + 1, n + 1);
    } else {
      RatiosSumToOne(setting);
    }
  }

  /** No more than the pool is paid, unless the pool is negative; when every prize rank is taken, less
      than ten Teras a rank are held back. Prizes are whole tens. */
  lemma PoolIsPaidOut(total: real, setting: PrizeCalcSetting, prizes: seq<int>)
    requires WellFormed(setting) && ArePrizes(total, setting, prizes)
    ensures Total(prizes) as real <= total <==> total >= 0.0
    ensures |prizes| == setting.minimumRankForPrize ==>
              total - (10 * setting.minimumRankForPrize) as real < Total(prizes) as real
    ensures forall i :: 0 <= i < |prizes| ==> prizes[i] >= 0 && prizes[i] % 10 == 0
  {
    forall i | 0 <= i < |prizes|
      ensures prizes[i] >= 0 && prizes[i] % 10 == 0
    {
      assert PrizeAt(total, setting, prizes, i);
    }
    PaidBounds(total, setting, prizes);
    SumsStayBelow(setting, |prizes|);
    RatiosSumToOne(setting);
    var shares := SharesOf(total, setting, |prizes|);
    PartOf(total, SumOfRatios(setting.prizeRatios, |prizes|), shares);
  }

  lemma PartOf(total: real, part: real, shares: real)
    requires part <= 1.0 && shares == total * part
    ensures total >= 0.0 ==> shares <= total
    ensures part == 1.0 ==> shares == total
  {
    if total >= 0.0 {
      assert total * (1.0 - part) >= 0.0;
    }
  }

  datatype ResultRow = ResultRow(userId: nat, rank: nat, prizeTerasAmount: int)

  /** The rows recorded for the users at the top of the ranking, in order; only prize ranks win. */
  ghost predicate AreRows(rows: seq<ResultRow>, topList: seq<nat>, prizes: seq<int>) {
    && |rows| <= |topList|
    && (forall i :: 0 <= i < |rows| ==> rows[i].userId == topList[i] && rows[i].rank == i + 1)
    && (forall i :: 0 <= i < |rows| ==> rows[i].prizeTerasAmount == if i < |prizes| then prizes[i] else 0)
  }

  method RecordRows(prizeSum: real, setting: PrizeCalcSetting, topList: seq<nat>)
    returns (rows: seq<ResultRow>, ghost prizes: seq<int>)
    requires WellFormed(setting) && setting.minimumRankForPrize <= 20
    ensures AreRows(rows, topList, prizes) && ArePrizes(prizeSum, setting, prizes)
    ensures |rows| == Min(20, |topList|) && |prizes| == Min(setting.minimumRankForPrize, |topList|)
  {
    prizes := [];
    rows := [];
    var recordLowerRank := if setting.minimumRankForPrize > PAID_TOURNAMENT_RESULT_RECORD_MINIMUM_RANK
                           then setting.minimumRankForPrize else PAID_TOURNAMENT_RESULT_RECORD_MINIMUM_RANK;
    for i := 0 to recordLowerRank
      invariant |rows| == i
      invariant AreRows(rows, topList, prizes) && ArePrizes(prizeSum, setting, prizes)
      invariant |prizes| == Min(setting.minimumRankForPrize, i)
    {
      if i == |topList| {
        break;
      }
      var rank := i + 1;
      var prize := 0;
      if setting.minimumRankForPrize >= rank {
        var calculated := CalcPrize(prizeSum, rank, setting);
        prize := calculated.value;
        PrizesAfter(prizeSum, setting, prizes, prize);
        prizes := prizes + [prize];
      }
      rows := rows + [ResultRow(topList[i], rank, prize)];
    }
  }

  /** For every number of entries, fee and added prize the results can be recorded, and the recorded
      prizes stay within the pool. */
  method RecordResult(entries: nat, entryFeeTickets: int, prizeTerasAmount: Option<real>, topList: seq<nat>)
    returns (r: Result<seq<ResultRow>>, ghost prizes: seq<int>)
    ensures r.Err? <==> entries > 9007199254740991
    ensures r.Ok? ==>
              var setting := FindPrizeCalcSetting(entries).value;
              var pool := CalcPrizeTerasSummary(entries, entryFeeTickets, setting, prizeTerasAmount);
              && AreRows(r.value, topList, prizes) && |r.value| == Min(20, |topList|)
              && ArePrizes(pool, setting, prizes) && |prizes| == Min(setting.minimumRankForPrize, |topList|)
              && (Total(prizes) as real <= pool <==> pool >= 0.0)
              && (|topList| >= setting.minimumRankForPrize ==>
                    pool - (10 * setting.minimumRankForPrize) as real < Total(prizes) as real)
  {
    prizes := [];
    var prizeSetting := FindPrizeCalcSetting(entries);
    TableIsWellFormed(entries);
    if prizeSetting.Err? {
      return Err(prizeSetting.message), prizes;
    }
    var setting := prizeSetting.value;
    var prizeSum := CalcPrizeTerasSummary(entries, entryFeeTickets, setting, prizeTerasAmount);
    var rows;
    rows, prizes := RecordRows(prizeSum, setting, topList);
    PoolIsPaidOut(prizeSum, setting, prizes);
    return Ok(rows), prizes;
  }
}
