/** The packed ranking scores of src/helpers/ranking.ts: a score, a count and the seconds left, side by
    side in the 53 bits a number holds exactly. */
module ScorePacking {
  import opened Arithmetic
  import opened Common
  import opened Doubles
  import opened Hundredths

  // ----- BigInt operators -----

  function Shl(a: nat, k: nat): nat {
    a * Pow2(k)
  }

  function Shr(a: nat, k: nat): nat {
    QuotientIsNat(a, Pow2(k)); a / Pow2(k)
  }

  function And(a: nat, b: nat): nat {
    if a == 0 || b == 0 then 0 else 2 * And(a / 2, b / 2) + a % 2 * (b % 2)
  }

  function Or(a: nat, b: nat): nat {
    if a == 0 then b else if b == 0 then a
    else 2 * Or(a / 2, b / 2) + if a % 2 == 1 || b % 2 == 1 then 1 else 0
  }

  lemma HalfOfRemainder(t: nat, half: nat)
    requires half > 0
    ensures t % (2 * half) == 2 * (t / 2 % half) + t % 2
  {
    var q, r := t / 2 / half, t / 2 % half;
    Division(t / 2, half);
    assert half * q == q * half;
    assert 2 * (q * half) == q * (2 * half);
    assert t == q * (2 * half) + (2 * r + t % 2);
    DivisionIsUnique(q, 2 * r + t % 2, 2 * half);
  }

  lemma AndWithOdd(t: nat, m: nat)
    ensures And(t, 2 * m + 1) == 2 * And(t / 2, m) + t % 2
  {
    var odd := 2 * m + 1;
    assert odd / 2 == m && odd % 2 == 1;
    if t > 0 {
      assert And(t, odd) == 2 * And(t / 2, odd / 2) + t % 2 * (odd % 2);
    }
  }

  /** Masking with k ones takes the remainder. */
  lemma {:induction false} MaskIsMod(t: nat, k: nat)
    ensures And(t, Pow2(k) - 1) == t % Pow2(k)
  {
    if k > 0 {
      var half := Pow2(k - 1);
      MaskIsMod(t / 2, k - 1);
      AndWithOdd(t, half - 1);
      HalfOfRemainder(t, half);
      assert Pow2(k) == 2 * half && Pow2(k) - 1 == 2 * (half - 1) + 1;
    }
  }

  lemma {:induction false} OrCommutes(a: nat, b: nat)
    ensures Or(a, b) == Or(b, a)
  {
    if a > 0 && b > 0 {
      OrCommutes(a / 2, b / 2);
    }
  }

  /** Where the low bits are free, or-ing fills them in. */
  lemma {:induction false} OrIsPlus(x: nat, low: nat, k: nat)
    requires low < Pow2(k)
    ensures Or(x * Pow2(k), low) == x * Pow2(k) + low
  {
    if k > 0 && low > 0 && x > 0 {
      var a := x * Pow2(k);
      assert a == 2 * (x * Pow2(k - 1));
      assert a > 0 by {
        Multiples(x, Pow2(k));
      }
      OrIsPlus(x, low / 2, k - 1);
    }
  }

  // ----- Layout -----

  const MAX_SAFE_BIT_NUM: nat := 53
  const COUNT_SHIFT: nat := 23
  const RATE_SHIFT: nat := 39
  const RATE_MAX_COUNT: nat := 65535

  /** Whole seconds from date to endDate, both in milliseconds; negative once the end has passed. */
  function SecondsDifference(date: int, endDate: int): int {
    (endDate - date) / 1000
  }

  function GetCombinedCountScore(score: int, date: int, endDate: int): Result<nat> {
    if score < 0 then Err("score must be a positive integer")
    else
      var timestamp := SecondsDifference(date, endDate);
      if timestamp < 0 then Err("date must be before endDate")
      else Ok(Or(Shl(score, COUNT_SHIFT), And(timestamp, Shl(1, COUNT_SHIFT) - 1)))
  }

  function GetSeparatedCountScore(combinedScore: nat): nat {
    Shr(combinedScore, COUNT_SHIFT)
  }

  function PackRate(fixedRate: nat, count: nat, timestamp: nat): nat {
    Or(Or(Shl(fixedRate, RATE_SHIFT), Shl(count, COUNT_SHIFT)), And(timestamp, Shl(1, COUNT_SHIFT) - 1))
  }

  function GetCombinedRateScore(rate: Double, count: int, date: int, endDate: int): Result<nat> {
    if rate.m < 0 || count < 0 then Err("rate/count must be a positive number")
    else if count > RATE_MAX_COUNT then Err("count overflow")
    else
      var timestamp := SecondsDifference(date, endDate);
      if timestamp < 0 then Err("date must be before endDate")
      else
        Ok(PackRate(Fixed(rate), count, timestamp))
  }

  function GetSeparatedRateScore(score: nat): Double {
    Hundredth(Shr(score, RATE_SHIFT))
  }

  lemma Widths()
    ensures Pow2(COUNT_SHIFT) == 0x80_0000 && Pow2(RATE_SHIFT) == 0x80_0000_0000
    ensures Pow2(MAX_SAFE_BIT_NUM) == 0x20_0000_0000_0000
  {
    assert Pow2(10) == 1024 && Pow2(3) == 8;
    Pow2Sum(10, 10);
    Pow2Sum(20, 3);
    Pow2Sum(23, 10);
    assert Pow2(6) == 64;
    Pow2Sum(33, 6);
    assert Pow2(4) == 16;
    Pow2Sum(39, 10);
    Pow2Sum(49, 4);
  }

  /** The seconds as they are stored: what exceeds 23 bits is cut off and cannot touch the score. */
  function Seconds(date: int, endDate: int): nat {
    SecondsDifference(date, endDate) % 0x80_0000
  }

  /** Whole seconds, begun ones not counted; up to 2^23 of them, some 97 days, are stored as they are. */
  lemma SecondsAreWhole(date: int, endDate: int)
    ensures 1000 * SecondsDifference(date, endDate) <= endDate - date < 1000 * SecondsDifference(date, endDate) + 1000
    ensures 0 <= endDate - date < 1000 * 8388608 ==> 1000 * Seconds(date, endDate) <= endDate - date < 1000 * Seconds(date, endDate) + 1000
    ensures Seconds(date, endDate) < 8388608
  {
  }

  // ----- Counts -----

  lemma CountLayout(score: int, date: int, endDate: int)
    ensures var r := GetCombinedCountScore(score, date, endDate);
            && (r.Err? <==> score < 0 || date > endDate)
            && (r.Ok? ==> r.value == score * 0x80_0000 + Seconds(date, endDate))
  {
    Widths();
    var timestamp := SecondsDifference(date, endDate);
    if score >= 0 && timestamp >= 0 {
      assert Shl(1, COUNT_SHIFT) == 0x80_0000;
      MaskIsMod(timestamp, COUNT_SHIFT);
      OrIsPlus(score, Seconds(date, endDate), COUNT_SHIFT);
    }
  }

  /** A packed count decodes to the count, whatever the time, and is a safe number up to 30 bits. */
  lemma CountRoundTrip(score: int, date: int, endDate: int)
    requires score >= 0 && date <= endDate
    ensures var r := GetCombinedCountScore(score, date, endDate);
            && r.Ok? && GetSeparatedCountScore(r.value) == score
            && (r.value < Pow2(MAX_SAFE_BIT_NUM) <==> score < 0x4000_0000)
  {
    Widths();
    CountLayout(score, date, endDate);
    DivisionIsUnique(score, Seconds(date, endDate), 0x80_0000);
  }

  /** Higher counts rank higher; among equal counts the earlier date, with more seconds left, does. */
  lemma CountOrder(score: int, date: int, other: int, otherDate: int, endDate: int)
    requires score >= 0 && other >= 0 && date <= endDate && otherDate <= endDate
    ensures GetCombinedCountScore(score, date, endDate).value < GetCombinedCountScore(other, otherDate, endDate).value
       <==> score < other || (score == other && Seconds(date, endDate) < Seconds(otherDate, endDate))
  {
    CountLayout(score, date, endDate);
    CountLayout(other, otherDate, endDate);
  }

  // ----- Rates -----

  lemma FieldsComeApart(fixedRate: nat, low: nat)
    requires low < 0x80_0000_0000
    ensures Shr(fixedRate * 0x80_0000_0000 + low, RATE_SHIFT) == fixedRate
    ensures fixedRate * 0x80_0000_0000 + low < Pow2(MAX_SAFE_BIT_NUM) <==> fixedRate < 0x4000
  {
    Widths();
    DivisionIsUnique(fixedRate, low, 0x80_0000_0000);
  }

  lemma PackedIs(fixedRate: nat, count: nat, timestamp: nat)
    requires count <= RATE_MAX_COUNT
    ensures PackRate(fixedRate, count, timestamp) ==
            fixedRate * 0x80_0000_0000 + (count * 0x80_0000 + timestamp % 0x80_0000)
  {
    Widths();
    assert Shl(1, COUNT_SHIFT) == 0x80_0000;
    MaskIsMod(timestamp, COUNT_SHIFT);
    OrIsPlus(fixedRate, count * 0x80_0000, RATE_SHIFT);
    OrIsPlus(fixedRate * 0x1_0000 + count, timestamp % 0x80_0000, COUNT_SHIFT);
  }

  lemma PackedRate(fixedRate: nat, count: nat, timestamp: nat)
    requires count <= RATE_MAX_COUNT
    ensures PackRate(fixedRate, count, timestamp) ==
            fixedRate * 0x80_0000_0000 + count * 0x80_0000 + timestamp % 0x80_0000
    ensures Shr(PackRate(fixedRate, count, timestamp), RATE_SHIFT) == fixedRate
    ensures PackRate(fixedRate, count, timestamp) < Pow2(MAX_SAFE_BIT_NUM) <==> fixedRate < 0x4000
  {
    PackedIs(fixedRate, count, timestamp);
    FieldsComeApart(fixedRate, count * 0x80_0000 + timestamp % 0x80_0000);
  }

  lemma RateLayout(rate: Double, count: int, date: int, endDate: int)
    ensures var r := GetCombinedRateScore(rate, count, date, endDate);
            && (r.Err? <==> rate.m < 0 || count < 0 || count > 65535 || date > endDate)
            && (r.Ok? ==> r.value == Fixed(rate) * 0x80_0000_0000 + count * 0x80_0000 + Seconds(date, endDate))
  {
    if rate.m >= 0 && 0 <= count <= RATE_MAX_COUNT && date <= endDate {
      PackedRate(Fixed(rate), count, SecondsDifference(date, endDate));
    }
  }

  /** A packed rate decodes to its whole hundredths: those of the exact product, or one more if the
      product was rounded up to a whole number. It is a safe number below 2^14 hundredths. */
  lemma RateRoundTrip(rate: Double, count: int, date: int, endDate: int)
    requires rate.m >= 0 && 0 <= count <= RATE_MAX_COUNT && date <= endDate
    ensures var r := GetCombinedRateScore(rate, count, date, endDate);
            && r.Ok? && GetSeparatedRateScore(r.value) == Hundredth(Fixed(rate))
            && (r.value < Pow2(MAX_SAFE_BIT_NUM) <==> Fixed(rate) < 0x4000)
    ensures var whole := 100 * rate.m / Pow2(rate.j);
            100 * rate.m < TWO53 * Pow2(rate.j) ==>
              Fixed(rate) == whole || (Fixed(rate) == whole + 1 && IsWhole(TimesHundred(rate), whole + 1))
  {
    PackedRate(Fixed(rate), count, SecondsDifference(date, endDate));
    if 100 * rate.m < TWO53 * Pow2(rate.j) {
      RoundedUpToWhole(100 * rate.m, Pow2(rate.j));
    }
  }

  /** Rates rank first, then counts, then earlier dates. */
  lemma RateOrder(rate: Double, count: int, date: int, rate': Double, count': int, date': int, endDate: int)
    requires rate.m >= 0 && 0 <= count <= RATE_MAX_COUNT && date <= endDate
    requires rate'.m >= 0 && 0 <= count' <= RATE_MAX_COUNT && date' <= endDate
    ensures GetCombinedRateScore(rate, count, date, endDate).value < GetCombinedRateScore(rate', count', date', endDate).value
       <==> || Fixed(rate) < Fixed(rate')
            || (Fixed(rate) == Fixed(rate') && count < count')
            || (Fixed(rate) == Fixed(rate') && count == count' && Seconds(date, endDate) < Seconds(date', endDate))
  {
    RateLayout(rate, count, date, endDate);
    RateLayout(rate', count', date', endDate);
  }

  /** A number of hundredths and a higher one never change places, but they tie exactly when they are
      neighbours and only the higher one is lost. */
  lemma HundredthsOrder(h: nat, count: int, date: int, h': nat, count': int, date': int, endDate: int)
    requires h < h' < 0x2000_0000_0000
    requires 0 <= count <= RATE_MAX_COUNT && date <= endDate && 0 <= count' <= RATE_MAX_COUNT && date' <= endDate
    ensures GetCombinedRateScore(Hundredth(h), count, date, endDate).value
            < GetCombinedRateScore(Hundredth(h'), count', date', endDate).value
       <==> || !(h' == h + 1 && Lost(h') && !Lost(h))
            || count < count'
            || (count == count' && Seconds(date, endDate) < Seconds(date', endDate))
  {
    FixedOfHundredth(h);
    FixedOfHundredth(h');
    RateOrder(Hundredth(h), count, date, Hundredth(h'), count', date', endDate);
  }

  // ----- The rate of sparks -----

  /** floor(sparkCount * 100 / playCount * 100) */
  function SparkHundredths(sparkCount: nat, playCount: nat): nat
    requires playCount > 0
  {
    Fixed(Rounded(100 * sparkCount, playCount))
  }

  /** The rate sendRate computes. */
  function SparkRate(sparkCount: nat, playCount: nat): Double
    requires playCount > 0
  {
    Hundredth(SparkHundredths(sparkCount, playCount))
  }

  lemma SparkHundredthsBound(sparkCount: nat, playCount: nat, percent: nat)
    requires playCount > 0 && sparkCount * 100 <= percent * playCount && percent < 0x1_0000_0000
    ensures SparkHundredths(sparkCount, playCount) <= 100 * percent
  {
    var a := 100 * sparkCount;
    assert a < TWO53 * playCount by {
      LessTimes(percent, TWO53 - 1, playCount);
    }
    FloorOfRounded(a, playCount, percent);
    HundredthsOfShare(Rounded(a, playCount), percent);
  }

  lemma HundredthsOfShare(share: Double, percent: nat)
    requires 0 <= share.m <= percent * Pow2(share.j) && percent < 0x1_0000_0000
    ensures Fixed(share) <= 100 * percent
  {
    var unit := Pow2(share.j);
    assert 100 * share.m <= 100 * percent * unit;
    assert 100 * share.m < TWO53 * unit by {
      LessTimes(100 * percent, TWO53 - 1, unit);
    }
    FloorOfRounded(100 * share.m, unit, 100 * percent);
  }

  lemma SparkBounds(sparkCount: nat, playCount: nat)
    requires playCount > 0 && sparkCount <= RATE_MAX_COUNT
    ensures SparkHundredths(sparkCount, playCount) < 0x2000_0000_0000
    ensures sparkCount <= playCount ==> SparkHundredths(sparkCount, playCount) <= 10000
  {
    LessTimes(1, playCount, 6553500);
    SparkHundredthsBound(sparkCount, playCount, 6553500);
    if sparkCount <= playCount {
      SparkHundredthsBound(sparkCount, playCount, 100);
    }
  }

  lemma HundredthSurvivesIff(h: nat, count: nat, date: int, endDate: int)
    requires h < 0x2000_0000_0000 && count <= RATE_MAX_COUNT && date <= endDate
    ensures var r := GetCombinedRateScore(Hundredth(h), count, date, endDate);
            && r.Ok?
            && (GetSeparatedRateScore(r.value) == Hundredth(h) <==> !Lost(h))
            && (Lost(h) ==> GetSeparatedRateScore(r.value) == Hundredth(h - 1) && Below(Hundredth(h - 1), Hundredth(h)))
            && (h < 0x4000 ==> r.value < Pow2(MAX_SAFE_BIT_NUM))
  {
    FixedOfHundredth(h);
    PackedRate(Fixed(Hundredth(h)), count, SecondsDifference(date, endDate));
    if Lost(h) {
      HundredthsIncrease(h - 1, h);
    }
  }

  /** The rate comes back from the score exactly unless its hundredths are lost; then it comes back one
      hundredth lower. */
  lemma SparkRateSurvivesIff(sparkCount: nat, playCount: nat, date: int, endDate: int)
    requires playCount > 0 && sparkCount <= RATE_MAX_COUNT && date <= endDate
    ensures var rate, h := SparkRate(sparkCount, playCount), SparkHundredths(sparkCount, playCount);
            var r := GetCombinedRateScore(rate, sparkCount, date, endDate);
            && r.Ok?
            && (GetSeparatedRateScore(r.value) == rate <==> !Lost(h))
            && (Lost(h) ==> GetSeparatedRateScore(r.value) == Hundredth(h - 1) && Below(Hundredth(h - 1), rate))
            && (sparkCount <= playCount ==> r.value < Pow2(MAX_SAFE_BIT_NUM))
  {
    SparkBounds(sparkCount, playCount);
    HundredthSurvivesIff(SparkHundredths(sparkCount, playCount), sparkCount, date, endDate);
  }

  lemma Powers()
    ensures Pow2(6) == 64 && Pow2(40) == 0x100_0000_0000 && Pow2(46) == 0x4000_0000_0000
  {
    assert Pow2(10) == 1024 && Pow2(6) == 64;
    Pow2Sum(10, 10);
    Pow2Sum(20, 20);
    Pow2Sum(40, 6);
  }

  lemma QuotientOf1100By14()
    ensures Rounded(1100, 14) == Double(5528972756816457, 46)
  {
    Powers();
    ScaleIs(1100, 14, 46);
    NearestIs(1100 * 0x4000_0000_0000, 14, 5528972756816457, 2);
    RoundedIs(1100, 14, 46);
  }

  lemma Product7857()
    ensures Fixed(Double(5528972756816457, 46)) == 7857
  {
    Powers();
    ProductIs(5528972756816457, 46, 6);
    NearestIs(552897275681645700, 64, 8639019932525714, 4);
    DivisionIsUnique(7857, 8639019932525714 - 7857 * 0x100_0000_0000, 0x100_0000_0000);
  }

  lemma Lost7857()
    ensures Lost(7857)
  {
    Powers();
    ScaleIs(7857, 100, 46);
    assert Scaled(7857) == 7857 * 0x4000_0000_0000;
  }

  /** 11 sparks in 14 plays are 78.57, packed as 78.56. */
  lemma SparkRateLost(date: int, endDate: int)
    requires date <= endDate
    ensures SparkRate(11, 14) == Hundredth(7857)
    ensures var r := GetCombinedRateScore(SparkRate(11, 14), 11, date, endDate);
            r.Ok? && GetSeparatedRateScore(r.value) == Hundredth(7856)
  {
    QuotientOf1100By14();
    Product7857();
    Lost7857();
    HundredthSurvivesIff(7857, 11, date, endDate);
  }
}
