/** The extract operation of src/use_cases/extract_usecase.ts around the lottery: how many draws and items,
    what was promised beforehand, and the energy it uses up. */
module ExtractUseCase {
  import opened Arithmetic
  import opened Collections
  import opened Common
  import opened Randoms
  import opened ExtractDraw

  const EXTRACT_BASE_ENERGY := 10000

  // ----- The table of item counts -----

  predicate InTable(code: int, base: int) {
    1 <= code <= 24 && 4 <= base <= 12
  }

  /** The table, one row for each season base; a row holds a few runs of equal counts, then climbs by
      one with each code until it stays at 12. */
  function Count(code: int, base: int): nat
    requires InTable(code, base)
  {
    match base
    case 4 => if code <= 5 then 1 else if code <= 7 then 2 else if code <= 8 then 3 else if code < 18 then code - 6 else 12
    case 5 => if code <= 4 then 1 else if code <= 6 then 2 else if code <= 7 then 3 else if code < 17 then code - 5 else 12
    case 6 => if code <= 3 then 1 else if code <= 5 then 2 else if code <= 6 then 3 else if code < 16 then code - 4 else 12
    case 7 => if code <= 2 then 1 else if code <= 4 then 2 else if code <= 5 then 3 else if code < 15 then code - 3 else 12
    case 8 => if code <= 2 then 1 else if code <= 3 then 2 else if code < 14 then code - 2 else 12
    case 9 => if code <= 1 then 1 else if code < 13 then code - 1 else 12
    case 10 => if code < 12 then code else 12
    case 11 => if code < 11 then code + 1 else 12
    case _ => if code < 10 then code + 2 else 12
  }

  function GetExtractItemCount(code: int, base: int): Option<nat> {
    if InTable(code, base) then Some(Count(code, base)) else None
  }

  // The same table written out, for the codes from 1 to 24.

  lemma LowRows(code: int)
    requires 1 <= code <= 24
    ensures Count(code, 4) == [1, 1, 1, 1, 1, 2, 2, 3, 3, 4, 5, 6, 7, 8, 9, 10, 11, 12, 12, 12, 12, 12, 12, 12][code - 1]
    ensures Count(code, 5) == [1, 1, 1, 1, 2, 2, 3, 3, 4, 5, 6, 7, 8, 9, 10, 11, 12, 12, 12, 12, 12, 12, 12, 12][code - 1]
  {
  }

  lemma MiddleRows(code: int)
    requires 1 <= code <= 24
    ensures Count(code, 6) == [1, 1, 1, 2, 2, 3, 3, 4, 5, 6, 7, 8, 9, 10, 11, 12, 12, 12, 12, 12, 12, 12, 12, 12][code - 1]
    ensures Count(code, 7) == [1, 1, 2, 2, 3, 3, 4, 5, 6, 7, 8, 9, 10, 11, 12, 12, 12, 12, 12, 12, 12, 12, 12, 12][code - 1]
  {
  }

  lemma UpperRows(code: int)
    requires 1 <= code <= 24
    ensures Count(code, 8) == [1, 1, 2, 2, 3, 4, 5, 6, 7, 8, 9, 10, 11, 12, 12, 12, 12, 12, 12, 12, 12, 12, 12, 12][code - 1]
    ensures Count(code, 9) == [1, 1, 2, 3, 4, 5, 6, 7, 8, 9, 10, 11, 12, 12, 12, 12, 12, 12, 12, 12, 12, 12, 12, 12][code - 1]
  {
  }

  lemma HighRows(code: int)
    requires 1 <= code <= 24
    ensures Count(code, 10) == [1, 2, 3, 4, 5, 6, 7, 8, 9, 10, 11, 12, 12, 12, 12, 12, 12, 12, 12, 12, 12, 12, 12, 12][code - 1]
    ensures Count(code, 11) == [2, 3, 4, 5, 6, 7, 8, 9, 10, 11, 12, 12, 12, 12, 12, 12, 12, 12, 12, 12, 12, 12, 12, 12][code - 1]
    ensures Count(code, 12) == [3, 4, 5, 6, 7, 8, 9, 10, 11, 12, 12, 12, 12, 12, 12, 12, 12, 12, 12, 12, 12, 12, 12, 12][code - 1]
  {
  }

  /** Up to base 10 a code promises no more items than it draws; a higher code never promises less. */
  lemma CountBounds(code: int, higher: int, base: int)
    requires InTable(code, base) && InTable(higher, base) && code <= higher
    ensures 1 <= Count(code, base) <= Count(higher, base) <= 12
    ensures base <= 10 ==> Count(code, base) <= code
  {
  }

  // ----- Codes and promises -----

  /** Extractable energy by accumulator, None for an unknown one. */
  predicate IsMetadata(extractableEnergy: Option<int>) {
    extractableEnergy.Some? ==> extractableEnergy.value in {20000, 30000, 40000}
  }

  function WholePortions(unusedEnergy: int, extractableEnergy: int): int
    requires extractableEnergy > 0
  {
    (unusedEnergy - unusedEnergy % extractableEnergy) / EXTRACT_BASE_ENERGY
  }

  /** As many portions as fit, each worth 2, 3 or 4. */
  lemma PortionsFit(unused: int, extractable: int)
    requires IsMetadata(Some(extractable)) && unused >= extractable
    ensures var code := WholePortions(unused, extractable);
            && code >= 2
            && code * EXTRACT_BASE_ENERGY % extractable == 0
            && code * EXTRACT_BASE_ENERGY <= unused < code * EXTRACT_BASE_ENERGY + extractable
  {
    if extractable == 20000 {
      Portions(unused, 2);
    } else if extractable == 30000 {
      Portions(unused, 3);
    } else {
      Portions(unused, 4);
    }
  }

  lemma Portions(unused: int, size: int)
    requires 2 <= size <= 4 && unused >= size * 10000
    ensures var code := WholePortions(unused, size * 10000);
            && code >= 2
            && code * EXTRACT_BASE_ENERGY % (size * 10000) == 0
            && code * EXTRACT_BASE_ENERGY <= unused < code * EXTRACT_BASE_ENERGY + size * 10000
  {
    var n := size * 10000;
    var portions := unused / n;
    Division(unused, n);
    assert portions >= 1;
    assert unused - unused % n == 10000 * (size * portions);
    assert WholePortions(unused, n) == size * portions;
    DivisionIsUnique(portions, 0, n);
    assert size * portions * 10000 == portions * n;
  }

  function GetDefaultExtractCode(extractableEnergy: Option<int>, energy: int, extractedEnergy: int): Result<int>
    requires IsMetadata(extractableEnergy)
  {
    if extractableEnergy.None? then Err("unknown accumulator")
    else
      var unusedEnergy := energy - extractedEnergy;
      if unusedEnergy < extractableEnergy.value then Err("energy insufficient")
      else Ok(WholePortions(unusedEnergy, extractableEnergy.value))
  }

  /** A code stands for whole portions of energy: as many as the unused energy allows, and no more. */
  lemma DefaultCodeIsLargest(extractable: int, energy: int, extractedEnergy: int)
    requires IsMetadata(Some(extractable))
    ensures var r := GetDefaultExtractCode(Some(extractable), energy, extractedEnergy);
            if r.Err? then energy - extractedEnergy < extractable
            else
              && r.value >= 2
              && r.value * EXTRACT_BASE_ENERGY % extractable == 0
              && r.value * EXTRACT_BASE_ENERGY <= energy - extractedEnergy < r.value * EXTRACT_BASE_ENERGY + extractable
  {
    if energy - extractedEnergy >= extractable {
      PortionsFit(energy - extractedEnergy, extractable);
    }
  }

  datatype Promise = Promise(extractCode: Option<int>, count: nat)

  function MinNumberOfExtractItems(extractableEnergy: Option<int>, energy: int, extractedEnergy: int, base: int): Result<Promise>
    requires IsMetadata(extractableEnergy)
  {
    match GetDefaultExtractCode(extractableEnergy, energy, extractedEnergy)
    case Err(e) => if e == "energy insufficient" then Ok(Promise(None, 0)) else Err(e)
    case Ok(code) =>
      match GetExtractItemCount(code, base)
      case None => Err("unknown extract item count")
      case Some(count) => Ok(Promise(Some(code), count))
  }

  /** Too little energy promises nothing, and is no error; otherwise the table is asked for the largest code
      that can be paid. */
  lemma PromiseIs(extractableEnergy: Option<int>, energy: int, extractedEnergy: int, base: int)
    requires extractableEnergy.Some? ==> extractableEnergy.value in {20000, 30000, 40000}
    ensures var r := MinNumberOfExtractItems(extractableEnergy, energy, extractedEnergy, base);
            if extractableEnergy.None? then r.Err?
            else if energy - extractedEnergy < extractableEnergy.value then r == Ok(Promise(None, 0))
            else if r.Err? then base < 4 || base > 12 || energy - extractedEnergy >= 250000
            else
              && r.value.extractCode.Some? && 4 <= base <= 12
              && 1 <= r.value.extractCode.value <= 24
              && r.value.extractCode.value * 10000 % extractableEnergy.value == 0
              && r.value.extractCode.value * 10000 <= energy - extractedEnergy
                 < r.value.extractCode.value * 10000 + extractableEnergy.value
              && r.value.count == Count(r.value.extractCode.value, base)
  {
    if extractableEnergy.Some? {
      DefaultCodeIsLargest(extractableEnergy.value, energy, extractedEnergy);
    }
  }

  // ----- The lottery within an extract -----

  /** How often to draw, and how many of the drawn items to give out. */
  datatype Plan = Plan(draws: int, items: nat)

  /** The random code falls back to the default code when the box cannot serve it. */
  function MakePlan(defaultExtractCode: int, bonus: int, base: int, totalItems: int): Result<Plan>
  {
    match GetExtractItemCount(defaultExtractCode + bonus, base)
    case None => Err("unknown ExtractCode")
    case Some(count) =>
      if totalItems >= count then Ok(Plan(defaultExtractCode + bonus, count))
      else
        match GetExtractItemCount(defaultExtractCode, base)
        case None => Err("unknown ExtractCode")
        case Some(fromBase) =>
          if totalItems < fromBase then Err("extract items insufficient") else Ok(Plan(defaultExtractCode, fromBase))
  }

  /** A code with a bonus within the table is planned exactly if the box holds at least what the code
      itself is to bring; the bonus counts exactly if the box holds what it is to bring. */
  lemma PlannedIff(defaultExtractCode: int, bonus: int, base: int, totalItems: int)
    requires 1 <= defaultExtractCode && 0 <= bonus <= 3
    ensures var plan := MakePlan(defaultExtractCode, bonus, base, totalItems);
            && (plan.Ok? <==> 4 <= base <= 12 && defaultExtractCode + bonus <= 24 && Count(defaultExtractCode, base) <= totalItems)
            && (plan.Ok? ==>
                  && plan.value.draws == (if Count(defaultExtractCode + bonus, base) <= totalItems then defaultExtractCode + bonus
                                          else defaultExtractCode)
                  && plan.value.items == Count(plan.value.draws, base) <= totalItems)
  {
    if InTable(defaultExtractCode + bonus, base) {
      CountBounds(defaultExtractCode, defaultExtractCode + bonus, base);
    }
  }

  function Emitted(plan: Plan, totalItems: int): int {
    Min(plan.items, Min(plan.draws, totalItems))
  }

  /** A plan gives out what was promised exactly when it draws that often. */
  lemma EmittedEnoughIff(defaultExtractCode: int, bonus: int, base: int, totalItems: int)
    requires 0 <= bonus <= 3 && InTable(defaultExtractCode, base)
    ensures var promised, plan := Count(defaultExtractCode, base), MakePlan(defaultExtractCode, bonus, base, totalItems);
            plan.Ok? ==>
              && (Emitted(plan.value, totalItems) >= promised <==> plan.value.draws >= promised)
              && defaultExtractCode <= plan.value.draws && plan.value.items <= totalItems
  {
    PlannedIff(defaultExtractCode, bonus, base, totalItems);
    if InTable(defaultExtractCode + bonus, base) {
      CountBounds(defaultExtractCode, defaultExtractCode + bonus, base);
    }
  }

  ghost predicate KeepsPromise(defaultExtractCode: int, bonus: int, base: int, totalItems: int)
    requires InTable(defaultExtractCode, base)
  {
    var plan := MakePlan(defaultExtractCode, bonus, base, totalItems);
    plan.Ok? ==> Emitted(plan.value, totalItems) >= Count(defaultExtractCode, base)
  }

  /** All extracts for a code keep its promise, whatever the bonus and the stock, exactly if the code is
      not below the promised number, that is for bases up to 10 and for codes from 12 on. */
  lemma PromiseKeptIff(defaultExtractCode: int, base: int)
    requires InTable(defaultExtractCode, base)
    ensures (forall bonus, totalItems {:trigger KeepsPromise(defaultExtractCode, bonus, base, totalItems)} ::
               0 <= bonus <= 3 ==> KeepsPromise(defaultExtractCode, bonus, base, totalItems))
       <==> Count(defaultExtractCode, base) <= defaultExtractCode
    ensures Count(defaultExtractCode, base) <= defaultExtractCode <==> base <= 10 || defaultExtractCode >= 12
  {
    var promised := Count(defaultExtractCode, base);
    EmittedEnoughIff(defaultExtractCode, 0, base, promised);
    if promised > defaultExtractCode {
      assert !KeepsPromise(defaultExtractCode, 0, base, promised);
    } else {
      forall bonus, totalItems | 0 <= bonus <= 3
        ensures KeepsPromise(defaultExtractCode, bonus, base, totalItems)
      {
        EmittedEnoughIff(defaultExtractCode, bonus, base, totalItems);
      }
    }
  }

  /** On bases 11 and 12 a promise can be broken even by a full box. */
  lemma PromiseBroken()
    ensures MinNumberOfExtractItems(Some(20000), 20000, 0, 11) == Ok(Promise(Some(2), 3))
    ensures MakePlan(2, 0, 11, 1000) == Ok(Plan(2, 3)) && Emitted(Plan(2, 3), 1000) == 2
    ensures MinNumberOfExtractItems(Some(20000), 20000, 0, 12) == Ok(Promise(Some(2), 4))
    ensures MakePlan(2, 1, 12, 1000) == Ok(Plan(3, 5)) && Emitted(Plan(3, 5), 1000) == 3
  {
  }

  function Later(random: Stream): (later: Stream)
    ensures forall i: nat :: later(i) == random(i + 1)
  {
    (i: nat) => random(i + 1)
  }

  /** An extract up to its transaction. The first random number is the bonus, the others turn the wheel.
      What is given out are the drawn items of the highest priorities. */
  method SelectItems(extractableEnergy: Option<int>, energy: int, extractedEnergy: int, extractCode: int, funded: bool,
                     base: int, box: array<BoxItem>, random: Stream, priorityOf: Priority)
    returns (r: Result<seq<ExtractedItem>>)
    requires IsMetadata(extractableEnergy) && InUnit(random)
    ensures var code := GetDefaultExtractCode(extractableEnergy, energy, extractedEnergy);
            var total := Total(Amounts(box[..]));
            var plan := MakePlan(extractCode, GetRandomInt(random(0), 0, 3), base, total);
            && (r.Ok? <==> code == Ok(extractCode) && funded && plan.Ok?)
            && (r.Ok? ==> IsGivenOut(r.value, box[..], Later(random), plan.value, priorityOf))
    ensures r.Ok? && (base <= 10 || extractCode >= 12) ==>
              var promise := MinNumberOfExtractItems(extractableEnergy, energy, extractedEnergy, base);
              promise.Ok? && promise.value.extractCode == Some(extractCode) && |r.value| >= promise.value.count
  {
    var defaultExtractCode := GetDefaultExtractCode(extractableEnergy, energy, extractedEnergy);
    if defaultExtractCode.Err? {
      return Err(defaultExtractCode.message);
    }
    if extractCode != defaultExtractCode.value {
      return Err("state changed");
    }
    DefaultCodeIsLargest(extractableEnergy.value, energy, extractedEnergy);
    if !funded {
      return Err("balance insufficient");
    }
    var bonus := GetRandomInt(random(0), 0, 3);
    RandomIntPieces(random(0), 0, 3, bonus);
    var totalItems := TotalOf(box);
    var plan := MakePlan(extractCode, bonus, base, totalItems);
    if plan.Err? {
      return Err(plan.message);
    }
    EmittedEnoughIff(extractCode, bonus, base, totalItems);
    PromiseKeptIff(extractCode, base);
    var given := GiveOut(plan.value, box, totalItems, Later(random), priorityOf);
    return Ok(given);
  }

  /** Draws as planned and keeps the planned number of items. */
  method GiveOut(plan: Plan, box: array<BoxItem>, totalItems: nat, random: Stream, priorityOf: Priority)
    returns (given: seq<ExtractedItem>)
    requires InUnit(random) && totalItems == Total(Amounts(box[..])) && plan.draws >= 0
    ensures IsGivenOut(given, box[..], random, plan, priorityOf)
  {
    var extractedItems := Extract(plan.draws, box, totalItems, random, priorityOf);
    ExtractHasPriorities(extractedItems, box[..], random, Min(plan.draws, totalItems), priorityOf);
    var count := Min(plan.items, |extractedItems|);
    FirstAreBest(extractedItems, count, priorityOf);
    assert extractedItems == extractedItems[..count] + extractedItems[count..];
    return extractedItems[..count];
  }

  /** Of what the plan's draws bring as many items as planned are given out and the others kept back, and
      no item kept back is of a kind with a higher priority than one given out. */
  ghost predicate IsGivenOut(given: seq<ExtractedItem>, box: seq<BoxItem>, random: Stream, plan: Plan, priorityOf: Priority)
    requires InUnit(random)
  {
    var total := Total(Amounts(box));
    && total >= 0 && plan.draws >= 0
    && |given| == Emitted(plan, total)
    && exists kept ::
         && IsExtract(given + kept, box, random, Min(plan.draws, total), priorityOf)
         && AreBest(given, kept, priorityOf)
  }

  ghost predicate AreBest(given: seq<ExtractedItem>, kept: seq<ExtractedItem>, priorityOf: Priority) {
    forall x <- given, y <- kept ::
      priorityOf(x.isJunk, x.category, x.subCategory) >= priorityOf(y.isJunk, y.category, y.subCategory)
  }

  lemma FirstAreBest(items: seq<ExtractedItem>, count: nat, priorityOf: Priority)
    requires count <= |items| && Descending(items)
    requires forall x <- items :: x.priority == priorityOf(x.isJunk, x.category, x.subCategory)
    ensures AreBest(items[..count], items[count..], priorityOf)
  {
    forall x <- items[..count], y <- items[count..]
      ensures priorityOf(x.isJunk, x.category, x.subCategory) >= priorityOf(y.isJunk, y.category, y.subCategory)
    {
      assert x in items && y in items;
      var i :| 0 <= i < count && items[i] == x;
      var j :| 0 <= j < |items| - count && items[count..][j] == y;
      assert items[count + j] == y;
    }
  }

  method TotalOf(box: array<BoxItem>) returns (total: nat)
    ensures total == Total(Amounts(box[..]))
  {
    ghost var amounts := Amounts(box[..]);
    total := 0;
    for i := 0 to box.Length
      invariant total == Total(amounts[..i])
    {
      total := total + box[i].amount;
      assert amounts[..i + 1][..i] == amounts[..i];
    }
    assert amounts[..box.Length] == amounts;
  }

  // ----- Energy under interleaved extracts and sparks -----

  datatype Tank = Tank(energy: int, extractedEnergy: int)

  /** Sparks add energy. An extract reads the machine at some earlier moment, and its transaction commits
      only if the extracted energy is still what it read. */
  datatype Event = Spark(amount: nat) | Commit(readAt: nat, extractCode: int)

  ghost predicate Next(tanks: seq<Tank>, extractable: int, event: Event, after: Tank)
    requires tanks != [] && IsMetadata(Some(extractable))
  {
    var now := tanks[|tanks| - 1];
    match event
    case Spark(amount) => after == now.(energy := now.energy + amount)
    case Commit(readAt, extractCode) =>
      && readAt < |tanks|
      && var read := tanks[readAt];
         && GetDefaultExtractCode(Some(extractable), read.energy, read.extractedEnergy) == Ok(extractCode)
         && after == if now.extractedEnergy == read.extractedEnergy
                     then now.(extractedEnergy := now.extractedEnergy + extractCode * EXTRACT_BASE_ENERGY)
                     else now
  }

  ghost predicate IsRun(tanks: seq<Tank>, extractable: int)
    requires IsMetadata(Some(extractable))
  {
    && tanks != [] && tanks[0].extractedEnergy == 0 && tanks[0].energy >= 0
    && forall i {:trigger CanFollow(tanks, extractable, i)} :: 0 < i < |tanks| ==> CanFollow(tanks, extractable, i)
  }

  ghost predicate CanFollow(tanks: seq<Tank>, extractable: int, i: nat)
    requires 0 < i < |tanks| && IsMetadata(Some(extractable))
  {
    exists event :: Next(tanks[..i], extractable, event, tanks[i])
  }

  /** However extracts and sparks interleave, no more energy is extracted than there is, energy is taken
      in whole portions, and neither number ever falls. */
  lemma {:induction false} EnergySuffices(tanks: seq<Tank>, extractable: int, i: nat)
    requires IsMetadata(Some(extractable)) && IsRun(tanks, extractable) && i < |tanks|
    ensures 0 <= tanks[i].extractedEnergy <= tanks[i].energy
    ensures tanks[i].extractedEnergy % extractable == 0
    ensures forall j :: 0 <= j <= i ==> tanks[j].energy <= tanks[i].energy && tanks[j].extractedEnergy <= tanks[i].extractedEnergy
  {
    if i > 0 {
      EnergySuffices(tanks, extractable, i - 1);
      assert CanFollow(tanks, extractable, i);
      var event :| Next(tanks[..i], extractable, event, tanks[i]);
      if event.Commit? {
        var read := tanks[event.readAt];
        DefaultCodeIsLargest(extractable, read.energy, read.extractedEnergy);
        SumOfMultiples(tanks[i - 1].extractedEnergy, event.extractCode * EXTRACT_BASE_ENERGY, extractable);
      }
    }
  }

  /** An extract of what it read leaves less than a portion of it; one that read an older state does nothing. */
  lemma CommitTakesWhatItRead(tanks: seq<Tank>, extractable: int, readAt: nat, extractCode: int, after: Tank)
    requires IsMetadata(Some(extractable)) && IsRun(tanks, extractable)
    requires Next(tanks, extractable, Commit(readAt, extractCode), after)
    ensures var read, now := tanks[readAt], tanks[|tanks| - 1];
            && after.energy == now.energy
            && (read.extractedEnergy != now.extractedEnergy ==> after == now)
            && (read.extractedEnergy == now.extractedEnergy ==> 0 <= read.energy - after.extractedEnergy < extractable)
  {
    var read := tanks[readAt];
    DefaultCodeIsLargest(extractable, read.energy, read.extractedEnergy);
  }
}
