/** The lottery of src/use_cases/extract_usecase.ts: weighted drawing without replacement. Math.random
    is an arbitrary stream of reals in [0, 1). */
module ExtractDraw {
  import opened Collections
  import opened Common
  import opened Randoms
  import Sums

  datatype Category = ROM | ACCUMULATOR | UPPER_CABINET | LOWER_CABINET

  datatype BoxItem = BoxItem(isJunk: bool, category: Category, subCategory: string, amount: nat)

  datatype ExtractedItem = ExtractedItem(isJunk: bool, category: Category, subCategory: string, priority: int)

  /** getExtractPriority, a constant table. */
  type Priority = (bool, Category, string) -> int

  // ----- The wheel -----

  /** Number n, counted from 1, falls on item j when the items before j hold fewer than n numbers, and
      with j's own there are enough. */
  predicate IsHit(a: seq<int>, j: nat, n: int) {
    j < |a| && Total(a[..j]) < n <= Total(a[..j + 1])
  }

  lemma {:induction false} TotalSplit(a: seq<int>, j: nat)
    requires j <= |a| && forall i :: 0 <= i < |a| ==> a[i] >= 0
    ensures 0 <= Total(a[..j]) <= Total(a)
    decreases |a|
  {
    if j < |a| {
      assert a[..|a| - 1][..j] == a[..j];
      TotalSplit(a[..|a| - 1], j);
    } else {
      assert a[..j] == a;
      if a != [] {
        TotalSplit(a[..|a| - 1], |a| - 1);
        assert a[..|a| - 1][..|a| - 1] == a[..|a| - 1];
      }
    }
  }

  lemma HitsAreApart(a: seq<int>, i: nat, j: nat, n: int)
    requires forall k :: 0 <= k < |a| ==> a[k] >= 0
    requires i < j < |a| && IsHit(a, i, n)
    ensures !IsHit(a, j, n)
  {
    TotalSplit(a[..j], i + 1);
    assert a[..j][..i + 1] == a[..i + 1];
  }

  lemma HitsAreEqual(a: seq<int>, i: nat, j: nat, n: int)
    requires forall k :: 0 <= k < |a| ==> a[k] >= 0
    requires IsHit(a, i, n) && IsHit(a, j, n)
    ensures i == j
  {
    if i < j {
      HitsAreApart(a, i, j, n);
    } else if j < i {
      HitsAreApart(a, j, i, n);
    }
  }

  /** Of the numbers 1 to the total, exactly amount many fall on an item: the draw is weighted by stock. */
  lemma WheelIsWeighted(a: seq<int>, j: nat)
    requires j < |a| && forall k :: 0 <= k < |a| ==> a[k] >= 0
    ensures |set n | 1 <= n <= Total(a) && IsHit(a, j, n)| == a[j]
  {
    TotalSplit(a, j + 1);
    TotalSplit(a[..j + 1], j);
    assert a[..j + 1][..j] == a[..j];
    var lo := Total(a[..j]);
    assert (set n | 1 <= n <= Total(a) && IsHit(a, j, n)) == Interval(lo, a[j]);
    IntervalSize(lo, a[j]);
  }

  ghost function Interval(lo: int, size: nat): set<int> {
    set n | lo < n <= lo + size && InInterval(lo, n, size)
  }

  predicate InInterval(lo: int, n: int, size: nat) {
    lo < n <= lo + size
  }

  lemma {:induction false} IntervalSize(lo: int, size: nat)
    ensures |Interval(lo, size)| == size
  {
    if size == 0 {
      assert Interval(lo, size) == {};
    } else {
      IntervalSize(lo, size - 1);
      assert Interval(lo, size) == Interval(lo, size - 1) + {lo + size};
    }
  }

  lemma {:induction false} TotalDecrement(a: seq<int>, j: nat)
    requires j < |a|
    ensures Total(a[j := a[j] - 1]) == Total(a) - 1
  {
    var b := a[j := a[j] - 1];
    if j < |a| - 1 {
      TotalDecrement(a[..|a| - 1], j);
      assert b[..|a| - 1] == a[..|a| - 1][j := a[j] - 1];
    } else {
      assert b[..|a| - 1] == a[..|a| - 1];
    }
  }

  // ----- Draws -----

  /** The stock left after the picks, item by item. */
  function Left(a: seq<nat>, picks: seq<nat>): (left: seq<int>) {
    seq<int>(|a|, j requires 0 <= j < |a| => a[j] as int - multiset(picks)[j] as int)
  }

  /** What the stream makes of the stock: each pick is the item on which the wheel, over what the picks
      before it left, stopped. */
  ghost predicate AreDraws(a: seq<nat>, picks: seq<nat>, random: Stream) {
    forall i {:trigger IsDraw(a, picks, random, i)} :: 0 <= i < |picks| ==> IsDraw(a, picks, random, i)
  }

  ghost predicate IsDraw(a: seq<nat>, picks: seq<nat>, random: Stream, i: nat)
    requires i < |picks|
  {
    IsHit(Left(a, picks[..i]), picks[i], GetRandomInt(random(i), 1, Total(a) - i))
  }

  lemma DrawsBefore(a: seq<nat>, picks: seq<nat>, random: Stream)
    requires picks != [] && AreDraws(a, picks, random)
    ensures AreDraws(a, picks[..|picks| - 1], random)
  {
    var n := |picks| - 1;
    forall i | 0 <= i < n
      ensures IsDraw(a, picks[..n], random, i)
    {
      assert picks[..n][..i] == picks[..i];
      assert IsDraw(a, picks, random, i);
    }
  }

  lemma DrawsAfter(a: seq<nat>, picks: seq<nat>, random: Stream, j: nat, number: int)
    requires AreDraws(a, picks, random)
    requires number == GetRandomInt(random(|picks|), 1, Total(a) - |picks|)
    requires IsHit(Left(a, picks), j, number)
    ensures AreDraws(a, picks + [j], random)
  {
    var after := picks + [j];
    forall i | 0 <= i < |after|
      ensures IsDraw(a, after, random, i)
    {
      assert after[..i] == picks[..i];
      if i < |picks| {
        assert IsDraw(a, picks, random, i);
      } else {
        assert picks[..i] == picks;
      }
    }
  }

  lemma LeftAfter(a: seq<nat>, picks: seq<nat>, j: nat)
    requires j < |a|
    ensures Left(a, picks + [j]) == Left(a, picks)[j := Left(a, picks)[j] - 1]
    ensures Total(Left(a, picks + [j])) == Total(Left(a, picks)) - 1
  {
    TotalDecrement(Left(a, picks), j);
    assert Left(a, picks + [j]) == Left(a, picks)[j := Left(a, picks)[j] - 1];
  }

  /** The item the number falls on. */
  function HitOf(a: seq<int>, n: int): (j: nat)
    requires 1 <= n <= Total(a)
    ensures IsHit(a, j, n)
    decreases |a|
  {
    var front := a[..|a| - 1];
    assert a[..|a|] == a;
    if n <= Total(front) then
      var j := HitOf(front, n);
      assert front[..j] == a[..j] && front[..j + 1] == a[..j + 1];
      j
    else |a| - 1
  }

  /** One more spin over what the picks left. */
  function NextDraw(a: seq<nat>, random: Stream, picks: seq<nat>): (j: nat)
    requires InUnit(random) && AreDraws(a, picks, random) && |picks| < Total(a)
    ensures AreDraws(a, picks + [j], random)
  {
    DrawsConserve(a, picks, random);
    var number := GetRandomInt(random(|picks|), 1, Total(a) - |picks|);
    RandomIntPieces(random(|picks|), 1, Total(a) - |picks|, number);
    var j := HitOf(Left(a, picks), number);
    DrawsAfter(a, picks, random, j, number);
    j
  }

  /** Spinning the wheel n times, each time over what is left. */
  function DrawsOf(a: seq<nat>, random: Stream, n: nat): (picks: seq<nat>)
    requires InUnit(random) && n <= Total(a)
    ensures |picks| == n && AreDraws(a, picks, random)
  {
    if n == 0 then []
    else
      var before := DrawsOf(a, random, n - 1);
      before + [NextDraw(a, random, before)]
  }

  /** Nothing is drawn that is not in stock, and every draw takes one item away. */
  lemma {:induction false} DrawsConserve(a: seq<nat>, picks: seq<nat>, random: Stream)
    requires AreDraws(a, picks, random)
    ensures forall j :: 0 <= j < |a| ==> 0 <= Left(a, picks)[j] <= a[j]
    ensures forall i :: 0 <= i < |picks| ==> picks[i] < |a|
    ensures Total(Left(a, picks)) == Total(a) - |picks|
  {
    if picks == [] {
      assert Left(a, picks) == a;
    } else {
      var n := |picks| - 1;
      assert IsDraw(a, picks, random, n);
      DrawsBefore(a, picks, random);
      DrawsConserve(a, picks[..n], random);
      HitIsInStock(Left(a, picks[..n]), picks[n], GetRandomInt(random(n), 1, Total(a) - n));
      LeftAfter(a, picks[..n], picks[n]);
      assert picks == picks[..n] + [picks[n]];
    }
  }

  lemma HitIsInStock(a: seq<int>, j: nat, n: int)
    requires IsHit(a, j, n)
    ensures a[j] > 0
  {
    assert a[..j + 1][..j] == a[..j];
  }

  /** The stream alone decides the picks. */
  lemma {:induction false} DrawsAreDetermined(a: seq<nat>, p: seq<nat>, q: seq<nat>, random: Stream)
    requires AreDraws(a, p, random) && AreDraws(a, q, random) && |p| == |q|
    ensures p == q
  {
    if p != [] {
      var n := |p| - 1;
      DrawsBefore(a, p, random);
      DrawsBefore(a, q, random);
      DrawsAreDetermined(a, p[..n], q[..n], random);
      LastDrawIsDetermined(a, p, q, random);
      assert p == p[..n] + [p[n]] && q == q[..n] + [q[n]];
    }
  }

  lemma LastDrawIsDetermined(a: seq<nat>, p: seq<nat>, q: seq<nat>, random: Stream)
    requires AreDraws(a, p, random) && AreDraws(a, q, random) && |p| == |q| > 0
    requires p[..|p| - 1] == q[..|p| - 1]
    ensures p[|p| - 1] == q[|p| - 1]
  {
    var n := |p| - 1;
    assert IsDraw(a, p, random, n) && IsDraw(a, q, random, n);
    DrawsBefore(a, p, random);
    DrawsConserve(a, p[..n], random);
    HitsAreEqual(Left(a, p[..n]), p[n], q[n], GetRandomInt(random(n), 1, Total(a) - n));
  }

  // ----- Sorting by priority -----

  /** The stable sort of Array.prototype.sort under priorityCompare: higher priorities first. */
  function Sorted(items: seq<ExtractedItem>): (r: seq<ExtractedItem>) {
    if items == [] then [] else Insert(Sorted(items[..|items| - 1]), items[|items| - 1])
  }

  function Insert(items: seq<ExtractedItem>, x: ExtractedItem): (r: seq<ExtractedItem>) {
    if items == [] || items[|items| - 1].priority >= x.priority then items + [x]
    else Insert(items[..|items| - 1], x) + [items[|items| - 1]]
  }

  predicate Descending(items: seq<ExtractedItem>) {
    forall i, j :: 0 <= i < j < |items| ==> items[i].priority >= items[j].priority
  }

  function OfPriority(items: seq<ExtractedItem>, p: int): seq<ExtractedItem> {
    if items == [] then []
    else OfPriority(items[..|items| - 1], p) + if items[|items| - 1].priority == p then [items[|items| - 1]] else []
  }

  lemma {:induction false} InsertKeepsItems(items: seq<ExtractedItem>, x: ExtractedItem)
    ensures multiset(Insert(items, x)) == multiset(items) + multiset{x}
    ensures |Insert(items, x)| == |items| + 1
  {
    if items != [] && items[|items| - 1].priority < x.priority {
      InsertKeepsItems(items[..|items| - 1], x);
      assert items == items[..|items| - 1] + [items[|items| - 1]];
    }
  }

  lemma InsertedAtLeast(items: seq<ExtractedItem>, x: ExtractedItem, p: int)
    requires x.priority >= p && forall y <- items :: y.priority >= p
    ensures forall y <- Insert(items, x) :: y.priority >= p
  {
    InsertKeepsItems(items, x);
    forall y <- Insert(items, x)
      ensures y.priority >= p
    {
      assert y in multiset(Insert(items, x));
    }
  }

  lemma AppendDescends(items: seq<ExtractedItem>, x: ExtractedItem)
    requires Descending(items) && forall y <- items :: y.priority >= x.priority
    ensures Descending(items + [x])
  {
  }

  lemma {:induction false} InsertDescends(items: seq<ExtractedItem>, x: ExtractedItem)
    requires Descending(items)
    ensures Descending(Insert(items, x))
  {
    if items == [] || items[|items| - 1].priority >= x.priority {
      AppendDescends(items, x);
    } else {
      var n := |items| - 1;
      InsertDescends(items[..n], x);
      InsertedAtLeast(items[..n], x, items[n].priority);
      AppendDescends(Insert(items[..n], x), items[n]);
    }
  }

  lemma {:induction false} InsertIsStable(items: seq<ExtractedItem>, x: ExtractedItem, p: int)
    ensures OfPriority(Insert(items, x), p) == OfPriority(items + [x], p)
  {
    assert (items + [x])[..|items|] == items;
    if items != [] && items[|items| - 1].priority < x.priority {
      var n := |items| - 1;
      InsertIsStable(items[..n], x, p);
      var rest := Insert(items[..n], x);
      assert (rest + [items[n]])[..|rest|] == rest;
      assert (items[..n] + [x])[..n] == items[..n];
    }
  }

  lemma {:induction false} SortedKeepsItems(items: seq<ExtractedItem>)
    ensures multiset(Sorted(items)) == multiset(items)
    ensures |Sorted(items)| == |items|
  {
    if items != [] {
      var n := |items| - 1;
      SortedKeepsItems(items[..n]);
      InsertKeepsItems(Sorted(items[..n]), items[n]);
      assert items == items[..n] + [items[n]];
    }
  }

  lemma {:induction false} SortedDescends(items: seq<ExtractedItem>)
    ensures Descending(Sorted(items))
  {
    if items != [] {
      var n := |items| - 1;
      SortedDescends(items[..n]);
      InsertDescends(Sorted(items[..n]), items[n]);
    }
  }

  /** What a stable sort is: in order, nothing lost or made up, and equal priorities in their old order. */
  lemma {:induction false} SortedIsStable(items: seq<ExtractedItem>, p: int)
    ensures Descending(Sorted(items))
    ensures multiset(Sorted(items)) == multiset(items)
    ensures OfPriority(Sorted(items), p) == OfPriority(items, p)
    ensures |Sorted(items)| == |items|
  {
    SortedDescends(items);
    SortedKeepsItems(items);
    if items != [] {
      var n := |items| - 1;
      SortedIsStable(items[..n], p);
      InsertIsStable(Sorted(items[..n]), items[n], p);
      OneMoreOfPriority(Sorted(items[..n]), items[n], p);
    }
  }

  lemma OneMoreOfPriority(items: seq<ExtractedItem>, x: ExtractedItem, p: int)
    ensures OfPriority(items + [x], p) == OfPriority(items, p) + if x.priority == p then [x] else []
  {
    assert (items + [x])[..|items|] == items;
  }

  // ----- extract -----

  function Amounts(box: seq<BoxItem>): (a: seq<nat>)
  {
    seq(|box|, j requires 0 <= j < |box| => box[j].amount)
  }

  function ItemOf(b: BoxItem, priorityOf: Priority): ExtractedItem {
    ExtractedItem(b.isJunk, b.category, b.subCategory, priorityOf(b.isJunk, b.category, b.subCategory))
  }

  function ItemsOf(box: seq<BoxItem>, picks: seq<nat>, priorityOf: Priority): (items: seq<ExtractedItem>)
    requires forall i :: 0 <= i < |picks| ==> picks[i] < |box|
    ensures |items| == |picks|
  {
    if picks == [] then []
    else ItemsOf(box, picks[..|picks| - 1], priorityOf) + [ItemOf(box[picks[|picks| - 1]], priorityOf)]
  }

  /** One turn of the wheel. */
  method Spin(amounts: seq<nat>, itemNumber: int) returns (j: nat)
    requires 1 <= itemNumber <= Total(amounts)
    ensures IsHit(amounts, j, itemNumber)
  {
    var currentNumber := 0;
    j := 0;
    assert amounts[..|amounts|] == amounts;
    while j < |amounts|
      invariant j <= |amounts|
      invariant currentNumber == Total(amounts[..j]) < itemNumber
    {
      assert amounts[..j + 1][..j] == amounts[..j];
      if amounts[j] != 0 {
        currentNumber := currentNumber + amounts[j];
        if currentNumber >= itemNumber {
          return;
        }
      }
      j := j + 1;
    }
  }

  /** The cloned box: the same items, with the stock the picks left. */
  ghost predicate Stocked(cloned: seq<BoxItem>, box: seq<BoxItem>, picks: seq<nat>) {
    && |cloned| == |box|
    && Amounts(cloned) == Left(Amounts(box), picks)
    && forall j :: 0 <= j < |box| ==> cloned[j] == box[j].(amount := cloned[j].amount)
  }

  /** The item the number falls on leaves the box. */
  method DrawOne(clonedBox: array<BoxItem>, ghost box: seq<BoxItem>, ghost picks: seq<nat>, itemNumber: int)
    returns (j: nat)
    requires Stocked(clonedBox[..], box, picks)
    requires 1 <= itemNumber <= Total(Left(Amounts(box), picks))
    modifies clonedBox
    ensures IsHit(Left(Amounts(box), picks), j, itemNumber)
    ensures j < clonedBox.Length == |box| && Stocked(clonedBox[..], box, picks + [j])
    ensures Total(Left(Amounts(box), picks + [j])) == Total(Left(Amounts(box), picks)) - 1
  {
    j := Spin(Amounts(clonedBox[..]), itemNumber);
    HitIsInStock(Left(Amounts(box), picks), j, itemNumber);
    LeftAfter(Amounts(box), picks, j);
    clonedBox[j] := clonedBox[j].(amount := clonedBox[j].amount - 1);
    assert Amounts(clonedBox[..]) == Left(Amounts(box), picks + [j]);
  }

  /** One round: a number from 1 to the stock, and the item it falls on. */
  method Round(clonedBox: array<BoxItem>, ghost box: seq<BoxItem>, ghost picks: seq<nat>, total: int, random: Stream, i: nat)
    returns (j: nat)
    requires InUnit(random) && Stocked(clonedBox[..], box, picks) && AreDraws(Amounts(box), picks, random)
    requires i == |picks| && total == Total(Amounts(box)) - i == Total(Left(Amounts(box), picks)) > 0
    modifies clonedBox
    ensures AreDraws(Amounts(box), picks + [j], random)
    ensures j < clonedBox.Length == |box| && Stocked(clonedBox[..], box, picks + [j])
    ensures Total(Left(Amounts(box), picks + [j])) == total - 1
  {
    var itemNumber := GetRandomInt(random(i), 1, total);
    RandomIntPieces(random(i), 1, total, itemNumber);
    j := DrawOne(clonedBox, box, picks, itemNumber);
    DrawsAfter(Amounts(box), picks, random, j, itemNumber);
  }

  /** The item of a piece in the box: its kind, and the priority of that kind. */
  ghost predicate IsPieceOf(item: ExtractedItem, b: BoxItem, priorityOf: Priority) {
    && item.isJunk == b.isJunk && item.category == b.category && item.subCategory == b.subCategory
    && item.priority == priorityOf(b.isJunk, b.category, b.subCategory)
  }

  /** One item for each of the first n draws of the stream, in their order. */
  ghost predicate AreDrawn(items: seq<ExtractedItem>, box: seq<BoxItem>, random: Stream, n: nat, priorityOf: Priority)
    requires InUnit(random) && n <= Total(Amounts(box))
  {
    var picks := DrawsOf(Amounts(box), random, n);
    && |items| == n
    && forall i :: 0 <= i < n ==> picks[i] < |box| && IsPieceOf(items[i], box[picks[i]], priorityOf)
  }

  ghost predicate IsStableSort(sorted: seq<ExtractedItem>, items: seq<ExtractedItem>) {
    && Descending(sorted)
    && multiset(sorted) == multiset(items)
    && forall p :: OfPriority(sorted, p) == OfPriority(items, p)
  }

  /** What the stream draws from the box, sorted. */
  ghost predicate IsExtract(ret: seq<ExtractedItem>, box: seq<BoxItem>, random: Stream, n: nat, priorityOf: Priority)
    requires InUnit(random) && n <= Total(Amounts(box))
  {
    exists drawn :: AreDrawn(drawn, box, random, n, priorityOf) && IsStableSort(ret, drawn)
  }

  lemma {:induction false} PieceAt(box: seq<BoxItem>, picks: seq<nat>, priorityOf: Priority, i: nat)
    requires forall k :: 0 <= k < |picks| ==> picks[k] < |box|
    requires i < |picks|
    ensures IsPieceOf(ItemsOf(box, picks, priorityOf)[i], box[picks[i]], priorityOf)
  {
    if i < |picks| - 1 {
      PieceAt(box, picks[..|picks| - 1], priorityOf, i);
    }
  }

  /** Items drawn carry the priority of their own kind, in the extract as well. */
  lemma ExtractHasPriorities(ret: seq<ExtractedItem>, box: seq<BoxItem>, random: Stream, n: nat, priorityOf: Priority)
    requires InUnit(random) && n <= Total(Amounts(box)) && IsExtract(ret, box, random, n, priorityOf)
    ensures |ret| == n
    ensures forall x <- ret :: x.priority == priorityOf(x.isJunk, x.category, x.subCategory)
  {
    var drawn :| AreDrawn(drawn, box, random, n, priorityOf) && IsStableSort(ret, drawn);
    assert |multiset(ret)| == |multiset(drawn)|;
    forall x <- ret
      ensures x.priority == priorityOf(x.isJunk, x.category, x.subCategory)
    {
      assert x in multiset(drawn);
      assert x in drawn;
      var i :| 0 <= i < n && drawn[i] == x;
    }
  }

  /** The rounds, until the code or the stock is used up. */
  method DrawAll(extractCode: nat, clonedBox: array<BoxItem>, ghost box: seq<BoxItem>, totalItems: nat,
                 random: Stream, priorityOf: Priority)
    returns (retArray: seq<ExtractedItem>, ghost picks: seq<nat>)
    requires InUnit(random) && clonedBox[..] == box && totalItems == Total(Amounts(box))
    modifies clonedBox
    ensures |picks| == Min(extractCode, totalItems) && AreDraws(Amounts(box), picks, random)
    ensures forall k :: 0 <= k < |picks| ==> picks[k] < |box|
    ensures retArray == ItemsOf(box, picks, priorityOf)
  {
    assert Left(Amounts(box), []) == Amounts(box);
    var total := totalItems;
    retArray := [];
    picks := [];
    for i := 0 to extractCode
      invariant total == totalItems - |picks| && i == |picks|
      invariant total == Total(Left(Amounts(box), picks)) >= 0
      invariant AreDraws(Amounts(box), picks, random)
      invariant forall k :: 0 <= k < |picks| ==> picks[k] < |box|
      invariant Stocked(clonedBox[..], box, picks)
      invariant retArray == ItemsOf(box, picks, priorityOf)
    {
      if total == 0 {
        break;
      }
      ghost var before := picks;
      var j := Round(clonedBox, box, picks, total, random, i);
      total := total - 1;
      retArray := retArray + [ItemOf(clonedBox[j], priorityOf)];
      picks := picks + [j];
      assert picks[..|picks| - 1] == before;
    }
  }

  /** Draws up to extractCode items and sorts them by priority; the box itself is not touched. */
  method Extract(extractCode: nat, box: array<BoxItem>, totalItems: nat, random: Stream, priorityOf: Priority)
    returns (ret: seq<ExtractedItem>)
    requires InUnit(random) && totalItems == Total(Amounts(box[..]))
    ensures IsExtract(ret, box[..], random, Min(extractCode, totalItems), priorityOf)
  {
    ghost var stock := Amounts(box[..]);
    var clonedBox := new BoxItem[box.Length](j requires 0 <= j < box.Length reads box => box[j]);
    assert clonedBox[..] == box[..];
    ghost var picks;
    ret, picks := DrawAll(extractCode, clonedBox, box[..], totalItems, random, priorityOf);
    DrawsAreDetermined(stock, picks, DrawsOf(stock, random, |picks|), random);
    forall i | 0 <= i < |picks|
      ensures IsPieceOf(ret[i], box[picks[i]], priorityOf)
    {
      PieceAt(box[..], picks, priorityOf, i);
    }
    assert AreDrawn(ret, box[..], random, |picks|, priorityOf);
    forall p
      ensures OfPriority(Sorted(ret), p) == OfPriority(ret, p)
    {
      SortedIsStable(ret, p);
    }
    SortedIsStable(ret, 0);
    assert IsStableSort(Sorted(ret), ret);
    ret := Sorted(ret);
  }

  // ----- countOfParts -----

  datatype CountOfParts = CountOfParts(category: Category, subCategory: string, count: nat)

  function CategoryName(c: Category): string {
    match c
    case ROM => "ROM"
    case ACCUMULATOR => "ACCUMULATOR"
    case UPPER_CABINET => "UPPER_CABINET"
    case LOWER_CABINET => "LOWER_CABINET"
  }

  function PartsKey(c: Category, subCategory: string): string {
    CategoryName(c) + "-" + subCategory
  }

  /** The joined key tells kinds apart, whatever the sub-category is called. */
  lemma PartsKeyIsInjective(c: Category, s: string, d: Category, t: string)
    ensures PartsKey(c, s) == PartsKey(d, t) <==> c == d && s == t
  {
    var k, l := PartsKey(c, s), PartsKey(d, t);
    if k == l {
      assert k[0] == CategoryName(c)[0] && l[0] == CategoryName(d)[0];
      assert c == d;
      assert s == k[|CategoryName(c)| + 1..] && t == l[|CategoryName(d)| + 1..];
    }
  }

  function CountOf(items: seq<ExtractedItem>, c: Category, s: string): nat {
    if items == [] then 0
    else
      var last := items[|items| - 1];
      CountOf(items[..|items| - 1], c, s) + if last.category == c && last.subCategory == s then 1 else 0
  }

  /** One entry for each kind that occurs, holding how often it occurs. */
  ghost predicate IsCount(m: map<string, CountOfParts>, items: seq<ExtractedItem>) {
    && (forall c, s {:trigger CountOf(items, c, s)} :: PartsKey(c, s) in m <==> CountOf(items, c, s) > 0)
    && (forall k <- m {:trigger IsEntry(k, m[k], items)} :: IsEntry(k, m[k], items))
  }

  ghost predicate IsEntry(k: string, p: CountOfParts, items: seq<ExtractedItem>) {
    k == PartsKey(p.category, p.subCategory) && p.count == CountOf(items, p.category, p.subCategory)
  }

  ghost function Counts(m: map<string, CountOfParts>): map<string, int> {
    map k | k in m :: m[k].count
  }

  /** Counts the items by kind; the counts add up to the number of items. */
  method CountParts(items: seq<ExtractedItem>) returns (m: map<string, CountOfParts>)
    ensures IsCount(m, items)
    ensures Sums.Sum(Counts(m)) == |items|
  {
    m := map[];
    assert Counts(m) == map[];
    for i := 0 to |items|
      invariant IsCount(m, items[..i])
      invariant Sums.Sum(Counts(m)) == i
    {
      var item := items[i];
      assert items[..i + 1] == items[..i] + [item];
      var key := PartsKey(item.category, item.subCategory);
      ghost var before := m;
      m := m[key := CountOfParts(item.category, item.subCategory, if key in m then m[key].count + 1 else 1)];
      CountedOneMore(before, m, items[..i], item);
    }
    assert items[..|items|] == items;
  }

  lemma CountedOneMore(m: map<string, CountOfParts>, after: map<string, CountOfParts>, items: seq<ExtractedItem>, item: ExtractedItem)
    requires IsCount(m, items)
    requires var key := PartsKey(item.category, item.subCategory);
             after == m[key := CountOfParts(item.category, item.subCategory, if key in m then m[key].count + 1 else 1)]
    ensures IsCount(after, items + [item])
    ensures Sums.Sum(Counts(after)) == Sums.Sum(Counts(m)) + 1
  {
    var key := PartsKey(item.category, item.subCategory);
    var all := items + [item];
    assert all[..|items|] == items;
    forall c, s
      ensures PartsKey(c, s) in after <==> CountOf(all, c, s) > 0
    {
      PartsKeyIsInjective(c, s, item.category, item.subCategory);
      assert PartsKey(c, s) in m <==> CountOf(items, c, s) > 0;
    }
    forall k <- after
      ensures IsEntry(k, after[k], all)
    {
      assert CountOf(items, item.category, item.subCategory) > 0 <==> key in m;
      if k in m {
        assert IsEntry(k, m[k], items);
        PartsKeyIsInjective(m[k].category, m[k].subCategory, item.category, item.subCategory);
      }
    }
    Sums.SumUpdate(Counts(m), key, after[key].count);
    assert Counts(after) == Counts(m)[key := after[key].count];
  }
}
