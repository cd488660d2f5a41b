/** The list helpers of src/utils.ts: array comparison and grouping of runs. */
module Utils {

  // ----- compareArrays -----

  /** The element-by-element comparison, as a recursive function. */
  function Compare(a: seq<int>, b: seq<int>): int {
    if a == [] || b == [] then |a| - |b|
    else if a[0] < b[0] then -1
    else if a[0] > b[0] then 1
    else Compare(a[1..], b[1..])
  }

  method CompareArrays(a: seq<int>, b: seq<int>) returns (r: int)
    ensures r == Compare(a, b)
  {
    var arrayLength := if |a| < |b| then |a| else |b|;
    for i := 0 to arrayLength
      invariant Compare(a, b) == Compare(a[i..], b[i..])
    {
      if a[i] < b[i] {
        return -1;
      }
      if a[i] > b[i] {
        return 1;
      }
      assert a[i..][1..] == a[i + 1..] && b[i..][1..] == b[i + 1..];
    }
    return |a| - |b|;
  }

  /** Dictionary order: at the first difference a is smaller, or a is a proper prefix of b. */
  ghost predicate LexLess(a: seq<int>, b: seq<int>) {
    exists k: nat :: FirstDifference(a, b, k)
  }

  ghost predicate FirstDifference(a: seq<int>, b: seq<int>, k: nat) {
    && k <= |a| && k <= |b|
    && a[..k] == b[..k]
    && k < |b|
    && (k < |a| ==> a[k] < b[k])
  }

  lemma {:induction false} CompareIsLexicographic(a: seq<int>, b: seq<int>)
    ensures Compare(a, b) < 0 <==> LexLess(a, b)
    ensures Compare(a, b) == 0 <==> a == b
    ensures Compare(a, b) > 0 <==> LexLess(b, a)
  {
    CompareAntisymmetric(a, b);
    CompareZero(a, b);
    CompareNegative(a, b);
    CompareNegative(b, a);
  }

  lemma {:induction false} CompareAntisymmetric(a: seq<int>, b: seq<int>)
    ensures Compare(a, b) == -Compare(b, a)
  {
    if a != [] && b != [] && a[0] == b[0] {
      CompareAntisymmetric(a[1..], b[1..]);
    }
  }

  lemma {:induction false} CompareZero(a: seq<int>, b: seq<int>)
    ensures Compare(a, b) == 0 <==> a == b
  {
    if a != [] && b != [] && a[0] == b[0] {
      CompareZero(a[1..], b[1..]);
      assert a == [a[0]] + a[1..] && b == [b[0]] + b[1..];
    }
  }

  lemma LexLessFront(a: seq<int>, b: seq<int>)
    ensures LexLess(a, b) ==> |b| > 0 && (|a| > 0 ==> a[0] <= b[0])
  {
  }

  lemma {:induction false} CompareNegative(a: seq<int>, b: seq<int>)
    ensures Compare(a, b) < 0 <==> LexLess(a, b)
  {
    if a == [] || b == [] || a[0] != b[0] {
      if Compare(a, b) < 0 {
        assert FirstDifference(a, b, 0);
      }
      LexLessFront(a, b);
    } else {
      CompareNegative(a[1..], b[1..]);
      if LexLess(a[1..], b[1..]) {
        var k: nat :| FirstDifference(a[1..], b[1..], k);
        assert a[..k + 1] == [a[0]] + a[1..][..k] && b[..k + 1] == [b[0]] + b[1..][..k];
        assert FirstDifference(a, b, k + 1);
      }
      if LexLess(a, b) {
        var k: nat :| FirstDifference(a, b, k);
        assert a[1..][..k - 1] == a[..k][1..] && b[1..][..k - 1] == b[..k][1..];
        assert FirstDifference(a[1..], b[1..], k - 1);
      }
    }
  }

  lemma {:induction false} CompareTransitive(a: seq<int>, b: seq<int>, c: seq<int>)
    requires Compare(a, b) <= 0 && Compare(b, c) <= 0
    ensures Compare(a, c) <= 0
    ensures Compare(a, c) == 0 ==> a == b == c
  {
    CompareZero(a, b);
    CompareZero(b, c);
    CompareZero(a, c);
    if a != [] && b != [] && c != [] && a[0] == b[0] == c[0] {
      CompareTransitive(a[1..], b[1..], c[1..]);
      assert a == [a[0]] + a[1..] && b == [b[0]] + b[1..] && c == [c[0]] + c[1..];
    }
  }

  // ----- groupBy -----

  /** Consecutive items of equal key, collected into groups. */
  function Groups<T, K(==)>(items: seq<T>, key: T -> K): (groups: seq<seq<T>>)
    ensures forall i :: 0 <= i < |groups| ==> |groups[i]| > 0
    ensures items != [] ==> groups != []
  {
    if items == [] then [] else Append(Groups(items[..|items| - 1], key), items[|items| - 1], key)
  }

  /** One more item joins the last group when the keys agree, and opens a new group otherwise. */
  function Append<T, K(==)>(groups: seq<seq<T>>, item: T, key: T -> K): (after: seq<seq<T>>)
    requires forall i :: 0 <= i < |groups| ==> |groups[i]| > 0
    ensures forall i :: 0 <= i < |after| ==> |after[i]| > 0
  {
    var m := |groups| - 1;
    if m >= 0 && key(groups[m][0]) == key(item) then groups[m := groups[m] + [item]] else groups + [[item]]
  }

  method GroupBy<T, K(==)>(items: seq<T>, keyFn: T -> K) returns (groups: seq<seq<T>>)
    ensures groups == Groups(items, keyFn)
  {
    groups := [];
    if items == [] {
      return;
    }
    var currentGroup := [];
    var key := keyFn(items[0]);
    for i := 0 to |items|
      invariant currentGroup == [] <==> i == 0
      invariant i == 0 ==> groups == []
      invariant i > 0 ==> Groups(items[..i], keyFn) == groups + [currentGroup] && key == keyFn(currentGroup[0])
    {
      var item := items[i];
      var itemKey := keyFn(item);
      assert items[..i + 1][..i] == items[..i];
      if |currentGroup| > 0 && key == itemKey {
        currentGroup := currentGroup + [item];
      } else {
        if |currentGroup| > 0 {
          groups := groups + [currentGroup];
        }
        currentGroup := [item];
        key := itemKey;
      }
    }
    groups := groups + [currentGroup];
    assert items[..|items|] == items;
  }

  function Concat<T>(groups: seq<seq<T>>): seq<T> {
    if groups == [] then [] else Concat(groups[..|groups| - 1]) + groups[|groups| - 1]
  }

  /** What a grouping into runs means: the same items in the same order, one key within a group,
      different keys in neighbouring groups. */
  ghost predicate AreRuns<T, K>(groups: seq<seq<T>>, items: seq<T>, key: T -> K) {
    && Concat(groups) == items
    && (forall i :: 0 <= i < |groups| ==> |groups[i]| > 0)
    && (forall i :: 0 <= i < |groups| ==> forall x <- groups[i] :: key(x) == key(groups[i][0]))
    && (forall i :: 0 < i < |groups| ==> key(groups[i - 1][0]) != key(groups[i][0]))
  }

  lemma {:induction false} GroupsAreRuns<T, K>(items: seq<T>, key: T -> K)
    ensures AreRuns(Groups(items, key), items, key)
  {
    if items != [] {
      var n := |items| - 1;
      GroupsAreRuns(items[..n], key);
      AppendKeepsRuns(Groups(items[..n], key), items[..n], items[n], key);
      assert items == items[..n] + [items[n]];
    }
  }

  lemma AppendKeepsRuns<T, K>(groups: seq<seq<T>>, items: seq<T>, item: T, key: T -> K)
    requires AreRuns(groups, items, key)
    ensures AreRuns(Append(groups, item, key), items + [item], key)
  {
    var after := Append(groups, item, key);
    var m := |after| - 1;
    assert after[..m] == groups[..m];
    if m < |groups| {
      assert Concat(groups) == Concat(groups[..m]) + groups[m];
    } else {
      assert groups[..m] == groups;
    }
  }

  /** The last item sits at the end of the last group. */
  lemma LastGroup<T, K>(items: seq<T>, key: T -> K)
    requires items != []
    ensures var g := Groups(items, key); var last := g[|g| - 1];
            last[|last| - 1] == items[|items| - 1] && key(last[0]) == key(items[|items| - 1])
  {
  }

  /** Appending can be undone: the groups before it, and whether the item joined, can be read off
      the groups after it. */
  lemma AppendInjective<T, K, L>(g: seq<seq<T>>, h: seq<seq<T>>, item: T, key: T -> K, other: T -> L)
    requires forall i :: 0 <= i < |g| ==> |g[i]| > 0
    requires forall i :: 0 <= i < |h| ==> |h[i]| > 0
    requires Append(g, item, key) == Append(h, item, other)
    ensures g == h
    ensures g != [] ==> (key(g[|g| - 1][0]) == key(item) <==> other(h[|h| - 1][0]) == other(item))
  {
    var after := Append(g, item, key);
    var m := |after| - 1;
    UndoAppend(g, item, key);
    UndoAppend(h, item, other);
  }

  lemma UndoAppend<T, K>(g: seq<seq<T>>, item: T, key: T -> K)
    requires forall i :: 0 <= i < |g| ==> |g[i]| > 0
    ensures var after := Append(g, item, key); var m := |after| - 1;
            && m >= 0
            && (g != [] && key(g[|g| - 1][0]) == key(item) <==> |after[m]| > 1)
            && g == if |after[m]| > 1 then after[m := after[m][..|after[m]| - 1]] else after[..m]
  {
  }

  /** Two keys group a list alike exactly when they agree on which neighbours belong together. */
  lemma {:induction false} SameGroupsIffSameNeighbours<T, K, L>(items: seq<T>, key: T -> K, other: T -> L)
    ensures Groups(items, key) == Groups(items, other) <==> SameNeighbours(items, key, other)
  {
    if |items| > 1 {
      var n := |items| - 1;
      var before := items[..n];
      SameGroupsIffSameNeighbours(before, key, other);
      NeighboursOneMore(items, key, other);
      if Groups(items, key) == Groups(items, other) {
        AppendInjective(Groups(before, key), Groups(before, other), items[n], key, other);
        LastGroup(before, key);
        LastGroup(before, other);
      } else if SameNeighbours(items, key, other) {
        LastGroup(before, key);
        LastGroup(before, other);
        assert false;
      }
    }
  }

  lemma NeighboursOneMore<T, K, L>(items: seq<T>, key: T -> K, other: T -> L)
    requires |items| > 1
    ensures var n := |items| - 1;
            SameNeighbours(items, key, other) <==>
              && SameNeighbours(items[..n], key, other)
              && (key(items[n - 1]) == key(items[n]) <==> other(items[n - 1]) == other(items[n]))
  {
  }

  ghost predicate SameNeighbours<T, K, L>(items: seq<T>, key: T -> K, other: T -> L) {
    forall i :: 0 <= i < |items| - 1 ==>
      (key(items[i]) == key(items[i + 1]) <==> other(items[i]) == other(items[i + 1]))
  }

  /** On a list sorted downwards by its key no key is split over two groups. */
  lemma {:induction false} SortedGroups<T>(items: seq<T>, key: T -> int)
    requires forall i, j :: 0 <= i <= j < |items| ==> key(items[i]) >= key(items[j])
    ensures var g := Groups(items, key);
            forall i, j :: 0 <= i < j < |g| ==> key(g[i][0]) > key(g[j][0])
  {
    if |items| > 1 {
      var n := |items| - 1;
      SortedGroups(items[..n], key);
      LastGroup(items[..n], key);
      var g := Groups(items[..n], key);
      var m := |g| - 1;
      assert key(g[m][0]) >= key(items[n]);
      assert forall i :: 0 <= i < m ==> key(g[i][0]) > key(g[m][0]);
    }
  }

  /** Membership is preserved by grouping. */
  lemma {:induction false} ConcatMembers<T>(groups: seq<seq<T>>, x: T)
    ensures x in Concat(groups) <==> exists i :: 0 <= i < |groups| && x in groups[i]
  {
    if groups != [] {
      ConcatMembers(groups[..|groups| - 1], x);
    }
  }

  // ----- Array.prototype.filter -----

  function Filter<T(!new)>(items: seq<T>, f: T -> bool): (kept: seq<T>)
    ensures forall x :: x in kept <==> x in items && f(x)
  {
    if items == [] then []
    else
      var rest := Filter(items[..|items| - 1], f);
      var x := items[|items| - 1];
      assert items == items[..|items| - 1] + [x];
      if f(x) then rest + [x] else rest
  }
}
