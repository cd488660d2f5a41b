/** The random helpers of src/utils.ts. Math.random is an arbitrary stream of reals in [0, 1). */
module Randoms {
  import opened Arithmetic
  import opened Common
  import opened Doubles

  type Stream = nat -> real

  ghost predicate InUnit(random: Stream) {
    forall i :: 0.0 <= random(i) < 1.0
  }

  // ----- getRandomInt -----

  function GetRandomInt(random: real, min: int, max: int): int {
    min + (random * (max - min + 1) as real).Floor
  }

  /** The unit interval is cut into pieces of equal length, one for each value from min to max. */
  lemma RandomIntPieces(random: real, min: int, max: int, v: int)
    requires 0.0 <= random < 1.0 && min <= max
    ensures min <= GetRandomInt(random, min, max) <= max
    ensures var n := (max - min + 1) as real;
            GetRandomInt(random, min, max) == v <==> (v - min) as real / n <= random < (v - min + 1) as real / n
  {
    Piece(random, max - min + 1, v - min);
  }

  lemma Piece(random: real, n: int, v: int)
    requires 0.0 <= random < 1.0 && n > 0
    ensures 0 <= (random * n as real).Floor < n
    ensures (random * n as real).Floor == v <==> v as real / n as real <= random < (v + 1) as real / n as real
  {
    var size := n as real;
    var x := WithinRange(random, size);
    FloorPiece(x, size, n, v);
    Quotient(v as real, size, random);
    Quotient((v + 1) as real, size, random);
  }

  lemma FloorPiece(x: real, size: real, n: int, v: int)
    requires 0.0 <= x < size && size == n as real
    ensures 0 <= x.Floor < n
    ensures x.Floor == v <==> v as real <= x < (v + 1) as real
  {
  }

  lemma WithinRange(random: real, n: real) returns (x: real)
    requires 0.0 <= random < 1.0 && n > 0.0
    ensures x == random * n && 0.0 <= x < n
  {
    x := random * n;
    assert (1.0 - random) * n > 0.0;
  }

  /** The same in doubles, where Math.random gives k / 2^53. */
  function DoubleRandomInt(k: nat, min: int, max: int): int
    requires min <= max
  {
    min + FloorOf(Rounded(k * (max - min + 1), TWO53))
  }

  /** Rounding the product never leads beyond the maximum, and changes the value only where the product is
      rounded up to a whole number. */
  lemma DoublesStayWithin(k: nat, min: int, max: int)
    requires k < TWO53 && min <= max && max - min + 1 < TWO53
    ensures min <= DoubleRandomInt(k, min, max) <= max
    ensures var product, value := k * (max - min + 1), DoubleRandomInt(k, min, max) - min;
            value == product / TWO53 || (value == product / TWO53 + 1 && IsWhole(Rounded(product, TWO53), value))
  {
    ProductStaysBelow(k, max - min + 1);
    RoundedUpToWhole(k * (max - min + 1), TWO53);
  }

  // ----- choiceMultiple -----

  /** The items at the given places, which are in ascending order. */
  ghost predicate IsSelection<T>(chosen: seq<T>, items: seq<T>, places: seq<nat>) {
    && |places| == |chosen|
    && (forall k :: 0 <= k < |places| ==> places[k] < |items| && chosen[k] == items[places[k]])
    && (forall k, l :: 0 <= k < l < |places| ==> places[k] < places[l])
  }

  /** Exactly n items are chosen, whatever the stream says: once as many are still needed as are left,
      every chance is certain, and once none is needed, none is left. */
  method ChoiceMultiple<T>(items: seq<T>, n: nat, random: Stream) returns (r: Result<seq<T>>, ghost places: seq<nat>)
    requires InUnit(random)
    ensures r.Err? <==> n > |items|
    ensures r.Ok? ==> |r.value| == n && IsSelection(r.value, items, places)
  {
    places := [];
    if n > |items| {
      return Err("array is too short"), places;
    }
    var result := [];
    for i := 0 to |items|
      invariant |result| <= n && n - |result| <= |items| - i
      invariant IsSelection(result, items, places)
      invariant forall k :: 0 <= k < |places| ==> places[k] < i
    {
      var needed, left := n - |result|, |items| - i;
      Chance(random(i), needed, left);
      if random(i) < needed as real / left as real {
        result := result + [items[i]];
        places := places + [i];
      }
    }
    return Ok(result), places;
  }

  lemma Chance(random: real, needed: nat, left: nat)
    requires 0.0 <= random < 1.0 && needed <= left && left > 0
    ensures needed == 0 ==> random >= needed as real / left as real
    ensures needed == left ==> random < needed as real / left as real
  {
    if needed == left {
      assert left as real / left as real == 1.0;
    } else if needed == 0 {
      assert 0.0 / left as real == 0.0;
    }
  }

  /** Distinct items stay distinct. */
  lemma SelectionIsDistinct<T>(chosen: seq<T>, items: seq<T>, places: seq<nat>)
    requires IsSelection(chosen, items, places)
    requires forall i, j :: 0 <= i < j < |items| ==> items[i] != items[j]
    ensures forall k, l :: 0 <= k < l < |chosen| ==> chosen[k] != chosen[l]
  {
  }
}
