/** Crab alignment (adv-7-rs): the positions are sorted, part 1 prices the
  * move to the middle element with linear fuel, part 2 takes the cheapest
  * target between the first and last position with triangular fuel. */
module Adv7 {
  import opened Common

  /** Fuel for one crab moving `d` steps in part 1. */
  function Linear(d: nat): nat { d }

  /** Fuel for one crab moving `d` steps in part 2: `d * (d + 1) / 2`. */
  function Triangular(d: nat): nat { d * (d + 1) / 2 }

  /** Total fuel for all crabs to reach `pos`, the `map(..).sum()` fold. */
  function Fuel(data: seq<int>, pos: int, cost: nat -> nat): int
  {
    if data == [] then 0 else cost(Abs(data[0] - pos)) + Fuel(data[1..], pos, cost)
  }

  predicate Sorted(s: seq<int>)
  {
    forall i, j :: 0 <= i < j < |s| ==> s[i] <= s[j]
  }

  /** `p1`: the fuel to reach the element at index `len / 2`. */
  function Part1(data: seq<int>): (r: int)
    requires |data| > 0
    ensures r >= 0
    ensures r == 0 <==> forall i :: 0 <= i < |data| ==> data[i] == data[|data| / 2]
  {
    FuelZero(data, data[|data| / 2]);
    Fuel(data, data[|data| / 2], Linear)
  }

  /** Linear fuel is zero exactly when every crab already stands at `pos`. */
  lemma {:induction false} FuelZero(data: seq<int>, pos: int)
    ensures Fuel(data, pos, Linear) >= 0
    ensures Fuel(data, pos, Linear) == 0 <==> forall i :: 0 <= i < |data| ==> data[i] == pos
  {
    if data != [] {
      FuelZero(data[1..], pos);
      if forall i :: 0 <= i < |data| ==> data[i] == pos {
        assert forall i :: 0 <= i < |data[1..]| ==> data[1..][i] == data[i + 1];
      }
      if Fuel(data, pos, Linear) == 0 {
        forall i | 0 <= i < |data|
          ensures data[i] == pos
        {
          if i > 0 {
            assert data[1..][i - 1] == data[i];
          }
        }
      }
    }
  }

  /** `p2` over the targets `lo..=hi`: the smallest total triangular fuel. */
  function MinFuel(data: seq<int>, lo: int, hi: int): (r: int)
    requires lo <= hi
    ensures exists i :: lo <= i <= hi && r == Fuel(data, i, Triangular)
    ensures forall i :: lo <= i <= hi ==> r <= Fuel(data, i, Triangular)
    decreases hi - lo
  {
    if lo == hi then Fuel(data, lo, Triangular)
    else
      var rest := MinFuel(data, lo + 1, hi);
      var here := Fuel(data, lo, Triangular);
      if here <= rest then here else rest
  }

  /** `p2`: the cheapest target between the first and the last (sorted) position. */
  function Part2(data: seq<int>): (r: int)
    requires |data| > 0 && data[0] <= data[|data| - 1]
    ensures exists i :: data[0] <= i <= data[|data| - 1] && r == Fuel(data, i, Triangular)
    ensures forall i :: data[0] <= i <= data[|data| - 1] ==> r <= Fuel(data, i, Triangular)
  {
    MinFuel(data, data[0], data[|data| - 1])
  }

  lemma {:induction false} FuelAppend(a: seq<int>, b: seq<int>, pos: int, cost: nat -> nat)
    ensures Fuel(a + b, pos, cost) == Fuel(a, pos, cost) + Fuel(b, pos, cost)
  {
    if a == [] {
      assert a + b == b;
    } else {
      assert (a + b)[1..] == a[1..] + b;
      FuelAppend(a[1..], b, pos, cost);
    }
  }

  /** Taking one crab out of the middle of the list. */
  lemma FuelRemove(t: seq<int>, k: nat, pos: int, cost: nat -> nat)
    requires k < |t|
    ensures Fuel(t, pos, cost) == cost(Abs(t[k] - pos)) + Fuel(t[..k] + t[k + 1..], pos, cost)
  {
    var a, b := t[..k], t[k + 1..];
    var c := [t[k]] + b;
    assert c[1..] == b;
    assert Fuel(c, pos, cost) == cost(Abs(t[k] - pos)) + Fuel(b, pos, cost);
    assert t == a + c;
    FuelAppend(a, c, pos, cost);
    FuelAppend(a, b, pos, cost);
  }

  lemma RemoveFromMultiset(s: seq<int>, t: seq<int>, k: nat)
    requires s != [] && k < |t| && t[k] == s[0]
    requires multiset(s) == multiset(t)
    ensures multiset(s[1..]) == multiset(t[..k] + t[k + 1..])
  {
    var a, b := t[..k], t[k + 1..];
    assert s == [s[0]] + s[1..];
    assert t == a + [t[k]] + b;
    calc {
      multiset(s[1..]);
      multiset(s) - multiset{s[0]};
      multiset(t) - multiset{t[k]};
      multiset(a) + multiset(b);
      multiset(a + b);
    }
  }

  /** The fuel does not depend on the order of the crabs, so sorting the data
    * first changes only which target `p1` picks and the range `p2` scans. */
  lemma {:induction false} FuelPermutation(s: seq<int>, t: seq<int>, pos: int, cost: nat -> nat)
    requires multiset(s) == multiset(t)
    ensures Fuel(s, pos, cost) == Fuel(t, pos, cost)
    decreases |s|
  {
    if s == [] {
      assert |t| == |multiset(t)| == 0;
    } else {
      assert s[0] in multiset(t);
      var k :| 0 <= k < |t| && t[k] == s[0];
      RemoveFromMultiset(s, t, k);
      FuelPermutation(s[1..], t[..k] + t[k + 1..], pos, cost);
      FuelRemove(t, k, pos, cost);
    }
  }

  /** A sorted sequence's first element is at most its last, so `p2`'s range is
    * never empty once `main` has sorted the data. */
  lemma SortedRange(data: seq<int>)
    requires |data| > 0 && Sorted(data)
    ensures data[0] <= data[|data| / 2] <= data[|data| - 1]
  {
  }

  /** `main`: `data.sort()` (the library sort, taken here as any sorted
    * permutation `sorted` of the input), then both parts. */
  function Solve(data: seq<int>, sorted: seq<int>): (r: (int, int))
    requires |data| > 0
    requires Sorted(sorted) && multiset(sorted) == multiset(data)
    ensures r.0 == Fuel(data, sorted[|sorted| / 2], Linear)
    ensures forall i :: sorted[0] <= i <= sorted[|sorted| - 1] ==> r.1 <= Fuel(data, i, Triangular)
    ensures exists i :: sorted[0] <= i <= sorted[|sorted| - 1] && r.1 == Fuel(data, i, Triangular)
  {
    assert |sorted| == |multiset(sorted)| == |data|;
    SortedRange(sorted);
    FuelPermutation(sorted, data, sorted[|sorted| / 2], Linear);
    forall i ensures Fuel(sorted, i, Triangular) == Fuel(data, i, Triangular) {
      FuelPermutation(sorted, data, i, Triangular);
    }
    (Part1(sorted), Part2(sorted))
  }
}
