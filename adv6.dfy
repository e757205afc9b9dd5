/** Lanternfish (adv-6-rs): the fish are counted per timer value 0..8, and one
  * day of the population is the linear map `ONE_SIM` on that 9-vector, so
  * `time` days are `ONE_SIM^time` applied to it (fast matrix power). */
module Adv6 {
  import opened Common
  import Matrix

  /** `ONE_SIM`, row-major: row `i` is the new count of timer value `i`. */
  const OneSim: seq<int> :=
      [0, 1, 0, 0, 0, 0, 0, 0, 0]
    + [0, 0, 1, 0, 0, 0, 0, 0, 0]
    + [0, 0, 0, 1, 0, 0, 0, 0, 0]
    + [0, 0, 0, 0, 1, 0, 0, 0, 0]
    + [0, 0, 0, 0, 0, 1, 0, 0, 0]
    + [0, 0, 0, 0, 0, 0, 1, 0, 0]
    + [1, 0, 0, 0, 0, 0, 0, 1, 0]
    + [0, 0, 0, 0, 0, 0, 0, 0, 1]
    + [1, 0, 0, 0, 0, 0, 0, 0, 0]

  // ---- the reference model: individual fish --------------------------------

  /** One day for one fish with timer `t`: its new timer, and whether it spawns. */
  function Tick(t: int): int
  {
    if t == 0 then 6 else t - 1
  }

  /** One day for a school of fish: every timer ticks, and each fish whose
    * timer was 0 adds a newborn with timer 8 at the end. */
  function FishDay(fish: seq<int>): seq<int>
  {
    Ticked(fish) + Newborn(fish)
  }

  function Ticked(fish: seq<int>): (r: seq<int>)
    ensures |r| == |fish|
    ensures forall i :: 0 <= i < |r| ==> r[i] == Tick(fish[i])
  {
    if fish == [] then [] else [Tick(fish[0])] + Ticked(fish[1..])
  }

  function Newborn(fish: seq<int>): (r: seq<int>)
    ensures forall i :: 0 <= i < |r| ==> r[i] == 8
  {
    if fish == [] then [] else (if fish[0] == 0 then [8] else []) + Newborn(fish[1..])
  }

  /** Number of fish with timer `v`. */
  function Count(fish: seq<int>, v: int): nat
  {
    if fish == [] then 0 else (if fish[0] == v then 1 else 0) + Count(fish[1..], v)
  }

  /** The 9 per-timer counts of a school whose timers are all below 9. */
  function Histogram(fish: seq<int>): (h: seq<int>)
    ensures |h| == 9
  {
    seq(9, (v: int) => if v >= 0 then Count(fish, v) else 0)
  }

  predicate InRange(fish: seq<int>)
  {
    forall i :: 0 <= i < |fish| ==> 0 <= fish[i] < 9
  }

  // ---- the counting model ---------------------------------------------------

  /** One day on the 9 counts: each count moves down one timer value, timer-0
    * fish restart at 6 and as many newborns appear at 8. Only ever applied to
    * nine counts; anything else is left as it is. */
  function SimStep(d: seq<int>): (r: seq<int>)
    ensures |d| == 9 ==> |r| == 9
  {
    if |d| != 9 then d else [d[1], d[2], d[3], d[4], d[5], d[6], d[7] + d[0], d[8], d[0]]
  }

  lemma {:induction false} CountAppend(a: seq<int>, b: seq<int>, v: int)
    ensures Count(a + b, v) == Count(a, v) + Count(b, v)
  {
    if a == [] {
      assert a + b == b;
    } else {
      assert (a + b)[1..] == a[1..] + b;
      CountAppend(a[1..], b, v);
    }
  }

  /** Per timer value, the fish after a day are the ones one value up, plus
    * the restarted and newborn ones. */
  lemma {:induction false} CountDay(fish: seq<int>, v: int)
    requires InRange(fish) && 0 <= v < 9
    ensures Count(Ticked(fish), v)
         == (if v == 6 then Count(fish, 7) + Count(fish, 0) else if v == 8 then 0 else Count(fish, v + 1))
    ensures Count(Newborn(fish), v) == if v == 8 then Count(fish, 0) else 0
  {
    if fish != [] {
      var rest := fish[1..];
      CountDay(rest, v);
      assert Ticked(fish) == [Tick(fish[0])] + Ticked(rest);
      CountAppend([Tick(fish[0])], Ticked(rest), v);
      CountAppend(if fish[0] == 0 then [8] else [], Newborn(rest), v);
    }
  }

  /** The counting model agrees with the fish-by-fish one. */
  lemma HistogramDay(fish: seq<int>)
    requires InRange(fish)
    ensures Histogram(FishDay(fish)) == SimStep(Histogram(fish))
  {
    forall v | 0 <= v < 9
      ensures Histogram(FishDay(fish))[v] == SimStep(Histogram(fish))[v]
    {
      CountAppend(Ticked(fish), Newborn(fish), v);
      CountDay(fish, v);
    }
  }

  lemma TickedInRange(fish: seq<int>)
    requires InRange(fish)
    ensures InRange(FishDay(fish))
  {
    var day := FishDay(fish);
    forall i | 0 <= i < |day|
      ensures 0 <= day[i] < 9
    {
      if i >= |fish| {
        assert day[i] == Newborn(fish)[i - |fish|];
      }
    }
  }

  /** After `t` days, too: the counts of the school after `t` days are the
    * counting model run for `t` days, and all timers stay in range. */
  lemma HistogramDays(fish: seq<int>, t: nat)
    requires InRange(fish)
    ensures InRange(Iterate(FishDay, fish, t))
    ensures Histogram(Iterate(FishDay, fish, t)) == Iterate(SimStep, Histogram(fish), t)
  {
    forall y | InRange(y)
      ensures InRange(FishDay(y)) && Histogram(FishDay(y)) == SimStep(Histogram(y))
    {
      TickedInRange(y);
      HistogramDay(y);
    }
    IterateCommute(FishDay, SimStep, Histogram, InRange, fish, t);
  }

  /** The total grows by the number of fish that were at timer 0. */
  lemma StepTotal(d: seq<int>)
    requires |d| == 9
    ensures SumData(SimStep(d)) == SumData(d) + d[0]
  {
  }

  // ---- the matrix formulation ----------------------------------------------

  /** The flat positions of the ones in `ONE_SIM`. */
  function OneAt(k: int): int
  {
    if k == 1 || k == 11 || k == 21 || k == 31 || k == 41 || k == 51 || k == 54 || k == 61 || k == 71 || k == 72 then 1 else 0
  }

  lemma OneSimAt(k: nat)
    requires k < 81
    ensures OneSim[k] == OneAt(k)
  {
  }

  /** Count `col` flows into count `row` in one day. */
  predicate Flows(row: int, col: int)
  {
    col == row + 1 || (col == 0 && (row == 6 || row == 8))
  }

  /** Entry (row, col) of `ONE_SIM` is 1 exactly where count `col` flows into
    * count `row`. */
  lemma OneSimGet(row: nat, col: nat)
    requires row < 9 && col < 9
    ensures Matrix.Get(OneSim, 9, row, col) == if Flows(row, col) then 1 else 0
  {
    Matrix.MulIsTimes(row, 9);
    OneSimAt(row * 9 + col);
  }

  lemma {:induction false} SumPair(n: nat, f: nat -> int, k1: nat, k2: nat)
    requires k1 < k2 < n
    requires forall i: nat :: i < n && i != k1 && i != k2 ==> f(i) == 0
    ensures Matrix.SumBelow(n, f) == f(k1) + f(k2)
  {
    if n - 1 == k2 {
      Matrix.SumSingle(n - 1, f, k1);
    } else {
      SumPair(n - 1, f, k1, k2);
    }
  }

  /** Row `row` of `ONE_SIM` times the counts is the new count of timer `row`. */
  lemma StepEntry(d: seq<int>, row: nat)
    requires |d| == 9 && row < 9
    ensures Matrix.Entry(OneSim, d, 9, 1, row, 0) == SimStep(d)[row]
  {
    var term := Matrix.Term(OneSim, d, 9, 1, row, 0);
    forall i: nat | i < 9
      ensures term(i) == if Flows(row, i) then d[i] else 0
    {
      OneSimGet(row, i);
      Matrix.MulIsTimes(i, 1);
    }
    if row == 6 {
      SumPair(9, term, 0, 7);
    } else if row == 8 {
      Matrix.SumSingle(9, term, 0);
    } else {
      Matrix.SumSingle(9, term, row + 1);
    }
  }

  /** Multiplying a 9×1 column by `ONE_SIM` is one day. */
  lemma OneSimIsStep(d: seq<int>)
    requires |d| == 9
    ensures Matrix.Product(OneSim, d, 9, 9, 1) == SimStep(d)
  {
    forall row: nat, col: nat | row < 9 && col < 1
      ensures Matrix.Get(SimStep(d), 1, row, col) == Matrix.Entry(OneSim, d, 9, 1, row, col)
    {
      StepEntry(d, row);
      Matrix.MulIsTimes(row, 1);
    }
    Matrix.BuildExt(SimStep(d), 9, 1, (row: nat, col: nat) => Matrix.Entry(OneSim, d, 9, 1, row, col));
  }

  /** Multiplying by `ONE_SIM` is one day, for every column of nine counts. */
  lemma OneSimSteps()
    ensures forall x :: |x| == Matrix.Mul(9, 1) ==> Matrix.Product(OneSim, x, 9, 9, 1) == SimStep(x)
  {
    forall x | |x| == Matrix.Mul(9, 1)
      ensures Matrix.Product(OneSim, x, 9, 9, 1) == SimStep(x)
    {
      Matrix.MulIsTimes(9, 1);
      OneSimIsStep(x);
    }
  }

  /** `ONE_SIM^t` applied to nine counts is `t` days of the counting model. */
  lemma OneSimPower(d: seq<int>, t: nat)
    requires |d| == 9
    ensures Matrix.Product(Matrix.Power(OneSim, 9, t), d, 9, 9, 1) == Iterate(SimStep, d, t)
  {
    Matrix.MulIsTimes(9, 1);
    OneSimSteps();
    Matrix.PowerSteps(OneSim, 9, d, t, SimStep);
  }

  /** `sim_for`: the counts after `time` days, by one matrix power and product. */
  method SimFor(data: seq<int>, time: nat) returns (r: seq<int>)
    requires |data| == 9
    ensures |r| == 9
    ensures r == Iterate(SimStep, data, time)
  {
    var m := Matrix.Pow(OneSim, 9, time);
    r := Matrix.Multiply(m, data, 9, 9, 1);
    OneSimPower(data, time);
    Matrix.MulIsTimes(9, 1);
  }

  /** The histogram loop of `main`: `data[n as usize] += 1` panics on a timer
    * outside 0..8, modelled as `None`. */
  method CountTimers(input: seq<int>) returns (r: Option<seq<int>>)
    ensures r.None? <==> !InRange(input)
    ensures r.Some? ==> r.value == Histogram(input)
  {
    var data := new int[9](_ => 0);
    for j := 0 to |input|
      invariant InRange(input[..j])
      invariant data[..] == Histogram(input[..j])
    {
      var n := input[j];
      if !(0 <= n < 9) {
        return None;
      }
      forall v | 0 <= v < 9
        ensures Count(input[..j + 1], v) == Count(input[..j], v) + (if v == n then 1 else 0)
      {
        assert input[..j + 1] == input[..j] + [n];
        CountAppend(input[..j], [n], v);
      }
      data[n] := data[n] + 1;
    }
    assert input[..|input|] == input;
    r := Some(data[..]);
  }

  /** `main`: count, simulate 80 days, then 176 more. The answers are the
    * number of fish after 80 and after 256 days. */
  method Solve(input: seq<int>) returns (r: Option<(int, int)>)
    ensures r.None? <==> !InRange(input)
    ensures r.Some? ==> r.value == (|Iterate(FishDay, input, 80)|, |Iterate(FishDay, input, 256)|)
  {
    var counts := CountTimers(input);
    if counts.None? {
      return None;
    }
    var data := SimFor(counts.value, 80);
    var p1 := SumData(data);
    data := SimFor(data, 176);
    var p2 := SumData(data);
    IterateAdd(SimStep, counts.value, 80, 176);
    HistogramDays(input, 80);
    HistogramDays(input, 256);
    FishTotal(Iterate(FishDay, input, 80));
    FishTotal(Iterate(FishDay, input, 256));
    r := Some((p1, p2));
  }

  /** `sum_data`: the total of the nine counts. */
  function SumData(d: seq<int>): (r: int)
    requires |d| == 9
    ensures r == d[0] + d[1] + d[2] + d[3] + d[4] + d[5] + d[6] + d[7] + d[8]
  {
    SumNine(d);
    Sum(d)
  }

  lemma SumNine(d: seq<int>)
    requires |d| == 9
    ensures Sum(d) == d[0] + d[1] + d[2] + d[3] + d[4] + d[5] + d[6] + d[7] + d[8]
  {
    assert Sum(d[8..]) == d[8] by { assert d[8..][1..] == []; }
    assert Sum(d[7..]) == d[7] + Sum(d[8..]) by { assert d[7..][1..] == d[8..]; }
    assert Sum(d[6..]) == d[6] + Sum(d[7..]) by { assert d[6..][1..] == d[7..]; }
    assert Sum(d[5..]) == d[5] + Sum(d[6..]) by { assert d[5..][1..] == d[6..]; }
    assert Sum(d[4..]) == d[4] + Sum(d[5..]) by { assert d[4..][1..] == d[5..]; }
    assert Sum(d[3..]) == d[3] + Sum(d[4..]) by { assert d[3..][1..] == d[4..]; }
    assert Sum(d[2..]) == d[2] + Sum(d[3..]) by { assert d[2..][1..] == d[3..]; }
    assert Sum(d[1..]) == d[1] + Sum(d[2..]) by { assert d[1..][1..] == d[2..]; }
  }

  /** The counts of a school in range add up to its size. */
  lemma {:induction false} FishTotal(fish: seq<int>)
    requires InRange(fish)
    ensures SumData(Histogram(fish)) == |fish|
  {
    if fish != [] {
      FishTotal(fish[1..]);
    }
  }
}
