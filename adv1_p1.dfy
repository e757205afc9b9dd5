/** adv-1/p1.c: count the readings that are strictly larger than the reading
  * before them. Reading the lines (`fetch_int`) is outside the model; the
  * readings arrive as a sequence of C `int` values. */
module Adv1P1 {
  /** C's `INT_MAX`, the initial value of `last`. */
  const IntMax: int := 0x7fff_ffff

  predicate IsCInt(x: int) { -0x8000_0000 <= x <= IntMax }

  /** Number of positions `i >= 1` with `s[i] > s[i-1]`. */
  function Increases(s: seq<int>): nat
  {
    if |s| < 2 then 0
    else Increases(s[..|s| - 1]) + (if s[|s| - 1] > s[|s| - 2] then 1 else 0)
  }

  /** The loop of `main`: `last` starts at `INT_MAX`, so no C `int` exceeds it
    * and the first reading never counts. */
  method CountIncreases(readings: seq<int>) returns (incCnt: nat)
    requires forall i :: 0 <= i < |readings| ==> IsCInt(readings[i])
    ensures incCnt == Increases(readings)
  {
    var last := IntMax;
    incCnt := 0;
    var k := 0;
    while k < |readings|
      invariant 0 <= k <= |readings|
      invariant incCnt == Increases(readings[..k])
      invariant k == 0 ==> last == IntMax
      invariant k > 0 ==> last == readings[k - 1]
    {
      var num := readings[k];
      if num > last {
        incCnt := incCnt + 1;
      }
      last := num;
      assert readings[..k + 1][..k] == readings[..k];
      k := k + 1;
    }
    assert readings[..k] == readings;
  }

  /** For `n` readings the count is at most `n - 1`. */
  lemma {:induction false} IncreasesBound(s: seq<int>)
    requires |s| >= 1
    ensures Increases(s) <= |s| - 1
  {
    if |s| >= 2 {
      IncreasesBound(s[..|s| - 1]);
    }
  }

  predicate StrictlyIncreasing(s: seq<int>)
  {
    forall i, j :: 0 <= i < j < |s| ==> s[i] < s[j]
  }

  /** The bound is reached exactly by strictly increasing input. */
  lemma {:induction false} IncreasesMaximal(s: seq<int>)
    requires |s| >= 1
    ensures Increases(s) == |s| - 1 <==> StrictlyIncreasing(s)
  {
    if |s| >= 2 {
      var p := s[..|s| - 1];
      IncreasesMaximal(p);
      IncreasesBound(p);
      if StrictlyIncreasing(s) {
        assert StrictlyIncreasing(p);
      }
      if Increases(s) == |s| - 1 {
        assert Increases(p) == |p| - 1 && s[|s| - 1] > s[|s| - 2];
        forall i, j | 0 <= i < j < |s| ensures s[i] < s[j] {
          if j < |s| - 1 {
            assert s[i] == p[i] && s[j] == p[j];
          } else if i < |s| - 2 {
            assert s[i] == p[i] && s[|s| - 2] == p[|s| - 2];
          }
        }
      }
    }
  }
}
