/** adv-1/p2.c: compare sums of three consecutive readings through a four-slot
  * ring buffer. Reading the lines is outside the model; the readings arrive as
  * a sequence. */
module Adv1P2 {
  import Adv1P1

  /** Number of positions `i >= 3` with `s[i] > s[i-3]`: what the ring buffer
    * compares. */
  function WindowIncreases(s: seq<int>): nat
  {
    if |s| < 4 then 0
    else WindowIncreases(s[..|s| - 1]) + (if s[|s| - 1] > s[|s| - 4] then 1 else 0)
  }

  /** The three-reading window sums `s[i] + s[i+1] + s[i+2]`. */
  function WindowSums(s: seq<int>): (r: seq<int>)
    ensures |r| == if |s| < 3 then 0 else |s| - 2
  {
    if |s| < 3 then [] else WindowSums(s[..|s| - 1]) + [s[|s| - 3] + s[|s| - 2] + s[|s| - 1]]
  }

  /** The `main` loop of p2. Fewer than three readings leave the loop without
    * a comparison. Reading `k` is written to slot `(pos + 3) & 3` and compared
    * with slot `pos`, which holds reading `k - 3`. */
  method CountWindowIncreases(readings: seq<int>) returns (incCnt: nat)
    ensures incCnt == WindowIncreases(readings)
  {
    var buff := new int[4];
    var pos := 0;
    incCnt := 0;
    if |readings| < 3 {
      return;
    }
    buff[0], buff[1], buff[2] := readings[0], readings[1], readings[2];
    var k := 3;
    while k < |readings|
      invariant 3 <= k <= |readings| && 0 <= pos < 4
      invariant buff[pos] == readings[k - 3]
      invariant buff[(pos + 1) % 4] == readings[k - 2]
      invariant buff[(pos + 2) % 4] == readings[k - 1]
      invariant incCnt == WindowIncreases(readings[..k])
    {
      buff[(pos + 3) % 4] := readings[k];
      if buff[pos] < buff[(pos + 3) % 4] {
        incCnt := incCnt + 1;
      }
      pos := (pos + 1) % 4;
      assert readings[..k + 1][..k] == readings[..k];
      k := k + 1;
    }
    assert readings[..k] == readings;
  }

  /** Comparing a reading with the one three places earlier is the same as
    * comparing consecutive window sums. */
  lemma {:induction false} WindowIncreasesAreSumIncreases(s: seq<int>)
    ensures WindowIncreases(s) == Adv1P1.Increases(WindowSums(s))
  {
    if |s| >= 4 {
      var p := s[..|s| - 1];
      WindowIncreasesAreSumIncreases(p);
      var w := WindowSums(s);
      assert w[..|w| - 1] == WindowSums(p);
      assert WindowSums(p)[|WindowSums(p)| - 1] == p[|p| - 3] + p[|p| - 2] + p[|p| - 1];
    } else if |s| == 3 {
      assert |WindowSums(s)| == 1;
    }
  }

  /** For `n >= 3` readings the count is at most `n - 3`. */
  lemma {:induction false} WindowIncreasesBound(s: seq<int>)
    requires |s| >= 3
    ensures WindowIncreases(s) <= |s| - 3
  {
    if |s| >= 4 {
      WindowIncreasesBound(s[..|s| - 1]);
    }
  }
}
