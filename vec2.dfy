/** Integer points, the greatest common divisor and line rasterisation shared by
  * the hydrothermal-vent puzzle (adv-5) and the crab puzzle (adv-7): both
  * programs carry the same `Vec2i`, `gcd`, `unit_diff` and `Line::get_points`. */
module Vec2 {
  import opened Common

  /** A point with `i32` coordinates (overflow is not modelled). Ordering is
    * the derived one: lexicographic on `(x, y)`. */
  datatype Vec2i = Vec2i(x: int, y: int)

  function Add(a: Vec2i, b: Vec2i): Vec2i { Vec2i(a.x + b.x, a.y + b.y) }
  function Sub(a: Vec2i, b: Vec2i): Vec2i { Vec2i(a.x - b.x, a.y - b.y) }
  function Scale(k: int, a: Vec2i): Vec2i { Vec2i(k * a.x, k * a.y) }

  /** Derived `Ord` on `Vec2i`: `a <= b` lexicographically. */
  predicate Le(a: Vec2i, b: Vec2i)
  {
    a.x < b.x || (a.x == b.x && a.y <= b.y)
  }

  predicate Lt(a: Vec2i, b: Vec2i)
  {
    Le(a, b) && a != b
  }

  /** Euclid's algorithm, the specification of `gcd` away from the (0, 0) case. */
  function Euclid(a: nat, b: nat): nat
    decreases b
  {
    if b == 0 then a else Euclid(b, a % b)
  }

  /** `gcd(a, b)` as the program defines it: 1 when both arguments are 0. */
  function Gcd(a: nat, b: nat): nat
  {
    if a == 0 && b == 0 then 1 else Euclid(a, b)
  }

  /** `gcd`: order the pair, return 1 for (0, 0), then the remainder loop with swaps. */
  method ComputeGcd(a0: nat, b0: nat) returns (r: nat)
    ensures r == Gcd(a0, b0)
    ensures r > 0
  {
    var a: nat, b: nat := a0, b0;
    if a < b {
      a, b := b, a;
    }
    if a == 0 {
      return 1;
    }
    assert Euclid(a, b) == Euclid(a0, b0) by {
      if a0 < b0 {
        assert a0 % b0 == a0;
      }
    }
    while b != 0
      invariant a > 0 || b > 0
      invariant Euclid(a, b) == Euclid(a0, b0)
      decreases b
    {
      a := a % b;
      a, b := b, a;
    }
    EuclidPositive(a0, b0);
    r := a;
  }

  lemma {:induction false} EuclidPositive(a: nat, b: nat)
    requires a > 0 || b > 0
    ensures Euclid(a, b) > 0
    decreases b
  {
    if b != 0 {
      EuclidPositive(b, a % b);
    }
  }

  lemma DivisorOfRemainder(d: nat, a: nat, b: nat)
    requires d > 0 && b > 0
    requires b % d == 0
    ensures a % d == 0 <==> (a % b) % d == 0
  {
    var q := b / d;
    assert b == d * q;
    var c := a / b;
    assert a == c * b + a % b;
    if a % d == 0 {
      var p := a / d;
      assert a == d * p;
      assert a % b == d * p - c * (d * q);
      assert a % b == d * (p - c * q);
      ModUnique(a % b, d, p - c * q, 0);
    }
    if (a % b) % d == 0 {
      var p := (a % b) / d;
      assert a % b == d * p;
      assert a == d * (c * q + p);
      ModUnique(a, d, c * q + p, 0);
    }
  }

  /** Euclid's result divides both arguments... */
  lemma {:induction false} EuclidDivides(a: nat, b: nat)
    requires a > 0 || b > 0
    ensures Euclid(a, b) > 0
    ensures a % Euclid(a, b) == 0 && b % Euclid(a, b) == 0
    decreases b
  {
    EuclidPositive(a, b);
    if b != 0 {
      EuclidDivides(b, a % b);
      DivisorOfRemainder(Euclid(a, b), a, b);
    }
  }

  /** ...and every common divisor divides it, so it is the greatest one. */
  lemma {:induction false} EuclidGreatest(a: nat, b: nat, d: nat)
    requires d > 0
    requires a % d == 0 && b % d == 0
    ensures Euclid(a, b) % d == 0
    decreases b
  {
    if b != 0 {
      DivisorOfRemainder(d, a, b);
      EuclidGreatest(b, a % b, d);
    }
  }

  /** `gcd` is the greatest common divisor; for (0, 0) it is 1. */
  lemma GcdIsGreatestCommonDivisor(a: nat, b: nat, d: nat)
    ensures Gcd(a, b) > 0
    ensures a % Gcd(a, b) == 0 && b % Gcd(a, b) == 0
    ensures d > 0 && a % d == 0 && b % d == 0 && (a > 0 || b > 0) ==> Gcd(a, b) % d == 0
    ensures a == 0 && b == 0 ==> Gcd(a, b) == 1
  {
    if a > 0 || b > 0 {
      EuclidDivides(a, b);
      if d > 0 && a % d == 0 && b % d == 0 {
        EuclidGreatest(a, b, d);
      }
    }
  }

  /** `unit_diff`: both components divided by gcd(|x|, |y|). */
  function UnitDiff(v: Vec2i): Vec2i
  {
    var d := Gcd(Abs(v.x), Abs(v.y));
    GcdIsGreatestCommonDivisor(Abs(v.x), Abs(v.y), 1);
    Vec2i(Quot(v.x, d), Quot(v.y, d))
  }

  lemma QuotExact(x: int, d: nat)
    requires d > 0 && Abs(x) % d == 0
    ensures d * Quot(x, d) == x
  {
    if x >= 0 {
      assert x == d * (x / d) + x % d;
    } else {
      assert -x == d * ((-x) / d) + (-x) % d;
    }
  }

  /** The unit step is exact: `gcd` copies of it make up the whole difference. */
  lemma UnitDiffExact(v: Vec2i)
    ensures Scale(Gcd(Abs(v.x), Abs(v.y)), UnitDiff(v)) == v
  {
    var d := Gcd(Abs(v.x), Abs(v.y));
    GcdIsGreatestCommonDivisor(Abs(v.x), Abs(v.y), 1);
    QuotExact(v.x, d);
    QuotExact(v.y, d);
  }

  /** A segment; `Ord` on it compares the start points only. */
  datatype Line = Line(start: Vec2i, end: Vec2i)

  /** Number of steps from `start` to `end`. */
  function Steps(l: Line): nat
  {
    Gcd(Abs(l.end.x - l.start.x), Abs(l.end.y - l.start.y))
  }

  /** The points `get_points` yields: `start`, then `Steps(l)` unit steps. */
  function PointsOf(l: Line): (ps: seq<Vec2i>)
    ensures |ps| == Steps(l) + 1
  {
    var u := UnitDiff(Sub(l.end, l.start));
    seq(Steps(l) + 1, k => Add(l.start, Scale(k, u)))
  }

  /** A normalised, non-degenerate line ends exactly at `end`. */
  lemma PointsEndAtEnd(l: Line)
    ensures PointsOf(l)[0] == l.start
    ensures PointsOf(l)[Steps(l)] == l.end
  {
    UnitDiffExact(Sub(l.end, l.start));
  }

  /** For horizontal, vertical and 45-degree lines the count is
    * max(|dx|, |dy|) + 1. */
  lemma AxisOrDiagonalLength(l: Line)
    requires l.start != l.end
    requires l.start.x == l.end.x || l.start.y == l.end.y
      || Abs(l.end.x - l.start.x) == Abs(l.end.y - l.start.y)
    ensures |PointsOf(l)| == (if Abs(l.end.x - l.start.x) >= Abs(l.end.y - l.start.y)
      then Abs(l.end.x - l.start.x) else Abs(l.end.y - l.start.y)) + 1
  {
    var dx, dy := Abs(l.end.x - l.start.x), Abs(l.end.y - l.start.y);
    if dx == dy {
      assert Euclid(dx, dx) == Euclid(dx, 0);
    } else if dx == 0 {
      assert Euclid(0, dy) == Euclid(dy, 0);
    }
  }

  /** The unit step of a line with `start < end` is itself positive in the
    * lexicographic order, so walking it only ever moves forward. */
  lemma UnitPositive(l: Line)
    requires Lt(l.start, l.end)
    ensures Lt(Vec2i(0, 0), UnitDiff(Sub(l.end, l.start)))
  {
    var v := Sub(l.end, l.start);
    var u := UnitDiff(v);
    var d := Steps(l);
    UnitDiffExact(v);
    assert d * u.x == v.x && d * u.y == v.y;
    GcdIsGreatestCommonDivisor(Abs(v.x), Abs(v.y), 1);
  }

  /** Moving `m` steps along a positive step stays at or above the start
    * exactly when `m` is not negative. */
  lemma ScaledLe(p: Vec2i, u: Vec2i, m: int)
    requires Lt(Vec2i(0, 0), u)
    ensures Le(p, Add(p, Scale(m, u))) <==> m >= 0
  {
    if u.x > 0 {
      if m >= 0 {
        assert m * u.x >= 0;
      } else {
        assert m * u.x < 0;
      }
    } else {
      if m >= 0 {
        assert m * u.y >= 0;
      } else {
        assert m * u.y < 0;
      }
    }
  }

  lemma ScaleSplit(p: Vec2i, u: Vec2i, k: int, d: int)
    ensures Add(Add(p, Scale(k, u)), Scale(d - k, u)) == Add(p, Scale(d, u))
  {
    assert (d - k) * u.x == d * u.x - k * u.x;
    assert (d - k) * u.y == d * u.y - k * u.y;
  }

  /** `pos <= end` holds for exactly the first `Steps(l) + 1` positions. */
  lemma WalkBound(l: Line, k: nat)
    requires Lt(l.start, l.end)
    ensures Le(Add(l.start, Scale(k, UnitDiff(Sub(l.end, l.start)))), l.end) <==> k <= Steps(l)
  {
    var u := UnitDiff(Sub(l.end, l.start));
    var d := Steps(l);
    var pos := Add(l.start, Scale(k, u));
    UnitDiffExact(Sub(l.end, l.start));
    UnitPositive(l);
    ScaleSplit(l.start, u, k, d);
    ScaledLe(pos, u, d - k);
  }

  /** `Line::get_points`: the iterator advances `pos` by the unit step while
    * `pos <= end`. The source loops forever when `start == end` (the step is
    * (0, 0)) and yields nothing when `start > end`, so callers normalise. */
  method GetPoints(l: Line) returns (ps: seq<Vec2i>)
    requires Lt(l.start, l.end)
    ensures ps == PointsOf(l)
  {
    var u := UnitDiff(Sub(l.end, l.start));
    var pos := l.start;
    ps := [];
    ghost var k: nat := 0;
    WalkBound(l, 0);
    while Le(pos, l.end)
      invariant k <= Steps(l) + 1
      invariant pos == Add(l.start, Scale(k, u))
      invariant ps == PointsOf(l)[..k]
      decreases Steps(l) + 1 - k
    {
      WalkBound(l, k);
      ps := ps + [pos];
      pos := Add(pos, u);
      assert (k + 1) * u.x == k * u.x + u.x && (k + 1) * u.y == k * u.y + u.y;
      k := k + 1;
    }
    WalkBound(l, k);
  }

  /** The points of a line are pairwise distinct. */
  lemma PointsDistinct(l: Line, i: nat, j: nat)
    requires Lt(l.start, l.end)
    requires i < j < |PointsOf(l)|
    ensures PointsOf(l)[i] != PointsOf(l)[j]
  {
    var u := UnitDiff(Sub(l.end, l.start));
    UnitPositive(l);
    if u.x != 0 {
      MulApart(i, j, u.x);
    } else {
      MulApart(i, j, u.y);
    }
  }

  /** Different multiples of a non-zero number differ. */
  lemma MulApart(i: int, j: int, d: int)
    requires i < j && d != 0
    ensures i * d != j * d
  {
    assert j * d - i * d == (j - i) * d;
    assert (j - i) * d != 0;
  }
}
