/** Day 17 (adv-17-rs/src/main.rs): which launch velocities put a probe, slowed
  * by drag and pulled by gravity, inside a target area after a whole number
  * of steps. Instead of simulating, the source solves for each target point
  * `(tx, ty)` and each step count `n` dividing `2*ty`; `XAfter`/`YAfter`
  * simulate the flight so that the search can be proved sound and complete.
  *
  * The source's `tx` is replaced by its magnitude (`tx * tx.signum()`), so a
  * found `dx` is a speed: for a target to the left it is the speed towards
  * it. */
module Adv17 {
  import opened Common

  const I32_MAX: int := 0x7FFF_FFFF

  // ---- the flight -------------------------------------------------------------

  /** Distance covered in x after `n` steps at launch speed `dx`: drag takes
    * one off the speed each step until it is 0. */
  function XAfter(dx: nat, n: nat): nat
  {
    if n == 0 then 0 else XAfter(dx, n - 1) + (if dx >= n then dx - (n - 1) else 0)
  }

  /** Height after `n` steps at launch speed `dy`: gravity takes one off the
    * vertical speed each step. */
  function YAfter(dy: int, n: nat): int
  {
    if n == 0 then 0 else YAfter(dy, n - 1) + (dy - (n - 1))
  }

  /** Closed form of the height: `n*dy - n(n-1)/2`. */
  lemma {:induction false} YClosed(dy: int, n: nat)
    ensures 2 * YAfter(dy, n) == 2 * n * dy - n * (n - 1)
  {
    if n > 0 {
      YClosed(dy, n - 1);
      assert 2 * (n - 1) * dy + 2 * dy == 2 * n * dy;
      assert (n - 1) * (n - 2) + 2 * (n - 1) == n * (n - 1);
    }
  }

  /** While the probe still moves in x it covers `n*dx - n(n-1)/2`. */
  lemma {:induction false} XMoving(dx: nat, n: nat)
    requires n <= dx
    ensures 2 * XAfter(dx, n) == 2 * n * dx - n * (n - 1)
  {
    if n > 0 {
      XMoving(dx, n - 1);
      assert 2 * (n - 1) * dx + 2 * dx == 2 * n * dx;
      assert (n - 1) * (n - 2) + 2 * (n - 1) == n * (n - 1);
    }
  }

  /** Once drag has stopped it (after `dx` steps) the probe stays at
    * `dx(dx+1)/2`. */
  lemma {:induction false} XStopped(dx: nat, n: nat)
    requires n >= dx
    ensures 2 * XAfter(dx, n) == dx * (dx + 1)
  {
    if n > dx {
      XStopped(dx, n - 1);
    } else {
      XMoving(dx, n);
      assert 2 * dx * dx - dx * (dx - 1) == dx * (dx + 1);
    }
  }

  lemma ConsecutiveProduct(t: int)
    ensures t * (t + 1) >= 0
  {
    if t < 0 {
      assert (-t) * (-(t + 1)) >= 0;
    }
  }

  /** Launched upwards at `dy >= 0`, the probe peaks at `dy(dy+1)/2` after
    * `dy` steps and is never higher. */
  lemma Apex(dy: int, k: nat)
    requires dy >= 0
    ensures 2 * YAfter(dy, dy) == dy * (dy + 1)
    ensures YAfter(dy, k) <= YAfter(dy, dy)
  {
    YClosed(dy, dy);
    YClosed(dy, k);
    assert 2 * dy * dy - dy * (dy - 1) == dy * (dy + 1);
    ConsecutiveProduct(dy - k);
    assert dy * (dy + 1) - (2 * k * dy - k * (k - 1)) == (dy - k) * (dy - k + 1);
  }

  // ---- find_all_plus_divides ----------------------------------------------------

  /** The divisors of `m` among `1..=k`, in increasing order. */
  function DivisorsUpTo(m: nat, k: nat): (r: seq<int>)
    ensures forall d :: d in r <==> 1 <= d <= k && m % d == 0
    ensures forall i, j :: 0 <= i < j < |r| ==> r[i] < r[j]
  {
    if k == 0 then []
    else
      var rest := DivisorsUpTo(m, k - 1);
      RemMeaning(m, k);
      assert forall i :: 0 <= i < |rest| ==> rest[i] < k by {
        forall i | 0 <= i < |rest|
          ensures rest[i] < k
        {
          assert rest[i] in rest;
        }
      }
      rest + (if Rem(m, k) == 0 then [k] else [])
  }

  /** `find_all_plus_divides`: the positive divisors of `|v|`, increasing;
    * none for 0. */
  function FindAllPlusDivides(v: int): (r: seq<int>)
    ensures forall d :: d in r <==> 1 <= d <= Abs(v) && Abs(v) % d == 0
    ensures forall i, j :: 0 <= i < j < |r| ==> r[i] < r[j]
    ensures v == 0 ==> r == []
  {
    DivisorsUpTo(Abs(v), Abs(v))
  }

  // ---- try_divide ---------------------------------------------------------------

  /** `try_divide`: the exact quotient when `d` divides `n`. */
  function TryDivide(n: int, d: int): (r: Option<int>)
    requires d != 0
    ensures r.Some? <==> n % Abs(d) == 0
    ensures r.Some? ==> d * r.value == n
  {
    RemMeaning(n, d);
    if Rem(n, d) == 0 then Some(Quot(n, d)) else None
  }

  lemma TryDivideExact(d: int, q: int)
    requires d != 0
    ensures TryDivide(d * q, d) == Some(q)
  {
    QuotOfMultiple(d, q);
  }

  // ---- int_sqrt -----------------------------------------------------------------

  function Square(k: int): int
  {
    k * k
  }

  lemma SquareMono(a: nat, b: nat)
    requires a < b
    ensures Square(a) < Square(b)
  {
    assert a * a <= a * b < b * b;
  }

  /** The first `k` from `k` upwards whose square reaches `x`, if that square
    * is `x`. */
  function RootFrom(x: nat, k: nat): Option<int>
    decreases x + 1 - k
  {
    if Square(k) > x || k > x then None
    else if Square(k) == x then Some(k)
    else RootFrom(x, k + 1)
  }

  /** The non-negative square root of `x`, when `x` is a perfect square. */
  function ExactRoot(x: nat): Option<int>
  {
    RootFrom(x, 0)
  }

  lemma {:induction false} RootFromMeaning(x: nat, k: nat)
    requires forall j: nat :: j < k ==> Square(j) < x
    ensures RootFrom(x, k).Some? ==> RootFrom(x, k).value >= 0 && Square(RootFrom(x, k).value) == x
    ensures RootFrom(x, k).None? ==> forall j: nat :: Square(j) != x
    decreases x + 1 - k
  {
    if Square(k) > x || k > x {
      forall j: nat
        ensures Square(j) != x
      {
        if j > k {
          SquareMono(k, j);
        } else if j == k && k > x {
          SquareMono(x, k);
          assert Square(x) >= x;
        }
      }
    } else if Square(k) != x {
      RootFromMeaning(x, k + 1);
    }
  }

  /** `ExactRoot(x)` is a root of `x` if there is one, and `None` when no
    * natural number squares to `x`. */
  lemma ExactRootMeaning(x: nat)
    ensures ExactRoot(x).Some? ==> ExactRoot(x).value >= 0 && Square(ExactRoot(x).value) == x
    ensures ExactRoot(x).None? ==> forall j: nat :: Square(j) != x
  {
    RootFromMeaning(x, 0);
  }

  /** A perfect square has its root found. */
  lemma ExactRootOfSquare(k: nat)
    ensures ExactRoot(Square(k)) == Some(k)
  {
    ExactRootMeaning(Square(k));
    var r := ExactRoot(Square(k));
    assert r.Some?;
    if r.value < k {
      SquareMono(r.value, k);
    } else if r.value > k {
      SquareMono(k, r.value);
    }
  }

  lemma {:induction false} RootsBelow(x: nat, c: nat)
    requires Square(c) > x
    ensures forall k: nat :: Square(k) == x ==> k < c
  {
    forall k: nat | Square(k) == x
      ensures k < c
    {
      if k >= c {
        if k > c {
          SquareMono(c, k);
        }
      }
    }
  }

  lemma {:induction false} RootsAbove(x: nat, c: nat)
    requires Square(c) < x
    ensures forall k: nat :: Square(k) == x ==> k > c
  {
    forall k: nat | Square(k) == x
      ensures k > c
    {
      if k < c {
        SquareMono(k, c);
      }
    }
  }

  lemma SquareAbove(x: int)
    requires x >= 2
    ensures Square(x) > x
  {
    assert x * x >= 2 * x;
  }

  /** `int_sqrt`: binary search for an exact square root. The source loops
    * forever on a negative `x`, so `x >= 0` is required; `x` is an `i32`. */
  method IntSqrt(x: int) returns (r: Option<int>)
    requires 0 <= x <= I32_MAX
    ensures r.Some? ==> r.value >= 0 && Square(r.value) == x
    ensures r.None? ==> forall k: nat :: Square(k) != x
    ensures r == ExactRoot(x)
  {
    if x == 0 {
      r := Some(0);
    } else if x == 1 {
      r := Some(1);
    } else {
      r := Search(x);
    }
    ExactRootMeaning(x);
    if r.Some? {
      ExactRootOfSquare(r.value);
    }
  }

  /** The `loop` of `int_sqrt`: every root lies in `low..high`, which
    * shrinks each round. */
  method Search(x: int) returns (r: Option<int>)
    requires 2 <= x <= I32_MAX
    ensures r.Some? ==> r.value >= 0 && Square(r.value) == x
    ensures r.None? ==> forall k: nat :: Square(k) != x
  {
    var low, high := 1, x;
    SquareAbove(x);
    RootsBelow(x, x);
    assert Square(0) != x;
    while true
      invariant 1 <= low <= high <= x
      invariant forall k: nat :: Square(k) == x ==> low <= k < high
      decreases high - low
    {
      if low == high {
        return None;
      }
      var choose := (low + high) / 2;
      var c := Square(choose);
      if c > I32_MAX || c > x {
        // `checked_mul` overflowing, or a square above `x`
        RootsBelow(x, choose);
        high := choose;
      } else if c == x {
        return Some(choose);
      } else {
        RootsAbove(x, choose);
        low := choose + 1;
      }
    }
  }

  // ---- find_all_hitting ---------------------------------------------------------

  function AsSeq(o: Option<int>): seq<int>
  {
    if o.Some? then [o.value] else []
  }

  /** The "stopping" speed: `dx(dx+1)/2 == tx`, solved as
    * `dx = (sqrt(1 + 8tx) - 1) / 2`, kept when drag stops the probe within
    * `n` steps. */
  function StoppingDx(tx: nat, n: int): Option<int>
  {
    var v := ExactRoot(1 + 8 * tx);
    if v.None? then None
    else
      var m := TryDivide(v.value - 1, 2);
      if m.Some? && m.value <= n then m else None
  }

  /** The "passing" speed: `n*dx - n(n-1)/2 == tx`, kept when the probe is
    * still moving after `n` steps. */
  function PassingDx(tx: nat, n: int): Option<int>
    requires n >= 1
  {
    var dx := TryDivide(2 * tx + n * (n - 1), 2 * n);
    if dx.Some? && dx.value > n then dx else None
  }

  /** `(n, dx, dy)` for each candidate speed `dx`. */
  function Tagged(n: int, dxs: seq<int>, dy: int): (r: seq<(int, int, int)>)
    ensures forall h :: h in r <==> h.0 == n && h.1 in dxs && h.2 == dy
  {
    if dxs == [] then [] else [(n, dxs[0], dy)] + Tagged(n, dxs[1..], dy)
  }

  /** The hits after `n` steps: each candidate speed with the vertical speed
    * solving `n*dy - n(n-1)/2 == ty`. */
  function HitsFor(tx: nat, ty: int, n: int): seq<(int, int, int)>
  {
    if n < 1 then []
    else
      var dy := TryDivide(2 * ty + n * (n - 1), 2 * n);
      if dy.None? then [] else Tagged(n, AsSeq(PassingDx(tx, n)) + AsSeq(StoppingDx(tx, n)), dy.value)
  }

  /** `find_all_hitting`: `(n, dx, dy)` for each step count `n` dividing
    * `2*ty`. */
  function FindAllHitting(tx: int, ty: int): seq<(int, int, int)>
  {
    FlatMap(FindAllPlusDivides(2 * ty), n => HitsFor(Abs(tx), ty, n))
  }

  lemma StoppingMeaning(tx: nat, n: int)
    requires StoppingDx(tx, n).Some?
    ensures StoppingDx(tx, n).value >= 0 && StoppingDx(tx, n).value <= n
    ensures StoppingDx(tx, n).value * (StoppingDx(tx, n).value + 1) == 2 * tx
  {
    ExactRootMeaning(1 + 8 * tx);
    var v := ExactRoot(1 + 8 * tx).value;
    var m := StoppingDx(tx, n).value;
    assert 2 * m == v - 1;
    assert v * v == 1 + 8 * tx;
    assert (2 * m + 1) * (2 * m + 1) == 4 * (m * (m + 1)) + 1;
  }

  lemma PassingMeaning(tx: nat, n: int)
    requires n >= 1 && PassingDx(tx, n).Some?
    ensures PassingDx(tx, n).value > n
    ensures 2 * n * PassingDx(tx, n).value == 2 * tx + n * (n - 1)
  {
  }

  /** Every hit `(n, dx, dy)` found for a target point really reaches it:
    * after `n` steps at `(dx, dy)` the probe has covered `|tx|` and is at
    * height `ty`. */
  lemma HittingSound(tx: int, ty: int, h: (int, int, int))
    requires h in FindAllHitting(tx, ty)
    ensures h.0 >= 1 && h.1 >= 0
    ensures XAfter(h.1, h.0) == Abs(tx) && YAfter(h.2, h.0) == ty
  {
    var ns := FindAllPlusDivides(2 * ty);
    var f := n => HitsFor(Abs(tx), ty, n);
    FlatMapIn(ns, f, h);
    var i :| 0 <= i < |ns| && h in f(ns[i]);
    var n := ns[i];
    HitsForSound(Abs(tx), ty, n, h);
  }

  lemma HitsForSound(tx: nat, ty: int, n: int, h: (int, int, int))
    requires h in HitsFor(tx, ty, n)
    ensures h.0 == n >= 1 && h.1 >= 0
    ensures XAfter(h.1, h.0) == tx && YAfter(h.2, h.0) == ty
  {
    var dyOpt := TryDivide(2 * ty + n * (n - 1), 2 * n);
    var dx := h.1;
    YClosed(dyOpt.value, n);
    if PassingDx(tx, n).Some? && dx == PassingDx(tx, n).value {
      PassingMeaning(tx, n);
      XMoving(dx, n);
    } else {
      assert dx == StoppingDx(tx, n).value;
      StoppingMeaning(tx, n);
      XStopped(dx, n);
    }
  }

  /** Twice the height after `n` steps is `n` times `2 * dy - n + 1`. */
  lemma StepsFactor(ty: int, n: nat, dy: int)
    requires YAfter(dy, n) == ty
    ensures 2 * ty == n * (2 * dy - n + 1)
  {
    YClosed(dy, n);
  }

  lemma AbsScale(n: nat, q: int)
    ensures Abs(n * q) == n * Abs(q)
  {
  }

  /** A step count that reaches a height other than 0 divides twice that
    * height. */
  lemma StepsDivide(ty: int, n: nat, dy: int)
    requires n >= 1 && ty != 0 && YAfter(dy, n) == ty
    ensures n in FindAllPlusDivides(2 * ty)
  {
    var q := 2 * dy - n + 1;
    StepsFactor(ty, n, dy);
    var aq := Abs(q);
    AbsScale(n, q);
    QuotOfMultiple(n, aq);
    RemMeaning(n * aq, n);
    MulAtLeast(n, aq);
  }

  /** Every launch `(dx, dy)` with `dx >= 0` that is at `(|tx|, ty)` after
    * `n >= 1` steps is found, provided the target is not at height 0 (the
    * divisors of 0 are empty). */
  lemma HittingComplete(tx: int, ty: int, n: nat, dx: nat, dy: int)
    requires ty != 0 && n >= 1
    requires XAfter(dx, n) == Abs(tx) && YAfter(dy, n) == ty
    ensures (n, dx, dy) in FindAllHitting(tx, ty)
  {
    var ns := FindAllPlusDivides(2 * ty);
    StepsDivide(ty, n, dy);
    var i :| 0 <= i < |ns| && ns[i] == n;
    HitsForComplete(Abs(tx), ty, n, dx, dy);
    var f := n => HitsFor(Abs(tx), ty, n);
    assert (n, dx, dy) in f(ns[i]);
    FlatMapIn(ns, f, (n, dx, dy));
  }

  lemma OddSquare(m: int)
    ensures Square(2 * m + 1) == 4 * (m * (m + 1)) + 1
  {
  }

  /** A speed still moving after `n` steps is the passing candidate. */
  lemma PassingFound(tx: nat, n: nat, dx: nat)
    requires 1 <= n < dx && XAfter(dx, n) == tx
    ensures PassingDx(tx, n) == Some(dx)
  {
    XMoving(dx, n);
    assert 2 * tx + n * (n - 1) == (2 * n) * dx;
    TryDivideExact(2 * n, dx);
  }

  /** A speed that has stopped within `n` steps is the stopping candidate. */
  lemma StoppingFound(tx: nat, n: nat, dx: nat)
    requires dx <= n && XAfter(dx, n) == tx
    ensures StoppingDx(tx, n) == Some(dx)
  {
    XStopped(dx, n);
    OddSquare(dx);
    assert 1 + 8 * tx == Square(2 * dx + 1);
    ExactRootOfSquare(2 * dx + 1);
    assert 2 * dx + 1 - 1 == 2 * dx;
    TryDivideExact(2, dx);
  }

  /** The vertical speed of a launch at height `ty` after `n` steps is
    * recovered exactly. */
  lemma DyFound(ty: int, n: nat, dy: int)
    requires n >= 1 && YAfter(dy, n) == ty
    ensures TryDivide(2 * ty + n * (n - 1), 2 * n) == Some(dy)
  {
    YClosed(dy, n);
    assert 2 * ty + n * (n - 1) == (2 * n) * dy;
    TryDivideExact(2 * n, dy);
  }

  lemma HitsForComplete(tx: nat, ty: int, n: nat, dx: nat, dy: int)
    requires n >= 1 && XAfter(dx, n) == tx && YAfter(dy, n) == ty
    ensures (n, dx, dy) in HitsFor(tx, ty, n)
  {
    DyFound(ty, n, dy);
    var dyOpt := TryDivide(2 * ty + n * (n - 1), 2 * n);
    var cands := AsSeq(PassingDx(tx, n)) + AsSeq(StoppingDx(tx, n));
    if dx > n {
      PassingFound(tx, n, dx);
      assert cands[0] == dx;
    } else {
      StoppingFound(tx, n, dx);
      assert cands[|cands| - 1] == dx;
    }
  }

  // ---- find_in_bounds and main -------------------------------------------------

  /** `a..=b`. */
  function Range(a: int, b: int): (r: seq<int>)
    ensures forall x :: x in r <==> a <= x <= b
    decreases b - a
  {
    if a > b then [] else [a] + Range(a + 1, b)
  }

  function Row(tx: int, ys: seq<int>): (r: seq<(int, int)>)
    ensures forall p :: p in r <==> p.0 == tx && p.1 in ys
  {
    if ys == [] then [] else [(tx, ys[0])] + Row(tx, ys[1..])
  }

  /** The target area as read from "target area: x=a..b, y=c..d". */
  datatype Target = Target(x0: int, x1: int, y0: int, y1: int)

  predicate InBox(t: Target, tx: int, ty: int)
  {
    t.x0 <= tx <= t.x1 && t.y0 <= ty <= t.y1
  }

  /** Every point of `xs` x `ys`, column by column. */
  function Grid(xs: seq<int>, ys: seq<int>): (r: seq<(int, int)>)
    ensures forall p :: p in r <==> p.0 in xs && p.1 in ys
  {
    if xs == [] then [] else Row(xs[0], ys) + Grid(xs[1..], ys)
  }

  /** `find_in_bounds`: every integer point of the target area, column by
    * column. */
  function FindInBounds(t: Target): (r: seq<(int, int)>)
    ensures forall p :: p in r <==> InBox(t, p.0, p.1)
  {
    Grid(Range(t.x0, t.x1), Range(t.y0, t.y1))
  }

  /** The launch velocities `(dx, dy)` found for every point of the area,
    * in the order `main` visits them. */
  function Velocities(t: Target): seq<(int, int)>
  {
    FlatMap(FindInBounds(t), (p: (int, int)) => Launches(FindAllHitting(p.0, p.1)))
  }

  function Launches(hs: seq<(int, int, int)>): seq<(int, int)>
  {
    seq(|hs|, i requires 0 <= i < |hs| => (hs[i].1, hs[i].2))
  }

  /** The probe launched at `(dx, dy)` is inside the area after some step. */
  ghost predicate Lands(t: Target, dx: nat, dy: int)
  {
    exists tx, ty, n: nat :: InBox(t, tx, ty) && n >= 1 && XAfter(dx, n) == Abs(tx) && YAfter(dy, n) == ty
  }

  /** Each velocity found lands in the area. */
  lemma VelocitiesSound(t: Target, dx: int, dy: int)
    requires (dx, dy) in Velocities(t)
    ensures dx >= 0 && Lands(t, dx, dy)
  {
    var ps := FindInBounds(t);
    var f := (p: (int, int)) => Launches(FindAllHitting(p.0, p.1));
    FlatMapIn(ps, f, (dx, dy));
    var i :| 0 <= i < |ps| && (dx, dy) in f(ps[i]);
    var p := ps[i];
    var hs := FindAllHitting(p.0, p.1);
    var k :| 0 <= k < |hs| && Launches(hs)[k] == (dx, dy);
    HittingSound(p.0, p.1, hs[k]);
    assert InBox(t, p.0, p.1) && XAfter(dx, hs[k].0) == Abs(p.0) && YAfter(dy, hs[k].0) == p.1;
  }

  /** When the area does not reach height 0, each landing velocity (with `dx`
    * a speed) is found. */
  lemma VelocitiesComplete(t: Target, dx: nat, dy: int)
    requires t.y1 < 0 || t.y0 > 0
    requires Lands(t, dx, dy)
    ensures (dx, dy) in Velocities(t)
  {
    var ps := FindInBounds(t);
    var f := (p: (int, int)) => Launches(FindAllHitting(p.0, p.1));
    var tx, ty, n: nat :| InBox(t, tx, ty) && n >= 1 && XAfter(dx, n) == Abs(tx) && YAfter(dy, n) == ty;
    HittingComplete(tx, ty, n, dx, dy);
    var hs := FindAllHitting(tx, ty);
    var k :| 0 <= k < |hs| && hs[k] == (n, dx, dy);
    assert Launches(hs)[k] == (dx, dy);
    assert (tx, ty) in ps;
    var i :| 0 <= i < |ps| && ps[i] == (tx, ty);
    assert (dx, dy) in f(ps[i]);
    FlatMapIn(ps, f, (dx, dy));
  }

  /** Part 2 counts exactly the landing velocities, when the area does not
    * reach height 0. */
  lemma VelocitiesExact(t: Target, dx: int, dy: int)
    requires t.y1 < 0 || t.y0 > 0
    ensures (dx, dy) in Velocities(t) <==> dx >= 0 && Lands(t, dx, dy)
  {
    if (dx, dy) in Velocities(t) {
      VelocitiesSound(t, dx, dy);
    }
    if dx >= 0 && Lands(t, dx, dy) {
      VelocitiesComplete(t, dx, dy);
    }
  }

  /** The `inspect` fold: the largest `dy` seen, `None` before the first. */
  function MaxDy(vs: seq<(int, int)>): (r: Option<int>)
    ensures r.Some? <==> vs != []
    ensures r.Some? ==> (exists i :: 0 <= i < |vs| && vs[i].1 == r.value) &&
                        forall i :: 0 <= i < |vs| ==> vs[i].1 <= r.value
  {
    if vs == [] then None
    else
      var rest := MaxDy(vs[1..]);
      assert forall i :: 1 <= i < |vs| ==> vs[i] == vs[1..][i - 1];
      if rest.None? || vs[0].1 >= rest.value then Some(vs[0].1) else rest
  }

  /** `m(m+1)/2` for the largest `dy`; `None` where `unwrap` panics
    * because there is none. */
  function Highest(vs: seq<(int, int)>): Option<int>
  {
    var m := MaxDy(vs);
    if m.None? then None else Some(Quot(m.value * (m.value + 1), 2))
  }

  /** Part 1: the height reached by the steepest launch found. */
  function Part1(t: Target): (r: Option<int>)
    ensures r.None? <==> Velocities(t) == []
    ensures r.Some? && MaxDy(Velocities(t)).value >= 0 ==>
      r.value == YAfter(MaxDy(Velocities(t)).value, MaxDy(Velocities(t)).value)
  {
    var vs := Velocities(t);
    if MaxDy(vs).Some? && MaxDy(vs).value >= 0 then
      HighestApex(vs);
      Highest(vs)
    else Highest(vs)
  }

  /** Part 2: the number of distinct velocities. */
  function Part2(t: Target): (r: nat)
    ensures r == 0 <==> Velocities(t) == []
  {
    DistinctCount(Velocities(t))
  }

  /** The number of distinct entries, 0 only for no entries. */
  function DistinctCount(vs: seq<(int, int)>): (r: nat)
    ensures r == 0 <==> vs == []
  {
    var distinct := set v | v in vs;
    if vs == [] then
      assert distinct == {};
      |distinct|
    else
      assert vs[0] in distinct;
      |distinct|
  }

  /** `m(m+1)/2` is the apex height for an upward launch at `m`. */
  lemma ApexQuot(m: int)
    requires m >= 0
    ensures Quot(m * (m + 1), 2) == YAfter(m, m)
  {
    Apex(m, 0);
    QuotOfMultiple(2, YAfter(m, m));
  }

  /** When the steepest launch goes up, part 1 is the highest point it
    * reaches. */
  lemma HighestApex(vs: seq<(int, int)>)
    requires MaxDy(vs).Some? && MaxDy(vs).value >= 0
    ensures Highest(vs) == Some(YAfter(MaxDy(vs).value, MaxDy(vs).value))
    ensures forall k: nat :: YAfter(MaxDy(vs).value, k) <= Highest(vs).value
  {
    var m := MaxDy(vs).value;
    ApexQuot(m);
    forall k: nat
      ensures YAfter(m, k) <= YAfter(m, m)
    {
      Apex(m, k);
    }
  }
}
