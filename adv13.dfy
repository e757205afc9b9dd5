/** Transparent-paper folding (adv-13-rs): a set of dots `(x, y)` is folded
  * up along a line `y = n` or left along `x = n`; dots past the line are
  * mirrored onto the near half and dots that land together merge. */
module Adv13 {
  /** The range of `u32`. */
  const U32: nat := 0x1_0000_0000

  type Dot = (nat, nat)

  datatype Fold = Up(n: nat) | Left(n: nat)

  /** `reflect(a, r)` does not overflow: `a` is on the near side, or its
    * mirror image `2r - a` is a `u32`. */
  predicate Reflectable(a: nat, r: nat)
  {
    a <= r || (a <= 2 * r && 2 * r < U32)
  }

  /** `reflect`: a coordinate past the fold line is mirrored across it. It
    * lands on the near side of the line, at the same distance from it as
    * before. */
  function Reflect(a: nat, r: nat): (b: nat)
    requires Reflectable(a, r)
    ensures b <= r
    ensures r - b == if a > r then a - r else r - a
  {
    if a > r then 2 * r - a else a
  }

  /** Reflecting twice is reflecting once. */
  lemma ReflectIdempotent(a: nat, r: nat)
    requires Reflectable(a, r)
    ensures Reflectable(Reflect(a, r), r) && Reflect(Reflect(a, r), r) == Reflect(a, r)
  {
  }

  /** The two coordinates that land on `b`: `b` itself and its mirror. */
  lemma ReflectPreimage(a: nat, r: nat, b: nat)
    requires Reflectable(a, r)
    ensures Reflect(a, r) == b <==> b <= r && (a == b || a == 2 * r - b)
  {
  }

  /** Where one dot lands under a fold. */
  function Move(p: Dot, f: Fold): Dot
    requires CanFold(p, f)
  {
    match f
    case Up(n) => (p.0, Reflect(p.1, n))
    case Left(n) => (Reflect(p.0, n), p.1)
  }

  predicate CanFold(p: Dot, f: Fold)
  {
    match f
    case Up(n) => Reflectable(p.1, n)
    case Left(n) => Reflectable(p.0, n)
  }

  /** `Up(n)` moves only `y` and `Left(n)` only `x`, onto the near side. */
  lemma MoveAxis(p: Dot, f: Fold)
    requires CanFold(p, f)
    ensures f.Up? ==> Move(p, f).0 == p.0 && Move(p, f).1 <= f.n
    ensures f.Left? ==> Move(p, f).1 == p.1 && Move(p, f).0 <= f.n
  {
  }

  predicate AllCanFold(dots: set<Dot>, f: Fold)
  {
    forall p :: p in dots ==> CanFold(p, f)
  }

  /** `apply_fold`: every dot moved, coinciding dots merged. */
  function ApplyFold(dots: set<Dot>, f: Fold): (r: set<Dot>)
    requires AllCanFold(dots, f)
    ensures forall q :: q in r <==> exists p :: p in dots && Move(p, f) == q
  {
    set p | p in dots :: Move(p, f)
  }

  /** Folding never adds dots. */
  lemma {:induction false} ApplyFoldCard(dots: set<Dot>, f: Fold)
    requires AllCanFold(dots, f)
    ensures |ApplyFold(dots, f)| <= |dots|
    decreases |dots|
  {
    if dots != {} {
      var p :| p in dots;
      var rest := dots - {p};
      ApplyFoldCard(rest, f);
      assert ApplyFold(dots, f) == ApplyFold(rest, f) + {Move(p, f)};
    }
  }

  /** Folding along the same line twice is folding once. */
  lemma ApplyFoldIdempotent(dots: set<Dot>, f: Fold)
    requires AllCanFold(dots, f)
    ensures AllCanFold(ApplyFold(dots, f), f)
    ensures ApplyFold(ApplyFold(dots, f), f) == ApplyFold(dots, f)
  {
    var once := ApplyFold(dots, f);
    forall q | q in once
      ensures CanFold(q, f) && Move(q, f) == q
    {
      var p :| p in dots && Move(p, f) == q;
      match f {
        case Up(n) => ReflectIdempotent(p.1, n);
        case Left(n) => ReflectIdempotent(p.0, n);
      }
    }
    assert ApplyFold(once, f) == once;
  }

  // ---- the folds of `main` ----------------------------------------------------

  /** Every fold of `folds`, in turn, can be applied without overflow. */
  predicate Foldable(dots: set<Dot>, folds: seq<Fold>)
    decreases |folds|
  {
    folds == [] || (AllCanFold(dots, folds[0]) && Foldable(ApplyFold(dots, folds[0]), folds[1..]))
  }

  /** The dots after every fold of `folds`. */
  function FoldAll(dots: set<Dot>, folds: seq<Fold>): set<Dot>
    requires Foldable(dots, folds)
    decreases |folds|
  {
    if folds == [] then dots else FoldAll(ApplyFold(dots, folds[0]), folds[1..])
  }

  /** After all the folds every dot lies on the near side of every fold line:
    * a later fold along the other axis leaves that coordinate alone, and one
    * along the same axis only brings it closer to 0. */
  lemma {:induction false} FoldAllBounded(dots: set<Dot>, folds: seq<Fold>, q: Dot, k: nat)
    requires Foldable(dots, folds) && q in FoldAll(dots, folds) && k < |folds|
    ensures folds[k].Up? ==> q.1 <= folds[k].n
    ensures folds[k].Left? ==> q.0 <= folds[k].n
    decreases |folds|
  {
    var once := ApplyFold(dots, folds[0]);
    if k == 0 {
      FoldKeepsBound(once, folds[1..], q, folds[0]);
    } else {
      FoldAllBounded(once, folds[1..], q, k - 1);
    }
  }

  /** A dot already on the near side of `g` stays there through any folds. */
  lemma {:induction false} FoldKeepsBound(dots: set<Dot>, folds: seq<Fold>, q: Dot, g: Fold)
    requires Foldable(dots, folds) && q in FoldAll(dots, folds)
    requires forall p :: p in dots ==> if g.Up? then p.1 <= g.n else p.0 <= g.n
    ensures if g.Up? then q.1 <= g.n else q.0 <= g.n
    decreases |folds|
  {
    if folds != [] {
      var once := ApplyFold(dots, folds[0]);
      forall p | p in once
        ensures if g.Up? then p.1 <= g.n else p.0 <= g.n
      {
        var o :| o in dots && Move(o, folds[0]) == p;
      }
      FoldKeepsBound(once, folds[1..], q, g);
    }
  }

  /** The `for fold in folds` loop of `main`, from the dots after the first
    * fold. */
  method FoldRest(dots: set<Dot>, folds: seq<Fold>) returns (r: set<Dot>)
    requires Foldable(dots, folds)
    ensures r == FoldAll(dots, folds)
  {
    r := dots;
    for i := 0 to |folds|
      invariant Foldable(r, folds[i..]) && FoldAll(r, folds[i..]) == FoldAll(dots, folds)
    {
      assert folds[i..][1..] == folds[i + 1..];
      r := ApplyFold(r, folds[i]);
    }
  }

  /** Part 1 of `main`: the number of dots after the first fold, at most the
    * number of dots to begin with. */
  method Part1(dots: set<Dot>, folds: seq<Fold>) returns (count: nat)
    requires folds != [] && AllCanFold(dots, folds[0])
    ensures count == |ApplyFold(dots, folds[0])| && count <= |dots|
  {
    var once := ApplyFold(dots, folds[0]);
    ApplyFoldCard(dots, folds[0]);
    count := |once|;
  }

  // ---- get_dims ---------------------------------------------------------------

  /** `get_dims`: one more than the largest `x` and the largest `y` (0 for
    * an empty set), taken over the dots in any order. */
  method GetDims(dots: set<Dot>) returns (w: nat, h: nat)
    requires forall p :: p in dots ==> p.0 + 1 < U32 && p.1 + 1 < U32
    ensures forall p :: p in dots ==> p.0 < w && p.1 < h
    ensures w == 1 || exists p :: p in dots && p.0 == w - 1
    ensures h == 1 || exists p :: p in dots && p.1 == h - 1
    ensures 1 <= w && 1 <= h
  {
    var maxX, maxY := 0, 0;
    var rest := dots;
    while rest != {}
      invariant rest <= dots
      invariant forall p :: p in dots - rest ==> p.0 <= maxX && p.1 <= maxY
      invariant maxX == 0 || exists p :: p in dots && p.0 == maxX
      invariant maxY == 0 || exists p :: p in dots && p.1 == maxY
      decreases |rest|
    {
      var p :| p in rest;
      maxX := if maxX < p.0 then p.0 else maxX;
      maxY := if maxY < p.1 then p.1 else maxY;
      rest := rest - {p};
    }
    w, h := maxX + 1, maxY + 1;
  }
}
