/** Day 25: Sea Cucumber. A grid that wraps around at its edges holds
  * east-facing (`>`) and south-facing (`v`) sea cucumbers. In each step the
  * east-facing herd moves one cell east, each member only when the cell in
  * front of it was empty, and then the south-facing herd does the same
  * southwards. The answer is the first step in which nothing moves. */
module Adv25 {
  import opened Common
  import opened RustStr
  import Matrix

  /** `Space`: one cell of the grid. */
  datatype Space = Empty | Down | Right

  /** A position `(x, y)`: column and row. */
  type Pos = (nat, nat)

  /** `get_diff`: the step a herd takes; `Empty` has none (`unreachable!`). */
  function Diff(s: Space): (nat, nat)
    requires s != Empty
  {
    if s == Down then (0, 1) else (1, 0)
  }

  // ---------------------------------------------------------------- the grid as a value

  /** `data` holds `height` rows of `width` cells, row after row. */
  predicate Shaped(g: seq<Space>, w: nat, h: nat)
  {
    w >= 1 && h >= 1 && |g| == Matrix.Mul(h, w)
  }

  /** The cell at column `x` of row `y`: `data[y * width + x]`
    * (`Matrix.Mul(y, w)` is `y * w`, see `Matrix.MulIsTimes`). */
  function Cell(g: seq<Space>, w: nat, h: nat, x: nat, y: nat): Space
    requires Shaped(g, w, h) && x < w && y < h
  {
    Matrix.IndexBound(y, x, h, w);
    g[Matrix.Mul(y, w) + x]
  }

  /** The position the herd `s` moves into from `(x, y)`, wrapping around. */
  function Target(w: nat, h: nat, s: Space, x: nat, y: nat): (t: Pos)
    requires s != Empty && x < w && y < h
    ensures t.0 < w && t.1 < h
  {
    if s == Right then (if x + 1 == w then 0 else x + 1, y)
    else (x, if y + 1 == h then 0 else y + 1)
  }

  /** The position the herd `s` moves into `(x, y)` from: the inverse of
    * `Target`. */
  function Source(w: nat, h: nat, s: Space, x: nat, y: nat): (p: Pos)
    requires s != Empty && x < w && y < h
    ensures p.0 < w && p.1 < h
    ensures Target(w, h, s, p.0, p.1) == (x, y)
  {
    if s == Right then (if x == 0 then w - 1 else x - 1, y)
    else (x, if y == 0 then h - 1 else y - 1)
  }

  /** Moving and stepping back are inverses. */
  lemma SourceOfTarget(w: nat, h: nat, s: Space, x: nat, y: nat)
    requires s != Empty && x < w && y < h
    ensures var t := Target(w, h, s, x, y); Source(w, h, s, t.0, t.1) == (x, y)
  {
  }

  /** A coordinate wrapped into `0..n` by taking `n` away while it is too
    * large. */
  function Wrap(v: nat, n: nat): (r: nat)
    requires n >= 1
    ensures r < n && (v < n ==> r == v)
    decreases v
  {
    if v < n then v else Wrap(v - n, n)
  }

  /** Wrapping is the remainder `v % n` that `correct_coords` computes. */
  lemma {:induction false} WrapMod(v: nat, n: nat)
    requires n >= 1
    ensures Wrap(v, n) == v % n
    decreases v
  {
    if v < n {
      ModUnique(v, n, 0, v);
    } else {
      WrapMod(v - n, n);
      var k, r := (v - n) / n, (v - n) % n;
      assert v - n == n * k + r;
      assert v == n * (k + 1) + r;
      ModUnique(v, n, k + 1, r);
    }
  }

  /** `correct_coords` applied to one step from `(x, y)` is `Target`. */
  lemma WrapTarget(w: nat, h: nat, s: Space, x: nat, y: nat)
    requires w >= 1 && h >= 1 && s != Empty && x < w && y < h
    ensures (Wrap(x + Diff(s).0, w), Wrap(y + Diff(s).1, h)) == Target(w, h, s, x, y)
  {
    if s == Right && x + 1 == w {
      assert Wrap(x + 1, w) == Wrap(0, w);
    }
    if s == Down && y + 1 == h {
      assert Wrap(y + 1, h) == Wrap(0, h);
    }
  }

  /** The cucumber at `(x, y)` belongs to the herd `s` and the cell in front
    * of it is empty, so it moves. */
  predicate Moves(g: seq<Space>, w: nat, h: nat, s: Space, x: nat, y: nat)
    requires Shaped(g, w, h) && s != Empty && x < w && y < h
  {
    var t := Target(w, h, s, x, y);
    Cell(g, w, h, x, y) == s && Cell(g, w, h, t.0, t.1) == Empty
  }

  /** Some cucumber of the herd `s` moves. */
  predicate Moved(g: seq<Space>, w: nat, h: nat, s: Space)
    requires Shaped(g, w, h) && s != Empty
  {
    exists x: nat, y: nat :: x < w && y < h && Moves(g, w, h, s, x, y)
  }

  /** The cell at `(x, y)` after the herd `s` has moved: a mover leaves it
    * empty, an empty cell receives the mover behind it, and every other cell
    * keeps what it held. */
  function Stepped(g: seq<Space>, w: nat, h: nat, s: Space, x: nat, y: nat): Space
    requires Shaped(g, w, h) && s != Empty && x < w && y < h
  {
    if Moves(g, w, h, s, x, y) then Empty
    else
      var p := Source(w, h, s, x, y);
      if Cell(g, w, h, x, y) == Empty && Moves(g, w, h, s, p.0, p.1) then s
      else Cell(g, w, h, x, y)
  }

  /** The position of entry `i` of a row-major grid with `w` columns. */
  function Coords(i: nat, w: nat): (c: Pos)
    requires w >= 1
    ensures c.0 < w && Matrix.Mul(c.1, w) + c.0 == i
    decreases i
  {
    if i < w then (i, 0)
    else
      var c := Coords(i - w, w);
      (c.0, c.1 + 1)
  }

  lemma CoordsIn(i: nat, w: nat, h: nat)
    requires w >= 1 && i < Matrix.Mul(h, w)
    ensures Coords(i, w).1 < h
  {
    var c := Coords(i, w);
    if c.1 >= h {
      Matrix.MulMonotone(h, c.1, w);
    }
  }

  lemma CoordsOf(x: nat, y: nat, w: nat)
    requires x < w
    ensures Coords(Matrix.Mul(y, w) + x, w) == (x, y)
  {
    var c := Coords(Matrix.Mul(y, w) + x, w);
    if c != (x, y) {
      Matrix.IndexDistinct(c.1, c.0, y, x, w);
    }
  }

  /** The grid after the herd `s` has moved, cell by cell. */
  function Step(g: seq<Space>, w: nat, h: nat, s: Space): (r: seq<Space>)
    requires Shaped(g, w, h) && s != Empty
    ensures Shaped(r, w, h)
  {
    seq(|g|, i requires 0 <= i < |g| => StepAt(g, w, h, s, i))
  }

  function StepAt(g: seq<Space>, w: nat, h: nat, s: Space, i: nat): Space
    requires Shaped(g, w, h) && s != Empty && i < |g|
  {
    CoordsIn(i, w, h);
    var c := Coords(i, w);
    Stepped(g, w, h, s, c.0, c.1)
  }

  /** Each cell of `Step` is what `Stepped` says. */
  lemma StepCell(g: seq<Space>, w: nat, h: nat, s: Space, x: nat, y: nat)
    requires Shaped(g, w, h) && s != Empty && x < w && y < h
    ensures Cell(Step(g, w, h, s), w, h, x, y) == Stepped(g, w, h, s, x, y)
  {
    Matrix.IndexBound(y, x, h, w);
    CoordsOf(x, y, w);
  }

  /** Two grids of the same shape with the same cells are equal. */
  lemma CellsEqual(a: seq<Space>, b: seq<Space>, w: nat, h: nat)
    requires Shaped(a, w, h) && Shaped(b, w, h)
    requires forall x: nat, y: nat :: x < w && y < h ==> Cell(a, w, h, x, y) == Cell(b, w, h, x, y)
    ensures a == b
  {
    forall i | 0 <= i < |a|
      ensures a[i] == b[i]
    {
      CoordsIn(i, w, h);
      var c := Coords(i, w);
      assert Cell(a, w, h, c.0, c.1) == Cell(b, w, h, c.0, c.1);
    }
  }

  /** The movement rule: a cucumber of the herd moves one cell (wrapping)
    * exactly when the cell in front of it was empty, and otherwise stays;
    * cucumbers of the other herd never move; an empty cell is filled only by
    * the mover behind it. */
  lemma HerdMoves(g: seq<Space>, w: nat, h: nat, s: Space, x: nat, y: nat)
    requires Shaped(g, w, h) && s != Empty && x < w && y < h
    ensures var g', t := Step(g, w, h, s), Target(w, h, s, x, y);
      Cell(g, w, h, x, y) == s && Cell(g, w, h, t.0, t.1) == Empty ==>
        Cell(g', w, h, x, y) == Empty && Cell(g', w, h, t.0, t.1) == s
    ensures var g', t := Step(g, w, h, s), Target(w, h, s, x, y);
      Cell(g, w, h, x, y) == s && Cell(g, w, h, t.0, t.1) != Empty ==> Cell(g', w, h, x, y) == s
    ensures Cell(g, w, h, x, y) != s && Cell(g, w, h, x, y) != Empty ==>
      Cell(Step(g, w, h, s), w, h, x, y) == Cell(g, w, h, x, y)
    ensures var p := Source(w, h, s, x, y);
      Cell(g, w, h, x, y) == Empty ==>
        (Cell(Step(g, w, h, s), w, h, x, y) == if Moves(g, w, h, s, p.0, p.1) then s else Empty)
  {
    var t := Target(w, h, s, x, y);
    StepCell(g, w, h, s, x, y);
    StepCell(g, w, h, s, t.0, t.1);
    SourceOfTarget(w, h, s, x, y);
  }

  /** The grid is left as it was exactly when no cucumber of the herd moves. */
  lemma StepStill(g: seq<Space>, w: nat, h: nat, s: Space)
    requires Shaped(g, w, h) && s != Empty
    ensures Step(g, w, h, s) == g <==> !Moved(g, w, h, s)
  {
    var g' := Step(g, w, h, s);
    if Moved(g, w, h, s) {
      var x: nat, y: nat :| x < w && y < h && Moves(g, w, h, s, x, y);
      StepCell(g, w, h, s, x, y);
      assert Cell(g', w, h, x, y) != Cell(g, w, h, x, y);
    } else {
      forall x: nat, y: nat | x < w && y < h
        ensures Cell(g', w, h, x, y) == Cell(g, w, h, x, y)
      {
        StepCell(g, w, h, s, x, y);
        var p := Source(w, h, s, x, y);
        assert !Moves(g, w, h, s, p.0, p.1);
      }
      CellsEqual(g', g, w, h);
    }
  }

  /** A herd's move never creates a cucumber of the other herd. */
  lemma StepKeepsOthers(g: seq<Space>, w: nat, h: nat, s: Space, x: nat, y: nat)
    requires Shaped(g, w, h) && s != Empty && x < w && y < h
    ensures Cell(Step(g, w, h, s), w, h, x, y) != s && Cell(Step(g, w, h, s), w, h, x, y) != Empty ==>
      Cell(g, w, h, x, y) == Cell(Step(g, w, h, s), w, h, x, y)
  {
    StepCell(g, w, h, s, x, y);
  }

  // ---------------------------------------------------------------- counting

  /** The positions holding `k`. */
  function Kind(g: seq<Space>, w: nat, h: nat, k: Space): set<Pos>
    requires Shaped(g, w, h)
  {
    set x: nat, y: nat | x < w && y < h && Cell(g, w, h, x, y) == k :: (x, y)
  }

  /** Where each cucumber of the herd goes. */
  function Follow(g: seq<Space>, w: nat, h: nat, s: Space): Pos -> Pos
    requires Shaped(g, w, h) && s != Empty
  {
    (c: Pos) => if c.0 < w && c.1 < h && Moves(g, w, h, s, c.0, c.1) then Target(w, h, s, c.0, c.1) else c
  }

  /** The herd that moves keeps its number of cucumbers. */
  lemma StepKeepsHerd(g: seq<Space>, w: nat, h: nat, s: Space)
    requires Shaped(g, w, h) && s != Empty
    ensures |Kind(Step(g, w, h, s), w, h, s)| == |Kind(g, w, h, s)|
  {
    var g' := Step(g, w, h, s);
    var a, b, f := Kind(g, w, h, s), Kind(g', w, h, s), Follow(g, w, h, s);
    forall c | c in a
      ensures f(c) in b
    {
      var t := Target(w, h, s, c.0, c.1);
      HerdMoves(g, w, h, s, c.0, c.1);
    }
    forall c' | c' in b
      ensures exists c :: c in a && f(c) == c'
    {
      StepCell(g, w, h, s, c'.0, c'.1);
      var p := Source(w, h, s, c'.0, c'.1);
      if Cell(g, w, h, c'.0, c'.1) == Empty && Moves(g, w, h, s, p.0, p.1) {
        assert p in a && f(p) == c';
      } else {
        assert c' in a && f(c') == c';
      }
    }
    forall c1, c2 | c1 in a && c2 in a && f(c1) == f(c2)
      ensures c1 == c2
    {
      SourceOfTarget(w, h, s, c1.0, c1.1);
      SourceOfTarget(w, h, s, c2.0, c2.1);
    }
    BijectionCard(a, b, f);
  }

  /** The empty cells keep their number. */
  lemma StepKeepsEmpty(g: seq<Space>, w: nat, h: nat, s: Space)
    requires Shaped(g, w, h) && s != Empty
    ensures |Kind(Step(g, w, h, s), w, h, Empty)| == |Kind(g, w, h, Empty)|
  {
    var g' := Step(g, w, h, s);
    var a, b, f := Kind(g', w, h, Empty), Kind(g, w, h, Empty), Follow(g, w, h, s);
    forall c | c in a
      ensures f(c) in b
    {
      StepCell(g, w, h, s, c.0, c.1);
    }
    forall c' | c' in b
      ensures exists c :: c in a && f(c) == c'
    {
      var p := Source(w, h, s, c'.0, c'.1);
      StepCell(g, w, h, s, c'.0, c'.1);
      if Moves(g, w, h, s, p.0, p.1) {
        StepCell(g, w, h, s, p.0, p.1);
        assert p in a && f(p) == c';
      } else {
        assert c' in a && f(c') == c';
      }
    }
    forall c1, c2 | c1 in a && c2 in a && f(c1) == f(c2)
      ensures c1 == c2
    {
      StepCell(g, w, h, s, c1.0, c1.1);
      StepCell(g, w, h, s, c2.0, c2.1);
      SourceOfTarget(w, h, s, c1.0, c1.1);
      SourceOfTarget(w, h, s, c2.0, c2.1);
    }
    BijectionCard(a, b, f);
  }

  /** The herd that does not move keeps every position. */
  lemma StepKeepsOtherHerd(g: seq<Space>, w: nat, h: nat, s: Space, k: Space)
    requires Shaped(g, w, h) && s != Empty && k != s && k != Empty
    ensures Kind(Step(g, w, h, s), w, h, k) == Kind(g, w, h, k)
  {
    forall x: nat, y: nat | x < w && y < h
      ensures Cell(Step(g, w, h, s), w, h, x, y) == k <==> Cell(g, w, h, x, y) == k
    {
      StepCell(g, w, h, s, x, y);
    }
  }

  /** A herd's move keeps the number of cells of every kind. */
  lemma StepKeepsCounts(g: seq<Space>, w: nat, h: nat, s: Space, k: Space)
    requires Shaped(g, w, h) && s != Empty
    ensures |Kind(Step(g, w, h, s), w, h, k)| == |Kind(g, w, h, k)|
  {
    if k == s {
      StepKeepsHerd(g, w, h, s);
    } else if k == Empty {
      StepKeepsEmpty(g, w, h, s);
    } else {
      StepKeepsOtherHerd(g, w, h, s, k);
    }
  }

  // ---------------------------------------------------------------- the scan of `tick_space`

  /** `(x, y)` comes before `(x0, y0)` in the row-major scan. */
  predicate Done(x: nat, y: nat, x0: nat, y0: nat)
  {
    y < y0 || (y == y0 && x < x0)
  }

  /** What the new board holds at `(x, y)` once every cell before `(x0, y0)`
    * has been visited. */
  function Partial(g: seq<Space>, w: nat, h: nat, s: Space, x0: nat, y0: nat, x: nat, y: nat): Space
    requires Shaped(g, w, h) && s != Empty && x < w && y < h
  {
    if Moves(g, w, h, s, x, y) then Empty
    else if Cell(g, w, h, x, y) != Empty then (if Done(x, y, x0, y0) then Cell(g, w, h, x, y) else Empty)
    else
      var p := Source(w, h, s, x, y);
      if Moves(g, w, h, s, p.0, p.1) && Done(p.0, p.1, x0, y0) then s else Empty
  }

  /** The new board `b` holds what the scan has written before `(x0, y0)`. */
  ghost predicate Filled(b: seq<Space>, g: seq<Space>, w: nat, h: nat, s: Space, x0: nat, y0: nat)
    requires Shaped(g, w, h) && s != Empty
  {
    Shaped(b, w, h) &&
    forall x: nat, y: nat :: x < w && y < h ==> Cell(b, w, h, x, y) == Partial(g, w, h, s, x0, y0, x, y)
  }

  /** Visiting `(x, y)` writes the herd's cucumber into its target when it
    * moves, the cell itself when it holds a cucumber that stays, and nothing
    * else. */
  lemma PartialStep(g: seq<Space>, w: nat, h: nat, s: Space, x: nat, y: nat, x': nat, y': nat)
    requires Shaped(g, w, h) && s != Empty && x < w && y < h && x' < w && y' < h
    ensures Partial(g, w, h, s, x + 1, y, x', y') ==
      if Moves(g, w, h, s, x, y) && (x', y') == Target(w, h, s, x, y) then s
      else if !Moves(g, w, h, s, x, y) && Cell(g, w, h, x, y) != Empty && (x', y') == (x, y) then Cell(g, w, h, x, y)
      else Partial(g, w, h, s, x, y, x', y')
  {
    SourceOfTarget(w, h, s, x, y);
  }

  lemma FilledStart(g: seq<Space>, w: nat, h: nat, s: Space)
    requires Shaped(g, w, h) && s != Empty
    ensures Filled(seq(|g|, _ => Empty), g, w, h, s, 0, 0)
  {
    var b := seq(|g|, _ => Empty);
    forall x: nat, y: nat | x < w && y < h
      ensures Cell(b, w, h, x, y) == Partial(g, w, h, s, 0, 0, x, y)
    {
      Matrix.IndexBound(y, x, h, w);
    }
  }

  /** A write of `v` at `c` on a board, and nothing else. */
  ghost predicate WroteAt(b: seq<Space>, b': seq<Space>, w: nat, h: nat, c: Pos, v: Space)
    requires Shaped(b, w, h) && Shaped(b', w, h)
  {
    forall x: nat, y: nat :: x < w && y < h ==>
      Cell(b', w, h, x, y) == if (x, y) == c then v else Cell(b, w, h, x, y)
  }

  /** The board `b` with `v` written at `c`. */
  function Written(b: seq<Space>, w: nat, h: nat, c: Pos, v: Space): (r: seq<Space>)
    requires Shaped(b, w, h) && c.0 < w && c.1 < h
    ensures Shaped(r, w, h)
  {
    Matrix.IndexBound(c.1, c.0, h, w);
    b[Matrix.Mul(c.1, w) + c.0 := v]
  }

  /** Writing changes the one cell written and no other. */
  lemma WrittenCells(b: seq<Space>, w: nat, h: nat, c: Pos, v: Space)
    requires Shaped(b, w, h) && c.0 < w && c.1 < h
    ensures WroteAt(b, Written(b, w, h, c, v), w, h, c, v)
  {
    var r := Written(b, w, h, c, v);
    forall x': nat, y': nat | x' < w && y' < h
      ensures Cell(r, w, h, x', y') == if (x', y') == c then v else Cell(b, w, h, x', y')
    {
      Matrix.IndexBound(y', x', h, w);
      Matrix.IndexBound(c.1, c.0, h, w);
      if (x', y') != c {
        Matrix.IndexDistinct(y', x', c.1, c.0, w);
      }
    }
  }

  /** A mover visited: its cucumber is written into its target. */
  lemma FilledMove(b: seq<Space>, g: seq<Space>, w: nat, h: nat, s: Space, x: nat, y: nat)
    requires Shaped(g, w, h) && s != Empty && x < w && y < h && Moves(g, w, h, s, x, y)
    requires Filled(b, g, w, h, s, x, y)
    ensures Filled(Written(b, w, h, Target(w, h, s, x, y), s), g, w, h, s, x + 1, y)
  {
    var b' := Written(b, w, h, Target(w, h, s, x, y), s);
    WrittenCells(b, w, h, Target(w, h, s, x, y), s);
    forall x': nat, y': nat | x' < w && y' < h
      ensures Cell(b', w, h, x', y') == Partial(g, w, h, s, x + 1, y, x', y')
    {
      PartialStep(g, w, h, s, x, y, x', y');
    }
  }

  /** A cucumber that stays visited: it is written in place. */
  lemma FilledStay(b: seq<Space>, g: seq<Space>, w: nat, h: nat, s: Space, x: nat, y: nat)
    requires Shaped(g, w, h) && s != Empty && x < w && y < h
    requires !Moves(g, w, h, s, x, y) && Cell(g, w, h, x, y) != Empty
    requires Filled(b, g, w, h, s, x, y)
    ensures Filled(Written(b, w, h, (x, y), Cell(g, w, h, x, y)), g, w, h, s, x + 1, y)
  {
    var b' := Written(b, w, h, (x, y), Cell(g, w, h, x, y));
    WrittenCells(b, w, h, (x, y), Cell(g, w, h, x, y));
    forall x': nat, y': nat | x' < w && y' < h
      ensures Cell(b', w, h, x', y') == Partial(g, w, h, s, x + 1, y, x', y')
    {
      PartialStep(g, w, h, s, x, y, x', y');
    }
  }

  /** The new board after visiting `(x, y)`: the herd's cucumber written into
    * its target when it moves, a cucumber that stays written in place, and
    * nothing written for an empty cell. */
  function Visited(b: seq<Space>, g: seq<Space>, w: nat, h: nat, s: Space, x: nat, y: nat): (r: seq<Space>)
    requires Shaped(g, w, h) && Shaped(b, w, h) && s != Empty && x < w && y < h
    ensures Shaped(r, w, h)
  {
    if Moves(g, w, h, s, x, y) then Written(b, w, h, Target(w, h, s, x, y), s)
    else if Cell(g, w, h, x, y) != Empty then Written(b, w, h, (x, y), Cell(g, w, h, x, y))
    else b
  }

  /** Visiting the cells in scan order fills the new board one cell further. */
  lemma FilledVisit(b: seq<Space>, g: seq<Space>, w: nat, h: nat, s: Space, x: nat, y: nat)
    requires Shaped(g, w, h) && s != Empty && x < w && y < h
    requires Filled(b, g, w, h, s, x, y)
    ensures Filled(Visited(b, g, w, h, s, x, y), g, w, h, s, x + 1, y)
  {
    if Moves(g, w, h, s, x, y) {
      FilledMove(b, g, w, h, s, x, y);
    } else if Cell(g, w, h, x, y) != Empty {
      FilledStay(b, g, w, h, s, x, y);
    } else {
      FilledSkip(b, g, w, h, s, x, y);
    }
  }

  /** An empty cell visited: nothing is written. */
  lemma FilledSkip(b: seq<Space>, g: seq<Space>, w: nat, h: nat, s: Space, x: nat, y: nat)
    requires Shaped(g, w, h) && s != Empty && x < w && y < h && Cell(g, w, h, x, y) == Empty
    requires Filled(b, g, w, h, s, x, y)
    ensures Filled(b, g, w, h, s, x + 1, y)
  {
    forall x': nat, y': nat | x' < w && y' < h
      ensures Cell(b, w, h, x', y') == Partial(g, w, h, s, x + 1, y, x', y')
    {
      PartialStep(g, w, h, s, x, y, x', y');
    }
  }

  lemma FilledRow(b: seq<Space>, g: seq<Space>, w: nat, h: nat, s: Space, y: nat)
    requires Shaped(g, w, h) && s != Empty && Filled(b, g, w, h, s, w, y)
    ensures Filled(b, g, w, h, s, 0, y + 1)
  {
  }

  lemma FilledEnd(b: seq<Space>, g: seq<Space>, w: nat, h: nat, s: Space)
    requires Shaped(g, w, h) && s != Empty && Filled(b, g, w, h, s, 0, h)
    ensures b == Step(g, w, h, s)
  {
    forall x: nat, y: nat | x < w && y < h
      ensures Cell(b, w, h, x, y) == Cell(Step(g, w, h, s), w, h, x, y)
    {
      StepCell(g, w, h, s, x, y);
    }
    CellsEqual(b, Step(g, w, h, s), w, h);
  }

  /** Some cucumber before `(x0, y0)` in the scan moves. */
  predicate MovedBefore(g: seq<Space>, w: nat, h: nat, s: Space, x0: nat, y0: nat)
    requires Shaped(g, w, h) && s != Empty
  {
    exists x: nat, y: nat :: x < w && y < h && Done(x, y, x0, y0) && Moves(g, w, h, s, x, y)
  }

  lemma MovedBeforeStep(g: seq<Space>, w: nat, h: nat, s: Space, x: nat, y: nat)
    requires Shaped(g, w, h) && s != Empty && x < w && y < h
    ensures MovedBefore(g, w, h, s, x + 1, y) <==> MovedBefore(g, w, h, s, x, y) || Moves(g, w, h, s, x, y)
  {
    if MovedBefore(g, w, h, s, x + 1, y) {
      var x': nat, y': nat :| x' < w && y' < h && Done(x', y', x + 1, y) && Moves(g, w, h, s, x', y');
      if (x', y') != (x, y) {
        assert Done(x', y', x, y);
      }
    }
  }

  lemma MovedBeforeRow(g: seq<Space>, w: nat, h: nat, s: Space, y: nat)
    requires Shaped(g, w, h) && s != Empty
    ensures MovedBefore(g, w, h, s, w, y) <==> MovedBefore(g, w, h, s, 0, y + 1)
  {
    if MovedBefore(g, w, h, s, 0, y + 1) {
      var x': nat, y': nat :| x' < w && y' < h && Done(x', y', 0, y + 1) && Moves(g, w, h, s, x', y');
      assert Done(x', y', w, y);
    }
  }

  lemma MovedBeforeAll(g: seq<Space>, w: nat, h: nat, s: Space)
    requires Shaped(g, w, h) && s != Empty
    ensures MovedBefore(g, w, h, s, 0, h) <==> Moved(g, w, h, s)
  {
    if Moved(g, w, h, s) {
      var x': nat, y': nat :| x' < w && y' < h && Moves(g, w, h, s, x', y');
      assert Done(x', y', 0, h);
    }
  }

  // ---------------------------------------------------------------- `Grid`

  /** `Grid`: the cells, row after row, and the dimensions. */
  class Grid {
    var data: seq<Space>
    var width: nat
    var height: nat

    ghost predicate Valid()
      reads this
    {
      Shaped(data, width, height)
    }

    constructor (data: seq<Space>, width: nat, height: nat)
      ensures this.data == data && this.width == width && this.height == height
    {
      this.data := data;
      this.width := width;
      this.height := height;
    }

    /** `correct_coords`: `x` wrapped into `0..width` and `y` into
      * `0..height`; each differs from the given coordinate by a multiple of
      * the dimension, and coordinates inside the grid are kept. */
    function CorrectCoords(x: nat, y: nat): (r: Pos)
      reads this
      requires width >= 1 && height >= 1
      ensures r.0 < width && r.1 < height
      ensures r == (Wrap(x, width), Wrap(y, height))
    {
      WrapMod(x, width);
      WrapMod(y, height);
      (x % width, y % height)
    }

    /** `is_occupied`: the wrapped cell holds a cucumber. */
    function IsOccupied(x: nat, y: nat): (b: bool)
      reads this
      requires Valid()
      ensures b <==> Cell(data, width, height, Wrap(x, width), Wrap(y, height)) != Empty
    {
      var c := CorrectCoords(x, y);
      Matrix.IndexBound(c.1, c.0, height, width);
      data[Matrix.Mul(c.1, width) + c.0] != Empty
    }

    /** `set`: the wrapped cell becomes `s`; no other cell changes. */
    method Set(x: nat, y: nat, s: Space)
      requires Valid()
      modifies this
      ensures Valid() && width == old(width) && height == old(height)
      ensures data == Written(old(data), width, height, (Wrap(x, width), Wrap(y, height)), s)
    {
      data := Written(data, width, height, CorrectCoords(x, y), s);
    }

    /** One cell of the scan of `tick_space`: a cucumber of the herd whose
      * target is free is written there, any other cucumber is written in
      * place. */
    method Visit(nb: Grid, s: Space, x: nat, y: nat) returns (moved: bool)
      requires Valid() && s != Empty && x < width && y < height
      requires nb != this && nb.Valid() && nb.width == width && nb.height == height
      modifies nb
      ensures nb.Valid() && nb.width == width && nb.height == height
      ensures nb.data == Visited(old(nb.data), data, width, height, s, x, y)
      ensures moved <==> Moves(data, width, height, s, x, y)
    {
      Matrix.IndexBound(y, x, height, width);
      var here := data[Matrix.Mul(y, width) + x];
      var d := Diff(s);
      WrapTarget(width, height, s, x, y);
      assert here == Cell(data, width, height, x, y);
      ghost var before := nb.data;
      if here == s && !IsOccupied(x + d.0, y + d.1) {
        assert Moves(data, width, height, s, x, y);
        nb.Set(x + d.0, y + d.1, s);
        moved := true;
      } else if here != Empty {
        nb.Set(x, y, here);
        moved := false;
      } else {
        moved := false;
      }
      assert nb.data == Visited(before, data, width, height, s, x, y);
    }

    /** `tick_space`: the herd `s` moves on a fresh board, which then
      * replaces this one; the result says whether any cucumber moved. */
    method TickSpace(s: Space) returns (didMove: bool)
      requires Valid() && s != Empty
      modifies this
      ensures Valid() && width == old(width) && height == old(height)
      ensures data == Step(old(data), width, height, s)
      ensures didMove <==> Moved(old(data), width, height, s)
    {
      didMove := false;
      FilledStart(data, width, height, s);
      var nb := new Grid(seq(|data|, _ => Empty), width, height);
      for y := 0 to height
        invariant data == old(data) && width == old(width) && height == old(height)
        invariant nb != this && nb.width == width && nb.height == height
        invariant Filled(nb.data, data, width, height, s, 0, y)
        invariant didMove <==> MovedBefore(data, width, height, s, 0, y)
      {
        for x := 0 to width
          invariant data == old(data) && width == old(width) && height == old(height)
          invariant nb != this && nb.width == width && nb.height == height
          invariant Filled(nb.data, data, width, height, s, x, y)
          invariant didMove <==> MovedBefore(data, width, height, s, x, y)
        {
          FilledVisit(nb.data, data, width, height, s, x, y);
          var m := Visit(nb, s, x, y);
          MovedBeforeStep(data, width, height, s, x, y);
          didMove := didMove || m;
        }
        FilledRow(nb.data, data, width, height, s, y);
        MovedBeforeRow(data, width, height, s, y);
      }
      FilledEnd(nb.data, data, width, height, s);
      MovedBeforeAll(data, width, height, s);
      data := nb.data;
    }

    /** `tick`: the east-facing herd moves, then the south-facing herd on the
      * updated grid; the result says whether either moved. */
    method Tick() returns (moved: bool)
      requires Valid()
      modifies this
      ensures Valid() && width == old(width) && height == old(height)
      ensures data == TickOf(old(data), width, height)
      ensures moved <==> (Moved(old(data), width, height, Right)
        || Moved(Step(old(data), width, height, Right), width, height, Down))
    {
      var r := TickSpace(Right);
      var d := TickSpace(Down);
      moved := r || d;
    }

    /** The loop of `main`, for at most `fuel` steps: the number of the first
      * step in which nothing moves. */
    method Settle(fuel: nat) returns (r: Option<nat>)
      requires Valid()
      modifies this
      ensures Valid() && width == old(width) && height == old(height)
      ensures r.Some? ==> 1 <= r.value <= fuel && FirstStill(old(data), width, height, r.value)
      ensures r.None? ==> forall j :: 1 <= j <= fuel ==> Ticks(old(data), width, height, j) != Ticks(old(data), width, height, j - 1)
    {
      ghost var g := data;
      for i := 1 to fuel + 1
        invariant Valid() && width == old(width) && height == old(height)
        invariant data == Ticks(g, width, height, i - 1)
        invariant forall j :: 1 <= j < i ==> Ticks(g, width, height, j) != Ticks(g, width, height, j - 1)
      {
        ghost var before := data;
        var moved := Tick();
        TickStill(before, width, height);
        assert data == Ticks(g, width, height, i);
        if !moved {
          return Some(i);
        }
      }
      return None;
    }
  }

  /** One step: the east-facing herd, then the south-facing herd. */
  function TickOf(g: seq<Space>, w: nat, h: nat): (r: seq<Space>)
    requires Shaped(g, w, h)
    ensures Shaped(r, w, h)
  {
    Step(Step(g, w, h, Right), w, h, Down)
  }

  /** A step changes the grid exactly when some cucumber moves. */
  lemma TickStill(g: seq<Space>, w: nat, h: nat)
    requires Shaped(g, w, h)
    ensures TickOf(g, w, h) == g <==>
      !(Moved(g, w, h, Right) || Moved(Step(g, w, h, Right), w, h, Down))
  {
    var mid := Step(g, w, h, Right);
    var g' := Step(mid, w, h, Down);
    StepStill(g, w, h, Right);
    StepStill(mid, w, h, Down);
    if Moved(g, w, h, Right) {
      var x: nat, y: nat :| x < w && y < h && Moves(g, w, h, Right, x, y);
      HerdMoves(g, w, h, Right, x, y);
      StepKeepsOthers(mid, w, h, Down, x, y);
      assert Cell(g', w, h, x, y) != Cell(g, w, h, x, y);
    }
  }

  /** One step as a function on grids, so that it can be iterated; it keeps
    * the shape of a grid. */
  function TickFn(w: nat, h: nat): (f: seq<Space> -> seq<Space>)
    ensures forall g :: Shaped(g, w, h) ==> Shaped(f(g), w, h)
  {
    g => if Shaped(g, w, h) then TickOf(g, w, h) else g
  }

  /** The grid after `t` steps. */
  function Ticks(g: seq<Space>, w: nat, h: nat, t: nat): seq<Space>
  {
    Iterate(TickFn(w, h), g, t)
  }

  /** Step `i` is the first in which nothing moves. */
  ghost predicate FirstStill(g: seq<Space>, w: nat, h: nat, i: nat)
  {
    i >= 1 && Ticks(g, w, h, i) == Ticks(g, w, h, i - 1)
    && forall j :: 1 <= j < i ==> Ticks(g, w, h, j) != Ticks(g, w, h, j - 1)
  }

  // ---------------------------------------------------------------- text

  function Glyph(s: Space): char
  {
    match s
    case Empty => '.'
    case Down => 'v'
    case Right => '>'
  }

  /** One character of `parse_line`; `None` is the panic on any other
    * character. */
  function ParseChar(c: char): (r: Option<Space>)
    ensures r.Some? <==> c in ".>v"
    ensures r.Some? ==> Glyph(r.value) == c
  {
    if c == '.' then Some(Empty)
    else if c == '>' then Some(Right)
    else if c == 'v' then Some(Down)
    else None
  }

  /** `parse_line` collected: one cell per character; `None` is the panic,
    * which happens exactly when some character is not `.`, `>` or `v`. */
  function ParseLine(s: string): (r: Option<seq<Space>>)
    ensures r.None? <==> exists i :: 0 <= i < |s| && s[i] !in ".>v"
    ensures r.Some? ==> |r.value| == |s| && forall i :: 0 <= i < |s| ==> Glyph(r.value[i]) == s[i]
  {
    if s == [] then Some([])
    else
      match (ParseChar(s[0]), ParseLine(s[1..]))
      case (Some(c), Some(rest)) =>
        assert forall i :: 1 <= i < |s| ==> s[i] == s[1..][i - 1];
        Some([c] + rest)
      case (None, _) => None
      case (_, None) =>
        var i :| 0 <= i < |s[1..]| && s[1..][i] !in ".>v";
        assert s[i + 1] !in ".>v";
        None
  }

  /** Row `y` as `Display` writes it. */
  function RowText(g: seq<Space>, w: nat, h: nat, y: nat): (r: string)
    requires Shaped(g, w, h) && y < h
    ensures |r| == w && forall x :: 0 <= x < w ==> r[x] == Glyph(Cell(g, w, h, x, y))
  {
    seq(w, x requires 0 <= x < w => Glyph(Cell(g, w, h, x, y)))
  }

  function Rows(g: seq<Space>, w: nat, h: nat): (r: seq<string>)
    requires Shaped(g, w, h)
    ensures |r| == h && forall y :: 0 <= y < h ==> r[y] == RowText(g, w, h, y)
  {
    seq(h, y requires 0 <= y < h => RowText(g, w, h, y))
  }

  /** `Display`: the rows, with a `\n` between each two. */
  function Show(g: seq<Space>, w: nat, h: nat): (r: string)
    requires Shaped(g, w, h)
    ensures |r| + 1 == |g| + h
  {
    JoinLength(Rows(g, w, h), w);
    Join(Rows(g, w, h))
  }

  /** Joining `n` texts of length `w` gives `n * w` characters and `n - 1`
    * line breaks. */
  lemma {:induction false} JoinLength(ls: seq<string>, w: nat)
    requires ls != [] && forall i :: 0 <= i < |ls| ==> |ls[i]| == w
    ensures |Join(ls)| + 1 == Matrix.Mul(|ls|, w) + |ls|
  {
    if |ls| > 1 {
      JoinLength(ls[1..], w);
    }
  }

  /** The cells of row `y`. */
  function Row(g: seq<Space>, w: nat, h: nat, y: nat): (r: seq<Space>)
    requires Shaped(g, w, h) && y < h
    ensures |r| == w && forall x :: 0 <= x < w ==> r[x] == Cell(g, w, h, x, y)
  {
    Matrix.IndexBound(y, w - 1, h, w);
    g[Matrix.Mul(y, w)..Matrix.Mul(y, w) + w]
  }

  /** `parse_line` reads back the text of a row. */
  lemma ParseRow(g: seq<Space>, w: nat, h: nat, y: nat)
    requires Shaped(g, w, h) && y < h
    ensures ParseLine(RowText(g, w, h, y)) == Some(Row(g, w, h, y))
  {
    var s, row := RowText(g, w, h, y), Row(g, w, h, y);
    forall i | 0 <= i < |s|
      ensures s[i] in ".>v"
    {
      assert s[i] == Glyph(Cell(g, w, h, i, y));
    }
    assert ParseLine(s).Some?;
    var r := ParseLine(s).value;
    assert |r| == w;
    forall i | 0 <= i < w
      ensures r[i] == row[i]
    {
      assert Glyph(r[i]) == s[i] == Glyph(row[i]);
    }
    assert r == row;
  }

  /** The cells of all lines, in order; `None` is a panic in some line. */
  function ParseAll(lines: seq<string>): Option<seq<Space>>
  {
    if lines == [] then Some([])
    else
      match (ParseAll(lines[..|lines| - 1]), ParseLine(lines[|lines| - 1]))
      case (Some(a), Some(b)) => Some(a + b)
      case _ => None
  }

  /** Reading one more line appends its cells. */
  lemma ParseAllSnoc(all: seq<string>, k: nat, g: seq<Space>, m: nat, row: seq<Space>)
    requires 1 <= k <= |all| && m + |row| <= |g|
    requires ParseAll(all[..k - 1]) == Some(g[..m]) && ParseLine(all[k - 1]) == Some(row)
    requires g[m..m + |row|] == row
    ensures ParseAll(all[..k]) == Some(g[..m + |row|])
  {
    var lines := all[..k];
    assert lines[..k - 1] == all[..k - 1];
    assert g[..m + |row|] == g[..m] + row;
  }

  /** The first `k` lines read back as consecutive runs of `w` cells of
    * `g`. */
  ghost predicate RowsRead(rows: seq<string>, g: seq<Space>, w: nat, k: nat)
  {
    k <= |rows| &&
    forall y {:trigger rows[y]} :: 0 <= y < k ==>
      Matrix.Mul(y, w) + w <= |g| && ParseLine(rows[y]) == Some(g[Matrix.Mul(y, w)..Matrix.Mul(y, w) + w])
  }

  /** Lines each of which reads back as the next `w` cells of `g` read back,
    * `k` of them, as the first `k * w` cells. */
  lemma {:induction false} ParseRows(rows: seq<string>, g: seq<Space>, w: nat, k: nat)
    requires Matrix.Mul(k, w) <= |g| && RowsRead(rows, g, w, k)
    ensures ParseAll(rows[..k]) == Some(g[..Matrix.Mul(k, w)])
  {
    if k > 0 {
      var m := Matrix.Mul(k - 1, w);
      assert Matrix.Mul(k, w) == m + w;
      assert RowsRead(rows, g, w, k - 1) by {
        forall y | 0 <= y < k - 1
          ensures Matrix.Mul(y, w) + w <= |g| && ParseLine(rows[y]) == Some(g[Matrix.Mul(y, w)..Matrix.Mul(y, w) + w])
        {
          assert 0 <= y < k;
          var r := rows[y];
          assert Matrix.Mul(y, w) + w <= |g|;
        }
      }
      ParseRows(rows, g, w, k - 1);
      assert ParseLine(rows[k - 1]) == Some(g[m..m + w]);
      ParseAllSnoc(rows, k, g, m, g[m..m + w]);
    } else {
      assert rows[..0] == [] && g[..0] == [];
    }
  }

  /** `read_data`: the width is the length of the first line and the height
    * the number of lines; `None` is a panic, on an empty input or in
    * `parse_line`. Lines of other lengths are not rejected. */
  function ReadData(lines: seq<string>): (r: Option<(seq<Space>, nat, nat)>)
    ensures r.Some? ==> |lines| >= 1 && r.value.1 == |lines[0]| && r.value.2 == |lines|
  {
    if lines == [] then None
    else
      match ParseAll(lines)
      case None => None
      case Some(data) => Some((data, |lines[0]|, |lines|))
  }

  /** No row text is empty or holds a `\n`. */
  lemma RowsPlain(g: seq<Space>, w: nat, h: nat)
    requires Shaped(g, w, h)
    ensures forall i :: 0 <= i < h ==> Rows(g, w, h)[i] != [] && '\n' !in Rows(g, w, h)[i]
  {
    var rows := Rows(g, w, h);
    forall i | 0 <= i < h
      ensures rows[i] != [] && '\n' !in rows[i]
    {
      assert rows[i] == RowText(g, w, h, i);
      assert rows[i][0] == Glyph(Cell(g, w, h, 0, i));
    }
  }

  /** Each row text reads back as its slice of the cells. */
  lemma RowsParse(g: seq<Space>, w: nat, h: nat, rows: seq<string>)
    requires Shaped(g, w, h) && rows == Rows(g, w, h)
    ensures RowsRead(rows, g, w, h)
  {
    forall y | 0 <= y < h
      ensures Matrix.Mul(y, w) + w <= |g| && ParseLine(rows[y]) == Some(g[Matrix.Mul(y, w)..Matrix.Mul(y, w) + w])
    {
      ParseRow(g, w, h, y);
      Matrix.IndexBound(y, w - 1, h, w);
    }
  }

  /** The row texts read back as the whole grid. */
  lemma ParseAllRows(g: seq<Space>, w: nat, h: nat)
    requires Shaped(g, w, h)
    ensures ParseAll(Rows(g, w, h)) == Some(g)
  {
    var rows := Rows(g, w, h);
    RowsParse(g, w, h, rows);
    ParseRows(rows, g, w, h);
    assert rows[..h] == rows;
    assert g[..Matrix.Mul(h, w)] == g;
  }

  /** Reading the lines of what `Display` writes gives the grid back. */
  lemma ReadShow(g: seq<Space>, w: nat, h: nat)
    requires Shaped(g, w, h)
    ensures ReadData(Lines(Show(g, w, h))) == Some((g, w, h))
  {
    var rows := Rows(g, w, h);
    RowsPlain(g, w, h);
    LinesJoin(rows);
    ParseAllRows(g, w, h);
    assert |rows[0]| == w;
  }
}
