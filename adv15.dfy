/** Lowest-risk path (adv-15-rs): a rectangular grid of risk digits; the
  * program relaxes a grid of path scores from the bottom-right corner with
  * a stack of cells to revisit until no score changes, and reports the score
  * of the top-left cell. Part 2 does the same on the grid tiled five times
  * in each direction with risks raised per tile. */
module Adv15 {
  import opened Common
  /** `usize::MAX` on a 64-bit target. */
  const MAX: nat := 0xFFFF_FFFF_FFFF_FFFF

  /** A cell `(y, x)`: row, then column. */
  type Cell = (nat, nat)

  // ---- row-major index arithmetic --------------------------------------------

  /** Where cell `(y, x)` of a grid with `cols` columns is stored: after `y`
    * full rows. Written as repeated addition so that proofs about cells do
    * not turn into non-linear arithmetic; `PosProduct` gives the product. */
  function Pos(cols: nat, y: nat, x: nat): nat
  {
    if y == 0 then x else cols + Pos(cols, y - 1, x)
  }

  lemma {:induction false} PosProduct(cols: nat, y: nat, x: nat)
    ensures Pos(cols, y, x) == cols * y + x
  {
    if y > 0 {
      PosProduct(cols, y - 1, x);
    }
  }

  lemma {:induction false} PosShift(cols: nat, y: nat, x: nat)
    ensures Pos(cols, y, x) == Pos(cols, y, 0) + x
  {
    if y > 0 {
      PosShift(cols, y - 1, x);
    }
  }

  lemma {:induction false} PosMono(cols: nat, y1: nat, y2: nat)
    requires y1 <= y2
    ensures Pos(cols, y1, 0) <= Pos(cols, y2, 0)
    decreases y2
  {
    if y1 < y2 {
      PosMono(cols, y1, y2 - 1);
    }
  }

  /** Cell `(y, x)` of a `rows` by `cols` grid lies inside row `y`'s slice,
    * which lies inside the grid. */
  lemma CellIndex(rows: nat, cols: nat, y: nat, x: nat)
    requires y < rows && x < cols
    ensures Pos(cols, y, 0) <= Pos(cols, y, x) < Pos(cols, y + 1, 0) <= Pos(cols, rows, 0)
  {
    PosShift(cols, y, x);
    PosShift(cols, y + 1, 0);
    PosMono(cols, y + 1, rows);
  }

  /** Distinct cells have distinct positions. */
  lemma CellInjective(cols: nat, y1: nat, x1: nat, y2: nat, x2: nat)
    requires x1 < cols && x2 < cols && (y1, x1) != (y2, x2)
    ensures Pos(cols, y1, x1) != Pos(cols, y2, x2)
  {
    PosShift(cols, y1, x1);
    PosShift(cols, y2, x2);
    if y1 < y2 {
      PosMono(cols, y1 + 1, y2);
    } else if y2 < y1 {
      PosMono(cols, y2 + 1, y1);
    }
  }

  // ---- Grid -------------------------------------------------------------------

  /** `Grid<T>`: `rows` rows of `cols` entries stored row after row. */
  datatype Grid<T> = Grid(rows: nat, cols: nat, backer: seq<T>)
  {
    predicate Valid()
    {
      |backer| == Pos(cols, rows, 0)
    }

    predicate Inside(c: Cell)
    {
      c.0 < rows && c.1 < cols
    }

    /** `grid[y]` (the `Index` impl): the slice `cols*y .. cols*(y+1)`. */
    function Row(y: nat): (r: seq<T>)
      requires Valid() && y < rows
      ensures |r| == cols
    {
      if cols == 0 then [] else
        CellIndex(rows, cols, y, 0);
        backer[Pos(cols, y, 0) .. Pos(cols, y + 1, 0)]
    }

    /** `grid[y][x]`. */
    function Get(c: Cell): T
      requires Valid() && Inside(c)
    {
      Row(c.0)[c.1]
    }

    /** `grid[y][x] = v` (the `IndexMut` impl). */
    function Set(c: Cell, v: T): (r: Grid<T>)
      requires Valid() && Inside(c)
      ensures r.Valid() && r.rows == rows && r.cols == cols
    {
      CellIndex(rows, cols, c.0, c.1);
      Grid(rows, cols, backer[Pos(cols, c.0, c.1) := v])
    }

    /** `find_adjacent`: up, left, down, right, as far as they exist. */
    function Adjacent(c: Cell): (r: seq<Cell>)
      ensures Inside(c) ==> forall d: Cell :: d in r ==> Inside(d)
    {
      (if c.0 != 0 then [(c.0 - 1, c.1)] else []) +
      (if c.1 != 0 then [(c.0, c.1 - 1)] else []) +
      (if c.0 + 1 < rows then [(c.0 + 1, c.1)] else []) +
      (if c.1 + 1 < cols then [(c.0, c.1 + 1)] else [])
    }

    /** `copy_map`: same shape, every entry mapped. */
    function CopyMap<U>(f: T -> U): (r: Grid<U>)
      requires Valid()
      ensures r.Valid() && r.rows == rows && r.cols == cols
    {
      Grid(rows, cols, seq(|backer|, i requires 0 <= i < |backer| => f(backer[i])))
    }
  }

  /** Cell `c` is entry `Pos(cols, c.0, c.1)` of the backing sequence. */
  lemma GetAt<T>(g: Grid<T>, c: Cell)
    requires g.Valid() && g.Inside(c)
    ensures Pos(g.cols, c.0, c.1) < |g.backer| && g.Get(c) == g.backer[Pos(g.cols, c.0, c.1)]
  {
    CellIndex(g.rows, g.cols, c.0, c.1);
    PosShift(g.cols, c.0, c.1);
  }

  /** `copy_map` applies `f` at every cell. */
  lemma CopyMapAt<T, U>(g: Grid<T>, f: T -> U, c: Cell)
    requires g.Valid() && g.Inside(c)
    ensures g.CopyMap(f).Get(c) == f(g.Get(c))
  {
    GetAt(g, c);
    GetAt(g.CopyMap(f), c);
  }

  /** `Set` writes cell `c` and leaves every other cell as it was. */
  lemma SetGet<T>(g: Grid<T>, c: Cell, v: T, d: Cell)
    requires g.Valid() && g.Inside(c) && g.Inside(d)
    ensures g.Set(c, v).Get(d) == if d == c then v else g.Get(d)
  {
    GetAt(g, d);
    GetAt(g.Set(c, v), d);
    GetAt(g, c);
    if d != c {
      CellInjective(g.cols, c.0, c.1, d.0, d.1);
    }
  }

  /** Two cells are orthogonal neighbours. */
  predicate Orthogonal(c: Cell, d: Cell)
  {
    (c.0 == d.0 && (c.1 + 1 == d.1 || d.1 + 1 == c.1)) ||
    (c.1 == d.1 && (c.0 + 1 == d.0 || d.0 + 1 == c.0))
  }

  /** `find_adjacent` yields exactly the in-bounds orthogonal neighbours,
    * at most four of them. */
  lemma AdjacentExact<T>(g: Grid<T>, c: Cell, d: Cell)
    requires g.Inside(c)
    ensures d in g.Adjacent(c) <==> g.Inside(d) && Orthogonal(c, d)
    ensures |g.Adjacent(c)| <= 4
  {
  }

  /** Every cell but the bottom-right one has a neighbour. */
  lemma AdjacentNonEmpty<T>(g: Grid<T>, c: Cell)
    requires g.Inside(c) && !Target(g, c)
    ensures |g.Adjacent(c)| > 0
  {
    if c.0 + 1 < g.rows {
      assert (c.0 + 1, c.1) in g.Adjacent(c);
    } else {
      assert (c.0, c.1 + 1) in g.Adjacent(c);
    }
  }

  /** The bottom-right cell, where every path ends. */
  predicate Target<T>(g: Grid<T>, c: Cell)
  {
    c.0 + 1 == g.rows && c.1 + 1 == g.cols
  }

  // ---- building grids -----------------------------------------------------------

  /** The rows laid end to end. */
  function Flatten<T>(ls: seq<seq<T>>): seq<T>
  {
    if ls == [] then [] else Flatten(ls[..|ls| - 1]) + ls[|ls| - 1]
  }

  /** Every row has `cols` entries. */
  predicate Rectangular<T>(ls: seq<seq<T>>, cols: nat)
  {
    forall i :: 0 <= i < |ls| ==> |ls[i]| == cols
  }

  /** Laid end to end, equal rows of `c` entries put entry `x` of row `y` at
    * `c * y + x`. */
  lemma {:induction false} FlattenAt<T>(ls: seq<seq<T>>, c: nat, y: nat, x: nat)
    requires Rectangular(ls, c) && y < |ls| && x < c
    ensures Pos(c, y, x) < |Flatten(ls)| && Flatten(ls)[Pos(c, y, x)] == ls[y][x]
    decreases |ls|
  {
    var n := |ls|;
    var init := ls[..n - 1];
    assert Rectangular(init, c);
    FlattenLength(init, c);
    if y < n - 1 {
      FlattenAt(init, c, y, x);
    } else {
      PosShift(c, y, x);
    }
  }

  /** `from_iterator`: the rows are appended one after the other; `cols` is
    * the length of the first row and `rows` the number of rows. */
  method FromIterator<T>(lines: seq<seq<T>>) returns (g: Grid<T>)
    ensures g.rows == |lines|
    ensures g.cols == if lines == [] then 0 else |lines[0]|
    ensures g.backer == Flatten(lines)
  {
    var rows, cols := 0, 0;
    var back: seq<T> := [];
    for i := 0 to |lines|
      invariant rows == i && back == Flatten(lines[..i])
      invariant cols == if i == 0 then 0 else |lines[0]|
    {
      assert lines[..i + 1][..i] == lines[..i];
      back := back + lines[i];
      if rows == 0 {
        cols := |back|;
      }
      rows := rows + 1;
    }
    assert lines[..|lines|] == lines;
    g := Grid(rows, cols, back);
  }

  lemma {:induction false} FlattenLength<T>(ls: seq<seq<T>>, c: nat)
    requires Rectangular(ls, c)
    ensures |Flatten(ls)| == Pos(c, |ls|, 0)
    decreases |ls|
  {
    if ls != [] {
      assert Rectangular(ls[..|ls| - 1], c);
      FlattenLength(ls[..|ls| - 1], c);
    }
  }

  /** Rows of equal length make a valid grid holding them at their places. */
  lemma FromRows<T>(lines: seq<seq<T>>, g: Grid<T>)
    requires lines != [] && Rectangular(lines, |lines[0]|)
    requires g.rows == |lines| && g.cols == |lines[0]| && g.backer == Flatten(lines)
    ensures g.Valid()
    ensures forall c: Cell :: g.Inside(c) ==> g.Get(c) == lines[c.0][c.1]
  {
    FlattenLength(lines, g.cols);
    forall c: Cell | g.Inside(c) ensures g.Get(c) == lines[c.0][c.1] {
      FlattenAt(lines, g.cols, c.0, c.1);
      GetAt(g, c);
    }
  }

  /** The rows of a `rows` by `cols` grid whose entry `(y, x)` is `f(y, x)`. */
  function Table<T>(rows: nat, cols: nat, f: (nat, nat) --> T): (r: seq<seq<T>>)
    requires forall y: nat, x: nat :: y < rows && x < cols ==> f.requires(y, x)
    ensures |r| == rows && Rectangular(r, cols)
    ensures forall y: nat, x: nat :: y < rows && x < cols ==> r[y][x] == f(y, x)
  {
    seq(rows, y requires 0 <= y < rows => seq(cols, x requires 0 <= x < cols => f(y, x)))
  }

  /** `with_size`: entry `(y, x)` is `f(y, x)`, in row-major order. */
  function WithSize<T>(rows: nat, cols: nat, f: (nat, nat) --> T): (g: Grid<T>)
    requires forall y: nat, x: nat :: y < rows && x < cols ==> f.requires(y, x)
  {
    Grid(rows, cols, Flatten(Table(rows, cols, f)))
  }

  lemma WithSizeAt<T>(rows: nat, cols: nat, f: (nat, nat) --> T)
    requires forall y: nat, x: nat :: y < rows && x < cols ==> f.requires(y, x)
    ensures WithSize(rows, cols, f).Valid()
    ensures forall c: Cell :: WithSize(rows, cols, f).Inside(c) ==> WithSize(rows, cols, f).Get(c) == f(c.0, c.1)
  {
    var ls := Table(rows, cols, f);
    if rows > 0 {
      FromRows(ls, WithSize(rows, cols, f));
    }
  }

  // ---- relaxation -----------------------------------------------------------------

  /** `checked_add(..).unwrap_or(usize::MAX)`. */
  function SatAdd(a: nat, b: nat): (r: nat)
    ensures r <= MAX && r <= a + b
    ensures a + b <= MAX ==> r == a + b
  {
    if a + b <= MAX then a + b else MAX
  }

  /** The smallest entry (`Iterator::min().unwrap()`). */
  function MinOf(xs: seq<nat>): (r: nat)
    requires |xs| > 0
    ensures r in xs && forall v :: v in xs ==> r <= v
  {
    if |xs| == 1 then xs[0] else
      var m := MinOf(xs[1..]);
      assert xs == [xs[0]] + xs[1..];
      if xs[0] <= m then xs[0] else m
  }

  /** The score grid `s` has the shape of the risk grid `g`. */
  predicate Matches(g: Grid<nat>, s: Grid<nat>)
  {
    g.Valid() && s.Valid() && s.rows == g.rows && s.cols == g.cols
  }

  /** What entering neighbour `d` costs from `s`'s point of view. */
  function Through(g: Grid<nat>, s: Grid<nat>, d: Cell): nat
    requires Matches(g, s) && g.Inside(d)
  {
    SatAdd(s.Get(d), g.Get(d))
  }

  /** The new score of cell `c`: 0 at the bottom-right, otherwise the least
    * neighbour score plus that neighbour's risk. */
  function Relax(g: Grid<nat>, s: Grid<nat>, c: Cell): (r: nat)
    requires Matches(g, s) && g.Inside(c)
    ensures r <= MAX
  {
    if Target(g, c) then 0 else
      var ns := s.Adjacent(c);
      AdjacentNonEmpty(s, c);
      MinOf(seq(|ns|, i requires 0 <= i < |ns| => Through(g, s, ns[i])))
  }

  /** `Relax(c)` is at most the cost through any neighbour, and is the cost
    * through one of them. */
  lemma RelaxMeaning(g: Grid<nat>, s: Grid<nat>, c: Cell)
    requires Matches(g, s) && g.Inside(c) && !Target(g, c)
    ensures forall d: Cell :: d in g.Adjacent(c) ==> Relax(g, s, c) <= Through(g, s, d)
    ensures exists d: Cell :: d in g.Adjacent(c) && Relax(g, s, c) == Through(g, s, d)
  {
    var ns := s.Adjacent(c);
    var cs := seq(|ns|, i requires 0 <= i < |ns| => Through(g, s, ns[i]));
    forall d: Cell | d in ns ensures Relax(g, s, c) <= Through(g, s, d) {
      var i :| 0 <= i < |ns| && ns[i] == d;
      assert cs[i] in cs;
    }
    var i :| 0 <= i < |cs| && cs[i] == Relax(g, s, c);
    assert ns[i] in ns;
  }

  /** Lowering scores never raises a relaxed score. */
  lemma RelaxMono(g: Grid<nat>, s: Grid<nat>, t: Grid<nat>, c: Cell)
    requires Matches(g, s) && Matches(g, t) && g.Inside(c)
    requires forall d: Cell :: g.Inside(d) ==> t.Get(d) <= s.Get(d)
    ensures Relax(g, t, c) <= Relax(g, s, c)
  {
    if !Target(g, c) {
      RelaxMeaning(g, s, c);
      RelaxMeaning(g, t, c);
      var d :| d in g.Adjacent(c) && Relax(g, s, c) == Through(g, s, d);
      AdjacentExact(g, c, d);
    }
  }

  /** A relaxed score depends only on the neighbours' scores. */
  lemma RelaxLocal(g: Grid<nat>, s: Grid<nat>, t: Grid<nat>, c: Cell)
    requires Matches(g, s) && Matches(g, t) && g.Inside(c)
    requires forall d: Cell :: d in g.Adjacent(c) ==> t.Get(d) == s.Get(d)
    ensures Relax(g, t, c) == Relax(g, s, c)
  {
    if !Target(g, c) {
      var ns := g.Adjacent(c);
      forall d: Cell | d in ns ensures g.Inside(d) {
        AdjacentExact(g, c, d);
      }
      assert seq(|ns|, i requires 0 <= i < |ns| => Through(g, t, ns[i])) ==
             seq(|ns|, i requires 0 <= i < |ns| => Through(g, s, ns[i]));
    }
  }

  /** Every score is at least its relaxed value and within `usize`. */
  ghost predicate Above(g: Grid<nat>, s: Grid<nat>)
  {
    Matches(g, s) && forall c: Cell {:trigger Relax(g, s, c)} :: g.Inside(c) ==> Relax(g, s, c) <= s.Get(c) <= MAX
  }

  /** Every cell not waiting on the stack `q` holds its relaxed value. */
  ghost predicate SettledBut(g: Grid<nat>, s: Grid<nat>, q: seq<Cell>)
  {
    Matches(g, s) && forall c: Cell {:trigger Relax(g, s, c)} :: g.Inside(c) && c !in q ==> s.Get(c) == Relax(g, s, c)
  }

  /** The scores are a fixed point of the relaxation. */
  ghost predicate Fixpoint(g: Grid<nat>, s: Grid<nat>)
  {
    SettledBut(g, s, [])
  }

  /** The result of `cheapest_path`: the top-left score of a fixed point. */
  ghost predicate Settles(g: Grid<nat>, r: nat)
  {
    g.rows > 0 && g.cols > 0 &&
    exists s :: Fixpoint(g, s) && r == s.Get((0, 0))
  }

  /** The starting scores, all `usize::MAX`, are above their relaxed values
    * and settled except at the bottom-right cell. */
  lemma InitScores(g: Grid<nat>, s: Grid<nat>)
    requires Matches(g, s) && g.rows > 0 && g.cols > 0
    requires forall c: Cell :: g.Inside(c) ==> s.Get(c) == MAX
    ensures Above(g, s)
    ensures SettledBut(g, s, [(g.rows - 1, g.cols - 1)])
  {
    forall c: Cell | g.Inside(c) && c != (g.rows - 1, g.cols - 1) ensures s.Get(c) == Relax(g, s, c) {
      RelaxMeaning(g, s, c);
      var d :| d in g.Adjacent(c) && Relax(g, s, c) == Through(g, s, d);
      AdjacentExact(g, c, d);
    }
  }

  /** The sum of the scores, which every change lowers. */
  function Total(s: seq<nat>): nat
  {
    if s == [] then 0 else Total(s[..|s| - 1]) + s[|s| - 1]
  }

  lemma {:induction false} TotalSet(s: seq<nat>, i: nat, v: nat)
    requires i < |s|
    ensures Total(s[i := v]) + s[i] == Total(s) + v
    decreases |s|
  {
    var n := |s| - 1;
    assert s[i := v][..n] == if i == n then s[..n] else s[..n][i := v];
    if i < n {
      TotalSet(s[..n], i, v);
    }
  }

  /** Lowering one score lowers the total. */
  lemma LowerOne(s: Grid<nat>, c: Cell, v: nat)
    requires s.Valid() && s.Inside(c) && v < s.Get(c)
    ensures Total(s.Set(c, v).backer) < Total(s.backer)
  {
    GetAt(s, c);
    TotalSet(s.backer, Pos(s.cols, c.0, c.1), v);
  }

  /** One changed score: the new value is lower, and after pushing the
    * cell's neighbours everything off the stack is still settled. */
  lemma UpdateStep(g: Grid<nat>, s: Grid<nat>, waiting: seq<Cell>, c: Cell)
    requires Above(g, s) && waiting != [] && c == waiting[|waiting| - 1] && g.Inside(c)
    requires SettledBut(g, s, waiting)
    requires Relax(g, s, c) != s.Get(c)
    ensures Relax(g, s, c) < s.Get(c)
    ensures Above(g, s.Set(c, Relax(g, s, c)))
    ensures SettledBut(g, s.Set(c, Relax(g, s, c)), waiting[..|waiting| - 1] + s.Set(c, Relax(g, s, c)).Adjacent(c))
  {
    var q := waiting[..|waiting| - 1];
    assert waiting == q + [c];
    var v := Relax(g, s, c);
    var t := s.Set(c, v);
    assert t.Adjacent(c) == g.Adjacent(c);
    forall d: Cell | g.Inside(d) ensures t.Get(d) <= s.Get(d) {
      SetGet(s, c, v, d);
    }
    forall d: Cell | g.Inside(d) ensures Relax(g, t, d) <= t.Get(d) <= MAX {
      RelaxMono(g, s, t, d);
      SetGet(s, c, v, d);
      if d == c {
        RelaxSelf(g, s, c, v);
      }
    }
    forall d: Cell | g.Inside(d) && d !in q + t.Adjacent(c) ensures t.Get(d) == Relax(g, t, d) {
      SetGet(s, c, v, d);
      if d == c {
        RelaxSelf(g, s, c, v);
      } else {
        SetGet(s, c, v, d);
        Untouched(g, s, c, v, d);
      }
    }
  }

  /** Writing a cell does not change its own relaxed value: a cell is not
    * its own neighbour. */
  lemma RelaxSelf(g: Grid<nat>, s: Grid<nat>, c: Cell, v: nat)
    requires Matches(g, s) && g.Inside(c)
    ensures Relax(g, s.Set(c, v), c) == Relax(g, s, c)
  {
    forall d: Cell | d in g.Adjacent(c) ensures s.Set(c, v).Get(d) == s.Get(d) {
      AdjacentExact(g, c, d);
      SetGet(s, c, v, d);
    }
    RelaxLocal(g, s, s.Set(c, v), c);
  }

  /** A cell that is not a neighbour of the changed cell keeps its relaxed
    * value, since neighbourhood is symmetric. */
  lemma Untouched(g: Grid<nat>, s: Grid<nat>, c: Cell, v: nat, d: Cell)
    requires Matches(g, s) && g.Inside(c) && g.Inside(d) && d != c
    requires d !in g.Adjacent(c)
    ensures Relax(g, s.Set(c, v), d) == Relax(g, s, d)
  {
    forall e: Cell | e in g.Adjacent(d) ensures s.Set(c, v).Get(e) == s.Get(e) {
      AdjacentExact(g, d, e);
      AdjacentExact(g, c, d);
      SetGet(s, c, v, e);
    }
    RelaxLocal(g, s, s.Set(c, v), d);
  }

  /** A popped cell whose score did not change is settled. */
  lemma PopSettled(g: Grid<nat>, s: Grid<nat>, waiting: seq<Cell>, c: Cell)
    requires waiting != [] && c == waiting[|waiting| - 1] && g.Inside(c)
    requires SettledBut(g, s, waiting) && s.Get(c) == Relax(g, s, c)
    ensures SettledBut(g, s, waiting[..|waiting| - 1])
  {
    assert waiting == waiting[..|waiting| - 1] + [c];
  }

  /** `cheapest_path`: scores start at `usize::MAX`; a cell popped from the
    * stack takes its relaxed score and, when that changed it, pushes its
    * neighbours. When the stack is empty the scores are a fixed point and
    * the top-left score is returned. */
  method CheapestPath(g: Grid<nat>) returns (r: nat)
    requires g.Valid() && g.rows > 0 && g.cols > 0
    ensures Settles(g, r) && r <= MAX
  {
    var s := g.CopyMap(_ => MAX);
    var queue: seq<Cell> := [(g.rows - 1, g.cols - 1)];
    forall c: Cell | g.Inside(c) ensures s.Get(c) == MAX {
      CopyMapAt(g, _ => MAX, c);
    }
    InitScores(g, s);
    while queue != []
      invariant Above(g, s) && SettledBut(g, s, queue)
      invariant forall c: Cell :: c in queue ==> g.Inside(c)
      decreases Total(s.backer), |queue|
    {
      ghost var waiting := queue;
      var c := queue[|queue| - 1];
      assert c in waiting;
      queue := queue[..|queue| - 1];
      var prev := s.Get(c);
      var next := Relax(g, s, c);
      if prev != next {
        UpdateStep(g, s, waiting, c);
        LowerOne(s, c, next);
        s := s.Set(c, next);
        queue := queue + s.Adjacent(c);
      } else {
        PopSettled(g, s, waiting, c);
      }
    }
    assert Fixpoint(g, s);
    r := s.Get((0, 0));
    assert Relax(g, s, (0, 0)) <= r <= MAX;
  }

  /** The bottom-right score of a fixed point is 0. */
  lemma FixpointCorner(g: Grid<nat>, s: Grid<nat>)
    requires Fixpoint(g, s) && g.rows > 0 && g.cols > 0
    ensures s.Get((g.rows - 1, g.cols - 1)) == 0
  {
    assert Relax(g, s, (g.rows - 1, g.cols - 1)) == 0;
  }

  /** A walk through orthogonal neighbours ending at the bottom-right cell. */
  ghost predicate IsPath(g: Grid<nat>, p: seq<Cell>)
  {
    |p| > 0 && Target(g, p[|p| - 1]) &&
    (forall i :: 0 <= i < |p| ==> g.Inside(p[i])) &&
    (forall i :: 0 < i < |p| ==> p[i] in g.Adjacent(p[i - 1]))
  }

  /** The risk of entering every cell of a path after its first. */
  function PathRisk(g: Grid<nat>, p: seq<Cell>): nat
    requires g.Valid() && forall i :: 0 <= i < |p| ==> g.Inside(p[i])
  {
    if |p| <= 1 then 0 else g.Get(p[1]) + PathRisk(g, p[1..])
  }

  /** The score of a fixed point never exceeds the risk of any path from the
    * cell to the bottom-right corner. */
  lemma {:induction false} FixpointBelowPath(g: Grid<nat>, s: Grid<nat>, p: seq<Cell>)
    requires Fixpoint(g, s) && IsPath(g, p)
    ensures s.Get(p[0]) <= PathRisk(g, p)
    decreases |p|
  {
    var c := p[0];
    assert s.Get(c) == Relax(g, s, c);
    if !Target(g, c) {
      assert |p| > 1;
      var rest := p[1..];
      assert IsPath(g, rest) by {
        forall i | 0 < i < |rest| ensures rest[i] in g.Adjacent(rest[i - 1]) {
          assert rest[i] == p[i + 1] && rest[i - 1] == p[i];
        }
      }
      FixpointBelowPath(g, s, rest);
      RelaxMeaning(g, s, c);
      assert p[1] in g.Adjacent(c);
    }
  }

  // ---- part 2: the five-by-five tiling ----------------------------------------------

  /** Every risk is a digit from 1 to 9. */
  ghost predicate RiskDigits(g: Grid<nat>)
  {
    g.Valid() && forall c: Cell :: g.Inside(c) ==> 1 <= g.Get(c) <= 9
  }

  /** The risk at `(y, x)` of the tiled grid in `main`: tile `(ty, tx)` adds
    * `ty + tx` to the original risk, wrapping from 9 back to 1. */
  function Tile(g: Grid<nat>, y: nat, x: nat): (r: nat)
    requires RiskDigits(g) && g.rows > 0 && g.cols > 0
    requires y < 5 * g.rows && x < 5 * g.cols
    ensures 1 <= r <= 9
  {
    var (ty, ly) := Split(y, g.rows);
    var (tx, lx) := Split(x, g.cols);
    Raise(g.Get((ly, lx)), ty + tx)
  }

  /** `(y / b, y % b)`, by repeated subtraction (`SplitIsDivMod`), so that
    * proofs about tiles stay linear. */
  function Split(y: nat, b: nat): (r: (nat, nat))
    requires b > 0
    ensures r.1 < b
    decreases y
  {
    if y < b then (0, y) else
      var p := Split(y - b, b);
      (p.0 + 1, p.1)
  }

  lemma SplitIsDivMod(y: nat, b: nat)
    requires b > 0
    ensures Split(y, b) == (y / b, y % b)
  {
    SplitSum(y, b);
    ModUnique(y, b, Split(y, b).0, Split(y, b).1);
  }

  lemma {:induction false} SplitSum(y: nat, b: nat)
    requires b > 0
    ensures y == b * Split(y, b).0 + Split(y, b).1
    decreases y
  {
    if y >= b {
      SplitSum(y - b, b);
      var q := Split(y - b, b).0;
      assert b * (q + 1) == b * q + b;
    }
  }

  /** A risk `v` raised `k` times, 9 wrapping to 1: `((k + v - 1) % 9) + 1`. */
  function Raise(v: nat, k: nat): (r: nat)
    requires v >= 1
    ensures 1 <= r <= 9
  {
    ((k + v - 1) % 9) + 1
  }

  /** Raising once more is one more step of the wrap. */
  lemma RaiseStep(v: nat, k: nat)
    requires v >= 1
    ensures Raise(v, k + 1) == Raise(v, k) % 9 + 1
  {
    WrapStep(k + v - 1);
  }

  lemma WrapStep(a: nat)
    ensures (a + 1) % 9 + 1 == ((a % 9) + 1) % 9 + 1
  {
    var q, r := a / 9, a % 9;
    assert a == 9 * q + r;
    if r < 8 {
      ModUnique(a + 1, 9, q, r + 1);
    } else {
      ModUnique(a + 1, 9, q + 1, 0);
    }
  }

  /** One tile further down every risk goes up by one, 9 wrapping to 1. */
  lemma TileDown(g: Grid<nat>, y: nat, x: nat)
    requires RiskDigits(g) && g.rows > 0 && g.cols > 0
    requires y + g.rows < 5 * g.rows && x < 5 * g.cols
    ensures Tile(g, y + g.rows, x) == Tile(g, y, x) % 9 + 1
  {
    RaiseStep(g.Get((Split(y, g.rows).1, Split(x, g.cols).1)), Split(y, g.rows).0 + Split(x, g.cols).0);
  }

  /** One tile further right every risk goes up by one, 9 wrapping to 1. */
  lemma TileRight(g: Grid<nat>, y: nat, x: nat)
    requires RiskDigits(g) && g.rows > 0 && g.cols > 0
    requires y < 5 * g.rows && x + g.cols < 5 * g.cols
    ensures Tile(g, y, x + g.cols) == Tile(g, y, x) % 9 + 1
  {
    RaiseStep(g.Get((Split(y, g.rows).1, Split(x, g.cols).1)), Split(y, g.rows).0 + Split(x, g.cols).0);
  }

  /** `risk_grid_2`: five times as many rows and columns, built by
    * `with_size` from `Tile`. */
  function TileGrid(g: Grid<nat>): Grid<nat>
    requires RiskDigits(g) && g.rows > 0 && g.cols > 0
  {
    WithSize(5 * g.rows, 5 * g.cols, (y: nat, x: nat) requires y < 5 * g.rows && x < 5 * g.cols => Tile(g, y, x))
  }

  lemma TileGridAt(g: Grid<nat>)
    requires RiskDigits(g) && g.rows > 0 && g.cols > 0
    ensures TileGrid(g).Valid() && TileGrid(g).rows == 5 * g.rows && TileGrid(g).cols == 5 * g.cols
    ensures forall c: Cell :: TileGrid(g).Inside(c) ==> TileGrid(g).Get(c) == Tile(g, c.0, c.1)
  {
    WithSizeAt(5 * g.rows, 5 * g.cols, (y: nat, x: nat) requires y < 5 * g.rows && x < 5 * g.cols => Tile(g, y, x));
  }

  // ---- read_data and main ----------------------------------------------------------

  /** One input line as `read_data` reads it: the ASCII digits, as numbers;
    * anything else (the newline) is dropped. */
  function ParseLine(s: string): (r: seq<nat>)
    ensures |r| <= |s| && forall i :: 0 <= i < |r| ==> r[i] <= 9
  {
    if s == [] then [] else
      (if '0' <= s[0] <= '9' then [s[0] as nat - '0' as nat] else []) + ParseLine(s[1..])
  }

  /** A line of digits and a newline reads as its digits, in order. */
  lemma {:induction false} ParseDigits(s: string)
    requires forall i :: 0 <= i < |s| ==> '0' <= s[i] <= '9'
    ensures ParseLine(s + "\n") == seq(|s|, i requires 0 <= i < |s| => s[i] as nat - '0' as nat)
    decreases |s|
  {
    if s != [] {
      assert (s + "\n")[1..] == s[1..] + "\n";
      ParseDigits(s[1..]);
    } else {
      assert "\n"[1..] == [];
    }
  }

  /** `main`: the lowest path score of the grid and of its five-by-five
    * tiling. Every line must hold the same number of digits, all from 1 to 9
    * (a 0 makes the tiling formula underflow). */
  method Solve(input: seq<string>) returns (part1: nat, part2: nat)
    requires input != [] && ParseLine(input[0]) != []
    requires forall i :: 0 <= i < |input| ==> |ParseLine(input[i])| == |ParseLine(input[0])|
    requires forall i, j :: 0 <= i < |input| && 0 <= j < |ParseLine(input[i])| ==> 1 <= ParseLine(input[i])[j]
    ensures exists g: Grid<nat> ::
      (RiskDigits(g) && g.rows == |input| && g.cols == |ParseLine(input[0])| &&
       (forall c: Cell :: g.Inside(c) ==> g.Get(c) == ParseLine(input[c.0])[c.1]) &&
       Settles(g, part1) && Settles(TileGrid(g), part2))
  {
    var lines := seq(|input|, i requires 0 <= i < |input| => ParseLine(input[i]));
    var g := FromIterator(lines);
    FromRows(lines, g);
    TileGridAt(g);
    part1 := CheapestPath(g);
    part2 := CheapestPath(TileGrid(g));
  }
}
