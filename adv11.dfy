/** Flashing octopuses (adv-11-rs): a 10x10 grid of energy levels. A tick
  * raises every level by one; a level passing 9 flashes (marked 10) and
  * raises its up to eight neighbours, which may flash in turn; flashed cells
  * are then reset to 0 and counted. */
module Adv11 {
  import opened Common

  type Cell = (int, int)

  const Size := 10

  predicate InGrid(c: Cell)
  {
    0 <= c.0 < Size && 0 <= c.1 < Size
  }

  /** The offsets of `get_adjacent`, row by row, without `(0, 0)`. */
  const Offsets: seq<(int, int)> := [(-1, -1), (-1, 0), (-1, 1), (0, -1), (0, 1), (1, -1), (1, 0), (1, 1)]

  /** The cells at offsets `offs` from `(y, x)` that stay on the grid. */
  function Shift(y: int, x: int, offs: seq<(int, int)>): (r: seq<Cell>)
    ensures |r| <= |offs|
    ensures forall k :: 0 <= k < |r| ==> InGrid(r[k])
  {
    if offs == [] then []
    else
      var c := (y + offs[0].0, x + offs[0].1);
      (if InGrid(c) then [c] else []) + Shift(y, x, offs[1..])
  }

  /** `get_adjacent`: the up to eight neighbours on the grid. */
  function Adjacent(y: int, x: int): (r: seq<Cell>)
    ensures |r| <= 8
    ensures forall k :: 0 <= k < |r| ==> InGrid(r[k])
  {
    Shift(y, x, Offsets)
  }

  /** `c` is one king's move away from `(y, x)`. */
  predicate Touches(c: Cell, y: int, x: int)
  {
    Near((c.0 - y, c.1 - x))
  }

  /** `o` is one of the eight king's-move offsets. */
  predicate Near(o: (int, int))
  {
    o != (0, 0) && -1 <= o.0 <= 1 && -1 <= o.1 <= 1
  }

  lemma {:induction false} ShiftCount(y: int, x: int, offs: seq<(int, int)>, v: Cell)
    ensures multiset(Shift(y, x, offs))[v] == if InGrid(v) then multiset(offs)[(v.0 - y, v.1 - x)] else 0
  {
    if offs != [] {
      ShiftHead(y, x, offs, v);
      CountHead(offs, (v.0 - y, v.1 - x));
      ShiftCount(y, x, offs[1..], v);
    }
  }

  lemma ShiftHead(y: int, x: int, offs: seq<(int, int)>, v: Cell)
    requires offs != []
    ensures multiset(Shift(y, x, offs))[v] ==
      (if InGrid(v) && offs[0] == (v.0 - y, v.1 - x) then 1 else 0) + multiset(Shift(y, x, offs[1..]))[v]
  {
    var c := (y + offs[0].0, x + offs[0].1);
    var head: seq<Cell> := if InGrid(c) then [c] else [];
    assert Shift(y, x, offs) == head + Shift(y, x, offs[1..]);
  }

  lemma CountHead<T>(s: seq<T>, o: T)
    requires s != []
    ensures multiset(s)[o] == (if s[0] == o then 1 else 0) + multiset(s[1..])[o]
  {
    assert s == [s[0]] + s[1..];
  }

  lemma OffsetsCount(o: (int, int))
    ensures multiset(Offsets)[o] == if Near(o) then 1 else 0
  {
    assert forall i, j :: 0 <= i < j < |Offsets| ==> Offsets[i] != Offsets[j];
    assert o in Offsets <==> Near(o);
    CountDistinct(Offsets, o);
  }

  /** In a sequence without repeats every element occurs once. */
  lemma {:induction false} CountDistinct<T>(s: seq<T>, o: T)
    requires forall i, j :: 0 <= i < j < |s| ==> s[i] != s[j]
    ensures multiset(s)[o] == if o in s then 1 else 0
  {
    if s != [] {
      CountHead(s, o);
      CountDistinct(s[1..], o);
    }
  }

  /** Each on-grid cell one king's move away is listed exactly once, and
    * nothing else is (in particular never the cell itself). */
  lemma AdjacentCount(c: Cell, v: Cell)
    ensures multiset(Adjacent(c.0, c.1))[v] == if InGrid(v) && Touches(v, c.0, c.1) then 1 else 0
  {
    OffsetsCount((v.0 - c.0, v.1 - c.1));
    NearCount(Offsets, c, v);
  }

  lemma NearCount(offs: seq<(int, int)>, c: Cell, v: Cell)
    requires multiset(offs)[(v.0 - c.0, v.1 - c.1)] == if Near((v.0 - c.0, v.1 - c.1)) then 1 else 0
    ensures multiset(Shift(c.0, c.1, offs))[v] == if InGrid(v) && Touches(v, c.0, c.1) then 1 else 0
  {
    ShiftCount(c.0, c.1, offs, v);
  }

  /** The neighbours are exactly the on-grid cells one king's move away. */
  lemma AdjacentExact(y: int, x: int)
    ensures forall c :: c in Adjacent(y, x) <==> InGrid(c) && Touches(c, y, x)
  {
    forall c
      ensures c in Adjacent(y, x) <==> InGrid(c) && Touches(c, y, x)
    {
      AdjacentCount((y, x), c);
    }
  }

  // ---- grids as values -------------------------------------------------------

  type Grid = seq<seq<int>>

  predicate Square(g: Grid)
  {
    |g| == Size && forall i :: 0 <= i < Size ==> |g[i]| == Size
  }

  function At(g: Grid, c: Cell): int
    requires Square(g) && InGrid(c)
  {
    g[c.0][c.1]
  }

  function Put(g: Grid, c: Cell, v: int): (r: Grid)
    requires Square(g) && InGrid(c)
    ensures Square(r)
    ensures forall d :: InGrid(d) ==> At(r, d) == if d == c then v else At(g, d)
  {
    g[c.0 := g[c.0][c.1 := v]]
  }

  /** How many of `cs` hold level `t`. */
  function CountAt(g: Grid, cs: seq<Cell>, t: int): (r: nat)
    requires Square(g) && forall k :: 0 <= k < |cs| ==> InGrid(cs[k])
    ensures r <= |cs|
  {
    if cs == [] then 0 else (if At(g, cs[0]) == t then 1 else 0) + CountAt(g, cs[1..], t)
  }

  /** The flashed neighbours of `c`. */
  function Around(g: Grid, c: Cell, t: int): nat
    requires Square(g)
  {
    CountAt(g, Adjacent(c.0, c.1), t)
  }

  /** Two grids that agree on which listed cells hold `t` and `u` give the
    * same counts. */
  lemma {:induction false} CountAtSame(g: Grid, h: Grid, cs: seq<Cell>, t: int, u: int)
    requires Square(g) && Square(h) && forall k :: 0 <= k < |cs| ==> InGrid(cs[k])
    requires forall k :: 0 <= k < |cs| ==> (At(g, cs[k]) == t <==> At(h, cs[k]) == u)
    ensures CountAt(g, cs, t) == CountAt(h, cs, u)
  {
    if cs != [] {
      CountAtSame(g, h, cs[1..], t, u);
    }
  }

  /** Marking one more cell with `t` adds one to the count of every list
    * that holds it once. */
  lemma {:induction false} CountAtMark(g: Grid, cs: seq<Cell>, t: int, c: Cell)
    requires Square(g) && InGrid(c) && At(g, c) != t && forall k :: 0 <= k < |cs| ==> InGrid(cs[k])
    ensures CountAt(Put(g, c, t), cs, t) == CountAt(g, cs, t) + multiset(cs)[c]
  {
    if cs != [] {
      CountAtMark(g, cs[1..], t, c);
      assert cs == [cs[0]] + cs[1..];
    }
  }

  lemma {:induction false} CountAtNone(g: Grid, cs: seq<Cell>, t: int)
    requires Square(g) && forall k :: 0 <= k < |cs| ==> InGrid(cs[k]) && At(g, cs[k]) != t
    ensures CountAt(g, cs, t) == 0
  {
    if cs != [] {
      CountAtNone(g, cs[1..], t);
    }
  }

  // ---- the cascade ----------------------------------------------------------

  /** The bookkeeping of the cascade at one cell. `base` is the level plus the
    * increments the scan has handed out so far; `pend` holds the increments
    * owed by flashed cells but not yet delivered. A cell that has not flashed
    * shows exactly what it received; a flashed cell (10) received at least 10. */
  ghost predicate CellOk(g: Grid, base: Grid, pend: multiset<Cell>, c: Cell)
    requires Square(g) && Square(base) && InGrid(c)
  {
    var t := At(base, c) + Around(g, c, 10) - pend[c];
    if At(g, c) == 10 then t >= 10 else At(g, c) == t && 0 <= t <= 9
  }

  ghost predicate Balanced(g: Grid, base: Grid, pend: multiset<Cell>)
    requires Square(g) && Square(base)
  {
    forall c :: InGrid(c) ==> CellOk(g, base, pend, c)
  }

  /** Flashed cells stay flashed from `g` to `h`, so fewer are unflashed. */
  ghost predicate Grows(g: Grid, h: Grid)
    requires Square(g) && Square(h)
  {
    (forall c :: InGrid(c) && At(g, c) == 10 ==> At(h, c) == 10) && Unflashed(h) <= Unflashed(g)
  }

  /** Writing a level other than over a 10 keeps every flashed cell; writing
    * 10 over a lower level flashes one more cell. */
  lemma PutGrows(g: Grid, c: Cell, v: int)
    requires Square(g) && InGrid(c) && (At(g, c) != 10 || v == 10)
    ensures Grows(g, Put(g, c, v))
    ensures At(g, c) != 10 && v == 10 ==> Unflashed(Put(g, c, v)) < Unflashed(g)
  {
    var h := Put(g, c, v);
    UnflashedShrinks(g, h);
    if At(g, c) != 10 && v == 10 {
      assert c in Unflashed(g) - Unflashed(h);
    }
  }

  lemma GrowsTrans(a: Grid, b: Grid, c: Grid)
    requires Square(a) && Square(b) && Square(c) && Grows(a, b) && Grows(b, c)
    ensures Grows(a, c)
  {
  }

  lemma GrowsRefl(a: Grid)
    requires Square(a)
    ensures Grows(a, a)
  {
  }

  /** Every level is between 0 and 10 while the books balance. */
  lemma LevelRange(g: Grid, base: Grid, pend: multiset<Cell>, c: Cell)
    requires Square(g) && Square(base) && InGrid(c) && Balanced(g, base, pend)
    ensures 0 <= At(g, c) <= 10
  {
    assert CellOk(g, base, pend, c);
  }

  /** A level below 9 takes its increment. */
  lemma StepBump(g: Grid, base: Grid, pend: multiset<Cell>, c: Cell, v: int)
    requires Square(g) && Square(base) && InGrid(c) && At(g, c) == v && 0 <= v <= 8
    requires Balanced(g, base, pend + multiset{c})
    ensures Balanced(Put(g, c, v + 1), base, pend)
  {
    var h := Put(g, c, v + 1);
    forall d | InGrid(d)
      ensures CellOk(h, base, pend, d)
    {
      assert CellOk(g, base, pend + multiset{c}, d);
      AdjacentExact(d.0, d.1);
      CountAtSame(g, h, Adjacent(d.0, d.1), 10, 10);
    }
  }

  /** A level of 9 flashes: it becomes 10 and owes one increment to each
    * neighbour. */
  lemma StepFlash(g: Grid, base: Grid, pend: multiset<Cell>, c: Cell)
    requires Square(g) && Square(base) && InGrid(c) && At(g, c) == 9
    requires Balanced(g, base, pend + multiset{c})
    ensures Balanced(Put(g, c, 10), base, pend + multiset(Adjacent(c.0, c.1)))
  {
    forall d | InGrid(d)
      ensures CellOk(Put(g, c, 10), base, pend + multiset(Adjacent(c.0, c.1)), d)
    {
      StepFlashAt(g, base, pend, c, d);
    }
  }

  lemma StepFlashAt(g: Grid, base: Grid, pend: multiset<Cell>, c: Cell, d: Cell)
    requires Square(g) && Square(base) && InGrid(c) && InGrid(d) && At(g, c) == 9
    requires CellOk(g, base, pend + multiset{c}, d)
    ensures CellOk(Put(g, c, 10), base, pend + multiset(Adjacent(c.0, c.1)), d)
  {
    CountAtMark(g, Adjacent(d.0, d.1), 10, c);
    AdjacentCount(d, c);
    AdjacentCount(c, d);
    TouchesSym(c, d);
  }

  lemma TouchesSym(c: Cell, d: Cell)
    ensures Touches(c, d.0, d.1) <==> Touches(d, c.0, c.1)
  {
  }

  /** A cell that already flashed ignores its increment. */
  lemma StepIgnore(g: Grid, base: Grid, pend: multiset<Cell>, c: Cell)
    requires Square(g) && Square(base) && InGrid(c) && At(g, c) == 10
    requires Balanced(g, base, pend + multiset{c})
    ensures Balanced(g, base, pend)
  {
    forall d | InGrid(d)
      ensures CellOk(g, base, pend, d)
    {
      assert CellOk(g, base, pend + multiset{c}, d);
    }
  }

  // ---- the grid in place ----------------------------------------------------

  const AllCells: set<Cell> := set y, x | 0 <= y < Size && 0 <= x < Size :: (y, x)

  /** The cells that have not flashed. */
  ghost function Unflashed(g: Grid): set<Cell>
    requires Square(g)
  {
    set c: Cell | c in AllCells && At(g, c) != 10
  }

  /** `inc_pos`: raise one level; a 9 becomes 10 and raises its neighbours in
    * `get_adjacent` order; a 10 is left alone. The owed increment for `(y, x)`
    * is delivered and every increment owed by a cell flashing on the way is
    * delivered too; no flashed cell changes again. */
  method IncPos(g: Grid, y: int, x: int, ghost base: Grid, ghost pend: multiset<Cell>) returns (h: Grid)
    requires Square(g) && InGrid((y, x)) && Square(base)
    requires Balanced(g, base, pend + multiset{(y, x)})
    ensures Square(h) && Balanced(h, base, pend)
    ensures Grows(g, h)
    decreases Unflashed(g), 0
  {
    LevelRange(g, base, pend + multiset{(y, x)}, (y, x));
    var v := g[y][x];
    if v <= 8 {
      StepBump(g, base, pend, (y, x), v);
      PutGrows(g, (y, x), v + 1);
      h := Put(g, (y, x), v + 1);
    } else if v == 9 {
      StepFlash(g, base, pend, (y, x));
      PutGrows(g, (y, x), 10);
      h := Put(g, (y, x), 10);
      var h' := IncEach(h, Adjacent(y, x), base, pend, Unflashed(h));
      GrowsTrans(g, h, h');
      h := h';
    } else {
      StepIgnore(g, base, pend, (y, x));
      GrowsRefl(g);
      h := g;
    }
  }

  /** The `for_each` over the neighbours of a flashing cell: deliver one
    * increment to each, in order. */
  method IncEach(g: Grid, adj: seq<Cell>, ghost base: Grid, ghost pend: multiset<Cell>, ghost top: set<Cell>)
    returns (h: Grid)
    requires Square(g) && Square(base)
    requires forall k :: 0 <= k < |adj| ==> InGrid(adj[k])
    requires Balanced(g, base, pend + multiset(adj))
    requires Unflashed(g) <= top
    ensures Square(h) && Balanced(h, base, pend)
    ensures Grows(g, h)
    decreases top, 2
  {
    h := g;
    PendSplit(pend, adj, 0);
    GrowsRefl(g);
    for k := 0 to |adj|
      invariant Square(h) && Balanced(h, base, pend + multiset(adj[k..]))
      invariant Grows(g, h)
    {
      h := IncNext(g, h, adj, k, base, pend, top);
    }
    PendSplit(pend, adj, |adj|);
  }

  /** One pass of that `for_each`: the increment owed to `adj[k]` is
    * delivered, and what was flashed before stays flashed. */
  method IncNext(g: Grid, h: Grid, adj: seq<Cell>, k: nat, ghost base: Grid, ghost pend: multiset<Cell>, ghost top: set<Cell>)
    returns (h': Grid)
    requires Square(g) && Square(h) && Square(base)
    requires k < |adj| && InGrid(adj[k])
    requires Balanced(h, base, pend + multiset(adj[k..]))
    requires Grows(g, h) && Unflashed(g) <= top
    ensures Square(h') && Balanced(h', base, pend + multiset(adj[k + 1..]))
    ensures Grows(g, h')
    decreases top, 1
  {
    PendSplit(pend, adj, k);
    h' := IncPos(h, adj[k].0, adj[k].1, base, pend + multiset(adj[k + 1..]));
    GrowsTrans(g, h, h');
  }

  lemma PendSplit(pend: multiset<Cell>, adj: seq<Cell>, k: nat)
    requires k <= |adj|
    ensures k < |adj| ==> pend + multiset(adj[k..]) == pend + multiset(adj[k + 1..]) + multiset{adj[k]}
    ensures k == |adj| ==> pend + multiset(adj[k..]) == pend
    ensures k == 0 ==> adj[k..] == adj
  {
    if k < |adj| {
      assert adj[k..] == [adj[k]] + adj[k + 1..];
    } else {
      assert adj[k..] == [];
    }
  }

  /** Cells only ever become 10, so the unflashed cells only shrink. */
  lemma UnflashedShrinks(g: Grid, h: Grid)
    requires Square(g) && Square(h)
    requires forall c :: InGrid(c) && At(g, c) == 10 ==> At(h, c) == 10
    ensures Unflashed(h) <= Unflashed(g)
  {
  }

  // ---- one tick -------------------------------------------------------------

  /** Every level is a settled 0..9. */
  ghost predicate Levels(g: Grid)
    requires Square(g)
  {
    forall c :: InGrid(c) ==> 0 <= At(g, c) <= 9
  }

  /** The flash rule that a tick from `g` to `r` obeys: a cell that ends at 0
    * flashed, and its level plus one plus its flashing neighbours reached 10;
    * any other cell ends exactly at its level plus one plus its flashing
    * neighbours, which stays at most 9. */
  ghost predicate Settled(g: Grid, r: Grid)
    requires Square(g) && Square(r)
  {
    forall c :: InGrid(c) ==>
      var t := At(g, c) + 1 + Around(r, c, 0);
      if At(r, c) == 0 then t >= 10 else At(r, c) == t && t <= 9
  }

  /** The first `n` cells in the order the scan visits them. */
  function Cells(n: nat): (r: seq<Cell>)
    requires n <= Size * Size
    ensures |r| == n
    ensures forall k :: 0 <= k < n ==> r[k] == (k / Size, k % Size)
  {
    if n == 0 then [] else Cells(n - 1) + [((n - 1) / Size, (n - 1) % Size)]
  }

  /** Every cell, once each, row by row. */
  function AllInOrder(): seq<Cell>
  {
    Cells(Size * Size)
  }

  /** The number of cells at 0: the flashes of the tick that produced `r`. */
  function Flashes(r: Grid): (n: nat)
    requires Square(r)
    ensures n <= Size * Size
  {
    CountAt(r, AllInOrder(), 0)
  }

  /** The scan order lists every cell of the grid exactly once. */
  lemma AllInOrderCount(c: Cell)
    ensures multiset(AllInOrder())[c] == if InGrid(c) then 1 else 0
  {
    var all := AllInOrder();
    if InGrid(c) {
      var k := c.0 * Size + c.1;
      ModUnique(k, Size, c.0, c.1);
      assert all[k] == c;
      forall j | 0 <= j < |all| && j != k
        ensures all[j] != c
      {
        ModUnique(j, Size, j / Size, j % Size);
      }
      MultisetOnce(all, k);
    } else {
      assert c !in all;
    }
  }

  lemma MultisetOnce<T>(s: seq<T>, k: nat)
    requires k < |s| && forall j :: 0 <= j < |s| && j != k ==> s[j] != s[k]
    ensures multiset(s)[s[k]] == 1
  {
    assert s == s[..k] + [s[k]] + s[k + 1..];
    assert s[k] !in s[..k];
    assert s[k] !in s[k + 1..];
  }

  lemma CountAtSnoc(g: Grid, cs: seq<Cell>, c: Cell, t: int)
    requires Square(g) && InGrid(c) && forall k :: 0 <= k < |cs| ==> InGrid(cs[k])
    ensures CountAt(g, cs + [c], t) == CountAt(g, cs, t) + if At(g, c) == t then 1 else 0
  {
    if cs != [] {
      assert (cs + [c])[1..] == cs[1..] + [c];
      CountAtSnoc(g, cs[1..], c, t);
    }
  }

  /** At the start of a tick no cell has flashed, so the books balance with
    * nothing handed out. */
  lemma StartBalanced(g: Grid)
    requires Square(g) && Levels(g)
    ensures Balanced(g, g, multiset{})
  {
    forall c | InGrid(c)
      ensures CellOk(g, g, multiset{}, c)
    {
      CountAtNone(g, Adjacent(c.0, c.1), 10);
    }
  }

  /** The scan hands the next cell its increment: `base` gains one there and
    * that increment is owed. */
  lemma BaseBump(h: Grid, base: Grid, c: Cell)
    requires Square(h) && Square(base) && InGrid(c) && Balanced(h, base, multiset{})
    ensures Balanced(h, Put(base, c, At(base, c) + 1), multiset{} + multiset{c})
  {
    var b := Put(base, c, At(base, c) + 1);
    forall d | InGrid(d)
      ensures CellOk(h, b, multiset{} + multiset{c}, d)
    {
      assert CellOk(h, base, multiset{}, d);
    }
  }

  /** After the cascade with every increment delivered, resetting the 10s to
    * 0 leaves a grid that obeys the flash rule. */
  lemma Finish(g: Grid, base: Grid, h: Grid, r: Grid)
    requires Square(g) && Square(base) && Square(h) && Square(r) && Levels(g)
    requires Balanced(h, base, multiset{})
    requires forall c :: InGrid(c) ==> At(base, c) == At(g, c) + 1
    requires forall c :: InGrid(c) ==> At(r, c) == if At(h, c) == 10 then 0 else At(h, c)
    ensures Settled(g, r) && Levels(r)
    ensures Flashes(r) == CountAt(h, AllInOrder(), 10)
  {
    forall d | InGrid(d)
      ensures At(h, d) == 10 <==> At(r, d) == 0
    {
      assert CellOk(h, base, multiset{}, d);
    }
    forall c | InGrid(c)
      ensures var t := At(g, c) + 1 + Around(r, c, 0);
        if At(r, c) == 0 then t >= 10 else At(r, c) == t && t <= 9
    {
      assert CellOk(h, base, multiset{}, c);
      CountAtSame(h, r, Adjacent(c.0, c.1), 10, 0);
    }
    CountAtSame(h, r, AllInOrder(), 10, 0);
  }

  /** `base` is `g` with one added to each of the first `n` cells in scan
    * order. */
  ghost predicate RaisedBefore(base: Grid, g: Grid, n: int)
    requires Square(base) && Square(g)
  {
    forall c :: InGrid(c) ==> At(base, c) == At(g, c) + if c.0 * Size + c.1 < n then 1 else 0
  }

  lemma RaisedStep(base: Grid, g: Grid, y: int, x: int)
    requires Square(base) && Square(g) && InGrid((y, x)) && RaisedBefore(base, g, y * Size + x)
    ensures RaisedBefore(Put(base, (y, x), At(base, (y, x)) + 1), g, y * Size + x + 1)
  {
  }

  /** The raising scan of `tick`: `inc_pos` on every cell, row by row. With
    * every increment delivered, the books balance against the levels plus
    * one. */
  method RaiseAll(g: Grid) returns (h: Grid, ghost base: Grid)
    requires Square(g) && Levels(g)
    ensures Square(h) && Square(base) && Balanced(h, base, multiset{})
    ensures forall c :: InGrid(c) ==> At(base, c) == At(g, c) + 1
  {
    h := g;
    base := g;
    StartBalanced(g);
    for y := 0 to Size
      invariant Square(h) && Square(base) && Balanced(h, base, multiset{})
      invariant RaisedBefore(base, g, y * Size)
    {
      h, base := RaiseRow(g, h, base, y);
    }
  }

  /** One row of the raising scan: `inc_pos` on each of its cells. */
  method RaiseRow(ghost g: Grid, h: Grid, ghost base: Grid, y: int) returns (h': Grid, ghost base': Grid)
    requires 0 <= y < Size && Square(g) && Square(h) && Square(base) && Balanced(h, base, multiset{})
    requires RaisedBefore(base, g, y * Size)
    ensures Square(h') && Square(base') && Balanced(h', base', multiset{})
    ensures RaisedBefore(base', g, y * Size + Size)
  {
    h', base' := h, base;
    ghost var start := y * Size;
    for x := 0 to Size
      invariant Square(h') && Square(base') && Balanced(h', base', multiset{})
      invariant RaisedBefore(base', g, start + x)
    {
      h', base' := RaiseOne(g, h', base', y, x, start + x);
    }
  }

  /** One cell of the raising scan, cell number `n` in scan order. */
  method RaiseOne(ghost g: Grid, h: Grid, ghost base: Grid, y: int, x: int, ghost n: int)
      returns (h': Grid, ghost base': Grid)
    requires Square(g) && Square(h) && Square(base) && Balanced(h, base, multiset{})
    requires InGrid((y, x)) && n == y * Size + x && RaisedBefore(base, g, n)
    ensures Square(h') && Square(base') && Balanced(h', base', multiset{})
    ensures RaisedBefore(base', g, n + 1)
  {
    BaseBump(h, base, (y, x));
    RaisedStep(base, g, y, x);
    base' := Put(base, (y, x), At(base, (y, x)) + 1);
    h' := IncPos(h, y, x, base', multiset{});
  }

  /** `h` is `full` with the 10s among the first `n` cells in scan order
    * reset to 0. */
  ghost predicate ResetBefore(h: Grid, full: Grid, n: int)
    requires Square(h) && Square(full)
  {
    forall c :: InGrid(c) ==> At(h, c) == if c.0 * Size + c.1 < n && At(full, c) == 10 then 0 else At(full, c)
  }

  lemma ResetStep(h: Grid, full: Grid, y: int, x: int)
    requires Square(h) && Square(full) && InGrid((y, x)) && ResetBefore(h, full, y * Size + x)
    ensures At(h, (y, x)) == At(full, (y, x))
    ensures At(h, (y, x)) == 10 ==> ResetBefore(Put(h, (y, x), 0), full, y * Size + x + 1)
    ensures At(h, (y, x)) != 10 ==> ResetBefore(h, full, y * Size + x + 1)
  {
  }

  /** One cell of the counting scan keeps both invariants. */
  lemma ResetCell(h: Grid, full: Grid, y: int, x: int, ret: nat)
    requires Square(h) && Square(full) && InGrid((y, x)) && ResetBefore(h, full, y * Size + x)
    requires ret == CountAt(full, Cells(y * Size + x), 10)
    ensures At(h, (y, x)) == 10 ==>
      ResetBefore(Put(h, (y, x), 0), full, y * Size + x + 1) && ret + 1 == CountAt(full, Cells(y * Size + x + 1), 10)
    ensures At(h, (y, x)) != 10 ==>
      ResetBefore(h, full, y * Size + x + 1) && ret == CountAt(full, Cells(y * Size + x + 1), 10)
  {
    CellsStep(full, y, x, 10);
    ResetStep(h, full, y, x);
  }

  lemma CellsStep(g: Grid, y: int, x: int, t: int)
    requires Square(g) && InGrid((y, x))
    ensures CountAt(g, Cells(y * Size + x + 1), t) ==
      CountAt(g, Cells(y * Size + x), t) + if At(g, (y, x)) == t then 1 else 0
  {
    CellIndex(y, x);
    assert Cells(y * Size + x + 1) == Cells(y * Size + x) + [(y, x)];
    CountAtSnoc(g, Cells(y * Size + x), (y, x), t);
  }

  /** Cell `(y, x)` is number `y * Size + x` in row-major order. */
  lemma CellIndex(y: int, x: int)
    requires InGrid((y, x))
    ensures y * Size + x < Size * Size
    ensures (y * Size + x) / Size == y && (y * Size + x) % Size == x
  {
  }

  /** The counting scan of `tick`: each 10 becomes 0 and is counted. */
  method ResetFlashed(full: Grid) returns (h: Grid, ret: nat)
    requires Square(full)
    ensures Square(h)
    ensures forall c :: InGrid(c) ==> At(h, c) == if At(full, c) == 10 then 0 else At(full, c)
    ensures ret == CountAt(full, AllInOrder(), 10)
  {
    h := full;
    ret := 0;
    for y := 0 to Size
      invariant Square(h) && ResetBefore(h, full, y * Size)
      invariant ret == CountAt(full, Cells(y * Size), 10)
    {
      h, ret := ResetRow(h, full, y, ret);
    }
    ResetDone(h, full);
  }

  /** One row of the counting scan. */
  method ResetRow(h0: Grid, full: Grid, y: int, ret0: nat) returns (h: Grid, ret: nat)
    requires Square(h0) && Square(full) && 0 <= y < Size && ResetBefore(h0, full, y * Size)
    requires ret0 == CountAt(full, Cells(y * Size), 10)
    ensures Square(h) && ResetBefore(h, full, (y + 1) * Size)
    ensures ret == CountAt(full, Cells((y + 1) * Size), 10)
  {
    h, ret := h0, ret0;
    ghost var start := y * Size;
    for x := 0 to Size
      invariant Square(h) && ResetBefore(h, full, start + x)
      invariant ret == CountAt(full, Cells(start + x), 10)
    {
      h, ret := ResetOne(h, full, y, x, start + x, ret);
    }
    RowEnd(y);
  }

  lemma RowEnd(y: int)
    ensures y * Size + Size == (y + 1) * Size
  {
  }

  /** One cell of the counting scan, cell number `n` in scan order: a 10
    * becomes 0 and is counted. */
  method ResetOne(h0: Grid, full: Grid, y: int, x: int, ghost n: int, ret0: nat) returns (h: Grid, ret: nat)
    requires Square(h0) && Square(full) && InGrid((y, x)) && n == y * Size + x
    requires ResetBefore(h0, full, n) && ret0 == CountAt(full, Cells(n), 10)
    ensures Square(h) && ResetBefore(h, full, n + 1)
    ensures ret == CountAt(full, Cells(n + 1), 10)
  {
    h, ret := h0, ret0;
    ResetCell(h, full, y, x, ret);
    if h[y][x] == 10 {
      ret := ret + 1;
      h := Put(h, (y, x), 0);
    }
  }

  lemma ResetDone(h: Grid, full: Grid)
    requires Square(h) && Square(full) && ResetBefore(h, full, Size * Size)
    ensures forall c :: InGrid(c) ==> At(h, c) == if At(full, c) == 10 then 0 else At(full, c)
  {
  }

  /** `tick`: every cell is raised once in scan order, cascading flashes as
    * they happen; then every flashed cell is reset to 0 and counted. */
  method Tick(g: Grid) returns (r: Grid, ret: nat)
    requires Square(g) && Levels(g)
    ensures Square(r) && Levels(r) && Settled(g, r)
    ensures ret == Flashes(r)
  {
    var full;
    ghost var base;
    full, base := RaiseAll(g);
    r, ret := ResetFlashed(full);
    Finish(g, base, full, r);
  }

  // ---- the two parts --------------------------------------------------------

  /** `trace` is a run of ticks: every grid settled, each the tick of the one
    * before. */
  ghost predicate Run(trace: seq<Grid>)
  {
    forall i :: 0 <= i < |trace| ==>
      Square(trace[i]) && Levels(trace[i]) && (i + 1 < |trace| ==> Square(trace[i + 1]) && Settled(trace[i], trace[i + 1]))
  }

  /** The flashes of every tick of a run. */
  function TotalFlashes(trace: seq<Grid>): (n: nat)
    requires forall i :: 0 <= i < |trace| ==> Square(trace[i])
  {
    if |trace| <= 1 then 0 else TotalFlashes(trace[..|trace| - 1]) + Flashes(trace[|trace| - 1])
  }

  /** No tick flashes more than the hundred cells. */
  lemma {:induction false} TotalFlashesBound(trace: seq<Grid>)
    requires forall i :: 0 <= i < |trace| ==> Square(trace[i])
    ensures TotalFlashes(trace) <= Size * Size * (|trace| - 1) || trace == []
  {
    if |trace| > 1 {
      TotalFlashesBound(trace[..|trace| - 1]);
    }
  }

  /** A tick flashes all hundred cells exactly when it leaves every level at
    * 0: the grid is in step. */
  lemma FlashesAll(r: Grid)
    requires Square(r)
    ensures Flashes(r) == Size * Size <==> forall c :: InGrid(c) ==> At(r, c) == 0
  {
    CountAtFull(r, AllInOrder(), 0);
    forall c | InGrid(c)
      ensures c in AllInOrder()
    {
      AllInOrderCount(c);
    }
  }

  lemma {:induction false} CountAtFull(g: Grid, cs: seq<Cell>, t: int)
    requires Square(g) && forall k :: 0 <= k < |cs| ==> InGrid(cs[k])
    ensures CountAt(g, cs, t) == |cs| <==> forall k :: 0 <= k < |cs| ==> At(g, cs[k]) == t
  {
    if cs != [] {
      CountAtFull(g, cs[1..], t);
      assert forall k :: 1 <= k < |cs| ==> cs[k] == cs[1..][k - 1];
    }
  }

  /** Part 1 of `main`: the flashes of the first hundred ticks. */
  method Part1(g: Grid) returns (h: Grid, res: nat, ghost trace: seq<Grid>)
    requires Square(g) && Levels(g)
    ensures |trace| == 101 && trace[0] == g && trace[100] == h && Run(trace)
    ensures res == TotalFlashes(trace)
  {
    h := g;
    res := 0;
    trace := [g];
    for i := 0 to 100
      invariant |trace| == i + 1 && trace[0] == g && trace[i] == h && Run(trace)
      invariant res == TotalFlashes(trace)
    {
      var next, n := Tick(h);
      RunSnoc(trace, next);
      TotalFlashesSnoc(trace, next);
      trace := trace + [next];
      res := res + n;
      h := next;
    }
  }

  lemma RunSnoc(trace: seq<Grid>, next: Grid)
    requires Run(trace) && trace != [] && Square(trace[|trace| - 1]) && Square(next)
    requires Levels(next) && Settled(trace[|trace| - 1], next)
    ensures Run(trace + [next])
  {
  }

  lemma TotalFlashesSnoc(trace: seq<Grid>, next: Grid)
    requires trace != [] && Square(next) && forall i :: 0 <= i < |trace| ==> Square(trace[i])
    ensures TotalFlashes(trace + [next]) == TotalFlashes(trace) + Flashes(next)
  {
    assert (trace + [next])[..|trace|] == trace;
  }

  lemma NotInStepSnoc(trace: seq<Grid>, next: Grid)
    requires Square(next) && forall i :: 0 <= i < |trace| ==> Square(trace[i])
    requires forall i :: 1 <= i < |trace| ==> Flashes(trace[i]) != Size * Size
    ensures Flashes(next) != Size * Size ==> forall i :: 1 <= i < |trace| + 1 ==> Flashes((trace + [next])[i]) != Size * Size
  {
  }

  /** Part 2 of `main`, from the grid after the hundredth tick: keep ticking,
    * counting from tick 101, until a tick flashes every cell. `fuel` bounds
    * the number of ticks, which the source does not bound. */
  /** One round of `p2`'s loop: a tick of the last grid of the run, which
    * extends the run; unless all cells flashed, no tick of the run so far
    * has all cells flash. */
  method TickOn(ghost trace: seq<Grid>, h: Grid) returns (next: Grid, c: nat, ghost trace': seq<Grid>)
    requires trace != [] && trace[|trace| - 1] == h && Run(trace)
    requires forall i :: 1 <= i < |trace| ==> Flashes(trace[i]) != Size * Size
    ensures trace' == trace + [next] && Run(trace') && Square(next) && c == Flashes(next)
    ensures c != Size * Size ==> forall i :: 1 <= i < |trace'| ==> Flashes(trace'[i]) != Size * Size
  {
    next, c := Tick(h);
    RunSnoc(trace, next);
    NotInStepSnoc(trace, next);
    trace' := trace + [next];
  }

  method Part2(g: Grid, fuel: nat) returns (r: Option<nat>, ghost trace: seq<Grid>)
    requires Square(g) && Levels(g)
    ensures trace != [] && trace[0] == g && Run(trace)
    ensures forall i :: 1 <= i < |trace| - 1 ==> Flashes(trace[i]) != Size * Size
    ensures r.Some? ==> r.value == 99 + |trace| && Flashes(trace[|trace| - 1]) == Size * Size
    ensures r.None? ==> |trace| == fuel + 1 && (fuel == 0 || Flashes(trace[|trace| - 1]) != Size * Size)
  {
    var h := g;
    var n := 101;
    var left := fuel;
    trace := [g];
    r := None;
    while left > 0
      invariant |trace| == fuel - left + 1 && n == 100 + |trace| && trace[0] == g
      invariant trace[|trace| - 1] == h && Run(trace)
      invariant forall i :: 1 <= i < |trace| ==> Flashes(trace[i]) != Size * Size
    {
      var next, c;
      next, c, trace := TickOn(trace, h);
      h := next;
      if c == Size * Size {
        r := Some(n);
        return;
      }
      n := n + 1;
      left := left - 1;
    }
  }
}
