/** Smoke basins (adv-9-rs): a height map of digits, its low points (lower
  * than every orthogonal neighbour) and the basin flooded from each low point
  * uphill, stopping at height 9. */
module Adv9 {
  import opened Common

  /** A `(y, x)` position. */
  type Cell = (nat, nat)

  // ---- reading ------------------------------------------------------------------

  predicate IsDigit(c: char)
  {
    '0' <= c <= '9'
  }

  /** `read_data` for one line: the values of its ASCII digits, everything else dropped. */
  function Digits(line: string): (r: seq<nat>)
    ensures |r| <= |line|
    ensures forall k :: 0 <= k < |r| ==> r[k] < 10
  {
    if line == [] then []
    else (if IsDigit(line[0]) then [line[0] as int - '0' as int] else []) + Digits(line[1..])
  }

  /** A line of digits only is read digit for digit. */
  lemma {:induction false} DigitsOfDigitLine(line: string)
    requires forall k :: 0 <= k < |line| ==> IsDigit(line[k])
    ensures |Digits(line)| == |line|
    ensures forall k :: 0 <= k < |line| ==> Digits(line)[k] == line[k] as int - '0' as int
  {
    if line != [] {
      DigitsOfDigitLine(line[1..]);
    }
  }

  // ---- the grid -----------------------------------------------------------------

  /** The first `ymax` rows exist and hold at least `xmax` values each. */
  predicate Fits(data: seq<seq<nat>>, ymax: nat, xmax: nat)
  {
    ymax <= |data| && forall r :: 0 <= r < ymax ==> xmax <= |data[r]|
  }

  predicate InBounds(c: Cell, ymax: nat, xmax: nat)
  {
    c.0 < ymax && c.1 < xmax
  }

  function Height(data: seq<seq<nat>>, ymax: nat, xmax: nat, c: Cell): nat
    requires Fits(data, ymax, xmax) && InBounds(c, ymax, xmax)
  {
    data[c.0][c.1]
  }

  /** `get_dig_bound`: the height at `(y, x)`, or 255 for a position with a
    * negative coordinate or outside the (possibly ragged) rows. */
  function GetDigBound(data: seq<seq<nat>>, y: int, x: int): (r: nat)
    ensures 0 <= y < |data| && 0 <= x < |data[y]| ==> r == data[y][x]
    ensures !(0 <= y < |data| && 0 <= x < |data[y]|) ==> r == 255
  {
    if y < 0 || x < 0 then 255
    else if y < |data| && x < |data[y]| then data[y][x]
    else 255
  }

  /** One candidate of `get_adjacent`: `checked_add_signed` fails below zero and
    * the bound check drops positions past the edge. */
  function Offset(y: nat, x: nat, dy: int, dx: int, ymax: nat, xmax: nat): seq<Cell>
  {
    if y + dy < 0 || x + dx < 0 then []
    else if y + dy >= ymax || x + dx >= xmax then []
    else [((y + dy) as nat, (x + dx) as nat)]
  }

  /** Orthogonal neighbours. */
  predicate Neighbours(a: Cell, b: Cell)
  {
    (a.0 == b.0 && (a.1 == b.1 + 1 || b.1 == a.1 + 1)) ||
    (a.1 == b.1 && (a.0 == b.0 + 1 || b.0 == a.0 + 1))
  }

  /** `get_adjacent`: right, left, down, up, whichever are inside the grid. */
  function GetAdjacent(y: nat, x: nat, ymax: nat, xmax: nat): (r: seq<Cell>)
    ensures forall k :: 0 <= k < |r| ==> InBounds(r[k], ymax, xmax)
  {
    Offset(y, x, 0, 1, ymax, xmax) + Offset(y, x, 0, -1, ymax, xmax) +
    Offset(y, x, 1, 0, ymax, xmax) + Offset(y, x, -1, 0, ymax, xmax)
  }

  /** `get_adjacent` yields exactly the orthogonal neighbours inside the grid. */
  lemma AdjacentExact(y: nat, x: nat, ymax: nat, xmax: nat)
    ensures forall c :: c in GetAdjacent(y, x, ymax, xmax) <==> InBounds(c, ymax, xmax) && Neighbours(c, (y, x))
  {
  }

  // ---- part 1 -------------------------------------------------------------------

  /** `all(|v| data[v] > h)` over the cells `vs`. */
  predicate AllAbove(data: seq<seq<nat>>, ymax: nat, xmax: nat, vs: seq<Cell>, h: nat)
    requires Fits(data, ymax, xmax) && forall k :: 0 <= k < |vs| ==> InBounds(vs[k], ymax, xmax)
  {
    vs == [] || (Height(data, ymax, xmax, vs[0]) > h && AllAbove(data, ymax, xmax, vs[1..], h))
  }

  lemma {:induction false} AllAboveMeans(data: seq<seq<nat>>, ymax: nat, xmax: nat, vs: seq<Cell>, h: nat)
    requires Fits(data, ymax, xmax) && forall k :: 0 <= k < |vs| ==> InBounds(vs[k], ymax, xmax)
    ensures AllAbove(data, ymax, xmax, vs, h) <==> forall k :: 0 <= k < |vs| ==> Height(data, ymax, xmax, vs[k]) > h
  {
    if vs != [] {
      AllAboveMeans(data, ymax, xmax, vs[1..], h);
      assert forall k :: 1 <= k < |vs| ==> vs[k] == vs[1..][k - 1];
    }
  }

  /** The part-1 test: every neighbour is strictly higher. */
  predicate IsLow(data: seq<seq<nat>>, ymax: nat, xmax: nat, c: Cell)
    requires Fits(data, ymax, xmax) && InBounds(c, ymax, xmax)
  {
    AllAbove(data, ymax, xmax, GetAdjacent(c.0, c.1, ymax, xmax), Height(data, ymax, xmax, c))
  }

  /** A low point is lower than every orthogonal neighbour inside the grid. */
  lemma LowIsLocalMinimum(data: seq<seq<nat>>, ymax: nat, xmax: nat, c: Cell)
    requires Fits(data, ymax, xmax) && InBounds(c, ymax, xmax)
    ensures IsLow(data, ymax, xmax, c) <==>
      forall v :: InBounds(v, ymax, xmax) && Neighbours(v, c) ==> Height(data, ymax, xmax, v) > Height(data, ymax, xmax, c)
  {
    var adj := GetAdjacent(c.0, c.1, ymax, xmax);
    AllAboveMeans(data, ymax, xmax, adj, Height(data, ymax, xmax, c));
    AdjacentExact(c.0, c.1, ymax, xmax);
    assert forall v :: v in adj <==> exists k :: 0 <= k < |adj| && adj[k] == v;
  }

  /** The low points of row `y` left of `x`, left to right. */
  function RowLows(data: seq<seq<nat>>, ymax: nat, xmax: nat, y: nat, x: nat): (r: seq<Cell>)
    requires Fits(data, ymax, xmax) && y < ymax && x <= xmax
    ensures forall k :: 0 <= k < |r| ==> r[k].0 == y && r[k].1 < x
  {
    if x == 0 then []
    else RowLows(data, ymax, xmax, y, x - 1) + (if IsLow(data, ymax, xmax, (y, x - 1)) then [(y, x - 1)] else [])
  }

  /** The low points of the rows above `y`, in row-major order. */
  function Lows(data: seq<seq<nat>>, ymax: nat, xmax: nat, y: nat): (r: seq<Cell>)
    requires Fits(data, ymax, xmax) && y <= ymax
    ensures forall k :: 0 <= k < |r| ==> r[k].0 < y && r[k].1 < xmax
  {
    if y == 0 then [] else Lows(data, ymax, xmax, y - 1) + RowLows(data, ymax, xmax, y - 1, xmax)
  }

  /** A row lists exactly its low points ... */
  lemma RowLowsExact(data: seq<seq<nat>>, ymax: nat, xmax: nat, y: nat, x: nat)
    requires Fits(data, ymax, xmax) && y < ymax && x <= xmax
    ensures forall c: Cell :: c in RowLows(data, ymax, xmax, y, x) <==> c.0 == y && c.1 < x && IsLow(data, ymax, xmax, c)
  {
    forall c: Cell {
      RowLowsMember(data, ymax, xmax, y, x, c);
    }
  }

  lemma {:induction false} RowLowsMember(data: seq<seq<nat>>, ymax: nat, xmax: nat, y: nat, x: nat, c: Cell)
    requires Fits(data, ymax, xmax) && y < ymax && x <= xmax
    ensures c in RowLows(data, ymax, xmax, y, x) <==> c.0 == y && c.1 < x && IsLow(data, ymax, xmax, c)
  {
    if x > 0 {
      RowLowsMember(data, ymax, xmax, y, x - 1, c);
      var r := RowLows(data, ymax, xmax, y, x - 1);
      var e: seq<Cell> := if IsLow(data, ymax, xmax, (y, x - 1)) then [(y, x - 1)] else [];
      assert RowLows(data, ymax, xmax, y, x) == r + e;
      if c == (y, x - 1) {
        assert c !in r;
      } else {
        assert c !in e;
      }
    }
  }

  /** ... left to right. */
  lemma {:induction false} RowLowsOrdered(data: seq<seq<nat>>, ymax: nat, xmax: nat, y: nat, x: nat)
    requires Fits(data, ymax, xmax) && y < ymax && x <= xmax
    ensures forall k, l :: 0 <= k < l < |RowLows(data, ymax, xmax, y, x)| ==>
      RowLows(data, ymax, xmax, y, x)[k].1 < RowLows(data, ymax, xmax, y, x)[l].1
  {
    if x > 0 {
      RowLowsOrdered(data, ymax, xmax, y, x - 1);
      var r := RowLows(data, ymax, xmax, y, x - 1);
      var e: seq<Cell> := if IsLow(data, ymax, xmax, (y, x - 1)) then [(y, x - 1)] else [];
      assert RowLows(data, ymax, xmax, y, x) == r + e;
      assert forall k :: 0 <= k < |r + e| ==> (r + e)[k].1 < x;
      assert forall k :: 0 <= k < |r| ==> (r + e)[k] == r[k];
    }
  }

  /** The grid's list holds exactly its low points, in row-major order. */
  lemma {:induction false} LowsExact(data: seq<seq<nat>>, ymax: nat, xmax: nat, y: nat)
    requires Fits(data, ymax, xmax) && y <= ymax
    ensures forall c: Cell :: c in Lows(data, ymax, xmax, y) <==> c.0 < y && c.1 < xmax && IsLow(data, ymax, xmax, c)
    ensures forall k, l :: 0 <= k < l < |Lows(data, ymax, xmax, y)| ==>
      Before(Lows(data, ymax, xmax, y)[k], Lows(data, ymax, xmax, y)[l])
  {
    if y > 0 {
      LowsExact(data, ymax, xmax, y - 1);
      RowLowsExact(data, ymax, xmax, y - 1, xmax);
      RowLowsOrdered(data, ymax, xmax, y - 1, xmax);
    }
  }

  /** Row-major order. */
  predicate Before(a: Cell, b: Cell)
  {
    a.0 < b.0 || (a.0 == b.0 && a.1 < b.1)
  }

  /** Part 1: the sum of `1 + height` over the given low points. */
  function RiskSum(data: seq<seq<nat>>, ymax: nat, xmax: nat, lows: seq<Cell>): nat
    requires Fits(data, ymax, xmax)
    requires forall k :: 0 <= k < |lows| ==> InBounds(lows[k], ymax, xmax)
  {
    if lows == [] then 0
    else RiskSum(data, ymax, xmax, lows[..|lows| - 1]) + 1 + Height(data, ymax, xmax, lows[|lows| - 1])
  }

  lemma {:induction false} RiskSumAppend(data: seq<seq<nat>>, ymax: nat, xmax: nat, a: seq<Cell>, b: seq<Cell>)
    requires Fits(data, ymax, xmax)
    requires forall k :: 0 <= k < |a| ==> InBounds(a[k], ymax, xmax)
    requires forall k :: 0 <= k < |b| ==> InBounds(b[k], ymax, xmax)
    ensures RiskSum(data, ymax, xmax, a + b) == RiskSum(data, ymax, xmax, a) + RiskSum(data, ymax, xmax, b)
  {
    if b == [] {
      assert a + b == a;
    } else {
      assert (a + b)[..|a + b| - 1] == a + b[..|b| - 1];
      RiskSumAppend(data, ymax, xmax, a, b[..|b| - 1]);
    }
  }

  /** The part-1 loops of `main`: scan the grid row by row, adding the risk of
    * every low point and collecting the low points. */
  method Part1(data: seq<seq<nat>>) returns (res: nat, lows: seq<Cell>)
    requires |data| > 0 && Fits(data, |data|, |data[0]|)
    ensures lows == Lows(data, |data|, |data[0]|, |data|)
    ensures res == RiskSum(data, |data|, |data[0]|, lows)
  {
    var height, width := |data|, |data[0]|;
    res := 0;
    lows := [];
    for y := 0 to height
      invariant lows == Lows(data, height, width, y)
      invariant res == RiskSum(data, height, width, lows)
    {
      res, lows := ScanRow(data, height, width, y, res, lows);
    }
  }

  /** One row of the part-1 scan: the low points of row `y` are appended, left
    * to right, and their risk added. */
  method ScanRow(data: seq<seq<nat>>, height: nat, width: nat, y: nat, res0: nat, lows0: seq<Cell>)
      returns (res: nat, lows: seq<Cell>)
    requires Fits(data, height, width) && y < height
    requires forall k :: 0 <= k < |lows0| ==> InBounds(lows0[k], height, width)
    requires res0 == RiskSum(data, height, width, lows0)
    ensures lows == lows0 + RowLows(data, height, width, y, width)
    ensures res == RiskSum(data, height, width, lows)
  {
    res, lows := res0, lows0;
    for x := 0 to width
      invariant lows == lows0 + RowLows(data, height, width, y, x)
      invariant res == RiskSum(data, height, width, lows)
    {
      var adjacent := GetAdjacent(y, x, height, width);
      if AllAbove(data, height, width, adjacent, data[y][x]) {
        res := res + 1 + data[y][x];
        RiskSumAppend(data, height, width, lows, [(y, x)]);
        lows := lows + [(y, x)];
      }
      assert RowLows(data, height, width, y, x + 1) ==
        RowLows(data, height, width, y, x) + (if IsLow(data, height, width, (y, x)) then [(y, x)] else []);
    }
  }

  // ---- basins -------------------------------------------------------------------

  /** The flood step of `find_drains_to`: from `p` to a neighbour that is not
    * lower and not 9. */
  predicate Step(data: seq<seq<nat>>, ymax: nat, xmax: nat, p: Cell, c: Cell)
    requires Fits(data, ymax, xmax) && InBounds(p, ymax, xmax)
  {
    InBounds(c, ymax, xmax) && Neighbours(c, p) && Uphill(data, ymax, xmax, p, c)
  }

  /** The filter of `find_drains_to`: not lower than `p`, and not 9. */
  predicate Uphill(data: seq<seq<nat>>, ymax: nat, xmax: nat, p: Cell, c: Cell)
    requires Fits(data, ymax, xmax) && InBounds(p, ymax, xmax) && InBounds(c, ymax, xmax)
  {
    Height(data, ymax, xmax, c) >= Height(data, ymax, xmax, p) && Height(data, ymax, xmax, c) != 9
  }

  /** The steps out of `p`, in `get_adjacent` order (the `filter`). */
  function Drains(data: seq<seq<nat>>, ymax: nat, xmax: nat, p: Cell): (r: seq<Cell>)
    requires Fits(data, ymax, xmax) && InBounds(p, ymax, xmax)
    ensures forall c :: c in r <==> Step(data, ymax, xmax, p, c)
    ensures forall k :: 0 <= k < |r| ==> InBounds(r[k], ymax, xmax)
  {
    AdjacentExact(p.0, p.1, ymax, xmax);
    Keep(data, ymax, xmax, p, GetAdjacent(p.0, p.1, ymax, xmax))
  }

  function Keep(data: seq<seq<nat>>, ymax: nat, xmax: nat, p: Cell, cs: seq<Cell>): (r: seq<Cell>)
    requires Fits(data, ymax, xmax) && InBounds(p, ymax, xmax)
    requires forall c :: c in cs ==> InBounds(c, ymax, xmax)
    ensures forall c :: c in r <==> c in cs && Uphill(data, ymax, xmax, p, c)
    ensures forall k :: 0 <= k < |r| ==> InBounds(r[k], ymax, xmax)
  {
    if cs == [] then []
    else
      var c := cs[0];
      (if Uphill(data, ymax, xmax, p, c) then [c] else [])
      + Keep(data, ymax, xmax, p, cs[1..])
  }

  /** A set of cells the flood cannot leave. */
  ghost predicate Closed(data: seq<seq<nat>>, ymax: nat, xmax: nat, s: set<Cell>)
    requires Fits(data, ymax, xmax)
  {
    forall p, c :: p in s && InBounds(p, ymax, xmax) && Step(data, ymax, xmax, p, c) ==> c in s
  }

  /** The basin of `start`: the smallest set holding `start` that the flood
    * cannot leave. */
  ghost predicate IsBasin(data: seq<seq<nat>>, ymax: nat, xmax: nat, start: Cell, b: set<Cell>)
    requires Fits(data, ymax, xmax)
  {
    start in b && (forall c :: c in b ==> InBounds(c, ymax, xmax)) && Closed(data, ymax, xmax, b) &&
    forall s :: start in s && Closed(data, ymax, xmax, s) ==> b <= s
  }

  /** There is one basin per start. */
  lemma BasinUnique(data: seq<seq<nat>>, ymax: nat, xmax: nat, start: Cell, a: set<Cell>, b: set<Cell>)
    requires Fits(data, ymax, xmax)
    requires IsBasin(data, ymax, xmax, start, a) && IsBasin(data, ymax, xmax, start, b)
    ensures a == b
  {
  }

  /** Apart from its start, a basin holds no 9. */
  lemma BasinHasNoNine(data: seq<seq<nat>>, ymax: nat, xmax: nat, start: Cell, b: set<Cell>)
    requires Fits(data, ymax, xmax) && InBounds(start, ymax, xmax)
    requires IsBasin(data, ymax, xmax, start, b)
    ensures forall c :: c in b && c != start ==> Height(data, ymax, xmax, c) != 9
  {
    var s := set y: nat, x: nat | y < ymax && x < xmax && ((y, x) == start || data[y][x] != 9) :: (y, x);
    assert Closed(data, ymax, xmax, s);
  }

  function AllCells(ymax: nat, xmax: nat): set<Cell>
  {
    set y: nat, x: nat | y < ymax && x < xmax :: (y, x)
  }

  /** Visited cells, each reached from an earlier one by a flood step. */
  ghost predicate Discovered(data: seq<seq<nat>>, ymax: nat, xmax: nat, start: Cell, order: seq<Cell>, parent: seq<nat>)
    requires Fits(data, ymax, xmax)
  {
    |parent| == |order| && (|order| > 0 ==> order[0] == start) &&
    (forall i :: 0 <= i < |order| ==> InBounds(order[i], ymax, xmax)) &&
    forall i :: 0 < i < |order| ==> parent[i] < i && Step(data, ymax, xmax, order[parent[i]], order[i])
  }

  /** Everything discovered lies in every closed set holding the start. */
  lemma {:induction false} DiscoveredInClosed(data: seq<seq<nat>>, ymax: nat, xmax: nat, start: Cell,
                                             order: seq<Cell>, parent: seq<nat>, s: set<Cell>, i: nat)
    requires Fits(data, ymax, xmax) && Discovered(data, ymax, xmax, start, order, parent)
    requires start in s && Closed(data, ymax, xmax, s)
    requires i < |order|
    ensures order[i] in s
    decreases i
  {
    if i > 0 {
      DiscoveredInClosed(data, ymax, xmax, start, order, parent, s, parent[i]);
    }
  }

  /** Each queued cell is a flood step from the visited cell that queued it. */
  ghost predicate Linked(data: seq<seq<nat>>, ymax: nat, xmax: nat, order: seq<Cell>, queue: seq<Cell>, from: seq<nat>)
    requires Fits(data, ymax, xmax)
  {
    |from| == |queue| &&
    (order != [] ==> forall k :: 0 <= k < |queue| ==>
      from[k] < |order| && InBounds(order[from[k]], ymax, xmax) && Step(data, ymax, xmax, order[from[k]], queue[k]))
  }

  /** Visiting `coord` keeps the discovery record. */
  lemma DiscoveredSnoc(data: seq<seq<nat>>, ymax: nat, xmax: nat, start: Cell, order: seq<Cell>, parent: seq<nat>,
                       coord: Cell, p: nat)
    requires Fits(data, ymax, xmax) && Discovered(data, ymax, xmax, start, order, parent)
    requires InBounds(coord, ymax, xmax)
    requires order == [] ==> coord == start && p == 0
    requires order != [] ==> p < |order| && Step(data, ymax, xmax, order[p], coord)
    ensures Discovered(data, ymax, xmax, start, order + [coord], parent + [p])
  {
    var o, q := order + [coord], parent + [p];
    forall i | 0 < i < |o|
      ensures q[i] < i && Step(data, ymax, xmax, o[q[i]], o[i])
    {
      if i < |order| {
        assert o[q[i]] == order[parent[i]];
      }
    }
  }

  /** Visiting `coord` and queueing its steps keeps every queued cell linked. */
  lemma LinkedSnoc(data: seq<seq<nat>>, ymax: nat, xmax: nat, order: seq<Cell>, queue: seq<Cell>, from: seq<nat>,
                   next: seq<Cell>)
    requires Fits(data, ymax, xmax) && queue != [] && Linked(data, ymax, xmax, order, queue, from)
    requires InBounds(queue[0], ymax, xmax) && (order == [] ==> |queue| == 1)
    requires forall c :: c in next ==> Step(data, ymax, xmax, queue[0], c)
    ensures Linked(data, ymax, xmax, order + [queue[0]], queue[1..] + next,
                   from[1..] + seq(|next|, _ => |order|))
  {
    var o, q, f := order + [queue[0]], queue[1..] + next, from[1..] + seq(|next|, _ => |order|);
    forall k | 0 <= k < |q|
      ensures f[k] < |o| && InBounds(o[f[k]], ymax, xmax) && Step(data, ymax, xmax, o[f[k]], q[k])
    {
      if k < |queue| - 1 {
        assert q[k] == queue[k + 1] && f[k] == from[k + 1];
        assert o[f[k]] == order[from[k + 1]];
      } else {
        assert q[k] == next[k - |queue| + 1] && f[k] == |order|;
      }
    }
  }

  /** Visiting `coord` and queueing its steps keeps the frontier closed. */
  lemma FrontierSnoc(data: seq<seq<nat>>, ymax: nat, xmax: nat, ret: set<Cell>, queue: seq<Cell>, next: seq<Cell>)
    requires Fits(data, ymax, xmax) && queue != [] && InBounds(queue[0], ymax, xmax)
    requires forall p, c :: p in ret && InBounds(p, ymax, xmax) && Step(data, ymax, xmax, p, c) ==> c in ret || c in queue
    requires forall c :: c in next <==> Step(data, ymax, xmax, queue[0], c)
    ensures forall p, c :: p in ret + {queue[0]} && InBounds(p, ymax, xmax) && Step(data, ymax, xmax, p, c) ==>
      c in ret + {queue[0]} || c in queue[1..] + next
  {
    forall p, c | p in ret + {queue[0]} && InBounds(p, ymax, xmax) && Step(data, ymax, xmax, p, c)
      ensures c in ret + {queue[0]} || c in queue[1..] + next
    {
      if p != queue[0] && c !in ret && c != queue[0] {
        assert c in queue;
        var k :| 0 <= k < |queue| && queue[k] == c;
        assert queue[1..][k - 1] == c;
      }
    }
  }

  /** `find_drains_to`: breadth-first flood from `(y, x)` with a queue and a
    * visited set; a cell's steps are queued when it is first visited. */
  method FindDrainsTo(data: seq<seq<nat>>, y: nat, x: nat, ymax: nat, xmax: nat) returns (ret: set<Cell>)
    requires Fits(data, ymax, xmax) && y < ymax && x < xmax
    ensures IsBasin(data, ymax, xmax, (y, x), ret)
  {
    var start := (y, x);
    ret := {};
    var queue := [start];
    ghost var order: seq<Cell> := [];
    ghost var parent: seq<nat> := [];
    ghost var from: seq<nat> := [0];
    while queue != []
      invariant forall k :: 0 <= k < |queue| ==> InBounds(queue[k], ymax, xmax)
      invariant Discovered(data, ymax, xmax, start, order, parent)
      invariant forall c :: c in ret <==> c in order
      invariant order == [] ==> queue == [start]
      invariant Linked(data, ymax, xmax, order, queue, from)
      invariant forall p, c :: p in ret && InBounds(p, ymax, xmax) && Step(data, ymax, xmax, p, c) ==> c in ret || c in queue
      decreases AllCells(ymax, xmax) - ret, |queue|
    {
      var coord := queue[0];
      if coord !in ret {
        assert coord in AllCells(ymax, xmax);
        var next := Drains(data, ymax, xmax, coord);
        ghost var p := if order == [] then 0 else from[0];
        DiscoveredSnoc(data, ymax, xmax, start, order, parent, coord, p);
        LinkedSnoc(data, ymax, xmax, order, queue, from, next);
        FrontierSnoc(data, ymax, xmax, ret, queue, next);
        from := from[1..] + seq(|next|, _ => |order|);
        order, parent := order + [coord], parent + [p];
        ret := ret + {coord};
        queue := queue[1..] + next;
      } else {
        queue, from := queue[1..], from[1..];
      }
    }
    forall s | start in s && Closed(data, ymax, xmax, s)
      ensures ret <= s
    {
      forall i | 0 <= i < |order|
        ensures order[i] in s
      {
        DiscoveredInClosed(data, ymax, xmax, start, order, parent, s, i);
      }
    }
  }

  // ---- part 2 -------------------------------------------------------------------

  /** How many of `s` are at least `t`. */
  function AtLeast(s: seq<nat>, t: nat): nat
  {
    if s == [] then 0 else AtLeast(s[..|s| - 1], t) + (if s[|s| - 1] >= t then 1 else 0)
  }

  function Sizes(basins: seq<set<Cell>>): (r: seq<nat>)
    ensures |r| == |basins|
  {
    if basins == [] then [] else Sizes(basins[..|basins| - 1]) + [|basins[|basins| - 1]|]
  }

  /** `m1 >= m2 >= m3` are the three largest of `s`, zeros filling in when `s`
    * has fewer than three: above every positive threshold they count as many
    * values as `s` does, up to three. */
  ghost predicate TopThree(s: seq<nat>, m1: nat, m2: nat, m3: nat)
  {
    m1 >= m2 >= m3 && forall t: nat :: t > 0 ==> AtLeast([m1, m2, m3], t) == Min(3, AtLeast(s, t))
  }

  /** Offering `n` to the running maxima, largest first. */
  function Push(m: (nat, nat, nat), n: nat): (nat, nat, nat)
  {
    if n > m.0 then (n, m.0, m.1)
    else if n > m.1 then (m.0, n, m.1)
    else if n > m.2 then (m.0, m.1, n)
    else m
  }

  lemma SizesSnoc(basins: seq<set<Cell>>, b: set<Cell>)
    ensures Sizes(basins + [b]) == Sizes(basins) + [|b|]
  {
    assert (basins + [b])[..|basins|] == basins;
  }

  lemma AtLeastSnoc(s: seq<nat>, n: nat, t: nat)
    ensures AtLeast(s + [n], t) == AtLeast(s, t) + (if n >= t then 1 else 0)
  {
    assert (s + [n])[..|s|] == s;
  }

  lemma AtLeastTriple(a: nat, b: nat, c: nat, t: nat)
    ensures AtLeast([a, b, c], t) == (if a >= t then 1 else 0) + (if b >= t then 1 else 0) + (if c >= t then 1 else 0)
  {
    AtLeastSnoc([], a, t);
    assert [] + [a] == [a];
    AtLeastSnoc([a], b, t);
    assert [a] + [b] == [a, b];
    AtLeastSnoc([a, b], c, t);
    assert [a, b] + [c] == [a, b, c];
  }

  /** One step of the loop keeps the three maxima of everything seen. */
  lemma KeepTopThree(s: seq<nat>, n: nat, m1: nat, m2: nat, m3: nat)
    requires TopThree(s, m1, m2, m3)
    ensures TopThree(s + [n], Push((m1, m2, m3), n).0, Push((m1, m2, m3), n).1, Push((m1, m2, m3), n).2)
  {
    var p := Push((m1, m2, m3), n);
    forall t: nat | t > 0
      ensures AtLeast([p.0, p.1, p.2], t) == Min(3, AtLeast(s + [n], t))
    {
      AtLeastTriple(m1, m2, m3, t);
      AtLeastTriple(p.0, p.1, p.2, t);
      AtLeastSnoc(s, n, t);
    }
  }

  /** Nothing seen: all three maxima are the zero filler. */
  lemma TopThreeStart()
    ensures TopThree([], 0, 0, 0)
  {
    forall t: nat | t > 0
      ensures AtLeast([0, 0, 0], t) == Min(3, AtLeast([], t))
    {
      AtLeastTriple(0, 0, 0, t);
    }
  }

  function Min(a: nat, b: nat): nat
  {
    if a <= b then a else b
  }

  /** The comparisons of the part-2 loop: `n` pushes the smaller maxima down
    * when it beats one of them. */
  method Offer(ghost s: seq<nat>, m1: nat, m2: nat, m3: nat, n: nat) returns (r1: nat, r2: nat, r3: nat)
    requires TopThree(s, m1, m2, m3)
    ensures TopThree(s + [n], r1, r2, r3)
  {
    r1, r2, r3 := m1, m2, m3;
    if n > m1 {
      r3 := m2;
      r2 := m1;
      r1 := n;
    } else if n > m2 {
      r3 := m2;
      r2 := n;
    } else if n > m3 {
      r3 := n;
    }
    KeepTopThree(s, n, m1, m2, m3);
  }

  /** The part-2 loop of `main`: flood every low point and keep the three
    * largest basin sizes; the answer is their product. */
  method Part2(data: seq<seq<nat>>, lows: seq<Cell>, height: nat, width: nat)
    returns (m1: nat, m2: nat, m3: nat, answer: nat, ghost basins: seq<set<Cell>>)
    requires Fits(data, height, width)
    requires forall k :: 0 <= k < |lows| ==> InBounds(lows[k], height, width)
    ensures |basins| == |lows|
    ensures forall k :: 0 <= k < |lows| ==> IsBasin(data, height, width, lows[k], basins[k])
    ensures TopThree(Sizes(basins), m1, m2, m3)
    ensures answer == m1 * m2 * m3
  {
    m1, m2, m3 := 0, 0, 0;
    basins := [];
    TopThreeStart();
    for i := 0 to |lows|
      invariant |basins| == i
      invariant forall k :: 0 <= k < i ==> IsBasin(data, height, width, lows[k], basins[k])
      invariant TopThree(Sizes(basins), m1, m2, m3)
    {
      var b := FindDrainsTo(data, lows[i].0, lows[i].1, height, width);
      var n := |b|;
      m1, m2, m3 := Offer(Sizes(basins), m1, m2, m3, n);
      SizesSnoc(basins, b);
      basins := basins + [b];
    }
    answer := m1 * m2 * m3;
  }
}
