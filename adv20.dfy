/** Day 20: an image enhancement algorithm on an infinite grid.
  * The image is a finite set of cells together with a flag saying whether
  * the set holds the lit cells or the dark ones (every cell far from the set
  * having the other colour). Each enhancement step reads the 3×3 area around
  * every cell as a 9-bit number and looks it up in a table. */
module Adv20 {
  import opened Common

  type Point = (int, int)

  /** `ls` holds the cells whose colour differs from the background;
    * `isInvert` says the background is lit. */
  datatype Map = Map(ls: set<Point>, isInvert: bool)

  /** `Map::from_light_list`: the listed cells are the lit ones. */
  function FromLightList(pts: seq<Point>): (m: Map)
    ensures !m.isInvert
    ensures forall p :: p in m.ls <==> p in pts
  {
    Map(set p | p in pts, false)
  }

  /** Whether cell `(y, x)` is lit. */
  predicate ReadPixel(m: Map, y: int, x: int)
  {
    ((y, x) in m.ls) != m.isInvert
  }

  /** The image as a predicate on cells. */
  function Pixels(m: Map): Point -> bool
  {
    (p: Point) => ReadPixel(m, p.0, p.1)
  }

  /** The area code of every cell far from `ls`: all nine bits equal to the
    * background. */
  function GetBlankId(m: Map): (r: nat)
    ensures r == 0 || r == 511
  {
    if m.isInvert then 511 else 0
  }

  /** Cell `k` (0 to 8) of the 3×3 area around `pos`, row by row from the
    * top-left corner. */
  function Neighbour(pos: Point, k: nat): Point
  {
    (pos.0 + k / 3 - 1, pos.1 + k % 3 - 1)
  }

  /** The first `n` cells of the area around `pos` read through `px` as
    * binary digits, the first cell the most significant. */
  function Code(px: Point -> bool, pos: Point, n: nat): (r: nat)
    ensures r < Pow2(n)
  {
    if n == 0 then 0
    else 2 * Code(px, pos, n - 1) + (if px(Neighbour(pos, n - 1)) then 1 else 0)
  }

  /** Bit `n - 1 - k` of the code is cell `k`: the code is the area read
    * most significant bit first. */
  lemma {:induction false} CodeBits(px: Point -> bool, pos: Point, n: nat, k: nat)
    requires k < n
    ensures BitSet(Code(px, pos, n), n - 1 - k) <==> px(Neighbour(pos, k))
  {
    var b := if px(Neighbour(pos, n - 1)) then 1 else 0;
    if k < n - 1 {
      BitsOfShiftIn(Code(px, pos, n - 1), b, n - 2 - k);
      CodeBits(px, pos, n - 1, k);
    } else {
      BitsOfShiftIn(Code(px, pos, n - 1), b, 0);
    }
  }

  /** Two images that agree on the area give the same code. */
  lemma {:induction false} CodeAgree(px: Point -> bool, py: Point -> bool, pos: Point, n: nat)
    requires forall k :: 0 <= k < n ==> px(Neighbour(pos, k)) == py(Neighbour(pos, k))
    ensures Code(px, pos, n) == Code(py, pos, n)
  {
    if n > 0 {
      CodeAgree(px, py, pos, n - 1);
    }
  }

  /** An area of one colour `b` codes as all zeros or all ones. */
  lemma {:induction false} CodeUniform(px: Point -> bool, pos: Point, n: nat, b: bool)
    requires forall k :: 0 <= k < n ==> px(Neighbour(pos, k)) == b
    ensures Code(px, pos, n) == if b then Pow2(n) - 1 else 0
  {
    if n > 0 {
      CodeUniform(px, pos, n - 1, b);
    }
  }

  /** `acc <<= 1; acc |= bit` for a one-bit `bit` appends it. */
  lemma ShiftInBit(acc: nat, bit: nat)
    requires bit <= 1
    ensures BitOr(2 * acc, bit) == 2 * acc + bit
  {
    if acc != 0 && bit != 0 {
      assert BitOr(acc, 0) == acc;
    }
  }

  lemma NeighbourAt(pos: Point, y: int, x: int)
    requires -1 <= y <= 1 && -1 <= x <= 1
    ensures Neighbour(pos, 3 * (y + 1) + (x + 1)) == (pos.0 + y, pos.1 + x)
  {
  }

  /** An area code has nine bits, so it is below 512. */
  lemma AreaCodeBound()
    ensures Pow2(9) == 512
  {
    assert Pow2(4) == 16;
  }

  /** Reading one more cell of the area, the one at offset `(y, x)`,
    * shifts its colour into the code. */
  lemma CodeStep(px: Point -> bool, pos: Point, y: int, x: int, acc: nat, bit: nat)
    requires -1 <= y <= 1 && -1 <= x <= 1
    requires acc == Code(px, pos, 3 * (y + 1) + (x + 1))
    requires bit == if px((pos.0 + y, pos.1 + x)) then 1 else 0
    ensures BitOr(2 * acc, bit) == Code(px, pos, 3 * (y + 1) + (x + 1) + 1)
  {
    NeighbourAt(pos, y, x);
    ShiftInBit(acc, bit);
  }

  /** `Map::number_in_area`: the 9-bit code of the 3×3 area around `pos`. */
  method NumberInArea(m: Map, pos: Point) returns (acc: nat)
    ensures acc == Code(Pixels(m), pos, 9) && acc < 512
  {
    acc := 0;
    for y := -1 to 2
      invariant acc == Code(Pixels(m), pos, 3 * (y + 1))
    {
      for x := -1 to 2
        invariant acc == Code(Pixels(m), pos, 3 * (y + 1) + (x + 1))
      {
        var bit := if ReadPixel(m, pos.0 + y, pos.1 + x) then 1 else 0;
        CodeStep(Pixels(m), pos, y, x, acc, bit);
        acc := BitOr(2 * acc, bit);
      }
    }
    AreaCodeBound();
  }

  /** The free function `number_in_area`: the code of the area around `pos`
    * in a plain set of lit cells. */
  method NumberInSet(img: set<Point>, pos: Point) returns (acc: nat)
    ensures acc == Code(Pixels(Map(img, false)), pos, 9) && acc < 512
  {
    acc := 0;
    for y := -1 to 2
      invariant acc == Code(Pixels(Map(img, false)), pos, 3 * (y + 1))
    {
      for x := -1 to 2
        invariant acc == Code(Pixels(Map(img, false)), pos, 3 * (y + 1) + (x + 1))
      {
        var bit := if (pos.0 + y, pos.1 + x) in img then 1 else 0;
        CodeStep(Pixels(Map(img, false)), pos, y, x, acc, bit);
        acc := BitOr(2 * acc, bit);
      }
    }
    AreaCodeBound();
  }

  /** Bit `8 - k` of a cell's area code is the colour of its neighbour `k`. */
  lemma AreaBits(m: Map, pos: Point, k: nat)
    requires k < 9
    ensures BitSet(Code(Pixels(m), pos, 9), 8 - k) <==> ReadPixel(m, Neighbour(pos, k).0, Neighbour(pos, k).1)
  {
    CodeBits(Pixels(m), pos, 9, k);
  }

  /** A cell with no stored cell in its area codes as `get_blank_id`. */
  lemma BlankArea(m: Map, pos: Point)
    requires forall k :: 0 <= k < 9 ==> Neighbour(pos, k) !in m.ls
    ensures Code(Pixels(m), pos, 9) == GetBlankId(m)
  {
    CodeUniform(Pixels(m), pos, 9, m.isInvert);
    AreaCodeBound();
  }

  /** `c` lies in the 3×3 area around `p`. */
  predicate InBlock(p: Point, c: Point)
  {
    -1 <= c.0 - p.0 <= 1 && -1 <= c.1 - p.1 <= 1
  }

  /** Some cell of `s` has `c` in its area. */
  predicate Near(s: set<Point>, c: Point)
  {
    exists p :: p in s && InBlock(p, c)
  }

  /** The cells around `p` are its neighbours 0 to 8. */
  lemma BlockIndex(p: Point, c: Point)
    requires InBlock(p, c)
    ensures 0 <= 3 * (c.0 - p.0 + 1) + (c.1 - p.1 + 1) < 9
    ensures Neighbour(p, 3 * (c.0 - p.0 + 1) + (c.1 - p.1 + 1)) == c
  {
  }

  /** The image after one step: the cells near a stored cell whose looked-up
    * colour differs from the new background, and the new background, which
    * is the looked-up colour of the far cells. */
  function EnhanceSpec(m: Map, f: nat -> bool): Map
  {
    var invert := f(GetBlankId(m));
    Map(set p, k | p in m.ls && 0 <= k < 9 && f(Code(Pixels(m), Neighbour(p, k), 9)) != invert
                 :: Neighbour(p, k),
        invert)
  }

  lemma EnhanceSpecIn(m: Map, f: nat -> bool, c: Point)
    ensures c in EnhanceSpec(m, f).ls
        <==> Near(m.ls, c) && f(Code(Pixels(m), c, 9)) != f(GetBlankId(m))
  {
    if Near(m.ls, c) && f(Code(Pixels(m), c, 9)) != f(GetBlankId(m)) {
      var p :| p in m.ls && InBlock(p, c);
      BlockIndex(p, c);
    }
    if c in EnhanceSpec(m, f).ls {
      var p, k :| p in m.ls && 0 <= k < 9 && c == Neighbour(p, k);
      assert InBlock(p, c);
    }
  }

  /** Every cell of the enhanced image is the table entry of the cell's area
    * code in the old image, far cells included: the finite representation
    * with its background flag is exact. */
  lemma EnhancePixels(m: Map, f: nat -> bool, c: Point)
    ensures ReadPixel(EnhanceSpec(m, f), c.0, c.1) == f(Code(Pixels(m), c, 9))
  {
    EnhanceSpecIn(m, f, c);
    if !Near(m.ls, c) {
      forall k | 0 <= k < 9
        ensures Neighbour(c, k) !in m.ls
      {
        assert InBlock(Neighbour(c, k), c);
      }
      BlankArea(m, c);
    }
  }

  /** One stored cell's part of `enhance`: the cells around `p` whose
    * looked-up colour differs from `invert` are added to `img`. */
  method EnhanceAround(m: Map, f: nat -> bool, invert: bool, p: Point, img: set<Point>)
    returns (img': set<Point>)
    ensures forall c :: c in img' <==> c in img || (InBlock(p, c) && f(Code(Pixels(m), c, 9)) != invert)
  {
    img' := img;
    for y := -1 to 2
      invariant forall c :: c in img' <==>
        (c in img || (InBlock(p, c) && c.0 - p.0 < y && f(Code(Pixels(m), c, 9)) != invert))
    {
      for x := -1 to 2
        invariant forall c :: c in img' <==>
          (c in img || (InBlock(p, c) && (c.0 - p.0 < y || (c.0 - p.0 == y && c.1 - p.1 < x))
                        && f(Code(Pixels(m), c, 9)) != invert))
      {
        var c := (p.0 + y, p.1 + x);
        var code := NumberInArea(m, c);
        if f(code) != invert {
          img' := img' + {c};
        }
      }
    }
  }

  /** `Map::enhance`. */
  method Enhance(m: Map, f: nat -> bool) returns (r: Map)
    ensures r == EnhanceSpec(m, f)
  {
    var invert := f(GetBlankId(m));
    var newImg: set<Point> := {};
    var rest := m.ls;
    ghost var done: set<Point> := {};
    while rest != {}
      invariant rest + done == m.ls
      invariant forall c :: c in newImg <==> Near(done, c) && f(Code(Pixels(m), c, 9)) != invert
      decreases |rest|
    {
      var p :| p in rest;
      newImg := EnhanceAround(m, f, invert, p, newImg);
      rest := rest - {p};
      done := done + {p};
    }
    r := Map(newImg, invert);
    forall c
      ensures c in r.ls <==> c in EnhanceSpec(m, f).ls
    {
      EnhanceSpecIn(m, f, c);
    }
  }

  /** One enhancement step as a function on images. */
  function Step(f: nat -> bool): Map -> Map
  {
    m => EnhanceSpec(m, f)
  }

  /** `Map::enhance_count`: `n` steps. */
  method EnhanceCount(m: Map, f: nat -> bool, n: nat) returns (r: Map)
    ensures r == Iterate(Step(f), m, n)
  {
    r := m;
    for i := 0 to n
      invariant r == Iterate(Step(f), m, i)
    {
      r := Enhance(r, f);
    }
  }

  /** The colour of cell `c` after `n` steps on the infinite grid, computed
    * cell by cell from the initial image: the meaning of the puzzle. */
  function PixelAfter(m: Map, f: nat -> bool, n: nat, c: Point): bool
    decreases n
  {
    if n == 0 then ReadPixel(m, c.0, c.1)
    else f(Code((q: Point) => PixelAfter(m, f, n - 1, q), c, 9))
  }

  /** `enhance_count` computes the infinite-grid image exactly. */
  lemma {:induction false} EnhanceCountPixels(m: Map, f: nat -> bool, n: nat, c: Point)
    ensures ReadPixel(Iterate(Step(f), m, n), c.0, c.1) == PixelAfter(m, f, n, c)
  {
    if n > 0 {
      var prev := Iterate(Step(f), m, n - 1);
      forall k | 0 <= k < 9
        ensures Pixels(prev)(Neighbour(c, k)) == PixelAfter(m, f, n - 1, Neighbour(c, k))
      {
        EnhanceCountPixels(m, f, n - 1, Neighbour(c, k));
      }
      CodeAgree(Pixels(prev), (q: Point) => PixelAfter(m, f, n - 1, q), c, 9);
      EnhancePixels(prev, f, c);
    }
  }

  /** `Map::get_count`: the number of lit cells; `None` is the panic on an
    * image with a lit background. */
  function GetCount(m: Map): (r: Option<nat>)
    ensures r.None? <==> m.isInvert
    ensures r.Some? ==> r.value == |m.ls|
  {
    if m.isInvert then None else Some(|m.ls|)
  }

  /** When `get_count` answers, the stored cells are exactly the lit ones. */
  lemma GetCountLit(m: Map, c: Point)
    requires GetCount(m).Some?
    ensures c in m.ls <==> ReadPixel(m, c.0, c.1)
  {
  }

  /** `into_bool_array`: `#` is lit. */
  function IntoBoolArray(s: string): (r: seq<bool>)
    ensures |r| == |s|
    ensures forall i :: 0 <= i < |s| ==> (r[i] <==> s[i] == '#')
  {
    seq(|s|, i requires 0 <= i < |s| => s[i] == '#')
  }

  /** The `(row, col)` of every `#` in one line. */
  function LitInRow(row: nat, line: string): (r: seq<Point>)
    ensures forall p :: p in r <==> p.0 == row && 0 <= p.1 < |line| && line[p.1] == '#'
  {
    if line == [] then []
    else
      var rest := LitInRow(row, line[..|line| - 1]);
      if line[|line| - 1] == '#' then rest + [(row, |line| - 1)] else rest
  }

  /** The `(row, col)` of every `#` in the picture, row by row. */
  function LitCells(rows: seq<string>): (r: seq<Point>)
    ensures forall p :: p in r <==> 0 <= p.0 < |rows| && 0 <= p.1 < |rows[p.0]| && rows[p.0][p.1] == '#'
  {
    if rows == [] then []
    else LitCells(rows[..|rows| - 1]) + LitInRow(|rows| - 1, rows[|rows| - 1])
  }

  /** `read_data`: the lookup table from the first line, a separating line,
    * then the picture; `None` is a missing line. */
  function ReadData(lines: seq<string>): (r: Option<(Map, seq<bool>)>)
    ensures r.None? <==> |lines| < 2
    ensures r.Some? ==> r.value.1 == IntoBoolArray(lines[0]) && !r.value.0.isInvert
    ensures r.Some? ==> forall y, x :: ReadPixel(r.value.0, y, x)
                          <==> 0 <= y < |lines| - 2 && 0 <= x < |lines[y + 2]| && lines[y + 2][x] == '#'
  {
    if |lines| < 2 then None
    else Some((FromLightList(LitCells(lines[2..])), IntoBoolArray(lines[0])))
  }
}
