/** Day 22: Reactor Reboot. Steps switch every cube of a cuboid on or off;
  * the solution keeps a list of pairwise disjoint cuboids covering exactly
  * the cubes that are on, cutting every cuboid a step touches into the
  * slabs outside it. */
module Adv22 {
  import opened Common
  import opened CString
  import opened RustStr

  /** A closed range `lo..=hi` of coordinates. */
  type Interval = (int, int)

  type Cell = (int, int, int)

  /** `Rect`: a cuboid, one closed range per axis. */
  datatype Rect = Rect(x: Interval, y: Interval, z: Interval)

  predicate InIv(iv: Interval, v: int)
  {
    iv.0 <= v <= iv.1
  }

  /** The cube `p` is part of `r`. */
  predicate InRect(r: Rect, p: Cell)
  {
    InIv(r.x, p.0) && InIv(r.y, p.1) && InIv(r.z, p.2)
  }

  /** Every range is non-empty. */
  predicate ValidRect(r: Rect)
  {
    r.x.0 <= r.x.1 && r.y.0 <= r.y.1 && r.z.0 <= r.z.1
  }

  /** Each range of `r` lies within the matching range of `a`. */
  predicate Inside(r: Rect, a: Rect)
  {
    a.x.0 <= r.x.0 && r.x.1 <= a.x.1 && a.y.0 <= r.y.0 && r.y.1 <= a.y.1
    && a.z.0 <= r.z.0 && r.z.1 <= a.z.1
  }

  /** The number of coordinates in a range. */
  function Len(iv: Interval): int
  {
    iv.1 - iv.0 + 1
  }

  lemma PosProduct(a: int, b: int, c: int)
    requires a >= 1 && b >= 1 && c >= 1
    ensures a * b * c >= 1
  {
    assert a * b >= 1;
  }

  /** `Rect::volume`: the product of the three range lengths. */
  function Volume(r: Rect): (v: nat)
    requires ValidRect(r)
    ensures v >= 1
  {
    PosProduct(Len(r.x), Len(r.y), Len(r.z));
    Len(r.x) * Len(r.y) * Len(r.z)
  }

  function Max(a: int, b: int): int { if a >= b then a else b }

  function Min(a: int, b: int): int { if a <= b then a else b }

  /** `intersect_1d`: the common part of two ranges, `None` when it is
    * empty. */
  function Intersect1d(a: Interval, b: Interval): (r: Option<Interval>)
    ensures r.None? <==> Max(a.0, b.0) > Min(a.1, b.1)
    ensures r.Some? ==> r.value == (Max(a.0, b.0), Min(a.1, b.1))
  {
    var v := (Max(a.0, b.0), Min(a.1, b.1));
    if v.0 > v.1 then None else Some(v)
  }

  /** The common range holds exactly the coordinates in both. */
  lemma Intersect1dCells(a: Interval, b: Interval)
    ensures forall v :: (Intersect1d(a, b).Some? && InIv(Intersect1d(a, b).value, v)) <==> InIv(a, v) && InIv(b, v)
  {
  }

  lemma Intersect1dCommutes(a: Interval, b: Interval)
    ensures Intersect1d(a, b) == Intersect1d(b, a)
  {
  }

  /** `intersect`: the common cuboid, `None` when some axis has no common
    * range. */
  function Intersect(a: Rect, b: Rect): (r: Option<Rect>)
    ensures r.None? <==> Intersect1d(a.x, b.x).None? || Intersect1d(a.y, b.y).None? || Intersect1d(a.z, b.z).None?
    ensures r.Some? ==> ValidRect(r.value) && Inside(r.value, a) && Inside(r.value, b)
  {
    match (Intersect1d(a.x, b.x), Intersect1d(a.y, b.y), Intersect1d(a.z, b.z))
    case (Some(x), Some(y), Some(z)) => Some(Rect(x, y, z))
    case _ => None
  }

  /** The common cuboid holds exactly the cubes in both. */
  lemma IntersectCells(a: Rect, b: Rect)
    ensures forall p :: (Intersect(a, b).Some? && InRect(Intersect(a, b).value, p)) <==> InRect(a, p) && InRect(b, p)
  {
    Intersect1dCells(a.x, b.x);
    Intersect1dCells(a.y, b.y);
    Intersect1dCells(a.z, b.z);
  }

  lemma IntersectCommutes(a: Rect, b: Rect)
    ensures Intersect(a, b) == Intersect(b, a)
  {
  }

  /** No cube is in both. */
  predicate Disjoint(r: Rect, s: Rect)
  {
    Intersect(r, s).None?
  }

  /** Disjointness is exactly having no common cube. */
  lemma DisjointCells(r: Rect, s: Rect)
    ensures Disjoint(r, s) <==> forall p :: !(InRect(r, p) && InRect(s, p))
  {
    IntersectCells(r, s);
    if !Disjoint(r, s) {
      var v := Intersect(r, s).value;
      assert InRect(v, (v.x.0, v.y.0, v.z.0));
    }
  }

  /** A part of a cuboid disjoint from `b` is disjoint from `b`, on either
    * side. */
  lemma DisjointInside(r: Rect, a: Rect, b: Rect)
    requires Inside(r, a) && Disjoint(a, b)
    ensures Disjoint(r, b) && Disjoint(b, r)
  {
    DisjointCells(a, b);
    DisjointCells(r, b);
    IntersectCommutes(r, b);
  }

  // ---------------------------------------------------------------- lists

  predicate AllValid(ls: seq<Rect>)
  {
    forall j :: 0 <= j < |ls| ==> ValidRect(ls[j])
  }

  predicate PairwiseDisjoint(ls: seq<Rect>)
  {
    forall j, k :: 0 <= j < k < |ls| ==> Disjoint(ls[j], ls[k])
  }

  /** Some cuboid of the list holds `p`. */
  predicate Covers(ls: seq<Rect>, p: Cell)
  {
    exists j :: 0 <= j < |ls| && InRect(ls[j], p)
  }

  /** The volumes of the list added up. */
  function SumVol(ls: seq<Rect>): nat
    requires AllValid(ls)
  {
    if ls == [] then 0 else SumVol(ls[..|ls| - 1]) + Volume(ls[|ls| - 1])
  }

  lemma CoversConcat(a: seq<Rect>, b: seq<Rect>, p: Cell)
    ensures Covers(a + b, p) <==> Covers(a, p) || Covers(b, p)
  {
    if Covers(b, p) {
      var j :| 0 <= j < |b| && InRect(b[j], p);
      assert (a + b)[|a| + j] == b[j];
    }
    if Covers(a, p) {
      var j :| 0 <= j < |a| && InRect(a[j], p);
      assert (a + b)[j] == a[j];
    }
    if Covers(a + b, p) {
      var j :| 0 <= j < |a + b| && InRect((a + b)[j], p);
      if j >= |a| {
        assert b[j - |a|] == (a + b)[j];
      }
    }
  }

  lemma {:induction false} SumVolConcat(a: seq<Rect>, b: seq<Rect>)
    requires AllValid(a) && AllValid(b)
    ensures AllValid(a + b) && SumVol(a + b) == SumVol(a) + SumVol(b)
  {
    if b != [] {
      var n := |b| - 1;
      assert (a + b)[..|a + b| - 1] == a + b[..n];
      SumVolConcat(a, b[..n]);
    } else {
      assert a + b == a;
    }
  }

  lemma PairwiseConcat(a: seq<Rect>, b: seq<Rect>)
    requires PairwiseDisjoint(a) && PairwiseDisjoint(b)
    requires forall j, k :: 0 <= j < |a| && 0 <= k < |b| ==> Disjoint(a[j], b[k])
    ensures PairwiseDisjoint(a + b)
  {
    forall j, k | 0 <= j < k < |a + b|
      ensures Disjoint((a + b)[j], (a + b)[k])
    {
      if k < |a| {
      } else if j < |a| {
        assert (a + b)[k] == b[k - |a|];
      } else {
        assert (a + b)[j] == b[j - |a|] && (a + b)[k] == b[k - |a|];
      }
    }
  }

  // ---------------------------------------------------------------- without

  function Axis(r: Rect, k: nat): Interval
    requires k < 3
  {
    if k == 0 then r.x else if k == 1 then r.y else r.z
  }

  /** `r` with the range of axis `k` replaced. */
  function WithAxis(r: Rect, k: nat, iv: Interval): Rect
    requires k < 3
  {
    if k == 0 then r.(x := iv) else if k == 1 then r.(y := iv) else r.(z := iv)
  }

  function Coord(p: Cell, k: nat): int
    requires k < 3
  {
    if k == 0 then p.0 else if k == 1 then p.1 else p.2
  }

  lemma AddMul(a: int, b: int, c: int)
    ensures (a + b) * c == a * c + b * c
  {
  }

  /** The part of `r` before `c` across axis `k`. */
  function Below(r: Rect, k: nat, c: int): Rect
    requires k < 3
  {
    WithAxis(r, k, (Axis(r, k).0, c - 1))
  }

  /** The part of `r` from `c` on across axis `k`. */
  function Above(r: Rect, k: nat, c: int): Rect
    requires k < 3
  {
    WithAxis(r, k, (c, Axis(r, k).1))
  }

  /** Cutting a cuboid across axis `k` just before `c` gives two disjoint
    * parts with all its cubes and its volume between them. */
  lemma Split(r: Rect, k: nat, c: int)
    requires k < 3 && ValidRect(r) && Axis(r, k).0 < c <= Axis(r, k).1
    ensures var lo, hi := Below(r, k, c), Above(r, k, c);
      ValidRect(lo) && ValidRect(hi) && Inside(lo, r) && Inside(hi, r) && Disjoint(lo, hi)
      && (forall p :: InRect(r, p) <==> InRect(lo, p) || InRect(hi, p))
      && (forall p :: InRect(lo, p) ==> Coord(p, k) < c)
      && (forall p :: InRect(hi, p) ==> Coord(p, k) >= c)
      && Axis(lo, k) == (Axis(r, k).0, c - 1) && Axis(hi, k) == (c, Axis(r, k).1)
      && (forall k' :: 0 <= k' < 3 && k' != k ==> Axis(lo, k') == Axis(r, k') == Axis(hi, k'))
      && Volume(r) == Volume(lo) + Volume(hi)
  {
    var lo, hi := Below(r, k, c), Above(r, k, c);
    var a, b := c - Axis(r, k).0, Axis(r, k).1 - c + 1;
    var X, Y, Z := Len(r.x), Len(r.y), Len(r.z);
    if k == 0 {
      AddMul(a, b, Y);
      AddMul(a * Y, b * Y, Z);
    } else if k == 1 {
      assert X * (a + b) == X * a + X * b;
      AddMul(X * a, X * b, Z);
    } else {
      assert (X * Y) * (a + b) == (X * Y) * a + (X * Y) * b;
    }
    DisjointCells(lo, hi);
  }

  /** The state of `without` part way: the slabs cut so far are valid, inside
    * `a`, outside `rem`, disjoint from each other and from the rest `cur`,
    * which still holds the common part `i`; slabs and rest make up `a`, cube
    * for cube and in volume. */
  ghost predicate CutState(a: Rect, rem: Rect, i: Rect, ls: seq<Rect>, cur: Rect)
  {
    Intersect(a, rem) == Some(i) && ValidRect(cur) && Inside(i, cur) && Inside(cur, a)
    && AllValid(ls)
    && (forall j :: 0 <= j < |ls| ==> Inside(ls[j], a) && Disjoint(ls[j], rem) && Disjoint(ls[j], cur))
    && PairwiseDisjoint(ls)
    && (forall p :: InRect(a, p) <==> Covers(ls, p) || InRect(cur, p))
    && SumVol(ls) + Volume(cur) == Volume(a)
  }

  lemma CutStart(a: Rect, rem: Rect, i: Rect)
    requires Intersect(a, rem) == Some(i)
    ensures CutState(a, rem, i, [], a)
  {
  }

  /** Taking the slab `piece` off `cur`, leaving `rest`, keeps the state
    * when the two make up `cur` and the slab misses `i`. */
  /** A slab of `cur` that misses `i` misses `rem` too, and the earlier
    * pieces, being apart from `cur`, are apart from both halves of it. */
  lemma SlabApart(a: Rect, rem: Rect, i: Rect, ls: seq<Rect>, cur: Rect, piece: Rect, rest: Rect)
    requires Intersect(a, rem) == Some(i) && Inside(cur, a)
    requires forall j :: 0 <= j < |ls| ==> Disjoint(ls[j], cur)
    requires Inside(piece, cur) && Inside(rest, cur)
    requires forall p :: !(InRect(piece, p) && InRect(i, p))
    ensures Disjoint(piece, rem)
    ensures forall j :: 0 <= j < |ls| ==> Disjoint(ls[j], piece) && Disjoint(ls[j], rest)
  {
    // the slab's cubes in `rem` would be cubes of `i`
    IntersectCells(a, rem);
    forall p | InRect(piece, p)
      ensures !InRect(rem, p)
    {
      assert InRect(a, p);
    }
    DisjointCells(piece, rem);
    forall j | 0 <= j < |ls|
      ensures Disjoint(ls[j], piece) && Disjoint(ls[j], rest)
    {
      IntersectCommutes(ls[j], cur);
      DisjointInside(piece, cur, ls[j]);
      DisjointInside(rest, cur, ls[j]);
    }
  }

  /** Moving the slab from `cur` to the pieces keeps what they cover
    * together. */
  lemma SlabCovers(a: Rect, ls: seq<Rect>, cur: Rect, piece: Rect, rest: Rect)
    requires forall p :: InRect(a, p) <==> Covers(ls, p) || InRect(cur, p)
    requires forall p :: InRect(cur, p) <==> InRect(piece, p) || InRect(rest, p)
    ensures forall p :: InRect(a, p) <==> Covers(ls + [piece], p) || InRect(rest, p)
  {
    forall p
      ensures InRect(a, p) <==> Covers(ls + [piece], p) || InRect(rest, p)
    {
      CoversConcat(ls, [piece], p);
      if InRect(piece, p) {
        assert [piece][0] == piece;
      }
    }
  }

  /** Taking the slab `piece` off `cur`, leaving `rest`, keeps the state
    * when the two make up `cur` and the slab misses `i`. */
  lemma CutStep(a: Rect, rem: Rect, i: Rect, ls: seq<Rect>, cur: Rect, piece: Rect, rest: Rect)
    requires CutState(a, rem, i, ls, cur)
    requires ValidRect(piece) && ValidRect(rest) && Inside(piece, cur) && Inside(rest, cur) && Inside(i, rest)
    requires Disjoint(piece, rest)
    requires forall p :: InRect(cur, p) <==> InRect(piece, p) || InRect(rest, p)
    requires forall p :: !(InRect(piece, p) && InRect(i, p))
    requires Volume(cur) == Volume(piece) + Volume(rest)
    ensures CutState(a, rem, i, ls + [piece], rest)
  {
    SlabApart(a, rem, i, ls, cur, piece, rest);
    SlabCovers(a, ls, cur, piece, rest);
    IntersectCommutes(piece, rest);
    var ls' := ls + [piece];
    forall j | 0 <= j < |ls'|
      ensures ValidRect(ls'[j]) && Inside(ls'[j], a) && Disjoint(ls'[j], rem) && Disjoint(ls'[j], rest)
    {
      if j == |ls| {
        assert ls'[j] == piece;
      } else {
        assert ls'[j] == ls[j];
      }
    }
    assert ls'[..|ls'| - 1] == ls;
    PairwiseConcat(ls, [piece]);
  }

  lemma AxisCoords(r: Rect, k: nat)
    requires k < 3
    ensures forall p :: InRect(r, p) ==> InIv(Axis(r, k), Coord(p, k))
  {
  }

  /** Cutting off the slab of `cur` below `i` across axis `k`. */
  lemma CutLow(a: Rect, rem: Rect, i: Rect, ls: seq<Rect>, cur: Rect, k: nat)
    requires k < 3 && CutState(a, rem, i, ls, cur) && Axis(cur, k).0 < Axis(i, k).0
    ensures CutState(a, rem, i, ls + [Below(cur, k, Axis(i, k).0)], Above(cur, k, Axis(i, k).0))
    ensures Axis(Above(cur, k, Axis(i, k).0), k) == (Axis(i, k).0, Axis(cur, k).1)
    ensures forall k' :: 0 <= k' < 3 && k' != k ==> Axis(Above(cur, k, Axis(i, k).0), k') == Axis(cur, k')
  {
    var c := Axis(i, k).0;
    Split(cur, k, c);
    AxisCoords(i, k);
    CutStep(a, rem, i, ls, cur, Below(cur, k, c), Above(cur, k, c));
  }

  /** Cutting off the slab of `cur` above `i` across axis `k`. */
  lemma CutHigh(a: Rect, rem: Rect, i: Rect, ls: seq<Rect>, cur: Rect, k: nat)
    requires k < 3 && CutState(a, rem, i, ls, cur) && Axis(cur, k).1 > Axis(i, k).1
    ensures CutState(a, rem, i, ls + [Above(cur, k, Axis(i, k).1 + 1)], Below(cur, k, Axis(i, k).1 + 1))
    ensures Axis(Below(cur, k, Axis(i, k).1 + 1), k) == (Axis(cur, k).0, Axis(i, k).1)
    ensures forall k' :: 0 <= k' < 3 && k' != k ==> Axis(Below(cur, k, Axis(i, k).1 + 1), k') == Axis(cur, k')
  {
    var c := Axis(i, k).1 + 1;
    Split(cur, k, c);
    AxisCoords(i, k);
    IntersectCommutes(Below(cur, k, c), Above(cur, k, c));
    CutStep(a, rem, i, ls, cur, Above(cur, k, c), Below(cur, k, c));
  }

  /** The rest still holds `i` across every axis. */
  lemma CutStateAxis(a: Rect, rem: Rect, i: Rect, ls: seq<Rect>, cur: Rect, k: nat)
    requires k < 3 && CutState(a, rem, i, ls, cur)
    ensures Axis(cur, k).0 <= Axis(i, k).0 <= Axis(i, k).1 <= Axis(cur, k).1
  {
  }

  /** Once the rest is `i` itself, the slabs are `a` without `rem`. */
  lemma CutDone(a: Rect, rem: Rect, i: Rect, ls: seq<Rect>)
    requires CutState(a, rem, i, ls, i)
    ensures forall j :: 0 <= j < |ls| ==> Inside(ls[j], a) && Disjoint(ls[j], rem)
    ensures PairwiseDisjoint(ls)
    ensures forall p :: Covers(ls, p) <==> InRect(a, p) && !InRect(rem, p)
    ensures ValidRect(a) && AllValid(ls) && SumVol(ls) == Volume(a) - Volume(i)
  {
    IntersectCells(a, rem);
    forall p
      ensures Covers(ls, p) <==> InRect(a, p) && !InRect(rem, p)
    {
      if Covers(ls, p) {
        var j :| 0 <= j < |ls| && InRect(ls[j], p);
        DisjointCells(ls[j], rem);
      }
    }
  }

  /** The two cuts of `without` across axis `k`: the slab of `cur` below `i`
    * and then the slab above it, each only when it is not empty. */
  method CutAxis(ghost a: Rect, ghost rem: Rect, i: Rect, ls: seq<Rect>, cur: Rect, k: nat)
    returns (ls': seq<Rect>, cur': Rect)
    requires k < 3 && CutState(a, rem, i, ls, cur)
    ensures CutState(a, rem, i, ls', cur')
    ensures Axis(cur', k) == Axis(i, k)
    ensures forall k' :: 0 <= k' < 3 && k' != k ==> Axis(cur', k') == Axis(cur, k')
    ensures |ls| <= |ls'| <= |ls| + 2
  {
    ls', cur' := ls, cur;
    CutStateAxis(a, rem, i, ls', cur', k);
    if Axis(cur', k).0 < Axis(i, k).0 {
      CutLow(a, rem, i, ls', cur', k);
      ls' := ls' + [Below(cur', k, Axis(i, k).0)];
      cur' := Above(cur', k, Axis(i, k).0);
    }
    CutStateAxis(a, rem, i, ls', cur', k);
    if Axis(cur', k).1 > Axis(i, k).1 {
      CutHigh(a, rem, i, ls', cur', k);
      ls' := ls' + [Above(cur', k, Axis(i, k).1 + 1)];
      cur' := Below(cur', k, Axis(i, k).1 + 1);
    }
  }

  /** `without`: the slabs of `a` outside `rem`, cut first below and above
    * `rem` across `x`, then across `y`, then across `z`. */
  method Without(a: Rect, rem: Rect) returns (ls: seq<Rect>)
    ensures Disjoint(a, rem) ==> ls == [a]
    ensures |ls| <= 6
    ensures forall j :: 0 <= j < |ls| ==> Inside(ls[j], a) && Disjoint(ls[j], rem)
    ensures PairwiseDisjoint(ls)
    ensures forall p :: Covers(ls, p) <==> InRect(a, p) && !InRect(rem, p)
    ensures ValidRect(a) ==> AllValid(ls)
    ensures !Disjoint(a, rem) ==>
      (ValidRect(a) && AllValid(ls) && SumVol(ls) == Volume(a) - Volume(Intersect(a, rem).value))
  {
    var r := Intersect(a, rem);
    if r.None? {
      DisjointCells(a, rem);
      forall p
        ensures Covers([a], p) <==> InRect(a, p)
      {
        CoversConcat([], [a], p);
        assert [a][0] == a;
      }
      return [a];
    }
    var i := r.value;
    CutStart(a, rem, i);
    var cur;
    ls, cur := CutAxis(a, rem, i, [], a, 0);
    ls, cur := CutAxis(a, rem, i, ls, cur, 1);
    ls, cur := CutAxis(a, rem, i, ls, cur, 2);
    assert cur == Rect(Axis(cur, 0), Axis(cur, 1), Axis(cur, 2));
    CutDone(a, rem, i, ls);
  }

  /** The volumes of the parts of the list's cuboids inside `rem`. */
  function OverlapVol(ls: seq<Rect>, rem: Rect): nat
  {
    if ls == [] then 0
    else
      OverlapVol(ls[..|ls| - 1], rem)
      + match Intersect(ls[|ls| - 1], rem) { case None => 0 case Some(i) => Volume(i) }
  }

  /** One step of `remove_intersecting`: the slabs of the next cuboid are
    * appended. */
  lemma RemoveStep(ls: seq<Rect>, rem: Rect, k: nat, acc: seq<Rect>, pieces: seq<Rect>)
    requires k < |ls|
    requires forall j :: 0 <= j < |acc| ==> Disjoint(acc[j], rem)
    requires forall p :: Covers(acc, p) <==> Covers(ls[..k], p) && !InRect(rem, p)
    requires PairwiseDisjoint(ls) ==>
      (PairwiseDisjoint(acc) && forall j, m :: 0 <= j < |acc| && k <= m < |ls| ==> Disjoint(acc[j], ls[m]))
    requires forall j :: 0 <= j < |pieces| ==> Inside(pieces[j], ls[k]) && Disjoint(pieces[j], rem)
    requires PairwiseDisjoint(pieces)
    requires forall p :: Covers(pieces, p) <==> InRect(ls[k], p) && !InRect(rem, p)
    ensures forall j :: 0 <= j < |acc + pieces| ==> Disjoint((acc + pieces)[j], rem)
    ensures forall p :: Covers(acc + pieces, p) <==> Covers(ls[..k + 1], p) && !InRect(rem, p)
    ensures PairwiseDisjoint(ls) ==>
      (PairwiseDisjoint(acc + pieces)
       && forall j, m :: 0 <= j < |acc + pieces| && k + 1 <= m < |ls| ==> Disjoint((acc + pieces)[j], ls[m]))
  {
    var acc' := acc + pieces;
    forall j | 0 <= j < |acc'|
      ensures Disjoint(acc'[j], rem)
    {
      if j >= |acc| {
        assert acc'[j] == pieces[j - |acc|];
      }
    }
    assert ls[..k + 1] == ls[..k] + [ls[k]];
    forall p
      ensures Covers(acc', p) <==> Covers(ls[..k + 1], p) && !InRect(rem, p)
    {
      CoversConcat(acc, pieces, p);
      CoversConcat(ls[..k], [ls[k]], p);
      if InRect(ls[k], p) {
        assert [ls[k]][0] == ls[k];
      }
    }
    if PairwiseDisjoint(ls) {
      forall j, m | 0 <= j < |acc| && 0 <= m < |pieces|
        ensures Disjoint(acc[j], pieces[m])
      {
        IntersectCommutes(acc[j], ls[k]);
        DisjointInside(pieces[m], ls[k], acc[j]);
      }
      PairwiseConcat(acc, pieces);
      forall j, m | 0 <= j < |acc'| && k + 1 <= m < |ls|
        ensures Disjoint(acc'[j], ls[m])
      {
        if j >= |acc| {
          assert acc'[j] == pieces[j - |acc|];
          DisjointInside(pieces[j - |acc|], ls[k], ls[m]);
        }
      }
    }
  }

  /** Validity and volume of one step of `remove_intersecting`. */
  lemma RemoveStepVolume(ls: seq<Rect>, rem: Rect, k: nat, acc: seq<Rect>, pieces: seq<Rect>)
    requires k < |ls| && AllValid(ls) && AllValid(acc) && AllValid(pieces)
    requires SumVol(acc) + OverlapVol(ls[..k], rem) == SumVol(ls[..k])
    requires Disjoint(ls[k], rem) ==> pieces == [ls[k]]
    requires !Disjoint(ls[k], rem) ==> SumVol(pieces) == Volume(ls[k]) - Volume(Intersect(ls[k], rem).value)
    ensures AllValid(acc + pieces)
    ensures SumVol(acc + pieces) + OverlapVol(ls[..k + 1], rem) == SumVol(ls[..k + 1])
  {
    SumVolConcat(acc, pieces);
    var pre := ls[..k + 1];
    assert pre[..|pre| - 1] == ls[..k];
    if Disjoint(ls[k], rem) {
      assert SumVol(pieces) == Volume(ls[k]) by {
        assert [ls[k]][..0] == [];
      }
    }
  }

  /** `remove_intersecting`: every cuboid of the list is replaced, in place
    * and in order, by its slabs outside `rem`. */
  method RemoveIntersecting(ls: seq<Rect>, rem: Rect) returns (res: seq<Rect>)
    ensures forall j :: 0 <= j < |res| ==> Disjoint(res[j], rem)
    ensures forall p :: Covers(res, p) <==> Covers(ls, p) && !InRect(rem, p)
    ensures PairwiseDisjoint(ls) ==> PairwiseDisjoint(res)
    ensures AllValid(ls) ==> AllValid(res) && SumVol(res) == SumVol(ls) - OverlapVol(ls, rem)
  {
    res := [];
    for k := 0 to |ls|
      invariant forall j :: 0 <= j < |res| ==> Disjoint(res[j], rem)
      invariant forall p :: Covers(res, p) <==> Covers(ls[..k], p) && !InRect(rem, p)
      invariant PairwiseDisjoint(ls) ==>
        (PairwiseDisjoint(res) && forall j, m :: 0 <= j < |res| && k <= m < |ls| ==> Disjoint(res[j], ls[m]))
      invariant AllValid(ls) ==> AllValid(res) && SumVol(res) + OverlapVol(ls[..k], rem) == SumVol(ls[..k])
    {
      var pieces := Without(ls[k], rem);
      RemoveStep(ls, rem, k, res, pieces);
      if AllValid(ls) {
        RemoveStepVolume(ls, rem, k, res, pieces);
      }
      res := res + pieces;
    }
    assert ls[..|ls|] == ls;
  }

  /** `set_intersecting`: the cubes of the step's cuboid are removed from
    * the list, and for an `on` step the cuboid itself is put in front. */
  method SetIntersecting(ls: seq<Rect>, r: (bool, Rect)) returns (res: seq<Rect>)
    ensures forall p :: Covers(res, p) <==> if InRect(r.1, p) then r.0 else Covers(ls, p)
    ensures PairwiseDisjoint(ls) ==> PairwiseDisjoint(res)
    ensures AllValid(ls) && ValidRect(r.1) ==> AllValid(res)
    ensures r.0 ==> |res| >= 1 && res[0] == r.1
  {
    res := RemoveIntersecting(ls, r.1);
    if r.0 {
      ghost var rest := res;
      forall j | 0 <= j < |rest|
        ensures Disjoint(r.1, rest[j])
      {
        IntersectCommutes(r.1, rest[j]);
      }
      forall p
        ensures Covers([r.1] + rest, p) <==> InRect(r.1, p) || Covers(rest, p)
      {
        CoversConcat([r.1], rest, p);
        assert [r.1][0] == r.1;
      }
      if PairwiseDisjoint(ls) {
        PairwiseConcat([r.1], rest);
      }
      res := [r.1] + res;
    }
  }

  /** Whether cube `p` is on after the steps: the last step whose cuboid
    * holds it decides, and it starts off. */
  predicate LitAfter(steps: seq<(bool, Rect)>, p: Cell)
  {
    if steps == [] then false
    else if InRect(steps[|steps| - 1].1, p) then steps[|steps| - 1].0
    else LitAfter(steps[..|steps| - 1], p)
  }

  /** The loop of `main`: the list after all steps holds disjoint cuboids
    * covering exactly the cubes that are on. */
  method Reboot(steps: seq<(bool, Rect)>) returns (ls: seq<Rect>)
    ensures PairwiseDisjoint(ls)
    ensures forall p :: Covers(ls, p) <==> LitAfter(steps, p)
    ensures (forall s :: 0 <= s < |steps| ==> ValidRect(steps[s].1)) ==> AllValid(ls)
  {
    ls := [];
    for s := 0 to |steps|
      invariant PairwiseDisjoint(ls)
      invariant forall p :: Covers(ls, p) <==> LitAfter(steps[..s], p)
      invariant (forall t :: 0 <= t < |steps| ==> ValidRect(steps[t].1)) ==> AllValid(ls)
    {
      ls := SetIntersecting(ls, steps[s]);
      assert steps[..s + 1][..s] == steps[..s];
    }
    assert steps[..|steps|] == steps;
  }

  /** `filter_p1`: the part of a cuboid inside the initialisation region
    * `-50..=50` on every axis. */
  function FilterP1(a: Rect): (r: Option<Rect>)
    ensures forall p :: (r.Some? && InRect(r.value, p))
                   <==> InRect(a, p) && -50 <= p.0 <= 50 && -50 <= p.1 <= 50 && -50 <= p.2 <= 50
  {
    IntersectCells(a, Rect((-50, 50), (-50, 50), (-50, 50)));
    Intersect(a, Rect((-50, 50), (-50, 50), (-50, 50)))
  }

  lemma MulLe(a: int, b: int, c: int, d: int)
    requires 0 <= a <= b && 0 <= c <= d
    ensures a * c <= b * d
  {
    assert a * c <= b * c;
  }

  /** A cuboid inside another has at most its volume. */
  lemma VolumeInside(r: Rect, a: Rect)
    requires ValidRect(r) && Inside(r, a)
    ensures ValidRect(a) && Volume(r) <= Volume(a)
  {
    MulLe(Len(r.x), Len(a.x), Len(r.y), Len(a.y));
    MulLe(Len(r.x) * Len(r.y), Len(a.x) * Len(a.y), Len(r.z), Len(a.z));
  }

  /** `volume_within_p1`: the volume of the part in the initialisation
    * region. */
  function VolumeWithinP1(a: Rect): (v: nat)
    requires ValidRect(a)
    ensures v <= Volume(a)
    ensures v == 0 <==> FilterP1(a).None?
  {
    match FilterP1(a)
    case None => 0
    case Some(c) =>
      VolumeInside(c, a);
      Volume(c)
  }

  /** The part-one answer: the on cubes inside the initialisation region. */
  function SumP1(ls: seq<Rect>): nat
    requires AllValid(ls)
  {
    if ls == [] then 0 else SumP1(ls[..|ls| - 1]) + VolumeWithinP1(ls[|ls| - 1])
  }

  /** Part one never counts more than part two. */
  lemma {:induction false} SumP1AtMost(ls: seq<Rect>)
    requires AllValid(ls)
    ensures SumP1(ls) <= SumVol(ls)
  {
    if ls != [] {
      SumP1AtMost(ls[..|ls| - 1]);
    }
  }

  /** A cube is on only when some `on` step covered it. */
  lemma {:induction false} LitOnlyIfOnStep(steps: seq<(bool, Rect)>, p: Cell)
    requires LitAfter(steps, p)
    ensures exists s :: 0 <= s < |steps| && steps[s].0 && InRect(steps[s].1, p)
  {
    var n := |steps| - 1;
    if !InRect(steps[n].1, p) {
      LitOnlyIfOnStep(steps[..n], p);
      var s :| 0 <= s < n && steps[..n][s].0 && InRect(steps[..n][s].1, p);
      assert steps[s] == steps[..n][s];
    }
  }

  /** `main` once the steps are read: the list after all steps, then the
    * cubes on inside the initialisation region and the cubes on overall. */
  method Solve(steps: seq<(bool, Rect)>) returns (p1: nat, p2: nat)
    requires forall s :: 0 <= s < |steps| ==> ValidRect(steps[s].1)
    ensures p1 <= p2
    ensures exists ls :: AllValid(ls) && PairwiseDisjoint(ls) && (forall p :: Covers(ls, p) <==> LitAfter(steps, p))
                         && p1 == SumP1(ls) && p2 == SumVol(ls)
  {
    var ls := Reboot(steps);
    p1 := SumP1(ls);
    p2 := SumVol(ls);
    SumP1AtMost(ls);
  }

  // ---------------------------------------------------------------- input

  const I32Min: int := -0x8000_0000
  const I32Max: int := 0x7FFF_FFFF

  /** `parse_eq`: the range `a..b` after a two-character tag, which is
    * skipped unread. */
  function ParseEq(s: string): (r: Option<Interval>)
    ensures r.Some? ==> |s| >= 2
    ensures r.Some? ==> exists a, b :: (s[2..] == a + ".." + b
                                        && ParseInt(a, I32Min, I32Max) == Some(r.value.0)
                                        && ParseInt(b, I32Min, I32Max) == Some(r.value.1))
  {
    if |s| < 2 then None
    else
      match SplitOnceStr(s[2..], "..")
      case None => None
      case Some((a, b)) =>
        match (ParseInt(a, I32Min, I32Max), ParseInt(b, I32Min, I32Max))
        case (Some(lo), Some(hi)) => Some((lo, hi))
        case _ => None
  }

  /** The head of `parse_line`: `on ` or `off `, and the text after it. */
  function StepHead(s: string): (r: Option<(bool, string)>)
    ensures r.Some? ==> s == (if r.value.0 then "on " else "off ") + r.value.1
  {
    if StartsWith(s, "on ") then
      assert s == s[..3] + s[3..];
      Some((true, s[3..]))
    else if StartsWith(s, "off ") then
      assert s == s[..4] + s[4..];
      Some((false, s[4..]))
    else None
  }

  /** The rest of `parse_line`: three ranges separated by commas. */
  function ParseRanges(t: string): (r: Option<Rect>)
  {
    match SplitOnce(t, ',')
    case None => None
    case Some((x, yz)) =>
      match SplitOnce(yz, ',')
      case None => None
      case Some((y, z)) =>
        match (ParseEq(x), ParseEq(y), ParseEq(z))
        case (Some(xi), Some(yi), Some(zi)) => Some(Rect(xi, yi, zi))
        case _ => None
  }

  /** `parse_line`: a step; `None` is a panic. */
  function ParseLine(s: string): (r: Option<(bool, Rect)>)
    ensures r.Some? ==> (r.value.0 <==> StartsWith(s, "on "))
  {
    match StepHead(s)
    case None => None
    case Some((state, t)) =>
      match ParseRanges(t)
      case None => None
      case Some(rect) => Some((state, rect))
  }

  /** How a range is written in the input, with its tag. */
  function RangeText(tag: char, iv: Interval): string
  {
    [tag, '='] + Signed(iv.0) + ".." + Signed(iv.1)
  }

  /** How a step is written in the input. */
  function StepText(state: bool, r: Rect): string
  {
    (if state then "on " else "off ") + RangeText('x', r.x) + "," + RangeText('y', r.y) + "," + RangeText('z', r.z)
  }

  predicate I32Range(iv: Interval)
  {
    I32Min <= iv.0 <= I32Max && I32Min <= iv.1 <= I32Max
  }

  lemma ParseEqText(tag: char, iv: Interval)
    requires I32Range(iv)
    ensures ParseEq(RangeText(tag, iv)) == Some(iv)
  {
    var s := RangeText(tag, iv);
    var lo, hi := Signed(iv.0), Signed(iv.1);
    assert s[2..] == lo + ".." + hi;
    SplitOnceStrAt(lo, "..", hi);
    ParseSigned(iv.0, I32Min, I32Max);
    ParseSigned(iv.1, I32Min, I32Max);
  }

  /** The only commas of a step are the two between its ranges. */
  lemma RangeTextNoComma(tag: char, iv: Interval)
    requires tag != ','
    ensures ',' !in RangeText(tag, iv)
  {
    var lo, hi := Signed(iv.0), Signed(iv.1);
    assert RangeText(tag, iv) == [tag, '='] + lo + ['.', '.'] + hi;
  }

  /** The head is read back for both states. */
  lemma StepHeadText(state: bool, t: string)
    ensures StepHead((if state then "on " else "off ") + t) == Some((state, t))
  {
    var s := (if state then "on " else "off ") + t;
    if state {
      assert s[..3] == "on " && s[3..] == t;
    } else {
      assert s[..4] == "off " && s[4..] == t;
      assert s[1] == 'f';
    }
  }

  lemma RegroupRanges(x: string, y: string, z: string)
    ensures x + "," + y + "," + z == x + [','] + (y + [','] + z)
  {
  }

  lemma RegroupStep(h: string, x: string, y: string, z: string)
    ensures h + x + "," + y + "," + z == h + (x + "," + y + "," + z)
  {
  }

  lemma ParseRangesText(r: Rect)
    requires I32Range(r.x) && I32Range(r.y) && I32Range(r.z)
    ensures ParseRanges(RangeText('x', r.x) + "," + RangeText('y', r.y) + "," + RangeText('z', r.z)) == Some(r)
  {
    var x, y, z := RangeText('x', r.x), RangeText('y', r.y), RangeText('z', r.z);
    ParseEqText('x', r.x);
    ParseEqText('y', r.y);
    ParseEqText('z', r.z);
    RangeTextNoComma('x', r.x);
    RangeTextNoComma('y', r.y);
    var yz := y + [','] + z;
    var t := x + [','] + yz;
    RegroupRanges(x, y, z);
    SplitOnceAt(x, ',', yz);
    SplitOnceAt(y, ',', z);
    assert SplitOnce(t, ',') == Some((x, yz));
    assert SplitOnce(yz, ',') == Some((y, z));
    assert ParseRanges(t) == Some(r);
  }

  /** `parse_line` reads back every step written in the input format with
    * coordinates in the `i32` range. */
  lemma ParseStepText(state: bool, r: Rect)
    requires I32Range(r.x) && I32Range(r.y) && I32Range(r.z)
    ensures ParseLine(StepText(state, r)) == Some((state, r))
  {
    var h := if state then "on " else "off ";
    var x, y, z := RangeText('x', r.x), RangeText('y', r.y), RangeText('z', r.z);
    var t := x + "," + y + "," + z;
    RegroupStep(h, x, y, z);
    assert StepText(state, r) == h + t;
    StepHeadText(state, t);
    ParseRangesText(r);
  }

  /** `read_data`: one step per line. */
  function ReadData(lines: seq<string>): (r: seq<Option<(bool, Rect)>>)
    ensures |r| == |lines| && forall i :: 0 <= i < |lines| ==> r[i] == ParseLine(lines[i])
  {
    seq(|lines|, i requires 0 <= i < |lines| => ParseLine(lines[i]))
  }
}
