/** Hydrothermal vents (adv-5-rs): segments are read, normalised so that
  * `start <= end`, collected into an ordered set keyed by their start point,
  * rasterised, and the points covered at least twice are counted, first for
  * horizontal and vertical segments only, then for all of them. */
module Adv5 {
  import opened Vec2

  /** `read_data`: swap the end points when `start > end`. */
  function Normalise(l: Line): (r: Line)
    ensures Le(r.start, r.end)
    ensures (r.start == l.start && r.end == l.end) || (r.start == l.end && r.end == l.start)
  {
    if Lt(l.end, l.start) then Line(l.end, l.start) else l
  }

  /** Input lines that `get_points` can walk: normalised and not a single point. */
  predicate Walkable(lines: seq<Line>)
  {
    forall i :: 0 <= i < |lines| ==> Lt(lines[i].start, lines[i].end)
  }

  /** Horizontal or vertical (the filter of `calc_p1`). */
  predicate Straight(l: Line)
  {
    l.start.x == l.end.x || l.start.y == l.end.y
  }

  function Straights(lines: seq<Line>): (r: seq<Line>)
    ensures forall i :: 0 <= i < |r| ==> Straight(r[i]) && r[i] in lines
    ensures forall l :: l in lines && Straight(l) ==> l in r
  {
    if lines == [] then []
    else if Straight(lines[0]) then [lines[0]] + Straights(lines[1..])
    else Straights(lines[1..])
  }

  /** All points of all lines, in iteration order (`flat_map(get_points)`). */
  function AllPoints(lines: seq<Line>): seq<Vec2i>
  {
    if lines == [] then [] else AllPoints(lines[..|lines| - 1]) + PointsOf(lines[|lines| - 1])
  }

  /** Points seen at least twice. */
  function Overlaps(ps: seq<Vec2i>): set<Vec2i>
  {
    set p | p in ps && multiset(ps)[p] >= 2
  }

  /** The invariant of `cross_map`: its keys are the points seen so far, and a
    * key maps to `true` exactly when its point was seen twice or more. */
  ghost predicate Tracks(crossMap: map<Vec2i, bool>, seen: seq<Vec2i>)
  {
    && (forall p :: p in crossMap <==> p in seen)
    && (forall p :: p in crossMap ==> (crossMap[p] <==> multiset(seen)[p] >= 2))
  }

  /** The `cross_map` update of `calc_p1`/`calc_p2` for one point. */
  method Record(crossMap: map<Vec2i, bool>, ghost seen: seq<Vec2i>, p: Vec2i)
    returns (m: map<Vec2i, bool>)
    requires Tracks(crossMap, seen)
    ensures Tracks(m, seen + [p])
  {
    if p in crossMap {
      m := crossMap[p := true];
    } else {
      m := crossMap[p := false];
    }
    assert multiset(seen + [p]) == multiset(seen) + multiset{p};
    forall q
      ensures q in m <==> q in seen + [p]
    {
    }
  }

  /** The counting loop shared by `calc_p1` and `calc_p2` (they differ only in
    * the filter): number of points covered at least twice. */
  method CountOverlaps(lines: seq<Line>) returns (ans: nat)
    requires Walkable(lines)
    ensures ans == |Overlaps(AllPoints(lines))|
  {
    var crossMap: map<Vec2i, bool> := map[];
    ghost var seen: seq<Vec2i> := [];
    for i := 0 to |lines|
      invariant seen == AllPoints(lines[..i])
      invariant Tracks(crossMap, seen)
    {
      var ps := GetPoints(lines[i]);
      crossMap := RecordAll(crossMap, seen, ps);
      assert lines[..i + 1][..i] == lines[..i];
      seen := seen + ps;
    }
    assert lines[..|lines|] == lines;
    assert (set p | p in crossMap && crossMap[p]) == Overlaps(seen);
    ans := |set p | p in crossMap && crossMap[p]|;
  }

  /** The points of one line, recorded one after the other. */
  method RecordAll(crossMap: map<Vec2i, bool>, ghost seen: seq<Vec2i>, ps: seq<Vec2i>)
    returns (m: map<Vec2i, bool>)
    requires Tracks(crossMap, seen)
    ensures Tracks(m, seen + ps)
  {
    m := crossMap;
    for k := 0 to |ps|
      invariant Tracks(m, seen + ps[..k])
    {
      m := Record(m, seen + ps[..k], ps[k]);
      assert seen + ps[..k] + [ps[k]] == seen + ps[..k + 1];
    }
    assert ps[..|ps|] == ps;
  }

  /** `calc_p1`: overlaps among horizontal and vertical lines. */
  method CalcP1(lines: seq<Line>) returns (ans: nat)
    requires Walkable(lines)
    ensures ans == |Overlaps(AllPoints(Straights(lines)))|
  {
    ans := CountOverlaps(Straights(lines));
  }

  /** `calc_p2`: overlaps among all lines. */
  method CalcP2(lines: seq<Line>) returns (ans: nat)
    requires Walkable(lines)
    ensures ans == |Overlaps(AllPoints(lines))|
  {
    ans := CountOverlaps(lines);
  }

  /** Number of lines passing through `p`. */
  function LinesThrough(lines: seq<Line>, p: Vec2i): nat
  {
    if lines == [] then 0
    else LinesThrough(lines[..|lines| - 1], p) + (if p in PointsOf(lines[|lines| - 1]) then 1 else 0)
  }

  lemma {:induction false} DistinctCount(s: seq<Vec2i>, p: Vec2i)
    requires forall i, j :: 0 <= i < j < |s| ==> s[i] != s[j]
    ensures multiset(s)[p] == if p in s then 1 else 0
  {
    if s != [] {
      var t := s[..|s| - 1];
      assert s == t + [s[|s| - 1]];
      DistinctCount(t, p);
      assert s[|s| - 1] !in t;
    }
  }

  /** Since a line never visits a point twice, the multiplicity of a point in
    * the flattened stream is the number of lines through it... */
  lemma {:induction false} MultiplicityIsLinesThrough(lines: seq<Line>, p: Vec2i)
    requires Walkable(lines)
    ensures multiset(AllPoints(lines))[p] == LinesThrough(lines, p)
  {
    if lines != [] {
      var l := lines[|lines| - 1];
      MultiplicityIsLinesThrough(lines[..|lines| - 1], p);
      forall i, j | 0 <= i < j < |PointsOf(l)|
        ensures PointsOf(l)[i] != PointsOf(l)[j]
      {
        PointsDistinct(l, i, j);
      }
      DistinctCount(PointsOf(l), p);
    }
  }

  /** ...so the count is the number of points crossed by at least two lines. */
  lemma OverlapMeansTwoLines(lines: seq<Line>, p: Vec2i)
    requires Walkable(lines)
    ensures p in Overlaps(AllPoints(lines)) <==> LinesThrough(lines, p) >= 2
  {
    MultiplicityIsLinesThrough(lines, p);
  }

  function Starts(lines: seq<Line>): set<Vec2i>
  {
    set l | l in lines :: l.start
  }

  /** What a `BTreeSet<Line>` whose `Ord` compares start points only can
    * hold after collecting `lines`: one line for each start point, and
    * nothing else. Which of several lines with one start survives is not
    * fixed by the program (see `CollectByStart`). */
  predicate OnePerStart(lines: seq<Line>, r: seq<Line>)
  {
    && (forall i :: 0 <= i < |r| ==> r[i] in lines)
    && (forall i, j :: 0 <= i < j < |r| ==> r[i].start != r[j].start)
    && Starts(r) == Starts(lines)
  }

  /** Collecting into the start-keyed set. Inserting one line at a time (the
    * standard library before Rust 1.57) keeps the first line of each start;
    * the bulk build of later versions keeps the last (`keepLast`). */
  function CollectByStart(lines: seq<Line>, keepLast: bool): (r: seq<Line>)
    ensures OnePerStart(lines, r)
  {
    if lines == [] then []
    else
      var kept := CollectByStart(lines[..|lines| - 1], keepLast);
      var l := lines[|lines| - 1];
      StartsAppend(lines[..|lines| - 1], l);
      StartsAppend(kept, l);
      if l.start !in Starts(kept) then kept + [l]
      else if keepLast then ReplaceSameStart(kept, l)
      else kept
  }

  /** `kept` with its line of `l`'s start replaced by `l`. */
  function ReplaceSameStart(kept: seq<Line>, l: Line): (r: seq<Line>)
    requires l.start in Starts(kept)
    ensures |r| == |kept| && Starts(r) == Starts(kept) && l in r
    ensures forall i :: 0 <= i < |r| ==> r[i].start == kept[i].start && (r[i] == kept[i] || r[i] == l)
  {
    var r := seq(|kept|, i requires 0 <= i < |kept| => if kept[i].start == l.start then l else kept[i]);
    assert forall m :: m in kept ==> exists i :: 0 <= i < |kept| && kept[i] == m;
    assert Starts(r) == Starts(kept) by {
      forall v | v in Starts(kept) ensures v in Starts(r) {
        var m :| m in kept && m.start == v;
        var i :| 0 <= i < |kept| && kept[i] == m;
        assert r[i].start == v;
      }
    }
    var m :| m in kept && m.start == l.start;
    var i :| 0 <= i < |kept| && kept[i] == m;
    assert r[i] == l;
    r
  }

  lemma StartsAppend(a: seq<Line>, l: Line)
    ensures Starts(a + [l]) == Starts(a) + {l.start}
  {
    assert forall m :: m in a + [l] <==> m in a || m == l;
  }

  /** Two lines from the same start, (0,0)->(2,0) and (0,0)->(0,2): the set
    * keeps only one of them, so the shared point (0,0) is counted by the
    * intended computation but not by the one the program performs. */
  lemma SameStartDropsOverlap(keepLast: bool)
    ensures var lines := [Line(Vec2i(0, 0), Vec2i(2, 0)), Line(Vec2i(0, 0), Vec2i(0, 2))];
      && Walkable(lines)
      && Vec2i(0, 0) in Overlaps(AllPoints(lines))
      && Vec2i(0, 0) !in Overlaps(AllPoints(CollectByStart(lines, keepLast)))
  {
    var l1, l2 := Line(Vec2i(0, 0), Vec2i(2, 0)), Line(Vec2i(0, 0), Vec2i(0, 2));
    SharedStartDropped(l1, l2, CollectByStart([l1, l2], keepLast));
  }

  /** In general, of two lines with the same start only one is walked,
    * whichever survives, so their common start point is never counted as
    * an overlap. */
  lemma SharedStartDropped(l1: Line, l2: Line, r: seq<Line>)
    requires Lt(l1.start, l1.end) && Lt(l2.start, l2.end)
    requires l1.start == l2.start
    requires OnePerStart([l1, l2], r)
    ensures Walkable([l1, l2])
    ensures l1.start in Overlaps(AllPoints([l1, l2]))
    ensures l1.start !in Overlaps(AllPoints(r))
  {
    SharedStartOverlap(l1, l2);
    SharedStartOverlap(l2, l1);
    KeepsOne(l1, l2, r);
    OverlapMeansTwoLines(r, l1.start);
  }

  /** Two lines from the same start both pass through it, so it is an
    * overlap of the two. */
  lemma SharedStartOverlap(l1: Line, l2: Line)
    requires Lt(l1.start, l1.end) && Lt(l2.start, l2.end)
    requires l1.start == l2.start
    ensures Walkable([l1, l2]) && Walkable([l1])
    ensures LinesThrough([l1], l1.start) == 1
    ensures l1.start in Overlaps(AllPoints([l1, l2]))
  {
    PointsEndAtEnd(l1);
    PointsEndAtEnd(l2);
    ThroughTwo(l1, l2, l1.start);
    OverlapMeansTwoLines([l1, l2], l1.start);
  }

  /** Two lines with one start leave exactly one of them in the set: the
    * first when inserted one at a time, the last when built in bulk. */
  lemma KeepsOne(l1: Line, l2: Line, r: seq<Line>)
    requires l1.start == l2.start
    requires OnePerStart([l1, l2], r)
    ensures r == [l1] || r == [l2]
    ensures CollectByStart([l1, l2], false) == [l1]
    ensures CollectByStart([l1, l2], true) == [l2]
  {
    assert [l1, l2][..1] == [l1];
    assert [l1][..0] == [];
    assert CollectByStart([l1], false) == [l1];
    assert CollectByStart([l1], true) == [l1];
    assert l1.start in Starts([l1, l2]);
    assert r != [];
    // The second line, if there were one, would share the first one's start.
    var k := if |r| >= 2 then 1 else 0;
    assert r[k] in [l1, l2] && r[0] in [l1, l2];
    assert r[k].start == r[0].start;
    assert k == 0;
  }

  lemma ThroughTwo(l1: Line, l2: Line, p: Vec2i)
    requires p in PointsOf(l1) && p in PointsOf(l2)
    ensures LinesThrough([l1], p) == 1
    ensures LinesThrough([l1, l2], p) == 2
  {
    assert [l1, l2][..1] == [l1];
    assert [l1][..0] == [];
  }

  /** `main` as written: normalise, collect into the start-keyed set, count;
    * `keepLast` names the standard library's choice of survivor. */
  method SolveAsWritten(input: seq<Line>, keepLast: bool) returns (p1: nat, p2: nat)
    requires forall i :: 0 <= i < |input| ==> input[i].start != input[i].end
    ensures p1 == |Overlaps(AllPoints(Straights(CollectByStart(Normalised(input), keepLast))))|
    ensures p2 == |Overlaps(AllPoints(CollectByStart(Normalised(input), keepLast)))|
  {
    var collected := CollectByStart(Normalised(input), keepLast);
    p1 := CalcP1(collected);
    p2 := CalcP2(collected);
  }

  /** The intended `main`: every normalised line takes part in the count. */
  method Solve(input: seq<Line>) returns (p1: nat, p2: nat)
    requires forall i :: 0 <= i < |input| ==> input[i].start != input[i].end
    ensures p1 == |Overlaps(AllPoints(Straights(Normalised(input))))|
    ensures p2 == |Overlaps(AllPoints(Normalised(input)))|
  {
    var lines := Normalised(input);
    p1 := CalcP1(lines);
    p2 := CalcP2(lines);
  }

  function Normalised(input: seq<Line>): (r: seq<Line>)
    requires forall i :: 0 <= i < |input| ==> input[i].start != input[i].end
    ensures |r| == |input| && Walkable(r)
    ensures forall i :: 0 <= i < |r| ==> r[i] == Normalise(input[i])
  {
    if input == [] then [] else [Normalise(input[0])] + Normalised(input[1..])
  }
}
