/** Day 23: Amphipod, reading the drawing and running both halves. The
  * drawing's third and fourth lines hold the rooms' letters, top row then
  * bottom row; part two folds two fixed rows in between. */
module Adv23Main {
  import opened Common
  import opened Adv23Common
  import opened Adv23P1
  import Adv23P2

  /** The `filter_map` closure of `read_data`: a letter `A` to `D` names an
    * amphipod, anything else (walls, blanks) is skipped. */
  function ParseColor(ch: char): (r: Option<Color>)
    ensures r.Some? <==> 'A' <= ch <= 'D'
    ensures r.Some? ==> Letter(r.value) == ch
  {
    match ch
    case 'A' => Some(Amber)
    case 'B' => Some(Bronze)
    case 'C' => Some(Copper)
    case 'D' => Some(Desert)
    case _ => None
  }

  /** The amphipods a text names, left to right. */
  function Colors(s: string): (r: seq<Color>)
    ensures |r| <= |s|
  {
    if s == [] then []
    else
      var c := ParseColor(s[|s| - 1]);
      Colors(s[..|s| - 1]) + (if c.Some? then [c.value] else [])
  }

  /** The amphipods of two texts one after the other are those of the first
    * and then those of the second. */
  lemma {:induction false} ColorsAppend(a: string, b: string)
    ensures Colors(a + b) == Colors(a) + Colors(b)
    decreases |b|
  {
    if b != [] {
      var n := |b| - 1;
      assert (a + b)[..|a + b| - 1] == a + b[..n];
      ColorsAppend(a, b[..n]);
    } else {
      assert a + b == a;
    }
  }

  /** A text never names fewer amphipods than its prefixes. */
  lemma ColorsPrefix(s: string, i: nat)
    requires i <= |s|
    ensures |Colors(s[..i])| <= |Colors(s)|
  {
    ColorsAppend(s[..i], s[i..]);
    assert s == s[..i] + s[i..];
  }

  /** Eight room slots, the first ones holding `cs` in order. */
  function RoomsOf(cs: seq<Color>): (r: seq<Cell>)
    requires |cs| <= 8
    ensures |r| == 8
    ensures forall i :: 0 <= i < 8 ==> (r[i].Some? <==> i < |cs|)
    ensures forall i :: 0 <= i < |cs| ==> r[i] == Some(cs[i])
  {
    seq(8, i requires 0 <= i < 8 => if i < |cs| then Some(cs[i]) else None)
  }

  /** What `read_data` yields: an empty hallway and the amphipods of the
    * third and fourth lines in the room slots. `None` is a panic: fewer than
    * four lines (`unwrap`), or more than eight letters (the index out of the
    * rooms array). */
  function ReadSpec(lines: seq<string>): (r: Option<(seq<Cell>, seq<Cell>)>)
    ensures r.None? <==> |lines| < 4 || |Colors(lines[2] + lines[3])| > 8
    ensures r.Some? ==> |r.value.0| == 7 && |r.value.1| == 8 && forall h :: 0 <= h < 7 ==> r.value.0[h].None?
  {
    if |lines| < 4 then None
    else
      var cs := Colors(lines[2] + lines[3]);
      if |cs| > 8 then None else Some((seq(7, _ => None), RoomsOf(cs)))
  }

  /** A row of the drawing between its outer walls: the letters of `cs`,
    * each between two `#`. */
  function Drawing(cs: seq<Color>): string
  {
    if cs == [] then "#" else Drawing(cs[..|cs| - 1]) + [Letter(cs[|cs| - 1])] + "#"
  }

  /** The amphipods a drawn row names are the ones drawn. */
  lemma {:induction false} ColorsDrawing(cs: seq<Color>)
    ensures Colors(Drawing(cs)) == cs
  {
    if cs != [] {
      var n := |cs| - 1;
      var c := cs[n];
      ColorsDrawing(cs[..n]);
      ColorsAppend(Drawing(cs[..n]) + [Letter(c)], "#");
      ColorsAppend(Drawing(cs[..n]), [Letter(c)]);
      assert Colors([Letter(c)]) == [c] by {
        assert [Letter(c)][..0] == [];
      }
      assert Colors("#") == [] by {
        assert "#"[..0] == [];
      }
      assert cs == cs[..n] + [c];
    }
  }

  /** Walls and blanks name no amphipod. */
  lemma {:induction false} ColorsWalls(s: string)
    requires forall i :: 0 <= i < |s| ==> s[i] == '#' || s[i] == ' '
    ensures Colors(s) == []
  {
    if s != [] {
      ColorsWalls(s[..|s| - 1]);
    }
  }

  /** A drawn row with walls and blanks around it names the drawn
    * amphipods. */
  lemma ColorsFramed(pre: string, cs: seq<Color>, post: string)
    requires forall i :: 0 <= i < |pre| ==> pre[i] == '#' || pre[i] == ' '
    requires forall i :: 0 <= i < |post| ==> post[i] == '#' || post[i] == ' '
    ensures Colors(pre + Drawing(cs) + post) == cs
  {
    ColorsWalls(pre);
    ColorsWalls(post);
    ColorsDrawing(cs);
    ColorsAppend(pre, Drawing(cs));
    ColorsAppend(pre + Drawing(cs), post);
  }

  /** Reading the drawing of a burrow whose top row holds `top` and bottom
    * row `bottom` gives an empty hallway and those rows in the rooms. */
  lemma ReadDrawing(l0: string, l1: string, top: seq<Color>, bottom: seq<Color>)
    requires |top| == 4 && |bottom| == 4
    ensures ReadSpec([l0, l1, "##" + Drawing(top) + "##", "  " + Drawing(bottom)]) ==
      Some((seq(7, _ => None), RoomsOf(top + bottom)))
  {
    var t, b := "##" + Drawing(top) + "##", "  " + Drawing(bottom);
    ColorsFramed("##", top, "##");
    ColorsFramed("  ", bottom, "");
    assert b + "" == b;
    ColorsAppend(t, b);
  }

  /** `read_data`: the rooms array filled letter by letter. */
  method ReadData(lines: seq<string>) returns (r: Option<(seq<Cell>, seq<Cell>)>)
    ensures r == ReadSpec(lines)
  {
    if |lines| < 4 {
      return None;
    }
    var rooms := new Cell[8](_ => None);
    var text := lines[2] + lines[3];
    var idx := 0;
    for i := 0 to |text|
      invariant idx == |Colors(text[..i])| && idx <= 8
      invariant rooms[..] == RoomsOf(Colors(text[..i]))
    {
      assert text[..i + 1][..i] == text[..i];
      var c := ParseColor(text[i]);
      if c.Some? {
        if idx >= 8 {
          ColorsPrefix(text, i + 1);
          return None;
        }
        rooms[idx] := Some(c.value);
        idx := idx + 1;
      }
    }
    assert text[..|text|] == text;
    return Some((seq(7, _ => None), rooms[..]));
  }

  /** The two rows part two folds in: `D C B A` and `D B A C`. */
  const Folded: seq<Cell> :=
    [Some(Desert), Some(Copper), Some(Bronze), Some(Amber)] +
    [Some(Desert), Some(Bronze), Some(Amber), Some(Copper)]

  /** `p2_alter_rooms`: the top row, then the folded rows, then the bottom
    * row, in sixteen slots. */
  method P2AlterRooms(rooms: seq<Cell>) returns (ret: seq<Cell>)
    requires |rooms| == 8
    ensures ret == rooms[..4] + Folded + rooms[4..]
  {
    var a := new Cell[16](_ => None);
    for i := 0 to 4
      invariant forall k :: 0 <= k < i ==> a[k] == rooms[k]
    {
      a[i] := rooms[i];
    }
    for i := 0 to 8
      invariant forall k :: 0 <= k < 4 ==> a[k] == rooms[k]
      invariant forall k :: 0 <= k < i ==> a[k + 4] == Folded[k]
    {
      a[i + 4] := Folded[i];
    }
    for i := 4 to 8
      invariant forall k :: 0 <= k < 4 ==> a[k] == rooms[k]
      invariant forall k :: 0 <= k < 8 ==> a[k + 4] == Folded[k]
      invariant forall k :: 4 <= k < i ==> a[k + 8] == rooms[k]
    {
      a[i + 8] := rooms[i];
    }
    ret := a[..];
    assert ret == rooms[..4] + Folded + rooms[4..];
  }

  /** Every slot of the small rooms keeps its amphipod and its room in the
    * large ones: the top row stays on top, the bottom row goes to the
    * bottom. */
  lemma AlterKeeps(rooms: seq<Cell>, i: nat)
    requires |rooms| == 8 && i < 8
    ensures var j := if i < 4 then i else i + 8;
      j < 16 && (rooms[..4] + Folded + rooms[4..])[j] == rooms[i] && j % 4 == i % 4
  {
  }

  /** The folded rows add two amphipods of each colour: a full set of eight
    * becomes a full set of sixteen, four of each. */
  lemma AlterCounts(rooms: seq<Cell>)
    requires |rooms| == 8
    ensures multiset(rooms[..4] + Folded + rooms[4..]) ==
      multiset(rooms) + multiset{Some(Amber), Some(Amber), Some(Bronze), Some(Bronze),
                                 Some(Copper), Some(Copper), Some(Desert), Some(Desert)}
  {
    assert rooms == rooms[..4] + rooms[4..];
    calc {
      multiset(rooms[..4] + Folded + rooms[4..]);
      multiset(rooms[..4]) + multiset(Folded) + multiset(rooms[4..]);
      multiset(rooms[..4]) + multiset(rooms[4..]) + multiset(Folded);
      multiset(rooms) + multiset(Folded);
    }
  }

  /** With all eight slots read, the sixteen slots are all occupied, so no
    * amphipod stands above an empty slot and every move part two finds is
    * legal in the strict sense. */
  lemma AlterPacked(rooms: seq<Cell>)
    requires |rooms| == 8 && forall i :: 0 <= i < 8 ==> rooms[i].Some?
    ensures Adv23P2.Packed(rooms[..4] + Folded + rooms[4..])
  {
    var ret := rooms[..4] + Folded + rooms[4..];
    forall k | 4 <= k < 16
      ensures ret[k].Some?
    {
      if k >= 12 {
        assert ret[k] == rooms[k - 8];
      }
    }
  }

  /** How `main` ends: a panic in `read_data`, a panic in part one (its
    * `unwrap` finds no way to win, so part two never runs), or both
    * answers. */
  datatype Outcome = ReadPanics | NoWayToWin | Answers(part1: nat, part2: nat)

  /** `main` on the lines of the input: the read layout, part one's answer
    * and part two's (`u64::MAX` when it finds none), each with a legal way
    * to win at that cost. */
  method Solve(lines: seq<string>)
      returns (r: Outcome, ghost s1: seq<Step>, ghost s2: seq<Step>)
    ensures r.ReadPanics? <==> ReadSpec(lines).None?
    ensures r.Answers? ==>
      var (hall, rooms) := ReadSpec(lines).value;
      var big := rooms[..4] + Folded + rooms[4..];
      Solves(hall, rooms, s1, true) && TotalCost(s1) == r.part1 &&
      (r.part2 < Adv23P2.U64Max ==> Solves(hall, big, s2, Adv23P2.Packed(big)) && TotalCost(s2) == r.part2)
  {
    s1, s2 := [], [];
    var data := ReadData(lines);
    if data.None? {
      return ReadPanics, s1, s2;
    }
    var (hall, rooms) := data.value;
    var p1;
    p1, s1 := BestScore(hall, rooms);
    if p1.None? {
      return NoWayToWin, s1, s2;
    }
    var big := P2AlterRooms(rooms);
    var p2;
    p2, s2 := Adv23P2.BestScore(hall, big);
    r := Answers(p1.value, p2);
  }
}
