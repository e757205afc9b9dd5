/** Day 23, part one: the burrow has a hallway of seven cells an amphipod may
  * stop in and four rooms two slots deep. Slots are numbered row by row from
  * the top, so slot `r` belongs to room `r % 4` and lies `r / 4 + 1` steps
  * below the hallway. A depth-first search moves amphipods between hallway
  * and rooms until every room holds its own colour, keeping the cheapest
  * total energy found so far.
  *
  * The hallway helpers, the step rules and the termination measure are
  * written for rooms of any depth and shared with part two (`Adv23P2`),
  * whose source repeats the hallway helpers word for word. */
module Adv23P1 {
  import opened Common
  import opened Adv23Common

  /** One hallway cell or room slot: empty or holding an amphipod. */
  type Cell = Option<Color>

  // ---------------------------------------------------------------- positions

  /** `hall_idx_to_pos`: the column of hallway cell `h`. The cells in front
    * of the four room doors (columns 2, 4, 6, 8) are not among them. */
  function HallPos(h: nat): (p: nat)
    requires h < 7
    ensures h <= 1 ==> p == h
    ensures 2 <= h <= 5 ==> p == 2 * h - 1
    ensures h == 6 ==> p == 10
  {
    [0, 1, 3, 5, 7, 9, 10][h]
  }

  /** `room_idx_to_pos`: the column of the door of slot `r`'s room. */
  function RoomPos(r: nat): (p: nat)
    requires r < 8
    ensures p == 2 + 2 * (r % 4)
  {
    [2, 4, 6, 8, 2, 4, 6, 8][r]
  }

  /** `room_idx_to_off`: how many steps slot `r` lies below the hallway. */
  function RoomOff(r: nat): (d: nat)
    requires r < 8
    ensures d == r / 4 + 1
  {
    [1, 1, 1, 1, 2, 2, 2, 2][r]
  }

  /** The number of steps between hallway cell `h` and slot `r` of a room of
    * any depth: along the hallway to the door, then down into the room. */
  function Distance(h: nat, r: nat): nat
    requires h < 7
  {
    Abs(HallPos(h) - (2 + 2 * (r % 4))) + r / 4 + 1
  }

  /** `get_path_score`: the table-driven step count is the distance between
    * the cell and the slot, and it is never below two, since no hallway
    * cell stands in front of a door. */
  function PathScore(h: nat, r: nat): (s: nat)
    requires h < 7 && r < 8
    ensures s == Distance(h, r) && s >= 2
  {
    Abs(HallPos(h) - RoomPos(r)) + RoomOff(r)
  }

  // ---------------------------------------------------------------- rooms

  /** Slot `i` and every slot below it in its room hold the room's own
    * colour: an amphipod there never has to move again. */
  predicate Settled(rooms: seq<Cell>, i: nat)
    requires i < |rooms|
    decreases |rooms| - i
  {
    rooms[i] == Some(FromIdx(i % 4)) && (i + 4 < |rooms| ==> Settled(rooms, i + 4))
  }

  /** `get_room_take_idx`: the slot of room `rm` an amphipod of its colour
    * moves into, if any: the deepest empty slot, provided everything below
    * it is settled and nothing is above it. */
  function TakeIdx(rooms: seq<Cell>, rm: nat): (r: Option<nat>)
    requires |rooms| == 8 && rm < 4
    ensures r.Some? ==> r.value % 4 == rm && r.value < 8 && rooms[r.value].None?
    ensures r.Some? ==> (r.value + 4 < 8 ==> Settled(rooms, r.value + 4)) && (r.value >= 4 ==> rooms[r.value - 4].None?)
    ensures r.Some? <==> rooms[rm].None? && (rooms[rm + 4].None? || rooms[rm + 4] == Some(FromIdx(rm)))
    ensures r.Some? ==> (r.value == rm + 4 <==> rooms[rm + 4].None?)
  {
    // `r_idx_min | 4` is `rm + 4` for a room number below 4
    if rooms[rm].Some? then None
    else if rooms[rm + 4].None? then Some(rm + 4)
    else if rooms[rm + 4] != Some(FromIdx(rm)) then None
    else Some(rm)
  }

  /** `get_room_give_idx`: the slot of room `rm` whose amphipod leaves, if
    * any: the topmost one, and only when it or the one below it is not
    * settled. */
  function GiveIdx(rooms: seq<Cell>, rm: nat): (r: Option<nat>)
    requires |rooms| == 8 && rm < 4
    ensures r.Some? ==> r.value % 4 == rm && r.value < 8 && rooms[r.value].Some?
    ensures r.Some? ==> !Settled(rooms, r.value) && (r.value >= 4 ==> rooms[r.value - 4].None?)
    ensures r.None? <==>
      (rooms[rm] == Some(FromIdx(rm)) && rooms[rm + 4] == Some(FromIdx(rm))) ||
      (rooms[rm].None? && (rooms[rm + 4].None? || rooms[rm + 4] == Some(FromIdx(rm))))
  {
    var target := FromIdx(rm);
    if rooms[rm].Some? then
      if rooms[rm] == Some(target) && rooms[rm + 4] == Some(target) then None
      else Some(rm)
    else if rooms[rm + 4].Some? && rooms[rm + 4] != Some(target) then Some(rm + 4)
    else None
  }

  // ---------------------------------------------------------------- the hallway

  /** Hallway cells `lo` to `hi - 1` are all empty. */
  predicate Clear(hall: seq<Cell>, lo: nat, hi: nat)
    requires hi <= |hall|
  {
    forall k :: lo <= k < hi ==> hall[k].None?
  }

  /** The hallway is free between cell `h` and the door of room `rm`, which
    * lies between cells `rm + 1` and `rm + 2`; cell `h` itself is not
    * included. */
  predicate PathClear(hall: seq<Cell>, rm: nat, h: nat)
    requires |hall| == 7 && rm < 4 && h < 7
  {
    if h <= rm + 1 then Clear(hall, h + 1, rm + 2) else Clear(hall, rm + 2, h)
  }

  /** `left_search_hall`: walking left from cell `start`, the first
    * amphipod met, if it has the colour `target`. */
  function LeftSearch(hall: seq<Cell>, start: nat, target: Color): (r: Option<nat>)
    requires start < |hall|
    ensures r.Some? ==> r.value <= start && hall[r.value] == Some(target) && Clear(hall, r.value + 1, start + 1)
    ensures r.None? ==> forall j :: 0 <= j <= start && hall[j] == Some(target) ==> !Clear(hall, j + 1, start + 1)
    decreases start
  {
    if hall[start].Some? then
      if hall[start] == Some(target) then Some(start) else None
    else if start == 0 then None
    else LeftSearch(hall, start - 1, target)
  }

  /** `right_search_hall`: walking right from cell `start`, the first
    * amphipod met, if it has the colour `target`. */
  function RightSearch(hall: seq<Cell>, start: nat, target: Color): (r: Option<nat>)
    requires start <= |hall|
    ensures r.Some? ==> start <= r.value < |hall| && hall[r.value] == Some(target) && Clear(hall, start, r.value)
    ensures r.None? ==> forall j :: start <= j < |hall| && hall[j] == Some(target) ==> !Clear(hall, start, j)
    decreases |hall| - start
  {
    if start == |hall| then None
    else if hall[start].Some? then
      if hall[start] == Some(target) then Some(start) else None
    else RightSearch(hall, start + 1, target)
  }

  /** `search_hall_around`: an amphipod of room `rm`'s colour with a free
    * way to the door, looking left of the door first; there is one exactly
    * when the search finds one. */
  function SearchAround(hall: seq<Cell>, rm: nat): (r: Option<nat>)
    requires |hall| == 7 && rm < 4
    ensures r.Some? ==> r.value < 7 && hall[r.value] == Some(FromIdx(rm)) && PathClear(hall, rm, r.value)
    ensures r.None? ==> forall h :: 0 <= h < 7 && hall[h] == Some(FromIdx(rm)) ==> !PathClear(hall, rm, h)
  {
    var target := FromIdx(rm);
    var left := LeftSearch(hall, rm + 1, target);
    if left.Some? then left
    else RightSearch(hall, rm + 2, target)
  }

  /** `left_find_empty_hall`: the empty cells met walking left from `start`
    * until the first amphipod, nearest first. */
  function LeftEmpty(hall: seq<Cell>, start: nat): (r: seq<nat>)
    requires start < |hall|
    ensures |r| <= start + 1
    ensures forall i :: 0 <= i < |r| ==> r[i] == start - i && Clear(hall, r[i], start + 1)
    ensures |r| <= start ==> hall[start - |r|].Some?
    decreases start
  {
    if hall[start].Some? then []
    else if start == 0 then [start]
    else [start] + LeftEmpty(hall, start - 1)
  }

  /** `right_find_empty_hall`: the empty cells met walking right from
    * `start` until the first amphipod, nearest first. */
  function RightEmpty(hall: seq<Cell>, start: nat): (r: seq<nat>)
    requires start <= |hall|
    ensures |r| <= |hall| - start
    ensures forall i :: 0 <= i < |r| ==> r[i] == start + i && Clear(hall, start, r[i] + 1)
    ensures start + |r| < |hall| ==> hall[start + |r|].Some?
    decreases |hall| - start
  {
    if start == |hall| || hall[start].Some? then []
    else [start] + RightEmpty(hall, start + 1)
  }

  /** `find_empty_hall_around`: the hallway cells an amphipod leaving room
    * `rm` can stop in, those left of the door first: each is empty, has a
    * free way to the door, and appears once. */
  function EmptyAround(hall: seq<Cell>, rm: nat): (r: seq<nat>)
    requires |hall| == 7 && rm < 4
    ensures |r| <= 7
    ensures forall i :: 0 <= i < |r| ==> r[i] < 7 && hall[r[i]].None? && PathClear(hall, rm, r[i])
    ensures forall i, j :: 0 <= i < j < |r| ==> r[i] != r[j]
  {
    LeftEmpty(hall, rm + 1) + RightEmpty(hall, rm + 2)
  }

  /** Every cell `EmptyAround` leaves out is taken or cut off from the door. */
  lemma EmptyAroundComplete(hall: seq<Cell>, rm: nat, h: nat)
    requires |hall| == 7 && rm < 4 && h < 7
    requires hall[h].None? && PathClear(hall, rm, h)
    ensures h in EmptyAround(hall, rm)
  {
    var left, right := LeftEmpty(hall, rm + 1), RightEmpty(hall, rm + 2);
    assert EmptyAround(hall, rm) == left + right;
    if h <= rm + 1 {
      assert |left| > rm + 1 - h;
      assert left[rm + 1 - h] == h;
    } else {
      assert |right| > h - rm - 2;
      assert right[h - rm - 2] == h;
    }
  }

  // ---------------------------------------------------------------- counting

  /** The number of `true` entries. */
  function Count(b: seq<bool>): nat
  {
    if b == [] then 0 else (if b[0] then 1 else 0) + Count(b[1..])
  }

  lemma {:induction false} CountMono(a: seq<bool>, b: seq<bool>)
    requires |a| == |b| && forall i :: 0 <= i < |a| ==> (a[i] ==> b[i])
    ensures Count(a) <= Count(b)
  {
    if a != [] {
      CountMono(a[1..], b[1..]);
    }
  }

  lemma {:induction false} CountDrop(a: seq<bool>, b: seq<bool>, k: nat)
    requires |a| == |b| && forall i :: 0 <= i < |a| ==> (a[i] ==> b[i])
    requires k < |a| && b[k] && !a[k]
    ensures Count(a) < Count(b)
  {
    if k == 0 {
      CountMono(a[1..], b[1..]);
    } else {
      CountDrop(a[1..], b[1..], k - 1);
    }
  }

  lemma {:induction false} CountSet(b: seq<bool>, i: nat, v: bool)
    requires i < |b|
    ensures Count(b[i := v]) == Count(b) - (if b[i] then 1 else 0) + (if v then 1 else 0)
  {
    if i == 0 {
      assert b[i := v][1..] == b[1..];
    } else {
      assert b[i := v][1..] == b[1..][i - 1 := v];
      CountSet(b[1..], i - 1, v);
    }
  }

  // ---------------------------------------------------------------- the measure

  /** Which hallway cells hold an amphipod. */
  function HallFlags(hall: seq<Cell>): (f: seq<bool>)
    ensures |f| == |hall| && forall k :: 0 <= k < |hall| ==> (f[k] <==> hall[k].Some?)
  {
    seq(|hall|, k requires 0 <= k < |hall| => hall[k].Some?)
  }

  /** Which room slots hold an amphipod that still has to move. */
  function UnsettledFlags(rooms: seq<Cell>): (f: seq<bool>)
    ensures |f| == |rooms| && forall k :: 0 <= k < |rooms| ==> (f[k] <==> rooms[k].Some? && !Settled(rooms, k))
  {
    seq(|rooms|, k requires 0 <= k < |rooms| => rooms[k].Some? && !Settled(rooms, k))
  }

  /** A bound on the moves left: an amphipod in the hallway needs one more
    * move, an unsettled one in a room two (out and back in). Every move the
    * search makes lowers it, which is why the search stops. */
  function Weight(hall: seq<Cell>, rooms: seq<Cell>): nat
  {
    Count(HallFlags(hall)) + 2 * Count(UnsettledFlags(rooms))
  }

  /** Writing slot `r` leaves whether slot `j` is settled unchanged unless
    * `r` is `j` or below it. */
  lemma {:induction false} SettledUnchanged(rooms: seq<Cell>, r: nat, v: Cell, j: nat)
    requires r < |rooms| && j < |rooms|
    requires !(j <= r && j % 4 == r % 4)
    ensures Settled(rooms[r := v], j) == Settled(rooms, j)
    decreases |rooms| - j
  {
    if j + 4 < |rooms| {
      SettledUnchanged(rooms, r, v, j + 4);
    }
  }

  /** A slot above a slot of its room that is empty or holds a foreign
    * colour is not settled. */
  lemma {:induction false} NotSettledAbove(rooms: seq<Cell>, j: nat, r: nat)
    requires j <= r < |rooms| && j % 4 == r % 4 && rooms[r] != Some(FromIdx(r % 4))
    ensures !Settled(rooms, j)
    decreases r - j
  {
    if j < r {
      NotSettledAbove(rooms, j + 4, r);
    }
  }

  /** An amphipod moving from the hallway into the deepest free slot of its
    * own room, above only settled ones, lowers the measure. */
  lemma MoveInWeight(hall: seq<Cell>, rooms: seq<Cell>, h: nat, r: nat)
    requires h < |hall| && r < |rooms|
    requires hall[h] == Some(FromIdx(r % 4)) && rooms[r].None?
    requires r + 4 < |rooms| ==> Settled(rooms, r + 4)
    ensures Weight(hall[h := None], rooms[r := hall[h]]) < Weight(hall, rooms)
  {
    var rooms' := rooms[r := hall[h]];
    assert HallFlags(hall[h := None]) == HallFlags(hall)[h := false];
    CountSet(HallFlags(hall), h, false);
    if r + 4 < |rooms| {
      SettledUnchanged(rooms, r, hall[h], r + 4);
    }
    assert Settled(rooms', r);
    var a, b := UnsettledFlags(rooms'), UnsettledFlags(rooms);
    forall j | 0 <= j < |rooms|
      ensures a[j] ==> b[j]
    {
      if j != r {
        if j <= r && j % 4 == r % 4 {
          NotSettledAbove(rooms, j, r);
        } else {
          SettledUnchanged(rooms, r, hall[h], j);
        }
      }
    }
    CountMono(a, b);
  }

  /** The topmost amphipod of a room leaving an unsettled slot for an empty
    * hallway cell lowers the measure. */
  lemma MoveOutWeight(hall: seq<Cell>, rooms: seq<Cell>, h: nat, r: nat)
    requires h < |hall| && r < |rooms|
    requires hall[h].None? && rooms[r].Some? && !Settled(rooms, r)
    requires r >= 4 ==> rooms[r - 4].None?
    ensures Weight(hall[h := rooms[r]], rooms[r := None]) < Weight(hall, rooms)
  {
    var rooms' := rooms[r := None];
    assert HallFlags(hall[h := rooms[r]]) == HallFlags(hall)[h := true];
    CountSet(HallFlags(hall), h, true);
    var a, b := UnsettledFlags(rooms'), UnsettledFlags(rooms);
    forall j | 0 <= j < |rooms|
      ensures a[j] ==> b[j]
    {
      if j != r {
        if j <= r && j % 4 == r % 4 {
          NotSettledAbove(rooms, j, r - 4);
        } else {
          SettledUnchanged(rooms, r, None, j);
        }
      }
    }
    CountDrop(a, b, r);
  }

  // ---------------------------------------------------------------- moves

  /** The energy an amphipod of colour `c` spends on `n` steps. */
  function Energy(n: nat, c: Color): nat
  {
    n * Cost(c)
  }

  /** One move, as the history entries `(r_idx, h_idx, cost, color)` record
    * it: the amphipod of colour `color` goes between room slot `room` and
    * hallway cell `hall` for `cost` energy. */
  datatype Step = Step(room: nat, hall: nat, cost: nat, color: Color)

  /** The rules of the burrow for one move. Exactly one of the two places
    * holds the amphipod, the hallway between the cell and the door is free,
    * the cost is the distance times the colour's cost, and an amphipod only
    * enters its own room, above settled amphipods. With `strict`, the slot
    * above the room slot is also free (in a room filled from the bottom that
    * is the whole way up). */
  predicate Legal(hall: seq<Cell>, rooms: seq<Cell>, s: Step, strict: bool)
  {
    |hall| == 7 && s.hall < 7 && s.room < |rooms| &&
    s.cost == Energy(Distance(s.hall, s.room), s.color) &&
    PathClear(hall, s.room % 4, s.hall) &&
    (strict && s.room >= 4 ==> rooms[s.room - 4].None?) &&
    ((hall[s.hall] == Some(s.color) && rooms[s.room].None? && s.room % 4 == Idx(s.color) &&
      (s.room + 4 < |rooms| ==> Settled(rooms, s.room + 4))) ||
     (hall[s.hall].None? && rooms[s.room] == Some(s.color)))
  }

  /** The `swap` of a room slot and a hallway cell that carries out a move. */
  function Apply(hall: seq<Cell>, rooms: seq<Cell>, s: Step): (seq<Cell>, seq<Cell>)
    requires s.hall < |hall| && s.room < |rooms|
  {
    (hall[s.hall := rooms[s.room]], rooms[s.room := hall[s.hall]])
  }

  /** A move keeps every amphipod: hallway and rooms together hold the same
    * amphipods before and after. */
  lemma ApplyKeeps(hall: seq<Cell>, rooms: seq<Cell>, s: Step)
    requires s.hall < |hall| && s.room < |rooms|
    ensures var (h, r) := Apply(hall, rooms, s);
      |h| == |hall| && |r| == |rooms| && multiset(h + r) == multiset(hall + rooms)
  {
    var (h, r) := Apply(hall, rooms, s);
    var c := hall + rooms;
    var i, j := s.hall, |hall| + s.room;
    assert h + r == c[i := c[j]][j := c[i]];
  }

  /** Playing the moves `steps` from the given layout, each by the rules;
    * `None` when one of them breaks them. */
  function Replay(hall: seq<Cell>, rooms: seq<Cell>, steps: seq<Step>, strict: bool): Option<(seq<Cell>, seq<Cell>)>
    decreases |steps|
  {
    if steps == [] then Some((hall, rooms))
    else
      match Replay(hall, rooms, steps[..|steps| - 1], strict)
      case None => None
      case Some((h, r)) =>
        var s := steps[|steps| - 1];
        if Legal(h, r, s, strict) then Some(Apply(h, r, s)) else None
  }

  /** The energy all the moves cost together. */
  function TotalCost(steps: seq<Step>): nat
  {
    if steps == [] then 0 else TotalCost(steps[..|steps| - 1]) + steps[|steps| - 1].cost
  }

  /** Extending a legal history by a legal move. */
  lemma ReplaySnoc(hall: seq<Cell>, rooms: seq<Cell>, steps: seq<Step>, s: Step, strict: bool,
                   h: seq<Cell>, r: seq<Cell>)
    requires Replay(hall, rooms, steps, strict) == Some((h, r)) && Legal(h, r, s, strict)
    ensures Replay(hall, rooms, steps + [s], strict) == Some(Apply(h, r, s))
    ensures TotalCost(steps + [s]) == TotalCost(steps) + s.cost
  {
    assert (steps + [s])[..|steps|] == steps;
  }

  /** Every room holds only its own colour, all its slots full. */
  predicate Winning(rooms: seq<Cell>)
  {
    forall i :: 0 <= i < |rooms| ==> rooms[i] == Some(FromIdx(i % 4))
  }

  /** The moves `steps` are legal from the layout and end in a winning one. */
  predicate Solves(hall: seq<Cell>, rooms: seq<Cell>, steps: seq<Step>, strict: bool)
  {
    var e := Replay(hall, rooms, steps, strict);
    e.Some? && Winning(e.value.1)
  }

  // ---------------------------------------------------------------- the search

  /** The check for a win in `best_score_r`: the rooms equal `A B C D`
    * twice, exactly the winning layout. */
  function IsWon(rooms: seq<Cell>): (w: bool)
    requires |rooms| == 8
    ensures w <==> Winning(rooms)
  {
    var goal := [Some(Amber), Some(Bronze), Some(Copper), Some(Desert),
                 Some(Amber), Some(Bronze), Some(Copper), Some(Desert)];
    assert forall i :: 0 <= i < 8 ==> goal[i] == Some(FromIdx(i % 4));
    rooms == goal
  }

  /** The move the search makes from the hallway into room `rm`: it keeps
    * the rules, it is the `swap` that clears the cell and fills the slot,
    * and it lowers the measure. */
  lemma TakeMove(hall: seq<Cell>, rooms: seq<Cell>, rm: nat, r: nat, h: nat)
    requires |hall| == 7 && |rooms| == 8 && rm < 4
    requires TakeIdx(rooms, rm) == Some(r) && SearchAround(hall, rm) == Some(h)
    ensures var s := Step(r, h, Energy(PathScore(h, r), FromIdx(rm)), FromIdx(rm));
      Legal(hall, rooms, s, true) && Apply(hall, rooms, s) == (hall[h := None], rooms[r := Some(FromIdx(rm))])
    ensures Weight(hall[h := None], rooms[r := Some(FromIdx(rm))]) < Weight(hall, rooms)
  {
    MoveInWeight(hall, rooms, h, r);
  }

  /** The move the search makes from room `rm` to the `i`-th free hallway
    * cell: it keeps the rules, it is the `swap` that fills the cell and
    * empties the slot, and it lowers the measure. */
  lemma GiveMove(hall: seq<Cell>, rooms: seq<Cell>, rm: nat, r: nat, i: nat)
    requires |hall| == 7 && |rooms| == 8 && rm < 4
    requires GiveIdx(rooms, rm) == Some(r) && i < |EmptyAround(hall, rm)|
    ensures var h := EmptyAround(hall, rm)[i];
      var s := Step(r, h, Energy(PathScore(h, r), rooms[r].value), rooms[r].value);
      Legal(hall, rooms, s, true) && Apply(hall, rooms, s) == (hall[h := rooms[r]], rooms[r := None])
    ensures var h := EmptyAround(hall, rm)[i];
      Weight(hall[h := rooms[r]], rooms[r := None]) < Weight(hall, rooms)
  {
    MoveOutWeight(hall, rooms, EmptyAround(hall, rm)[i], r);
  }

  /** `min` is `None` or the cost of `best`, a legal way from the starting
    * layout to a winning one. */
  predicate Found(hall0: seq<Cell>, rooms0: seq<Cell>, min: Option<nat>, best: Option<seq<Step>>)
  {
    min.Some? ==> best.Some? && Solves(hall0, rooms0, best.value, true) && TotalCost(best.value) == min.value
  }

  /** The minimum only ever goes down: it stays, or becomes a smaller one. */
  predicate Lowers(min: Option<nat>, min': Option<nat>)
  {
    min' == min || (min'.Some? && (min.None? || min'.value < min.value))
  }

  /** `best_score_r`: the depth-first search from the layout `hall`,
    * `rooms`, reached from the starting layout by the legal moves `hist` for
    * `score` energy. `min` and `best_hist` are the source's `&mut`
    * parameters, passed in and returned. The search stops because each
    * move lowers `Weight`; the minimum it returns only goes down, and it is
    * always the cost of a legal way to win, recorded in the best history. */
  method BestScoreR(hall: seq<Cell>, rooms: seq<Cell>, score: nat, min: Option<nat>, hist: seq<Step>,
                    best: Option<seq<Step>>, ghost hall0: seq<Cell>, ghost rooms0: seq<Cell>)
      returns (newMin: Option<nat>, newBest: Option<seq<Step>>)
    requires |hall| == 7 && |rooms| == 8
    requires Replay(hall0, rooms0, hist, true) == Some((hall, rooms)) && TotalCost(hist) == score
    requires Found(hall0, rooms0, min, best)
    ensures Found(hall0, rooms0, newMin, newBest)
    ensures Lowers(min, newMin) && (newMin == min ==> newBest == best)
    decreases Weight(hall, rooms)
  {
    newMin, newBest := min, best;
    if min.Some? && min.value <= score {
      return;
    }
    if IsWon(rooms) {
      newMin, newBest := Some(score), Some(hist);
      return;
    }
    // rooms take from the hallway: the first possible such move is the only one tried
    for rm := 0 to 4
      invariant newMin == min && newBest == best
    {
      var target := FromIdx(rm);
      var take := TakeIdx(rooms, rm);
      if take.None? {
        continue;
      }
      var found := SearchAround(hall, rm);
      if found.Some? {
        var r, h := take.value, found.value;
        var step := Step(r, h, Energy(PathScore(h, r), target), target);
        TakeMove(hall, rooms, rm, r, h);
        ReplaySnoc(hall0, rooms0, hist, step, true, hall, rooms);
        newMin, newBest := BestScoreR(hall[h := None], rooms[r := Some(target)], score + step.cost,
                                      min, hist + [step], best, hall0, rooms0);
        return;
      }
    }
    // rooms give to the hallway: every possible such move is tried
    for rm := 0 to 4
      invariant Found(hall0, rooms0, newMin, newBest)
      invariant Lowers(min, newMin) && (newMin == min ==> newBest == best)
    {
      var give := GiveIdx(rooms, rm);
      if give.None? {
        continue;
      }
      var r := give.value;
      var target := rooms[r].value;
      var empty := EmptyAround(hall, rm);
      for i := 0 to |empty|
        invariant Found(hall0, rooms0, newMin, newBest)
        invariant Lowers(min, newMin) && (newMin == min ==> newBest == best)
      {
        var h := empty[i];
        var step := Step(r, h, Energy(PathScore(h, r), target), target);
        GiveMove(hall, rooms, rm, r, i);
        ReplaySnoc(hall0, rooms0, hist, step, true, hall, rooms);
        var m, b := BestScoreR(hall[h := rooms[r]], rooms[r := None], score + step.cost,
                               newMin, hist + [step], newBest, hall0, rooms0);
        newMin, newBest := m, b;
      }
    }
  }

  /** `best_score`: the search from the given layout. `None` stands for the
    * panic of `best.unwrap()` when no way to win was found; otherwise the
    * answer is the cost of a legal way to win, given as `steps`. */
  method BestScore(hall: seq<Cell>, rooms: seq<Cell>) returns (r: Option<nat>, ghost steps: seq<Step>)
    requires |hall| == 7 && |rooms| == 8
    ensures r.Some? ==> Solves(hall, rooms, steps, true) && TotalCost(steps) == r.value
  {
    var min, best := BestScoreR(hall, rooms, 0, None, [], None, hall, rooms);
    steps := [];
    if best.None? || min.None? {
      return None, steps;
    }
    steps := best.value;
    r := Some(min.value);
  }
}
