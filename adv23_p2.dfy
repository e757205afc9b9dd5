/** Day 23, part two: the rooms are four slots deep (sixteen slots, row by
  * row from the top). The search is a worklist of games, each a layout with
  * the energy and number of moves spent to reach it; a table of the games
  * already queued keeps any game from being queued twice, and the cheapest
  * winning score seen so far cuts off more expensive games. The hallway
  * helpers, step rules and measure are those of `Adv23P1`. */
module Adv23P2 {
  import opened Common
  import opened Adv23Common
  import opened Adv23P1

  // ---------------------------------------------------------------- positions

  /** `room_idx_to_pos` for sixteen slots: the column of slot `r`'s door. */
  function RoomPos(r: nat): (p: nat)
    requires r < 16
    ensures p == 2 + 2 * (r % 4)
  {
    [2, 4, 6, 8, 2, 4, 6, 8, 2, 4, 6, 8, 2, 4, 6, 8][r]
  }

  /** `room_idx_to_off` for sixteen slots: how far slot `r` lies below the
    * hallway. */
  function RoomOff(r: nat): (d: nat)
    requires r < 16
    ensures d == r / 4 + 1
  {
    [1, 1, 1, 1, 2, 2, 2, 2, 3, 3, 3, 3, 4, 4, 4, 4][r]
  }

  /** `get_path_score` for sixteen slots: the distance between hallway cell
    * `h` and slot `r`, at least two. */
  function PathScore(h: nat, r: nat): (s: nat)
    requires h < 7 && r < 16
    ensures s == Distance(h, r) && s >= 2
  {
    Abs(HallPos(h) - RoomPos(r)) + RoomOff(r)
  }

  // ---------------------------------------------------------------- games

  /** `Game`: a layout with the energy spent and the moves made to reach it.
    * Two games are the same only when all four parts agree (the derived
    * `Eq` and `Hash`). */
  datatype Game = Game(hall: seq<Cell>, rooms: seq<Cell>, score: nat, moves: nat)

  /** The hallway has seven cells and the rooms sixteen slots. */
  predicate Sized(g: Game)
  {
    |g.hall| == 7 && |g.rooms| == 16
  }

  /** The base-5 digit `unique_id` gives a cell: the colour's number, or 4
    * for an empty cell. */
  function Digit(c: Cell): (d: nat)
    ensures d < 5
  {
    match c
    case Some(x) => Idx(x)
    case None => 4
  }

  /** The cells read as a base-5 number, the first cell the most
    * significant digit. */
  function Code(cells: seq<Cell>): nat
  {
    if cells == [] then 0 else Code(cells[..|cells| - 1]) * 5 + Digit(cells[|cells| - 1])
  }

  /** The number has `|cells|` base-5 digits. */
  lemma {:induction false} CodeBound(cells: seq<Cell>)
    ensures Code(cells) < Pow(5, |cells|)
  {
    if cells != [] {
      CodeBound(cells[..|cells| - 1]);
    }
  }

  /** Equally long cell sequences with the same number are equal. */
  lemma {:induction false} CodeInjective(a: seq<Cell>, b: seq<Cell>)
    requires |a| == |b| && Code(a) == Code(b)
    ensures a == b
  {
    if a != [] {
      var n := |a| - 1;
      ModUnique(Code(a), 5, Code(a[..n]), Digit(a[n]));
      ModUnique(Code(b), 5, Code(b[..n]), Digit(b[n]));
      if a[n].Some? && b[n].Some? {
        FromIdxOfIdx(a[n].value);
        FromIdxOfIdx(b[n].value);
      }
      CodeInjective(a[..n], b[..n]);
      assert a == a[..n] + [a[n]] && b == b[..n] + [b[n]];
    }
  }

  /** `unique_id`: the hallway and then the rooms read as a base-5 number. */
  method UniqueId(g: Game) returns (id: nat)
    ensures id == Code(g.hall + g.rooms)
  {
    var cells := g.hall + g.rooms;
    id := 0;
    for i := 0 to |cells|
      invariant id == Code(cells[..i])
    {
      assert cells[..i + 1][..i] == cells[..i];
      id := id * 5 + Digit(cells[i]);
    }
    assert cells[..|cells|] == cells;
  }

  /** Two games of the right size with the same `unique_id` have the same
    * layout, so the id tells layouts apart. */
  lemma UniqueIdInjective(g: Game, g': Game)
    requires Sized(g) && Sized(g') && Code(g.hall + g.rooms) == Code(g'.hall + g'.rooms)
    ensures g.hall == g'.hall && g.rooms == g'.rooms
  {
    CodeInjective(g.hall + g.rooms, g'.hall + g'.rooms);
    assert (g.hall + g.rooms)[..7] == g.hall && (g'.hall + g'.rooms)[..7] == g'.hall;
    assert (g.hall + g.rooms)[7..] == g.rooms && (g'.hall + g'.rooms)[7..] == g'.rooms;
  }

  // ---------------------------------------------------------------- rooms

  /** The loop of `get_take_to_idx` from row `i` up, the rows below `i`
    * holding settled amphipods: the first empty slot met, unless a foreign
    * colour comes first. */
  function TakeScan(rooms: seq<Cell>, rm: nat, i: nat): (r: Option<nat>)
    requires |rooms| == 16 && rm < 4 && i < 4
    requires 4 * i + rm + 4 < 16 ==> Settled(rooms, 4 * i + rm + 4)
    ensures r.Some? ==> r.value % 4 == rm && r.value <= 4 * i + rm && rooms[r.value].None?
    ensures r.Some? ==> r.value + 4 < 16 ==> Settled(rooms, r.value + 4)
    decreases i
  {
    var idx := 4 * i + rm;
    if rooms[idx].None? then Some(idx)
    else if Idx(rooms[idx].value) != rm then None
    else if i == 0 then None
    else
      FromIdxOfIdx(rooms[idx].value);
      TakeScan(rooms, rm, i - 1)
  }

  /** When the scan finds nothing, no empty slot of the room at or above
    * row `i` has only settled amphipods below it. */
  lemma {:induction false} TakeScanNone(rooms: seq<Cell>, rm: nat, i: nat)
    requires |rooms| == 16 && rm < 4 && i < 4
    requires 4 * i + rm + 4 < 16 ==> Settled(rooms, 4 * i + rm + 4)
    requires TakeScan(rooms, rm, i).None?
    ensures forall k :: 0 <= k <= 4 * i + rm && k % 4 == rm && rooms[k].None? ==>
      k + 4 < 16 && !Settled(rooms, k + 4)
    decreases i
  {
    var idx := 4 * i + rm;
    if Idx(rooms[idx].value) != rm {
      forall k | 0 <= k < idx && k % 4 == rm && rooms[k].None?
        ensures !Settled(rooms, k + 4)
      {
        NotSettledAbove(rooms, k + 4, idx);
      }
    } else if i > 0 {
      FromIdxOfIdx(rooms[idx].value);
      TakeScanNone(rooms, rm, i - 1);
    }
  }

  /** `get_take_to_idx`: the slot of room `rm` an amphipod of its colour
    * moves into: an empty slot whose room holds only settled amphipods
    * below it. */
  function TakeTo(g: Game, rm: nat): (r: Option<nat>)
    requires Sized(g) && rm < 4
    ensures r.Some? ==> r.value % 4 == rm && r.value < 16 && g.rooms[r.value].None?
    ensures r.Some? ==> r.value + 4 < 16 ==> Settled(g.rooms, r.value + 4)
  {
    TakeScan(g.rooms, rm, 3)
  }

  /** `get_take_to_idx` answers `None` only when every empty slot of the
    * room has a foreign amphipod somewhere below it. */
  lemma TakeToNone(g: Game, rm: nat)
    requires Sized(g) && rm < 4 && TakeTo(g, rm).None?
    ensures forall k :: 0 <= k < 16 && k % 4 == rm && g.rooms[k].None? ==> k + 4 < 16 && !Settled(g.rooms, k + 4)
  {
    TakeScanNone(g.rooms, rm, 3);
  }

  /** Slot `k` and every slot below it in its room are occupied. */
  predicate Filled(rooms: seq<Cell>, k: nat)
    requires k < |rooms|
    decreases |rooms| - k
  {
    rooms[k].Some? && (k + 4 < |rooms| ==> Filled(rooms, k + 4))
  }

  /** A filled slot has only occupied slots below it. */
  lemma {:induction false} FilledBelow(rooms: seq<Cell>, j: nat, k: nat)
    requires j <= k < |rooms| && j % 4 == k % 4 && Filled(rooms, j)
    ensures rooms[k].Some?
    decreases k - j
  {
    if j < k {
      FilledBelow(rooms, j + 4, k);
    }
  }

  /** A settled slot has only settled slots below it. */
  lemma {:induction false} SettledBelow(rooms: seq<Cell>, j: nat, k: nat)
    requires j <= k < |rooms| && j % 4 == k % 4 && Settled(rooms, j)
    ensures Settled(rooms, k)
    decreases k - j
  {
    if j < k {
      SettledBelow(rooms, j + 4, k);
    }
  }

  /** `get_give_from_idx`: the slot of room `rm` whose amphipod leaves, if
    * any. Walking up from the bottom through the occupied slots, the answer
    * is the topmost of them once a foreign colour has been met: an
    * unsettled amphipod with nothing directly above it. `None` means the
    * occupied slots at the bottom of the room are all settled. */
  method GetGiveFromIdx(g: Game, rm: nat) returns (ret: Option<nat>)
    requires Sized(g) && rm < 4
    ensures ret.Some? ==> ret.value % 4 == rm && ret.value < 16 && g.rooms[ret.value].Some?
    ensures ret.Some? ==> !Settled(g.rooms, ret.value) && (ret.value >= 4 ==> g.rooms[ret.value - 4].None?)
    ensures ret.None? ==> forall k :: 0 <= k < 16 && k % 4 == rm && Filled(g.rooms, k) ==> Settled(g.rooms, k)
  {
    var rooms := g.rooms;
    ret := None;
    var i := 4;
    while i > 0
      invariant 0 <= i <= 4
      invariant i < 4 ==> Filled(rooms, 4 * i + rm)
      invariant ret.None? ==> i < 4 ==> Settled(rooms, 4 * i + rm)
      invariant ret.Some? ==> i < 4 && ret.value == 4 * i + rm && !Settled(rooms, ret.value)
      decreases i
    {
      var idx := 4 * (i - 1) + rm;
      SlotOf(rooms, rm, i - 1);
      if rooms[idx].None? {
        break;
      }
      if ret.Some? || Idx(rooms[idx].value) != rm {
        ret := Some(idx);
      } else {
        FromIdxOfIdx(rooms[idx].value);
      }
      i := i - 1;
    }
    if ret.None? {
      GiveNone(rooms, rm, i);
    }
  }

  /** Slot `4 * j + rm` is in room `rm`; it is filled (settled) when it is
    * occupied (by the room's colour) and the slot below it, if any, is
    * filled (settled). */
  lemma SlotOf(rooms: seq<Cell>, rm: nat, j: nat)
    requires |rooms| == 16 && rm < 4 && j < 4
    ensures 4 * j + rm < 16 && (4 * j + rm) % 4 == rm
    ensures Filled(rooms, 4 * j + rm) <==> rooms[4 * j + rm].Some? && (j < 3 ==> Filled(rooms, 4 * (j + 1) + rm))
    ensures Settled(rooms, 4 * j + rm) <==> rooms[4 * j + rm] == Some(FromIdx(rm)) && (j < 3 ==> Settled(rooms, 4 * (j + 1) + rm))
  {
    assert 4 * (j + 1) + rm == 4 * j + rm + 4;
  }

  /** When the walk up room `rm` stops at row `i` (the slot above is empty,
    * or the top is reached) having met only settled amphipods, every filled
    * slot of the room is settled. */
  lemma GiveNone(rooms: seq<Cell>, rm: nat, i: nat)
    requires |rooms| == 16 && rm < 4 && i <= 4
    requires i < 4 ==> Filled(rooms, 4 * i + rm) && Settled(rooms, 4 * i + rm)
    requires i > 0 ==> rooms[4 * (i - 1) + rm].None?
    ensures forall k :: 0 <= k < 16 && k % 4 == rm && Filled(rooms, k) ==> Settled(rooms, k)
  {
    forall k | 0 <= k < 16 && k % 4 == rm && Filled(rooms, k)
      ensures Settled(rooms, k)
    {
      if k < 4 * i + rm {
        FilledBelow(rooms, k, 4 * (i - 1) + rm);
      } else {
        SettledBelow(rooms, 4 * i + rm, k);
      }
    }
  }

  /** `is_winning`: every row of four slots is `A B C D`, exactly the
    * winning layout. */
  function IsWinning(g: Game): (w: bool)
    requires Sized(g)
    ensures w <==> Winning(g.rooms)
  {
    var row := [Some(Amber), Some(Bronze), Some(Copper), Some(Desert)];
    assert forall i :: 0 <= i < 4 ==> row[i] == Some(FromIdx(i));
    var w := forall k :: 0 <= k < 4 ==> g.rooms[4 * k..4 * k + 4] == row;
    assert w ==> Winning(g.rooms) by {
      if w {
        forall i | 0 <= i < 16
          ensures g.rooms[i] == Some(FromIdx(i % 4))
        {
          var k := i / 4;
          assert g.rooms[4 * k..4 * k + 4][i % 4] == g.rooms[i];
        }
      }
    }
    w
  }

  // ---------------------------------------------------------------- moves

  /** `with_swap_hr`: the game after swapping hallway cell `h` and slot `r`
    * and paying for `c`'s walk between them. It is the move `Apply`
    * describes, one more move and the walk's energy, and it keeps every
    * amphipod. */
  function WithSwapHr(g: Game, h: nat, r: nat, c: Color): (g': Game)
    requires Sized(g) && h < 7 && r < 16
    ensures Sized(g') && (g'.hall, g'.rooms) == Apply(g.hall, g.rooms, Step(r, h, Energy(PathScore(h, r), c), c))
    ensures g'.score == g.score + Energy(Distance(h, r), c) && g'.moves == g.moves + 1
    ensures multiset(g'.hall + g'.rooms) == multiset(g.hall + g.rooms)
  {
    ApplyKeeps(g.hall, g.rooms, Step(r, h, Energy(PathScore(h, r), c), c));
    Game(g.hall[h := g.rooms[r]], g.rooms[r := g.hall[h]], g.score + Energy(PathScore(h, r), c), g.moves + 1)
  }

  /** `is_path_between_rooms`: the loop over hallway cells `lo + 2` to
    * `hi + 1`, stopping at the first amphipod. */
  function ClearScan(hall: seq<Cell>, k: nat, end: nat): (b: bool)
    requires end <= |hall|
    ensures b <==> Clear(hall, k, end)
    decreases end - k
  {
    k >= end || (hall[k].None? && ClearScan(hall, k + 1, end))
  }

  /** `is_path_between_rooms`: the hallway between the doors of rooms `lo`
    * and `hi` is free. */
  function IsPathBetweenRooms(g: Game, lo: nat, hi: nat): (b: bool)
    requires Sized(g) && hi + 1 < 7
    ensures b <==> Clear(g.hall, lo + 2, hi + 2)
  {
    ClearScan(g.hall, lo + 2, hi + 2)
  }

  /** `room_path_cost`: the walk between slots `lo` and `hi` of two rooms,
    * up to the hallway, along it and down. The source subtracts the door
    * columns in `u64`, so `hi`'s door may not lie left of `lo`'s. */
  function RoomPathCost(lo: nat, hi: nat): (d: nat)
    requires lo < 16 && hi < 16 && RoomPos(lo) <= RoomPos(hi)
    ensures d == 2 * (hi % 4) - 2 * (lo % 4) + lo / 4 + hi / 4 + 2
  {
    RoomPos(hi) - RoomPos(lo) + RoomOff(lo) + RoomOff(hi)
  }

  /** `with_swap_rr`: the game after swapping slots `i1` and `i2` (the
    * source's `split_at_mut` needs them different) and paying for `c`'s
    * walk between them. The hallway stays, and so do the amphipods. */
  function WithSwapRr(g: Game, i1: nat, i2: nat, c: Color): (g': Game)
    requires Sized(g) && i1 < 16 && i2 < 16 && i1 != i2
    requires RoomPos(if i1 < i2 then i1 else i2) <= RoomPos(if i1 < i2 then i2 else i1)
    ensures Sized(g') && g'.hall == g.hall && g'.moves == g.moves + 1
    ensures g'.rooms[i1] == g.rooms[i2] && g'.rooms[i2] == g.rooms[i1]
    ensures forall k :: 0 <= k < 16 && k != i1 && k != i2 ==> g'.rooms[k] == g.rooms[k]
    ensures multiset(g'.rooms) == multiset(g.rooms)
    ensures g'.score == g.score + Energy(RoomPathCost(if i1 < i2 then i1 else i2, if i1 < i2 then i2 else i1), c)
  {
    var lo, hi := if i1 < i2 then i1 else i2, if i1 < i2 then i2 else i1;
    var rooms := g.rooms[lo := g.rooms[hi]][hi := g.rooms[lo]];
    Game(g.hall, rooms, g.score + Energy(RoomPathCost(lo, hi), c), g.moves + 1)
  }

  /** The move between hallway cell `h` and slot `r` by an amphipod of
    * colour `c`, priced as `with_swap_hr` prices it. */
  function MoveStep(h: nat, r: nat, c: Color): Step
    requires h < 7 && r < 16
  {
    Step(r, h, Energy(PathScore(h, r), c), c)
  }

  // ---------------------------------------------------------------- layouts filled from the bottom

  /** No amphipod stands above an empty slot of its room. */
  predicate Packed(rooms: seq<Cell>)
  {
    forall k :: 4 <= k < |rooms| && rooms[k].None? ==> rooms[k - 4].None?
  }

  /** A game reached from `start` by the legal moves `steps`, its score and
    * move count those of `start` plus what the moves add. */
  predicate Reached(start: Game, steps: seq<Step>, g: Game, strict: bool)
  {
    Replay(start.hall, start.rooms, steps, strict) == Some((g.hall, g.rooms)) &&
    g.score == start.score + TotalCost(steps) && g.moves == start.moves + |steps|
  }

  /** A reached game followed by a legal move is reached. */
  lemma ReachedSnoc(start: Game, steps: seq<Step>, g: Game, s: Step, c: Game, strict: bool)
    requires Reached(start, steps, g, strict) && Legal(g.hall, g.rooms, s, strict)
    requires (c.hall, c.rooms) == Apply(g.hall, g.rooms, s) && c.score == g.score + s.cost && c.moves == g.moves + 1
    ensures Reached(start, steps + [s], c, strict)
  {
    ReplaySnoc(start.hall, start.rooms, steps, s, strict, g.hall, g.rooms);
  }

  /** The move `reproduce` makes from the hallway into room `rm`: legal,
    * strictly so in a packed layout, which it keeps packed, and lowering
    * the measure. */
  lemma TakeToMove(g: Game, rm: nat, r: nat, h: nat)
    requires Sized(g) && rm < 4
    requires TakeTo(g, rm) == Some(r) && SearchAround(g.hall, rm) == Some(h)
    ensures var s := Step(r, h, Energy(PathScore(h, r), FromIdx(rm)), FromIdx(rm));
      Legal(g.hall, g.rooms, s, Packed(g.rooms))
    ensures var c := WithSwapHr(g, h, r, FromIdx(rm));
      Weight(c.hall, c.rooms) < Weight(g.hall, g.rooms) && (Packed(g.rooms) ==> Packed(c.rooms))
  {
    MoveInWeight(g.hall, g.rooms, h, r);
  }

  /** The move `reproduce` makes from slot `r` of room `rm`, as
    * `get_give_from_idx` picks it, to the `i`-th free hallway cell: legal,
    * strictly so in a packed layout, which it keeps packed, and lowering
    * the measure. */
  lemma GiveFromMove(g: Game, rm: nat, r: nat, i: nat)
    requires Sized(g) && rm < 4
    requires r % 4 == rm && r < 16 && g.rooms[r].Some? && !Settled(g.rooms, r)
    requires r >= 4 ==> g.rooms[r - 4].None?
    requires i < |EmptyAround(g.hall, rm)|
    ensures var h := EmptyAround(g.hall, rm)[i];
      var s := Step(r, h, Energy(PathScore(h, r), g.rooms[r].value), g.rooms[r].value);
      Legal(g.hall, g.rooms, s, Packed(g.rooms))
    ensures var c := WithSwapHr(g, EmptyAround(g.hall, rm)[i], r, g.rooms[r].value);
      Weight(c.hall, c.rooms) < Weight(g.hall, g.rooms) && (Packed(g.rooms) ==> Packed(c.rooms))
  {
    MoveOutWeight(g.hall, g.rooms, EmptyAround(g.hall, rm)[i], r);
  }

  // ---------------------------------------------------------------- the worklist

  /** `u64::MAX`, the score the search starts from and answers when it
    * finds no way to win. */
  const U64Max: nat := 0xFFFF_FFFF_FFFF_FFFF

  /** `29` to the power `w`: at most this many games are ever taken from
    * the worklist on account of a game of weight `w`, since a game spawns
    * at most 28 lighter ones. */
  function TreeBound(w: nat): (b: nat)
    ensures b >= 1
  {
    if w == 0 then 1 else 29 * TreeBound(w - 1)
  }

  lemma {:induction false} TreeBoundMono(v: nat, w: nat)
    requires v <= w
    ensures TreeBound(v) <= TreeBound(w)
    decreases w
  {
    if v < w {
      TreeBoundMono(v, w - 1);
    }
  }

  /** What the worklist can still yield: the bounds of all its games. */
  function Potential(gs: seq<Game>): nat
  {
    if gs == [] then 0 else Potential(gs[..|gs| - 1]) + TreeBound(Weight(gs[|gs| - 1].hall, gs[|gs| - 1].rooms))
  }

  lemma {:induction false} PotentialConcat(a: seq<Game>, b: seq<Game>)
    ensures Potential(a + b) == Potential(a) + Potential(b)
    decreases |b|
  {
    if b == [] {
      assert a + b == a;
    } else {
      var n := |b| - 1;
      assert (a + b)[..|a + b| - 1] == a + b[..n];
      PotentialConcat(a, b[..n]);
    }
  }

  /** Games all lighter than `w` add at most the bound of weight `w - 1`
    * each. */
  lemma {:induction false} PotentialLighter(gs: seq<Game>, w: nat)
    requires w >= 1
    requires forall i :: 0 <= i < |gs| ==> Weight(gs[i].hall, gs[i].rooms) < w
    ensures Potential(gs) <= |gs| * TreeBound(w - 1)
  {
    if gs != [] {
      var n := |gs| - 1;
      var x := TreeBound(w - 1);
      PotentialLighter(gs[..n], w);
      TreeBoundMono(Weight(gs[n].hall, gs[n].rooms), w - 1);
      assert |gs| * x == n * x + x;
    }
  }

  /** At most 28 games all lighter than `w` yield less than one game of
    * weight `w`. */
  lemma FewLighter(gs: seq<Game>, w: nat)
    requires |gs| <= 28
    requires forall i :: 0 <= i < |gs| ==> Weight(gs[i].hall, gs[i].rooms) < w
    ensures Potential(gs) < TreeBound(w)
  {
    if gs != [] {
      assert Weight(gs[0].hall, gs[0].rooms) < w;
      var x := TreeBound(w - 1);
      PotentialLighter(gs, w);
      MulMono(|gs|, 28, x);
    }
  }

  lemma MulMono(n: nat, m: nat, x: nat)
    requires n <= m
    ensures n * x <= m * x
  {
  }

  /** `g'` is lighter than `g`: the measure of what is left to do drops. */
  predicate Lighter(g': Game, g: Game)
  {
    Weight(g'.hall, g'.rooms) < Weight(g.hall, g.rooms)
  }

  /** The stack `after` is `before` with at most `n` games pushed, all
    * lighter than `g`. */
  predicate Grows(before: seq<Game>, after: seq<Game>, g: Game, n: nat)
  {
    before <= after && |after| <= |before| + n &&
    forall i :: |before| <= i < |after| ==> Lighter(after[i], g)
  }

  lemma GrowsTrans(a: seq<Game>, b: seq<Game>, c: seq<Game>, g: Game, m: nat, n: nat)
    requires Grows(a, b, g, m) && Grows(b, c, g, n)
    ensures Grows(a, c, g, m + n)
  {
    forall i | |a| <= i < |c|
      ensures Lighter(c[i], g)
    {
      if i < |b| {
        assert c[i] == b[i];
      }
    }
  }

  lemma GrowsMore(a: seq<Game>, b: seq<Game>, g: Game, m: nat, n: nat)
    requires Grows(a, b, g, m) && m <= n
    ensures Grows(a, b, g, n)
  {
  }

  /** Replacing a game by at most 28 lighter ones lowers the potential. */
  lemma Shrinks(rest: seq<Game>, g: Game, after: seq<Game>)
    requires Grows(rest, after, g, 28)
    ensures Potential(after) < Potential(rest + [g])
  {
    var pushed := after[|rest|..];
    assert after == rest + pushed;
    forall i | 0 <= i < |pushed|
      ensures Weight(pushed[i].hall, pushed[i].rooms) < Weight(g.hall, g.rooms)
    {
      assert pushed[i] == after[|rest| + i];
    }
    FewLighter(pushed, Weight(g.hall, g.rooms));
    PotentialConcat(rest, pushed);
    PotentialConcat(rest, [g]);
    assert [g][..0] == [];
  }

  lemma LastSplit(gs: seq<Game>)
    requires gs != []
    ensures gs == gs[..|gs| - 1] + [gs[|gs| - 1]]
  {
  }

  /** The first loop of `reproduce`: the first room, counted from the left,
    * that has a slot to take an amphipod in and an amphipod of its colour
    * that can walk there, with that slot and that hallway cell. */
  method FirstTake(g: Game) returns (r: Option<(nat, nat, nat)>)
    requires Sized(g)
    ensures r.Some? ==>
      r.value.0 < 4 && TakeTo(g, r.value.0) == Some(r.value.1) && SearchAround(g.hall, r.value.0) == Some(r.value.2)
    ensures forall rm :: 0 <= rm < (if r.Some? then r.value.0 else 4) ==>
      TakeTo(g, rm).None? || SearchAround(g.hall, rm).None?
  {
    for rm := 0 to 4
      invariant forall k :: 0 <= k < rm ==> TakeTo(g, k).None? || SearchAround(g.hall, k).None?
    {
      var take := TakeTo(g, rm);
      if take.None? {
        continue;
      }
      var found := SearchAround(g.hall, rm);
      if found.Some? {
        return Some((rm, take.value, found.value));
      }
    }
    return None;
  }

  /** The invariant of `World` on its fields' values: every game ever queued
    * is of the right size, was reached from the start by legal moves
    * (strictly legal ones when the start is packed), and is keyed by its own
    * score; the stack holds queued games, each at most once; a score below
    * `u64::MAX` is that of a winning game. */
  ghost predicate WorldInv(start: Game, games: seq<Game>, minScore: nat, minScores: map<Game, nat>,
                           trail: map<Game, seq<Step>>, best: Game)
  {
    Sized(start) && minScore <= U64Max &&
    (forall g :: g in minScores ==>
      minScores[g] == g.score && Sized(g) && g in trail &&
      Reached(start, trail[g], g, Packed(start.rooms)) && (Packed(start.rooms) ==> Packed(g.rooms))) &&
    (forall i :: 0 <= i < |games| ==> games[i] in minScores) &&
    (forall i, j :: 0 <= i < j < |games| ==> games[i] != games[j]) &&
    (minScore < U64Max ==> best in minScores && Winning(best.rooms) && best.score == minScore)
  }

  /** Queuing a game not queued before, with a legal way to it, keeps the
    * invariant. */
  lemma QueueKeeps(start: Game, games: seq<Game>, minScore: nat, minScores: map<Game, nat>,
                   trail: map<Game, seq<Step>>, best: Game, g: Game, steps: seq<Step>)
    requires WorldInv(start, games, minScore, minScores, trail, best)
    requires g !in minScores && Sized(g) && Reached(start, steps, g, Packed(start.rooms))
    requires Packed(start.rooms) ==> Packed(g.rooms)
    ensures WorldInv(start, games + [g], minScore, minScores[g := g.score], trail[g := steps], best)
  {
  }

  /** `World`: the stack of games still to expand, the best winning score
    * found, and the score each game was queued with. The ghost fields
    * record where the search started, a legal way there for every game
    * queued, and the winning game behind `minScore`. */
  class World {
    var games: seq<Game>
    var minScore: nat
    var minScores: map<Game, nat>
    ghost var start: Game
    ghost var trail: map<Game, seq<Step>>
    ghost var best: Game

    /** Every game ever queued is of the right size, was reached from the
      * start by legal moves (strictly legal ones when the start is packed),
      * and is keyed by its own score; the stack holds queued games, each at
      * most once; a score below `u64::MAX` is that of a winning game. */
    ghost predicate Valid()
      reads this
    {
      WorldInv(start, games, minScore, minScores, trail, best)
    }

    /** `World::new`: no games, no score yet. */
    constructor (ghost start: Game)
      requires Sized(start)
      ensures Valid() && this.start == start
      ensures games == [] && minScore == U64Max && minScores == map[]
    {
      games, minScore, minScores := [], U64Max, map[];
      this.start := start;
      trail := map[];
      best := start;
    }

    /** `add_game` (and `with_game`): queue a game unless it was queued
      * before. Since a game is keyed together with its own score, a game
      * once queued is never queued again. */
    method AddGame(g: Game, ghost steps: seq<Step>)
      requires Valid() && Sized(g) && Reached(start, steps, g, Packed(start.rooms))
      requires Packed(start.rooms) ==> Packed(g.rooms)
      modifies this
      ensures Valid() && start == old(start) && minScore == old(minScore)
      ensures g in old(minScores) ==> games == old(games) && minScores == old(minScores)
      ensures g !in old(minScores) ==> games == old(games) + [g] && minScores == old(minScores)[g := g.score]
    {
      // an occupied entry with a higher score is overwritten, a vacant one filled
      if g in minScores && minScores[g] <= g.score {
        return;
      }
      QueueKeeps(start, games, minScore, minScores, trail, best, g, steps);
      minScores := minScores[g := g.score];
      trail := trail[g := steps];
      games := games + [g];
    }

    /** Queue the game the move of colour `c` between hallway cell `h` and
      * slot `r` leads to from the queued game `g`. */
    method Push(g: Game, h: nat, r: nat, c: Color)
      requires Valid() && g in minScores && h < 7 && r < 16
      requires Legal(g.hall, g.rooms, MoveStep(h, r, c), Packed(g.rooms))
      requires Packed(g.rooms) ==> Packed(WithSwapHr(g, h, r, c).rooms)
      requires Lighter(WithSwapHr(g, h, r, c), g)
      modifies this
      ensures Valid() && start == old(start) && minScore == old(minScore) && g in minScores
      ensures Grows(old(games), games, g, 1)
    {
      ghost var steps := trail[g];
      var c' := WithSwapHr(g, h, r, c);
      ReachedSnoc(start, steps, g, MoveStep(h, r, c), c', Packed(start.rooms));
      AddGame(c', steps + [MoveStep(h, r, c)]);
    }

    /** The inner loop of the second half of `reproduce`: the amphipod in
      * slot `r` of room `rm` moves to each free hallway cell it can reach,
      * each such game queued. */
    method PushOut(g: Game, rm: nat, r: nat)
      requires Valid() && g in minScores && Sized(g) && rm < 4
      requires r % 4 == rm && r < 16 && g.rooms[r].Some? && !Settled(g.rooms, r)
      requires r >= 4 ==> g.rooms[r - 4].None?
      modifies this
      ensures Valid() && start == old(start) && minScore == old(minScore) && g in minScores
      ensures Grows(old(games), games, g, 7)
    {
      var moveColor := g.rooms[r].value;
      var empty := EmptyAround(g.hall, rm);
      for i := 0 to |empty|
        invariant Valid() && start == old(start) && minScore == old(minScore) && g in minScores
        invariant Grows(old(games), games, g, i)
      {
        GiveFromMove(g, rm, r, i);
        ghost var before := games;
        Push(g, empty[i], r, moveColor);
        GrowsTrans(old(games), before, games, g, i, 1);
      }
      GrowsMore(old(games), games, g, |empty|, 7);
    }

    /** The second loop of `reproduce`: from every room whose top amphipod
      * has to leave, that amphipod moves to each free hallway cell it can
      * reach, each such game queued. */
    method PushAllOut(g: Game)
      requires Valid() && g in minScores
      modifies this
      ensures Valid() && start == old(start) && minScore == old(minScore)
      ensures Grows(old(games), games, g, 28)
    {
      for rm := 0 to 4
        invariant Valid() && start == old(start) && minScore == old(minScore) && g in minScores
        invariant Grows(old(games), games, g, 7 * rm)
      {
        ghost var before := games;
        PushRoomOut(g, rm);
        GrowsTrans(old(games), before, games, g, 7 * rm, 7);
      }
    }

    /** One round of the second loop of `reproduce`: if room `rm` has an
      * amphipod to give, it moves to each free hallway cell it can reach. */
    method PushRoomOut(g: Game, rm: nat)
      requires Valid() && g in minScores && rm < 4
      modifies this
      ensures Valid() && start == old(start) && minScore == old(minScore) && g in minScores
      ensures Grows(old(games), games, g, 7)
    {
      var give := GetGiveFromIdx(g, rm);
      if give.Some? {
        PushOut(g, rm, give.value);
      }
    }

    /** `reproduce`: expand the game `g`. A game no cheaper than the best
      * score is dropped; a winning game lowers the best score to its own;
      * otherwise the first possible move from the hallway into a room is
      * queued alone, or failing that every move from a room into the
      * hallway. Every game queued is lighter than `g`, and there are at
      * most 28 of them. */
    method Reproduce(g: Game)
      requires Valid() && g in minScores
      modifies this
      ensures Valid() && start == old(start)
      ensures minScore <= old(minScore)
      ensures minScore < old(minScore) ==> Winning(g.rooms) && minScore == g.score
      ensures old(minScore) <= g.score ==> games == old(games) && minScore == old(minScore)
      ensures Grows(old(games), games, g, 28)
    {
      if minScore <= g.score {
        return;
      }
      if IsWinning(g) {
        minScore := g.score;
        best := g;
        return;
      }
      // rooms take from the hallway
      var take := FirstTake(g);
      if take.Some? {
        var (rm, r, h) := take.value;
        TakeToMove(g, rm, r, h);
        Push(g, h, r, FromIdx(rm));
        GrowsMore(old(games), games, g, 1, 28);
        return;
      }
      // rooms give to the hallway
      PushAllOut(g);
    }

    /** `games.pop()`: the game on top of the stack, taken off it. */
    method Pop() returns (g: Game)
      requires Valid() && games != []
      modifies this
      ensures Valid() && g in minScores
      ensures start == old(start) && minScore == old(minScore) && minScores == old(minScores)
      ensures old(games) == games + [g]
    {
      g := games[|games| - 1];
      LastSplit(games);
      games := games[..|games| - 1];
    }

    /** `run`: expand games from the top of the stack until it is empty,
      * then answer the best score. The loop ends because every expansion
      * lowers `Potential`. The answer is `u64::MAX` or the cost of a legal
      * way from the start to a winning layout, given as `steps`. */
    method Run() returns (r: nat, ghost steps: seq<Step>)
      requires Valid()
      modifies this
      ensures Valid() && start == old(start) && games == []
      ensures r == minScore && r <= old(minScore) && r <= U64Max
      ensures r < U64Max ==> Solves(start.hall, start.rooms, steps, Packed(start.rooms)) && start.score + TotalCost(steps) == r
    {
      while games != []
        invariant Valid() && start == old(start) && minScore <= old(minScore)
        decreases Potential(games)
      {
        var g := Pop();
        ghost var rest := games;
        Reproduce(g);
        Shrinks(rest, g, games);
      }
      r := minScore;
      steps := if r < U64Max then trail[best] else [];
    }
  }

  /** `best_score`: the worklist search from the given layout, with no
    * energy spent and no moves made. The answer is `u64::MAX` or the cost
    * of a legal way to win, strictly legal when the rooms start packed. */
  method BestScore(hall: seq<Cell>, rooms: seq<Cell>) returns (r: nat, ghost steps: seq<Step>)
    requires |hall| == 7 && |rooms| == 16
    ensures r <= U64Max
    ensures r < U64Max ==> Solves(hall, rooms, steps, Packed(rooms)) && TotalCost(steps) == r
  {
    var start := Game(hall, rooms, 0, 0);
    var world := new World(start);
    world.AddGame(start, []);
    r, steps := world.Run();
  }
}
