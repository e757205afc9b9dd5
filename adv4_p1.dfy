/** adv-4/p1.c: bingo on 5x5 boards. A board is a pair of fixed-size arrays,
  * the numbers and their "selected" flags; calls are marked board by board
  * and the first board that wins on a call is scored. */
module Adv4P1 {
  import opened Common

  const Side: nat := 5
  const CellCount: nat := 25

  /** The flag of row `r`, column `c`: `is_select[r*5+c]`. */
  predicate At(sel: seq<bool>, r: nat, c: nat)
    requires |sel| == CellCount && r < Side && c < Side
  {
    sel[r * Side + c]
  }

  /** Cells `j..4` of row `i` are all selected. */
  predicate RowFrom(sel: seq<bool>, i: nat, j: nat)
    requires |sel| == CellCount && i < Side && j <= Side
    decreases Side - j
  {
    j == Side || (At(sel, i, j) && RowFrom(sel, i, j + 1))
  }

  /** Cells `j..4` of column `i` are all selected. */
  predicate ColFrom(sel: seq<bool>, i: nat, j: nat)
    requires |sel| == CellCount && i < Side && j <= Side
    decreases Side - j
  {
    j == Side || (At(sel, j, i) && ColFrom(sel, i, j + 1))
  }

  /** Some row or column numbered `i` or higher is fully selected. */
  predicate WinsFrom(sel: seq<bool>, i: nat)
    requires |sel| == CellCount && i <= Side
    decreases Side - i
  {
    i < Side && (RowFrom(sel, i, 0) || ColFrom(sel, i, 0) || WinsFrom(sel, i + 1))
  }

  /** `is_winner`'s condition: a full row or a full column. */
  predicate Wins(sel: seq<bool>)
    requires |sel| == CellCount
  {
    WinsFrom(sel, 0)
  }

  /** Every cell of row `i` is selected. */
  predicate FullRow(sel: seq<bool>, i: nat)
    requires |sel| == CellCount && i < Side
  {
    forall j :: 0 <= j < Side ==> At(sel, i, j)
  }

  /** Every cell of column `i` is selected. */
  predicate FullCol(sel: seq<bool>, i: nat)
    requires |sel| == CellCount && i < Side
  {
    forall j :: 0 <= j < Side ==> At(sel, j, i)
  }

  /** The recursive definition agrees with "some row or some column is
    * fully selected". */
  lemma {:induction false} WinsMeansFullLine(sel: seq<bool>)
    requires |sel| == CellCount
    ensures Wins(sel) <==> exists i :: 0 <= i < Side && (FullRow(sel, i) || FullCol(sel, i))
  {
    forall i | 0 <= i < Side
      ensures RowFrom(sel, i, 0) == FullRow(sel, i)
      ensures ColFrom(sel, i, 0) == FullCol(sel, i)
    {
      LineFromAll(sel, i, 0);
    }
    WinsFromExists(sel, 0);
  }

  lemma {:induction false} LineFromAll(sel: seq<bool>, i: nat, j: nat)
    requires |sel| == CellCount && i < Side && j <= Side
    ensures RowFrom(sel, i, j) <==> forall m :: j <= m < Side ==> At(sel, i, m)
    ensures ColFrom(sel, i, j) <==> forall m :: j <= m < Side ==> At(sel, m, i)
    decreases Side - j
  {
    if j < Side {
      LineFromAll(sel, i, j + 1);
    }
  }

  lemma {:induction false} WinsFromExists(sel: seq<bool>, i: nat)
    requires |sel| == CellCount && i <= Side
    ensures WinsFrom(sel, i) ==> exists k :: i <= k < Side && (RowFrom(sel, k, 0) || ColFrom(sel, k, 0))
    ensures (exists k :: i <= k < Side && (RowFrom(sel, k, 0) || ColFrom(sel, k, 0))) ==> WinsFrom(sel, i)
    decreases Side - i
  {
    if i < Side {
      WinsFromExists(sel, i + 1);
      if RowFrom(sel, i, 0) || ColFrom(sel, i, 0) {
        assert WinsFrom(sel, i);
        assert i <= i < Side && (RowFrom(sel, i, 0) || ColFrom(sel, i, 0));
      } else {
        assert WinsFrom(sel, i) == WinsFrom(sel, i + 1);
        if k :| i <= k < Side && (RowFrom(sel, k, 0) || ColFrom(sel, k, 0)) {
          assert k != i;
        }
      }
    }
  }

  /** Selections are only ever added, and a board that wins keeps winning
    * when more cells are selected. */
  lemma WinsMonotone(sel: seq<bool>, more: seq<bool>)
    requires |sel| == |more| == CellCount
    requires forall p :: 0 <= p < CellCount ==> sel[p] ==> more[p]
    requires Wins(sel)
    ensures Wins(more)
  {
    WinsMeansFullLine(sel);
    WinsMeansFullLine(more);
    var i :| 0 <= i < Side && (FullRow(sel, i) || FullCol(sel, i));
    forall j | 0 <= j < Side
      ensures At(sel, i, j) ==> At(more, i, j)
      ensures At(sel, j, i) ==> At(more, j, i)
    {
      assert i * Side + j < CellCount && j * Side + i < CellCount;
    }
    assert FullRow(more, i) || FullCol(more, i);
  }

  /** Flags of a freshly read board after the given calls: a cell is
    * selected exactly when its number was called. */
  function Marked(cells: seq<int>, calls: seq<int>): (sel: seq<bool>)
    ensures |sel| == |cells|
  {
    seq(|cells|, p requires 0 <= p < |cells| => cells[p] in calls)
  }

  /** Some cell holds the called number. */
  predicate Hit(cells: seq<int>, call: int)
  {
    exists p :: 0 <= p < |cells| && cells[p] == call
  }

  /** Sum of the numbers whose cell is not selected. */
  function UnmarkedSum(cells: seq<int>, sel: seq<bool>): int
    requires |cells| == |sel|
  {
    if cells == [] then 0
    else
      var n := |cells| - 1;
      UnmarkedSum(cells[..n], sel[..n]) + (if sel[n] then 0 else cells[n])
  }

  function Total(cells: seq<int>): int
  {
    if cells == [] then 0 else Total(cells[..|cells| - 1]) + cells[|cells| - 1]
  }

  /** With no cell selected the unmarked sum is the total; selecting more
    * cells of non-negative numbers never raises it. */
  lemma {:induction false} UnmarkedSumBounds(cells: seq<int>, sel: seq<bool>, more: seq<bool>)
    requires |cells| == |sel| == |more|
    requires forall p :: 0 <= p < |cells| ==> cells[p] >= 0
    requires forall p :: 0 <= p < |sel| ==> sel[p] ==> more[p]
    ensures UnmarkedSum(cells, more) <= UnmarkedSum(cells, sel) <= Total(cells)
    ensures (forall p :: 0 <= p < |sel| ==> !sel[p]) ==> UnmarkedSum(cells, sel) == Total(cells)
  {
    if cells != [] {
      var n := |cells| - 1;
      UnmarkedSumBounds(cells[..n], sel[..n], more[..n]);
    }
  }

  class Board {
    /** `cells[25]`: the numbers, read as `unsigned char`; they are never
      * written after the board is read. */
    const cells: seq<int>
    /** `is_select[25]`. */
    const isSelect: array<bool>

    ghost predicate Valid()
      reads this
    {
      |cells| == CellCount && isSelect.Length == CellCount
    }

    /** `fetch_bingo`: every flag cleared, then the 25 numbers filled in
      * (the text parsing itself is not part of this model). */
    constructor (nums: seq<int>)
      requires |nums| == CellCount
      requires forall p :: 0 <= p < CellCount ==> 0 <= nums[p] < 256
      ensures Valid() && fresh(isSelect)
      ensures cells == nums
      ensures isSelect[..] == Marked(nums, [])
    {
      cells := nums;
      isSelect := new bool[CellCount](_ => false);
    }

    /** `mark_board`: select every cell holding `call`; report whether any
      * did. Flags are only ever set, never cleared. */
    method MarkBoard(call: int) returns (ret: bool)
      requires Valid()
      modifies isSelect
      ensures ret <==> Hit(cells, call)
      ensures forall p :: 0 <= p < CellCount ==> isSelect[p] == (old(isSelect[p]) || cells[p] == call)
    {
      ret := false;
      var i := 0;
      while i < CellCount
        invariant 0 <= i <= CellCount
        invariant forall p :: 0 <= p < i ==> isSelect[p] == (old(isSelect[p]) || cells[p] == call)
        invariant forall p :: i <= p < CellCount ==> isSelect[p] == old(isSelect[p])
        invariant ret <==> exists p :: 0 <= p < i && cells[p] == call
      {
        if cells[i] == call {
          isSelect[i] := true;
          ret := true;
        }
        i := i + 1;
      }
    }

    /** `is_winner`: some row or column is fully selected. */
    method IsWinner() returns (w: bool)
      requires Valid()
      ensures w == Wins(isSelect[..])
    {
      var i := 0;
      while i < Side
        invariant 0 <= i <= Side
        invariant Wins(isSelect[..]) == WinsFrom(isSelect[..], i)
      {
        var hasRow, hasCol := true, true;
        var j := 0;
        while j < Side
          invariant 0 <= j <= Side
          invariant RowFrom(isSelect[..], i, 0) == (hasRow && RowFrom(isSelect[..], i, j))
          invariant ColFrom(isSelect[..], i, 0) == (hasCol && ColFrom(isSelect[..], i, j))
        {
          assert At(isSelect[..], i, j) == isSelect[i * Side + j];
          assert At(isSelect[..], j, i) == isSelect[j * Side + i];
          hasRow := hasRow && isSelect[i * Side + j];
          hasCol := hasCol && isSelect[j * Side + i];
          j := j + 1;
        }
        if hasRow || hasCol {
          return true;
        }
        i := i + 1;
      }
      return false;
    }

    /** `get_score`: the unselected numbers' sum times the last call. */
    method GetScore(lastCall: int) returns (score: int)
      requires Valid()
      ensures score == UnmarkedSum(cells, isSelect[..]) * lastCall
    {
      var acc := 0;
      var i := 0;
      while i < CellCount
        invariant 0 <= i <= CellCount
        invariant acc == UnmarkedSum(cells[..i], isSelect[..i])
      {
        assert cells[..i + 1][..i] == cells[..i] && isSelect[..i + 1][..i] == isSelect[..i];
        if !isSelect[i] {
          acc := acc + cells[i];
        }
        i := i + 1;
      }
      assert cells[..i] == cells && isSelect[..i] == isSelect[..];
      score := acc * lastCall;
    }
  }

  /** Board `j` wins on call `i`: the call selected one of its cells and the
    * board then has a full row or column. */
  predicate WinsAt(cellss: seq<seq<int>>, calls: seq<int>, i: nat, j: nat)
    requires i < |calls| && j < |cellss| && |cellss[j]| == CellCount
  {
    Hit(cellss[j], calls[i]) && Wins(Marked(cellss[j], calls[..i + 1]))
  }

  predicate AllBoardsSized(cellss: seq<seq<int>>)
  {
    forall j :: 0 <= j < |cellss| ==> |cellss[j]| == CellCount
  }

  /** No board wins before call `i`, nor on call `i` before board `j`. */
  predicate NoWinBefore(cellss: seq<seq<int>>, calls: seq<int>, i: nat, j: nat)
    requires AllBoardsSized(cellss) && i <= |calls| && j <= |cellss|
  {
    (forall i', j' :: 0 <= i' < i && 0 <= j' < |cellss| ==> !WinsAt(cellss, calls, i', j'))
    && (i < |calls| ==> forall j' :: 0 <= j' < j ==> !WinsAt(cellss, calls, i, j'))
  }

  function CellsOf(boards: seq<Board>): (r: seq<seq<int>>)
    ensures |r| == |boards|
  {
    seq(|boards|, j requires 0 <= j < |boards| => boards[j].cells)
  }

  /** The boards as `fetch_bingo` leaves them: no cell selected, and no two
    * boards sharing their flag array. */
  ghost predicate Fresh(boards: seq<Board>)
    reads boards, set j | 0 <= j < |boards| :: boards[j].isSelect
  {
    && (forall j :: 0 <= j < |boards| ==> boards[j].Valid())
    && (forall j :: 0 <= j < |boards| ==> boards[j].isSelect[..] == Marked(boards[j].cells, []))
    && (forall j, k :: 0 <= j < k < |boards| ==> boards[j].isSelect != boards[k].isSelect)
  }

  lemma NoWinNextBoard(cellss: seq<seq<int>>, calls: seq<int>, i: nat, j: nat)
    requires AllBoardsSized(cellss) && i < |calls| && j < |cellss|
    requires NoWinBefore(cellss, calls, i, j) && !WinsAt(cellss, calls, i, j)
    ensures NoWinBefore(cellss, calls, i, j + 1)
  {
  }

  lemma NoWinNextCall(cellss: seq<seq<int>>, calls: seq<int>, i: nat)
    requires AllBoardsSized(cellss) && i < |calls|
    requires NoWinBefore(cellss, calls, i, |cellss|)
    ensures NoWinBefore(cellss, calls, i + 1, 0)
  {
  }

  /** One more call selects exactly the cells holding it. */
  lemma MarkedAppend(cells: seq<int>, calls: seq<int>, call: int, sel: seq<bool>)
    requires |sel| == |cells|
    requires forall p :: 0 <= p < |cells| ==> sel[p] == (Marked(cells, calls)[p] || cells[p] == call)
    ensures sel == Marked(cells, calls + [call])
  {
  }

  /** Every board's flags hold the first `n` calls, the first `j` boards
    * also the next one. */
  ghost predicate MarkedUpTo(boards: seq<Board>, calls: seq<int>, n: nat, j: nat)
    requires n < |calls|
    reads boards, set k | 0 <= k < |boards| :: boards[k].isSelect
  {
    forall k :: 0 <= k < |boards| ==>
      boards[k].isSelect[..] == Marked(boards[k].cells, calls[..if k < j then n + 1 else n])
  }

  /** The inner loop of `main` for call `i`: mark the boards in order and
    * stop at the first one that wins. */
  method PlayCall(calls: seq<int>, i: nat, boards: seq<Board>) returns (score: Option<int>)
    requires i < |calls| && AllBoardsSized(CellsOf(boards))
    requires forall k :: 0 <= k < |boards| ==> boards[k].Valid()
    requires forall j, k :: 0 <= j < k < |boards| ==> boards[j].isSelect != boards[k].isSelect
    requires MarkedUpTo(boards, calls, i, 0)
    modifies set j | 0 <= j < |boards| :: boards[j].isSelect
    ensures score.None? ==> MarkedUpTo(boards, calls, i, |boards|)
    ensures var cellss := CellsOf(boards);
      score.None? ==> forall j :: 0 <= j < |boards| ==> !WinsAt(cellss, calls, i, j)
    ensures var cellss := CellsOf(boards);
      score.Some? ==> exists j ::
        && 0 <= j < |boards| && WinsAt(cellss, calls, i, j)
        && (forall j' :: 0 <= j' < j ==> !WinsAt(cellss, calls, i, j'))
        && score.value == UnmarkedSum(cellss[j], Marked(cellss[j], calls[..i + 1])) * calls[i]
  {
    var cellss := CellsOf(boards);
    assert AllBoardsSized(cellss);
    assert calls[..i + 1] == calls[..i] + [calls[i]];
    var j := 0;
    while j < |boards|
      invariant 0 <= j <= |boards|
      invariant MarkedUpTo(boards, calls, i, j)
      invariant forall j' :: 0 <= j' < j ==> !WinsAt(cellss, calls, i, j')
    {
      var b := boards[j];
      ghost var others := seq(|boards|, k requires 0 <= k < |boards| reads boards, set m | 0 <= m < |boards| :: boards[m].isSelect => boards[k].isSelect[..]);
      var hit := b.MarkBoard(calls[i]);
      MarkedAppend(cellss[j], calls[..i], calls[i], b.isSelect[..]);
      forall k | 0 <= k < |boards| && k != j
        ensures boards[k].isSelect[..] == others[k]
      {
        assert boards[k].isSelect != b.isSelect;
      }
      if hit {
        var win := b.IsWinner();
        if win {
          var s := b.GetScore(calls[i]);
          assert WinsAt(cellss, calls, i, j);
          return Some(s);
        }
      }
      j := j + 1;
    }
    return None;
  }

  /** The play loop of `main`: calls in order, boards in order, and the first
    * board that wins on a call is scored with that call. `None` when no
    * board ever wins (the program then prints nothing). */
  method FirstWinnerScore(calls: seq<int>, boards: seq<Board>) returns (score: Option<int>)
    requires Fresh(boards)
    modifies set j | 0 <= j < |boards| :: boards[j].isSelect
    ensures var cellss := CellsOf(boards);
      score.None? ==> NoWinBefore(cellss, calls, |calls|, 0)
    ensures var cellss := CellsOf(boards);
      score.Some? ==> exists i, j ::
        && 0 <= i < |calls| && 0 <= j < |boards|
        && WinsAt(cellss, calls, i, j) && NoWinBefore(cellss, calls, i, j)
        && score.value == UnmarkedSum(cellss[j], Marked(cellss[j], calls[..i + 1])) * calls[i]
  {
    var cellss := CellsOf(boards);
    assert AllBoardsSized(cellss);
    var i := 0;
    while i < |calls|
      invariant 0 <= i <= |calls|
      invariant forall k :: 0 <= k < |boards| ==> boards[k].Valid()
      invariant forall j, k :: 0 <= j < k < |boards| ==> boards[j].isSelect != boards[k].isSelect
      invariant forall k :: 0 <= k < |boards| ==> boards[k].isSelect[..] == Marked(cellss[k], calls[..i])
      invariant NoWinBefore(cellss, calls, i, 0)
    {
      score := PlayCall(calls, i, boards);
      if score.Some? {
        return;
      }
      assert NoWinBefore(cellss, calls, i, |boards|);
      NoWinNextCall(cellss, calls, i);
      i := i + 1;
    }
    return None;
  }
}
