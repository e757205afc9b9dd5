/** adv-4/p2.c: bingo played until every board has won; the board that wins
  * last is scored. The board of p1 gains an `is_winning` flag, and marking a
  * board reports through out-parameters who won last and whether any board
  * is still without a win. The marking, win test and scoring loops are those
  * of p1 (`Adv4P1.Board`). */
module Adv4P2 {
  import opened Common
  import opened Adv4P1

  class WinBoard {
    /** The numbers and their `is_select` flags. */
    const board: Adv4P1.Board
    /** `is_winning`. */
    var isWinning: bool

    ghost predicate Valid()
      reads this, board
    {
      board.Valid()
    }

    /** The flag agrees with the selections: it is set exactly when the board
      * has a full row or column. */
    ghost predicate Settled()
      reads this, board, board.isSelect
      requires Valid()
    {
      isWinning == Wins(board.isSelect[..])
    }

    /** `fetch_bingo`: all selections and `is_winning` cleared. */
    constructor (nums: seq<int>)
      requires |nums| == CellCount
      requires forall p :: 0 <= p < CellCount ==> 0 <= nums[p] < 256
      ensures Valid() && fresh(board) && fresh(board.isSelect)
      ensures board.cells == nums && board.isSelect[..] == Marked(nums, [])
      ensures !isWinning
    {
      board := new Adv4P1.Board(nums);
      isWinning := false;
    }

    /** `update_winner`: 1 only on the transition into winning. Once the flag
      * is set it stays set and later calls return 0. */
    method UpdateWinner() returns (won: bool)
      requires Valid()
      modifies this
      ensures won <==> !old(isWinning) && Wins(board.isSelect[..])
      ensures isWinning == (old(isWinning) || Wins(board.isSelect[..]))
    {
      if isWinning {
        return false;
      }
      won := board.IsWinner();
      if won {
        isWinning := true;
      }
    }

    /** `mark_board` of p2: mark the call, then record `(board_n, call)` as the
      * last winner if this call made the board win, or raise
      * `has_unwinning` if the board is still not winning. */
    method MarkBoard(lastWinner: Option<(nat, int)>, hasUnwinning: bool, boardN: nat, call: int)
      returns (lastWinner': Option<(nat, int)>, hasUnwinning': bool)
      requires Valid() && Settled()
      modifies this, board.isSelect
      ensures Valid() && Settled()
      ensures forall p :: 0 <= p < CellCount ==>
        board.isSelect[p] == (old(board.isSelect[p]) || board.cells[p] == call)
      ensures var newWin := !old(isWinning) && isWinning;
        lastWinner' == (if newWin then Some((boardN, call)) else lastWinner)
      ensures hasUnwinning' == (hasUnwinning || !isWinning)
    {
      ghost var before := board.isSelect[..];
      var ret := board.MarkBoard(call);
      var won := false;
      if ret {
        if isWinning {
          WinsMonotone(before, board.isSelect[..]);
        }
        won := UpdateWinner();
      } else {
        assert board.isSelect[..] == old(board.isSelect[..]);
      }
      lastWinner', hasUnwinning' := lastWinner, hasUnwinning;
      if ret && won {
        lastWinner' := Some((boardN, call));
      } else if !isWinning {
        hasUnwinning' := true;
      }
    }
  }

  /** Board with numbers `cells` has a full line after the first `n` calls. */
  predicate WonAfter(cells: seq<int>, calls: seq<int>, n: nat)
    requires |cells| == CellCount && n <= |calls|
  {
    Wins(Marked(cells, calls[..n]))
  }

  /** The play of a game as a table: `won[n][j]` says whether board `j`
    * has a full line after the first `n` calls. Row `n` exists for
    * `n = 0 .. |calls|` (see `WinTableAt`). */
  function WinTable(cellss: seq<seq<int>>, calls: seq<int>): (won: seq<seq<bool>>)
    requires AllBoardsSized(cellss)
    ensures |won| == |calls| + 1 && Rect(won) && |won[0]| == |cellss|
  {
    WinRows(cellss, calls, |calls| + 1)
  }

  /** The first `m` rows of the table. */
  function WinRows(cellss: seq<seq<int>>, calls: seq<int>, m: nat): (won: seq<seq<bool>>)
    requires AllBoardsSized(cellss) && 0 < m <= |calls| + 1
    ensures |won| == m && Rect(won) && |won[0]| == |cellss|
  {
    var row := seq(|cellss|, j requires 0 <= j < |cellss| => WonAfter(cellss[j], calls, m - 1));
    if m == 1 then [row] else WinRows(cellss, calls, m - 1) + [row]
  }

  lemma {:induction false} WinRowsAt(cellss: seq<seq<int>>, calls: seq<int>, m: nat, n: nat, j: nat)
    requires AllBoardsSized(cellss) && 0 < m <= |calls| + 1 && n < m && j < |cellss|
    ensures WinRows(cellss, calls, m)[n][j] == WonAfter(cellss[j], calls, n)
  {
    if n < m - 1 {
      WinRowsAt(cellss, calls, m - 1, n, j);
    }
  }

  /** Each entry of the table is the win test of that board after that
    * many calls. */
  lemma WinTableAt(cellss: seq<seq<int>>, calls: seq<int>, n: nat, j: nat)
    requires AllBoardsSized(cellss) && n <= |calls| && j < |cellss|
    ensures WinTable(cellss, calls)[n][j] == WonAfter(cellss[j], calls, n)
  {
    WinRowsAt(cellss, calls, |calls| + 1, n, j);
  }

  /** Every row of the table covers the same boards. */
  predicate Rect(won: seq<seq<bool>>)
  {
    |won| > 0 && forall n :: 0 <= n < |won| ==> |won[n]| == |won[0]|
  }

  /** Boards `0..m-1` have all won after the first `n` calls. */
  predicate WonBelow(won: seq<seq<bool>>, n: nat, m: nat)
    requires Rect(won) && n < |won| && m <= |won[0]|
  {
    forall j :: 0 <= j < m ==> won[n][j]
  }

  /** Every board has won after the first `n` calls. */
  predicate AllWon(won: seq<seq<bool>>, n: nat)
    requires Rect(won) && n < |won|
  {
    WonBelow(won, n, |won[0]|)
  }

  /** Board `j` goes from not winning to winning on call `i`. */
  predicate NewWin(won: seq<seq<bool>>, i: nat, j: nat)
    requires Rect(won) && i + 1 < |won| && j < |won[0]|
  {
    !won[i][j] && won[i + 1][j]
  }

  /** Number of calls the play loop processes when it starts at call `n`:
    * it stops right after the first call after which every board has won,
    * or when the calls run out. */
  function StopFrom(won: seq<seq<bool>>, n: nat): (r: nat)
    requires Rect(won) && n < |won|
    ensures n <= r < |won|
    decreases |won| - n
  {
    if n == |won| - 1 then n
    else if AllWon(won, n + 1) then n + 1
    else StopFrom(won, n + 1)
  }

  /** The last board below `m` that newly wins on call `i`. */
  function LastBoard(won: seq<seq<bool>>, i: nat, m: nat): (r: Option<nat>)
    requires Rect(won) && i + 1 < |won| && m <= |won[0]|
    ensures r.Some? ==> r.value < m
  {
    if m == 0 then None
    else if NewWin(won, i, m - 1) then Some(m - 1)
    else LastBoard(won, i, m - 1)
  }

  /** The last (call, board) win among the first `n` calls, in play order. */
  function LastWin(won: seq<seq<bool>>, n: nat): (r: Option<(nat, nat)>)
    requires Rect(won) && n < |won|
    ensures r.Some? ==> r.value.0 < n && r.value.1 < |won[0]|
  {
    if n == 0 then None
    else match LastBoard(won, n - 1, |won[0]|)
      case Some(j) => Some((n - 1, j))
      case None => LastWin(won, n - 1)
  }

  /** What `main` prints: the unselected sum of the last board to win, with
    * the selections it has when the loop stops, times its winning call.
    * `None` where the program traps (no board) or would read the
    * uninitialised `last_winner` (no board ever wins). */
  function LastWinnerScoreSpec(cellss: seq<seq<int>>, calls: seq<int>): Option<int>
    requires AllBoardsSized(cellss)
  {
    if |cellss| == 0 then None
    else
      var won := WinTable(cellss, calls);
      var n := StopFrom(won, 0);
      match LastWin(won, n)
      case None => None
      case Some((i, j)) => Some(UnmarkedSum(cellss[j], Marked(cellss[j], calls[..n])) * calls[i])
  }

  function CellsOfWin(boards: seq<WinBoard>): (r: seq<seq<int>>)
    ensures |r| == |boards|
  {
    seq(|boards|, j requires 0 <= j < |boards| => boards[j].board.cells)
  }

  /** A call that selects no cell of a board leaves its flags alone. */
  lemma MarkedMiss(cells: seq<int>, calls: seq<int>, call: int)
    requires !Hit(cells, call)
    ensures Marked(cells, calls + [call]) == Marked(cells, calls)
  {
  }

  /** The boards, and their flag arrays, are pairwise distinct objects. */
  predicate Distinct(boards: seq<WinBoard>)
  {
    forall j, k :: 0 <= j < k < |boards| ==>
      boards[j] != boards[k] && boards[j].board.isSelect != boards[k].board.isSelect
  }

  /** Boards below `j` have been marked with the first `i + 1` calls, the
    * others with the first `i`, and every `is_winning` flag agrees with its
    * selections. */
  ghost predicate PlayedUpTo(boards: seq<WinBoard>, calls: seq<int>, i: nat, j: nat)
    requires i < |calls| || (i == |calls| && j == 0)
    reads boards, set k | 0 <= k < |boards| :: boards[k].board
    reads set k | 0 <= k < |boards| :: boards[k].board.isSelect
  {
    forall k :: 0 <= k < |boards| ==>
      && boards[k].Valid()
      && boards[k].board.isSelect[..] == Marked(boards[k].board.cells, calls[..if k < j then i + 1 else i])
      && boards[k].isWinning == Wins(boards[k].board.isSelect[..])
  }

  /** Fresh boards have been marked with no call. */
  lemma FreshIsPlayed(boards: seq<WinBoard>, calls: seq<int>)
    requires FreshBoards(boards)
    ensures PlayedUpTo(boards, calls, 0, 0)
  {
    assert calls[..0] == [];
    forall k | 0 <= k < |boards|
      ensures !Wins(Marked(boards[k].board.cells, []))
    {
      NothingMarkedNoWin(boards[k].board.cells);
    }
  }

  /** Once every board has been marked with call `i`, the next call starts
    * from a uniform state. */
  lemma NextCall(boards: seq<WinBoard>, calls: seq<int>, i: nat)
    requires i < |calls| && PlayedUpTo(boards, calls, i, |boards|)
    ensures PlayedUpTo(boards, calls, i + 1, 0)
  {
  }

  /** What the inner loop has made of `last_winner` after boards `0..m-1`. */
  function WinnerAfter(won: seq<seq<bool>>, calls: seq<int>, i: nat, m: nat, prev: Option<(nat, int)>): Option<(nat, int)>
    requires Rect(won) && i + 1 < |won| && |won| == |calls| + 1 && m <= |won[0]|
  {
    match LastBoard(won, i, m)
    case Some(j) => Some((j, calls[i]))
    case None => prev
  }

  /** `mark_board`'s effect on `(last_winner, has_unwinning)` for board `j`
    * on call `c`, where `before` and `after` say which boards had won before
    * and after the call. */
  function ScanStep(before: seq<bool>, after: seq<bool>, c: int, j: nat, acc: (Option<(nat, int)>, bool))
    : (Option<(nat, int)>, bool)
    requires j < |before| && j < |after|
  {
    (if !before[j] && after[j] then Some((j, c)) else acc.0, acc.1 || !after[j])
  }

  /** After each pass of the inner loop `last_winner` names the last board
    * so far that newly won on this call (if any), and `has_unwinning` is
    * raised exactly when some board so far has not won yet. */
  lemma ScanStepMeaning(won: seq<seq<bool>>, calls: seq<int>, i: nat, j: nat, prev: Option<(nat, int)>,
                        acc: (Option<(nat, int)>, bool), acc': (Option<(nat, int)>, bool))
    requires Rect(won) && i + 1 < |won| && |won| == |calls| + 1 && j < |won[0]|
    requires acc == (WinnerAfter(won, calls, i, j, prev), !WonBelow(won, i + 1, j))
    requires acc' == ScanStep(won[i], won[i + 1], calls[i], j, acc)
    ensures acc' == (WinnerAfter(won, calls, i, j + 1, prev), !WonBelow(won, i + 1, j + 1))
  {
    assert WonBelow(won, i + 1, j + 1) == (WonBelow(won, i + 1, j) && won[i + 1][j]);
  }

  /** One pass of the inner loop of `main`: board `j` is marked with call
    * `i`; it becomes the last winner if it has just won, and it raises
    * `has_unwinning` if it still has not. */
  method PlayBoard(calls: seq<int>, i: nat, boards: seq<WinBoard>, j: nat,
                   lastWinner: Option<(nat, int)>, hasUnwinning: bool)
    returns (lastWinner': Option<(nat, int)>, hasUnwinning': bool)
    requires i < |calls| && j < |boards| && AllBoardsSized(CellsOfWin(boards))
    requires Distinct(boards)
    requires PlayedUpTo(boards, calls, i, j)
    modifies boards[j], boards[j].board.isSelect
    ensures PlayedUpTo(boards, calls, i, j + 1)
    ensures var won := WinTable(CellsOfWin(boards), calls);
      (lastWinner', hasUnwinning') == ScanStep(won[i], won[i + 1], calls[i], j, (lastWinner, hasUnwinning))
  {
    var cellss := CellsOfWin(boards);
    assert calls[..i + 1] == calls[..i] + [calls[i]];
    var b := boards[j];
    ghost var others := seq(|boards|, k requires 0 <= k < |boards|
      reads boards, set m | 0 <= m < |boards| :: boards[m].board, set m | 0 <= m < |boards| :: boards[m].board.isSelect
      => (boards[k].isWinning, boards[k].board.isSelect[..]));
    assert b.isWinning == WonAfter(cellss[j], calls, i);
    lastWinner', hasUnwinning' := b.MarkBoard(lastWinner, hasUnwinning, j, calls[i]);
    MarkedAppend(cellss[j], calls[..i], calls[i], b.board.isSelect[..]);
    forall k | 0 <= k < |boards| && k != j
      ensures boards[k].isWinning == others[k].0 && boards[k].board.isSelect[..] == others[k].1
    {
      assert boards[k] != b && boards[k].board.isSelect != b.board.isSelect;
    }
    assert b.isWinning == WonAfter(cellss[j], calls, i + 1);
    WinTableAt(cellss, calls, i, j);
    WinTableAt(cellss, calls, i + 1, j);
  }

  /** The inner loop of `main` for call `i`: mark every board in order,
    * updating the last winner and `has_unwinning`. */
  method PlayCall(calls: seq<int>, i: nat, boards: seq<WinBoard>, lastWinner: Option<(nat, int)>)
    returns (lastWinner': Option<(nat, int)>, hasUnwinning: bool)
    requires i < |calls| && AllBoardsSized(CellsOfWin(boards))
    requires Distinct(boards)
    requires PlayedUpTo(boards, calls, i, 0)
    modifies boards, set j | 0 <= j < |boards| :: boards[j].board.isSelect
    ensures PlayedUpTo(boards, calls, i, |boards|)
    ensures lastWinner' == WinnerAfter(WinTable(CellsOfWin(boards), calls), calls, i, |boards|, lastWinner)
    ensures hasUnwinning == !AllWon(WinTable(CellsOfWin(boards), calls), i + 1)
  {
    ghost var won := WinTable(CellsOfWin(boards), calls);
    hasUnwinning := false;
    lastWinner' := lastWinner;
    var j := 0;
    while j < |boards|
      invariant 0 <= j <= |boards|
      invariant PlayedUpTo(boards, calls, i, j)
      invariant (lastWinner', hasUnwinning) == (WinnerAfter(won, calls, i, j, lastWinner), !WonBelow(won, i + 1, j))
    {
      ghost var acc := (lastWinner', hasUnwinning);
      lastWinner', hasUnwinning := PlayBoard(calls, i, boards, j, lastWinner', hasUnwinning);
      ScanStepMeaning(won, calls, i, j, lastWinner, acc, (lastWinner', hasUnwinning));
      j := j + 1;
    }
  }

  /** Boards as `fetch_bingo` leaves them: nothing selected, not winning. */
  ghost predicate FreshBoards(boards: seq<WinBoard>)
    reads boards, set k | 0 <= k < |boards| :: boards[k].board
    reads set k | 0 <= k < |boards| :: boards[k].board.isSelect
  {
    forall k :: 0 <= k < |boards| ==>
      && boards[k].Valid()
      && boards[k].board.isSelect[..] == Marked(boards[k].board.cells, [])
      && !boards[k].isWinning
  }

  /** `last_winner` and `last_win_call` as the play loop leaves them after
    * the first `n` calls. */
  function WinnerAt(won: seq<seq<bool>>, calls: seq<int>, n: nat): Option<(nat, int)>
    requires Rect(won) && |won| == |calls| + 1 && n < |won|
  {
    match LastWin(won, n)
    case Some((i, j)) => Some((j, calls[i]))
    case None => None
  }

  /** The play loop of `main`: for each call mark every board, and stop
    * after the first call that leaves no board unwinning. Returns how many
    * calls were processed and the last winner with its winning call. */
  method Play(calls: seq<int>, boards: seq<WinBoard>) returns (n: nat, lastWinner: Option<(nat, int)>)
    requires AllBoardsSized(CellsOfWin(boards))
    requires Distinct(boards)
    requires FreshBoards(boards)
    modifies boards, set j | 0 <= j < |boards| :: boards[j].board.isSelect
    ensures n == StopFrom(WinTable(CellsOfWin(boards), calls), 0)
    ensures lastWinner == WinnerAt(WinTable(CellsOfWin(boards), calls), calls, n)
    ensures PlayedUpTo(boards, calls, n, 0)
  {
    var cellss := CellsOfWin(boards);
    ghost var won := WinTable(cellss, calls);
    FreshIsPlayed(boards, calls);
    lastWinner := None;
    n := 0;
    while n < |calls|
      invariant 0 <= n <= |calls|
      invariant StopFrom(won, 0) == StopFrom(won, n)
      invariant PlayedUpTo(boards, calls, n, 0)
      invariant lastWinner == WinnerAt(won, calls, n)
    {
      var hasUnwinning;
      lastWinner, hasUnwinning := PlayCall(calls, n, boards, lastWinner);
      NextCall(boards, calls, n);
      CallStep(won, calls, n);
      n := n + 1;
      if !hasUnwinning {
        break;
      }
    }
  }

  /** One more call: the winner bookkeeping and the stopping point advance
    * as the play loop does. */
  lemma CallStep(won: seq<seq<bool>>, calls: seq<int>, n: nat)
    requires Rect(won) && |won| == |calls| + 1 && n < |calls|
    ensures WinnerAt(won, calls, n + 1) == WinnerAfter(won, calls, n, |won[0]|, WinnerAt(won, calls, n))
    ensures StopFrom(won, n) == if AllWon(won, n + 1) then n + 1 else StopFrom(won, n + 1)
  {
  }

  lemma WinnerAtIsLastWin(won: seq<seq<bool>>, calls: seq<int>, n: nat)
    requires Rect(won) && |won| == |calls| + 1 && n < |won|
    ensures WinnerAt(won, calls, n).None? == LastWin(won, n).None?
    ensures WinnerAt(won, calls, n).Some? ==>
      WinnerAt(won, calls, n).value == (LastWin(won, n).value.1, calls[LastWin(won, n).value.0])
  {
  }

  /** `main` of p2: play the calls in order until every board has won, then
    * score the board that won last; trap when there is no board. */
  method LastWinnerScore(calls: seq<int>, boards: seq<WinBoard>) returns (score: Option<int>)
    requires AllBoardsSized(CellsOfWin(boards))
    requires Distinct(boards)
    requires FreshBoards(boards)
    modifies boards, set j | 0 <= j < |boards| :: boards[j].board.isSelect
    ensures score == LastWinnerScoreSpec(CellsOfWin(boards), calls)
  {
    var cellss := CellsOfWin(boards);
    if |boards| < 1 {
      return None;
    }
    var n, lastWinner := Play(calls, boards);
    ghost var won := WinTable(cellss, calls);
    WinnerAtIsLastWin(won, calls, n);
    match lastWinner
    case None =>
      return None;
    case Some((j, call)) =>
      ghost var lw := LastWin(won, n);
      ghost var unmarked := UnmarkedSum(cellss[j], Marked(cellss[j], calls[..n]));
      assert boards[j].board.cells == cellss[j];
      assert unmarked == UnmarkedSum(boards[j].board.cells, boards[j].board.isSelect[..]);
      var s := boards[j].board.GetScore(call);
      assert call == calls[lw.value.0];
      assert s == unmarked * call;
      return Some(s);
  }

  /** With nothing selected no board wins. */
  lemma NothingMarkedNoWin(cells: seq<int>)
    requires |cells| == CellCount
    ensures !Wins(Marked(cells, []))
  {
    var sel := Marked(cells, []);
    WinsMeansFullLine(sel);
    forall i | 0 <= i < Side
      ensures !FullRow(sel, i) && !FullCol(sel, i)
    {
      assert !At(sel, i, 0) && !At(sel, 0, i);
    }
  }

  /** A board that has won stays won as more numbers are called. */
  lemma WonAfterMonotone(cells: seq<int>, calls: seq<int>, n: nat, n': nat)
    requires |cells| == CellCount && n <= n' <= |calls|
    requires WonAfter(cells, calls, n)
    ensures WonAfter(cells, calls, n')
  {
    var sel, more := Marked(cells, calls[..n]), Marked(cells, calls[..n']);
    forall p | 0 <= p < CellCount
      ensures sel[p] ==> more[p]
    {
      if sel[p] {
        var q :| 0 <= q < n && calls[..n][q] == cells[p];
        assert calls[..n'][q] == cells[p];
      }
    }
    WinsMonotone(sel, more);
  }

  /** Board `j`, if won after `n` calls, is still won after `n + 1`. */
  predicate StaysWon(won: seq<seq<bool>>, n: nat, j: nat)
    requires Rect(won) && n + 1 < |won| && j < |won[0]|
  {
    won[n][j] ==> won[n + 1][j]
  }

  /** Once won, a board stays won in later rows. */
  predicate Monotone(won: seq<seq<bool>>)
    requires Rect(won)
  {
    forall n, j :: 0 <= n < |won| - 1 && 0 <= j < |won[0]| ==> StaysWon(won, n, j)
  }

  /** No board has won before any number is called. */
  predicate NoneAtStart(won: seq<seq<bool>>)
    requires Rect(won)
  {
    forall j :: 0 <= j < |won[0]| ==> !won[0][j]
  }

  /** The table of a real game starts with no winner and never loses one. */
  lemma WinTableWellFormed(cellss: seq<seq<int>>, calls: seq<int>)
    requires AllBoardsSized(cellss)
    ensures Monotone(WinTable(cellss, calls)) && NoneAtStart(WinTable(cellss, calls))
  {
    var won := WinTable(cellss, calls);
    assert calls[..0] == [];
    forall j | 0 <= j < |cellss|
      ensures !won[0][j]
    {
      WinTableAt(cellss, calls, 0, j);
      NothingMarkedNoWin(cellss[j]);
    }
    forall n, j | 0 <= n < |won| - 1 && 0 <= j < |won[0]|
      ensures StaysWon(won, n, j)
    {
      WinTableAt(cellss, calls, n, j);
      WinTableAt(cellss, calls, n + 1, j);
      if won[n][j] {
        WonAfterMonotone(cellss[j], calls, n, n + 1);
      }
    }
  }

  /** Board `j` newly wins on call `i` and no board after it below `m` does. */
  predicate LastNewWin(won: seq<seq<bool>>, i: nat, j: nat, m: nat)
    requires Rect(won) && i + 1 < |won| && j < m <= |won[0]|
  {
    NewWin(won, i, j) && forall k :: j < k < m ==> !NewWin(won, i, k)
  }

  /** `LastBoard` is the highest board below `m` that newly wins on call `i`. */
  lemma {:induction false} LastBoardIsLast(won: seq<seq<bool>>, i: nat, m: nat)
    requires Rect(won) && i + 1 < |won| && m <= |won[0]|
    ensures var r := LastBoard(won, i, m);
      r.Some? ==> LastNewWin(won, i, r.value, m)
    ensures LastBoard(won, i, m).None? <==> forall k :: 0 <= k < m ==> !NewWin(won, i, k)
  {
    if m > 0 {
      LastBoardIsLast(won, i, m - 1);
    }
  }

  /** The loop stops after the first call that leaves every board won, or
    * after the last call. */
  lemma {:induction false} StopFromIsFirst(won: seq<seq<bool>>, n: nat)
    requires Rect(won) && n < |won|
    ensures var r := StopFrom(won, n);
      (r == |won| - 1 || AllWon(won, r)) && forall k :: n < k < r ==> !AllWon(won, k)
    decreases |won| - n
  {
    if n < |won| - 1 && !AllWon(won, n + 1) {
      StopFromIsFirst(won, n + 1);
    }
  }

  /** No winner is recorded exactly when no board has won yet. */
  lemma {:induction false} NoWinnerIffNoWin(won: seq<seq<bool>>, n: nat)
    requires Rect(won) && n < |won| && Monotone(won) && NoneAtStart(won)
    ensures LastWin(won, n).None? <==> forall j :: 0 <= j < |won[0]| ==> !won[n][j]
  {
    if n > 0 {
      NoWinnerIffNoWin(won, n - 1);
      LastBoardIsLast(won, n - 1, |won[0]|);
      forall j | 0 <= j < |won[0]|
        ensures won[n - 1][j] ==> won[n][j]
      {
        assert StaysWon(won, n - 1, j);
      }
      if LastBoard(won, n - 1, |won[0]|).Some? {
        var j := LastBoard(won, n - 1, |won[0]|).value;
        assert won[n][j];
      } else if LastWin(won, n - 1).Some? {
        var j :| 0 <= j < |won[0]| && won[n - 1][j];
        assert won[n][j];
      } else {
        forall j | 0 <= j < |won[0]|
          ensures !won[n][j]
        {
          assert !NewWin(won, n - 1, j);
        }
      }
    }
  }

  /** When the loop stops because every board has won, the board scored is
    * one that won on the final call, and no board after it in reading
    * order also won on that call: it is the last board to win. */
  lemma LastWinnerWonLast(won: seq<seq<bool>>)
    requires Rect(won) && |won[0]| > 0 && NoneAtStart(won)
    requires AllWon(won, StopFrom(won, 0))
    ensures var n := StopFrom(won, 0);
      var r := LastWin(won, n);
      && n > 0 && r.Some? && r.value.0 == n - 1
      && LastNewWin(won, n - 1, r.value.1, |won[0]|)
  {
    var n := StopFrom(won, 0);
    StopFromIsFirst(won, 0);
    assert !won[0][0];
    assert n > 0;
    var k: nat :| k < |won[0]| && !won[n - 1][k] by {
      if n - 1 == 0 {
        assert !won[0][0];
      } else {
        assert !AllWon(won, n - 1);
      }
    }
    assert NewWin(won, n - 1, k);
    LastBoardIsLast(won, n - 1, |won[0]|);
  }
}
