/** Day 21: Dirac Dice. Two pawns move round a ten-space circular track and
  * score the space they land on. Part one plays with a deterministic
  * hundred-sided die to 1000 points; part two counts, over every universe
  * a three-sided die splits into, who reaches 21 first. */
module Adv21 {
  import opened Common
  import opened CString
  import opened RustStr

  // ---------------------------------------------------------------- part 1

  /** The value of roll number `k` (from 0) of the deterministic die:
    * 1, 2, ..., 100, 1, 2, ... */
  function DieValue(k: nat): (r: nat)
    ensures 1 <= r <= 100
  {
    k % 100 + 1
  }

  /** `DieP1`: the last value rolled, kept below 100, and the number of
    * rolls so far. */
  class DieP1 {
    var inner: nat
    var rollCnt: nat

    /** The die has rolled `rollCnt` times from the start. */
    ghost predicate Valid()
      reads this
    {
      inner == rollCnt % 100
    }

    /** `DieP1::new`. */
    constructor ()
      ensures Valid() && inner == 0 && rollCnt == 0
    {
      inner := 0;
      rollCnt := 0;
    }

    /** `DieP1::roll`: the next value in the cycle; one more roll counted. */
    method Roll() returns (r: nat)
      requires Valid()
      modifies this
      ensures Valid()
      ensures rollCnt == old(rollCnt) + 1
      ensures r == DieValue(old(rollCnt))
    {
      rollCnt := rollCnt + 1;
      inner := inner + 1;
      r := inner;
      inner := inner % 100;
    }

    /** `DieP1::get_roll_count`. */
    function GetRollCount(): (r: nat)
      reads this
      ensures r == rollCnt
    {
      rollCnt
    }
  }

  /** `Player`: a zero-based position on the track and a score. */
  class Player {
    var score: nat
    var pos: nat

    /** `Player::new_with_pos`: the one-based starting space, score 0. */
    constructor NewWithPos(p: nat)
      requires p >= 1
      ensures pos == p - 1 && score == 0
    {
      score := 0;
      pos := p - 1;
    }

    /** `Player::turn`: move `n` spaces round the track and score the
      * one-based space landed on. */
    method Turn(n: nat)
      modifies this
      ensures pos == (old(pos) + n) % 10
      ensures score == old(score) + pos + 1
      ensures old(score) + 1 <= score <= old(score) + 10
    {
      pos := pos + n;
      pos := pos % 10;
      score := score + pos + 1;
    }

    /** `Player::is_winning`. */
    predicate IsWinning()
      reads this
    {
      score >= 1000
    }
  }

  /** The sum of rolls `k`, `k + 1` and `k + 2`. */
  function ThreeRolls(k: nat): nat
  {
    DieValue(k) + DieValue(k + 1) + DieValue(k + 2)
  }

  /** The rest of a part-one game in which the player to move stands on
    * `pos` with `score` and the other on `pos'` with `score'`, after `rolls`
    * rolls: the loser's score and the total number of rolls. */
  function PlayOne(pos: nat, score: nat, pos': nat, score': nat, rolls: nat): (r: (nat, nat))
    requires score < 1000 && score' < 1000
    ensures r.0 < 1000 && r.1 > rolls && (r.1 - rolls) % 3 == 0
    decreases 2000 - score - score'
  {
    var p := (pos + ThreeRolls(rolls)) % 10;
    var s := score + p + 1;
    if s >= 1000 then (score', rolls + 3)
    else PlayOne(pos', score', p, s, rolls + 3)
  }

  /** The part-one answer: the loser's score times the number of rolls. */
  function AnswerOne(start1: nat, start2: nat): nat
    requires start1 >= 1 && start2 >= 1
  {
    var r := PlayOne(start1 - 1, 0, start2 - 1, 0, 0);
    r.0 * r.1
  }

  /** `players[cur].turn(die.roll() + die.roll() + die.roll())`. */
  method TakeTurn(die: DieP1, p: Player)
    requires die.Valid()
    modifies die, p
    ensures die.Valid() && die.rollCnt == old(die.rollCnt) + 3
    ensures p.pos == (old(p.pos) + ThreeRolls(old(die.rollCnt))) % 10
    ensures p.score == old(p.score) + p.pos + 1
  {
    var r1 := die.Roll();
    var r2 := die.Roll();
    var r3 := die.Roll();
    p.Turn(r1 + r2 + r3);
  }

  lemma MulNonNegative(x: nat, y: nat)
    ensures x * y >= 0
  {
  }

  /** One turn of `p1`'s loop for the player `mover`: the game either ends
    * with the other player's score as the loser's, or goes on with the other
    * player to move. */
  method Move(die: DieP1, mover: Player, other: Player, ghost game: (nat, nat)) returns (won: bool)
    requires die.Valid() && mover != other
    requires mover.score < 1000 && other.score < 1000
    requires PlayOne(mover.pos, mover.score, other.pos, other.score, die.rollCnt) == game
    modifies die, mover
    ensures die.Valid() && mover.score > old(mover.score)
    ensures won <==> mover.IsWinning()
    ensures won ==> game == (other.score, die.rollCnt)
    ensures !won ==> mover.score < 1000 && PlayOne(other.pos, other.score, mover.pos, mover.score, die.rollCnt) == game
  {
    TakeTurn(die, mover);
    won := mover.IsWinning();
  }

  /** `p1`: turns alternate, each moving by the sum of three rolls, until the
    * mover reaches 1000. */
  method P1(start1: nat, start2: nat) returns (answer: nat)
    requires start1 >= 1 && start2 >= 1
    ensures answer == AnswerOne(start1, start2)
  {
    var die := new DieP1();
    var a := new Player.NewWithPos(start1);
    var b := new Player.NewWithPos(start2);
    var cur := false;
    ghost var game := PlayOne(start1 - 1, 0, start2 - 1, 0, 0);
    var loser: nat;
    while true
      invariant die.Valid()
      invariant a.score < 1000 && b.score < 1000
      invariant !cur ==> PlayOne(a.pos, a.score, b.pos, b.score, die.rollCnt) == game
      invariant cur ==> PlayOne(b.pos, b.score, a.pos, a.score, die.rollCnt) == game
      decreases 2000 - a.score - b.score
    {
      var won;
      if !cur {
        won := Move(die, a, b, game);
        if won {
          loser := b.score;
          break;
        }
      } else {
        won := Move(die, b, a, game);
        if won {
          loser := a.score;
          break;
        }
      }
      cur := !cur;
    }
    var rolls := die.GetRollCount();
    MulNonNegative(loser, rolls);
    answer := loser * rolls;
  }

  // ---------------------------------------------------------------- part 2

  /** The three-roll totals of a three-sided die and in how many of the 27
    * universes each happens. */
  const Weights: seq<(nat, nat)> := [(3, 1), (4, 3), (5, 6), (6, 7), (7, 6), (8, 3), (9, 1)]

  /** The number of ways one roll of the three-sided die makes `s`. */
  function Ways1(s: int): nat
  {
    if 1 <= s <= 3 then 1 else 0
  }

  /** The number of ways two rolls make `s`. */
  function Ways2(s: int): nat
  {
    Ways1(s - 1) + Ways1(s - 2) + Ways1(s - 3)
  }

  /** The number of ways three rolls make `s`. */
  function Ways3(s: int): nat
  {
    Ways2(s - 1) + Ways2(s - 2) + Ways2(s - 3)
  }

  /** The table is the distribution of the sum of three rolls: each count is
    * the number of roll triples with that total, no other total is
    * possible, and the counts make the 27 universes. */
  lemma WeightsAreDistribution()
    ensures forall i :: 0 <= i < |Weights| ==> Weights[i].1 == Ways3(Weights[i].0)
    ensures forall s :: (s < 3 || s > 9) ==> Ways3(s) == 0
    ensures WeightSum(|Weights|) == 27
  {
  }

  /** The counts of the first `i` totals. */
  function WeightSum(i: nat): nat
    requires i <= |Weights|
  {
    if i == 0 then 0 else WeightSum(i - 1) + Weights[i - 1].1
  }

  /** `Game`: each player's zero-based position and score, and whose turn
    * it is. */
  datatype Game = Game(plays: seq<(nat, nat)>, isP2Turn: bool)

  /** A game still in play: two players, neither at 21. */
  predicate ValidGame(g: Game)
  {
    |g.plays| == 2 && g.plays[0].1 < 21 && g.plays[1].1 < 21
  }

  function ScoreSum(g: Game): nat
    requires |g.plays| == 2
  {
    g.plays[0].1 + g.plays[1].1
  }

  /** The index of the player to move. */
  function TurnIdx(g: Game): nat
  {
    if g.isP2Turn then 1 else 0
  }

  /** The mover's position and score after moving `roll` spaces. */
  function Moved(g: Game, roll: nat): (nat, nat)
    requires |g.plays| == 2
  {
    var p := (g.plays[TurnIdx(g)].0 + roll) % 10;
    (p, g.plays[TurnIdx(g)].1 + p + 1)
  }

  /** The move wins the game. */
  predicate Wins(g: Game, roll: nat)
    requires |g.plays| == 2
  {
    Moved(g, roll).1 >= 21
  }

  /** The game after a move that does not win: the mover updated and the
    * turn passed. */
  function Next(g: Game, roll: nat): (r: Game)
    requires ValidGame(g) && !Wins(g, roll)
    ensures ValidGame(r) && ScoreSum(r) > ScoreSum(g)
    ensures r.isP2Turn != g.isP2Turn
  {
    Game(g.plays[TurnIdx(g) := Moved(g, roll)], !g.isP2Turn)
  }

  /** The start of part two. */
  function Start(start1: nat, start2: nat): (g: Game)
    requires start1 >= 1 && start2 >= 1
    ensures ValidGame(g) && ScoreSum(g) == 0
  {
    Game([(start1 - 1, 0), (start2 - 1, 0)], false)
  }

  /** The pair with 1 for player `t`. */
  function Unit(t: nat): (nat, nat)
  {
    if t == 0 then (1, 0) else (0, 1)
  }

  /** In how many universes each player wins from `g`: the meaning of part
    * two, one universe per roll triple. */
  function Outcome(g: Game): (r: (nat, nat))
    requires ValidGame(g)
    decreases 42 - ScoreSum(g), 3
  {
    RollsOutcome(g, |Weights|)
  }

  /** The wins from `g` over the universes whose three-roll total is one of
    * the first `i`. */
  function RollsOutcome(g: Game, i: nat): (r: (nat, nat))
    requires ValidGame(g) && i <= |Weights|
    decreases 42 - ScoreSum(g), 2, i
  {
    if i == 0 then (0, 0)
    else
      var prev := RollsOutcome(g, i - 1);
      var cnt := Weights[i - 1].1;
      var o := RollOutcome(g, Weights[i - 1].0);
      (prev.0 + cnt * o.0, prev.1 + cnt * o.1)
  }

  /** The wins from `g` in one universe where the mover moves `roll`. */
  function RollOutcome(g: Game, roll: nat): (r: (nat, nat))
    requires ValidGame(g)
    decreases 42 - ScoreSum(g), 1
  {
    if Wins(g, roll) then Unit(TurnIdx(g)) else Outcome(Next(g, roll))
  }

  /** `inc_hashmap`: add `n` to the count of `k`, starting from 0 when `k` is
    * absent. */
  function IncHashmap<T>(hm: map<T, nat>, k: T, n: nat): (r: map<T, nat>)
    ensures r.Keys == hm.Keys + {k}
    ensures r[k] == (if k in hm then hm[k] else 0) + n
    ensures forall j :: j in hm && j != k ==> r[j] == hm[j]
  {
    hm[k := (if k in hm then hm[k] else 0) + n]
  }

  /** The sum over a count map of each count times the weight `w` of its
    * key. */
  ghost function MapSum<K>(m: map<K, nat>, w: K -> nat): nat
    decreases |m.Keys|
  {
    if m == map[] then 0
    else
      var k :| k in m;
      assert |(m - {k}).Keys| < |m.Keys| by {
        assert (m - {k}).Keys == m.Keys - {k};
      }
      m[k] * w(k) + MapSum(m - {k}, w)
  }

  /** The sum does not depend on which key is taken out first. */
  lemma {:induction false} MapSumRemove<K>(m: map<K, nat>, w: K -> nat, k: K)
    requires k in m
    ensures MapSum(m, w) == m[k] * w(k) + MapSum(m - {k}, w)
    decreases |m.Keys|
  {
    var j :| j in m && MapSum(m, w) == m[j] * w(j) + MapSum(m - {j}, w);
    if j != k {
      assert (m - {j}).Keys == m.Keys - {j};
      assert (m - {k}).Keys == m.Keys - {k};
      MapSumRemove(m - {j}, w, k);
      MapSumRemove(m - {k}, w, j);
      assert m - {j} - {k} == m - {k} - {j};
    }
  }

  lemma MapSumEmpty<K>(m: map<K, nat>, w: K -> nat)
    requires |m| == 0
    ensures MapSum(m, w) == 0
  {
  }

  /** Adding `n` to the count of `k` adds `n` times its weight. */
  lemma MapSumInc<K>(m: map<K, nat>, w: K -> nat, k: K, n: nat)
    ensures MapSum(IncHashmap(m, k, n), w) == MapSum(m, w) + n * w(k)
  {
    var r := IncHashmap(m, k, n);
    MapSumRemove(r, w, k);
    assert r - {k} == m - {k};
    if k in m {
      MapSumRemove(m, w, k);
      var a, c := m[k], w(k);
      assert r[k] == a + n;
      AddMul(a, n, c);
    } else {
      assert m - {k} == m;
    }
  }

  /** What is known so far: the wins of each player and the open games. */
  datatype Tally = Tally(win0: nat, win1: nat, games: map<Game, nat>)

  /** `play_game_roll` on a tally: a winning move credits the mover with
    * `gCnt` universes, any other move adds them to the next game. */
  function PlayRoll(g: Game, gCnt: nat, t: Tally, roll: nat): Tally
    requires ValidGame(g)
  {
    if Wins(g, roll) then
      if TurnIdx(g) == 0 then t.(win0 := t.win0 + gCnt) else t.(win1 := t.win1 + gCnt)
    else t.(games := IncHashmap(t.games, Next(g, roll), gCnt))
  }

  /** `play_game` on a tally, over the first `i` roll totals. */
  function PlayRolls(g: Game, gCnt: nat, t: Tally, i: nat): Tally
    requires ValidGame(g) && i <= |Weights|
  {
    if i == 0 then t
    else PlayRoll(g, gCnt * Weights[i - 1].1, PlayRolls(g, gCnt, t, i - 1), Weights[i - 1].0)
  }

  /** `play_game_roll`. */
  method PlayGameRoll(g: Game, gCnt: nat, winCounts: array<nat>, m: map<Game, nat>, roll: nat)
    returns (m': map<Game, nat>)
    requires winCounts.Length == 2 && ValidGame(g)
    modifies winCounts
    ensures Tally(winCounts[0], winCounts[1], m')
         == PlayRoll(g, gCnt, Tally(old(winCounts[0]), old(winCounts[1]), m), roll)
  {
    var turnIdx := if g.isP2Turn then 1 else 0;
    var cur := g.plays[turnIdx];
    var p := (cur.0 + roll) % 10;
    var s := cur.1 + p + 1;
    if s >= 21 {
      winCounts[turnIdx] := winCounts[turnIdx] + gCnt;
      m' := m;
    } else {
      var g' := Game(g.plays[turnIdx := (p, s)], !g.isP2Turn);
      m' := IncHashmap(m, g', gCnt);
    }
  }

  /** `play_game`: one call of `play_game_roll` per roll total, with the
    * universes multiplied by its count. */
  method PlayGame(g: Game, gCnt: nat, winCounts: array<nat>, m: map<Game, nat>)
    returns (m': map<Game, nat>)
    requires winCounts.Length == 2 && ValidGame(g)
    modifies winCounts
    ensures Tally(winCounts[0], winCounts[1], m')
         == PlayRolls(g, gCnt, Tally(old(winCounts[0]), old(winCounts[1]), m), |Weights|)
  {
    m' := m;
    for i := 0 to |Weights|
      invariant Tally(winCounts[0], winCounts[1], m')
             == PlayRolls(g, gCnt, Tally(old(winCounts[0]), old(winCounts[1]), m), i)
    {
      var (roll, cnt) := Weights[i];
      m' := PlayGameRoll(g, gCnt * cnt, winCounts, m', roll);
    }
  }

  function One(g: Game): nat
  {
    1
  }

  /** The number of universes a tally accounts for. */
  ghost function Universes(t: Tally): nat
  {
    t.win0 + t.win1 + MapSum(t.games, One)
  }

  /** `play_game` splits the `gCnt` universes of `g` into exactly `27 * gCnt`,
    * each ending in a win or in a next game. */
  lemma {:induction false} PlayGameConserves(g: Game, gCnt: nat, t: Tally, i: nat)
    requires ValidGame(g) && i <= |Weights|
    ensures Universes(PlayRolls(g, gCnt, t, i)) == Universes(t) + gCnt * WeightSum(i)
  {
    if i > 0 {
      PlayGameConserves(g, gCnt, t, i - 1);
      var cnt := Weights[i - 1].1;
      PlayRollUniverses(g, gCnt * cnt, PlayRolls(g, gCnt, t, i - 1), Weights[i - 1].0);
      MulAdd(gCnt, WeightSum(i - 1), cnt);
    }
  }

  /** One `play_game_roll` adds its `c` universes to a win or a game. */
  lemma PlayRollUniverses(g: Game, c: nat, t: Tally, roll: nat)
    requires ValidGame(g)
    ensures Universes(PlayRoll(g, c, t, roll)) == Universes(t) + c
  {
    if !Wins(g, roll) {
      MapSumInc(t.games, One, Next(g, roll), c);
    }
  }

  /** Player 1's and player 2's wins from a game, 0 for a finished one. */
  function Wins0(g: Game): nat
  {
    if ValidGame(g) then Outcome(g).0 else 0
  }

  function Wins1(g: Game): nat
  {
    if ValidGame(g) then Outcome(g).1 else 0
  }

  /** The wins a tally stands for once every open game is played out. */
  ghost function Value(t: Tally): (nat, nat)
  {
    (t.win0 + MapSum(t.games, Wins0), t.win1 + MapSum(t.games, Wins1))
  }

  /** `play_game` keeps the eventual wins: the `gCnt` universes of `g` are
    * replaced by games and wins worth `gCnt` times the outcome of `g`. */
  lemma {:induction false} PlayGameValue(g: Game, gCnt: nat, t: Tally, i: nat)
    requires ValidGame(g) && i <= |Weights|
    ensures Value(PlayRolls(g, gCnt, t, i)).0 == Value(t).0 + gCnt * RollsOutcome(g, i).0
    ensures Value(PlayRolls(g, gCnt, t, i)).1 == Value(t).1 + gCnt * RollsOutcome(g, i).1
  {
    if i > 0 {
      PlayGameValue(g, gCnt, t, i - 1);
      var roll, cnt := Weights[i - 1].0, Weights[i - 1].1;
      PlayRollValue(g, gCnt * cnt, PlayRolls(g, gCnt, t, i - 1), roll);
      var ro, o := RollsOutcome(g, i - 1), RollOutcome(g, roll);
      ScaleStep(gCnt, cnt, ro.0, o.0);
      ScaleStep(gCnt, cnt, ro.1, o.1);
    }
  }

  /** One `play_game_roll` adds `c` times the outcome of its move. */
  lemma PlayRollValue(g: Game, c: nat, t: Tally, roll: nat)
    requires ValidGame(g)
    ensures Value(PlayRoll(g, c, t, roll)).0 == Value(t).0 + c * RollOutcome(g, roll).0
    ensures Value(PlayRoll(g, c, t, roll)).1 == Value(t).1 + c * RollOutcome(g, roll).1
  {
    if !Wins(g, roll) {
      MapSumInc(t.games, Wins0, Next(g, roll), c);
      MapSumInc(t.games, Wins1, Next(g, roll), c);
    }
  }

  lemma ScaleStep(a: nat, b: nat, r: nat, o: nat)
    ensures a * r + (a * b) * o == a * (r + b * o)
  {
  }

  lemma AddMul(a: nat, b: nat, c: nat)
    ensures (a + b) * c == a * c + b * c
  {
  }

  lemma MulAdd(a: nat, b: nat, c: nat)
    ensures a * (b + c) == a * b + a * c
  {
  }

  /** Every game `play_game` opens is in play and has a higher score sum
    * than `g`. */
  lemma {:induction false} PlayGameOpens(g: Game, gCnt: nat, t: Tally, i: nat)
    requires ValidGame(g) && i <= |Weights|
    ensures forall k :: k in PlayRolls(g, gCnt, t, i).games ==>
              k in t.games || (ValidGame(k) && ScoreSum(k) > ScoreSum(g))
  {
    if i > 0 {
      PlayGameOpens(g, gCnt, t, i - 1);
    }
  }

  /** Draining one open game of `rest` into a tally moves its eventual wins
    * from what is left to the tally, so the two together still add up. */
  lemma DrainStep(rest: map<Game, nat>, game: Game, before: Tally, total: (nat, nat))
    requires game in rest && ValidGame(game)
    requires Value(before).0 + MapSum(rest, Wins0) == total.0
    requires Value(before).1 + MapSum(rest, Wins1) == total.1
    ensures Value(PlayRolls(game, rest[game], before, |Weights|)).0 + MapSum(rest - {game}, Wins0) == total.0
    ensures Value(PlayRolls(game, rest[game], before, |Weights|)).1 + MapSum(rest - {game}, Wins1) == total.1
  {
    PlayGameValue(game, rest[game], before, |Weights|);
    MapSumRemove(rest, Wins0, game);
    MapSumRemove(rest, Wins1, game);
  }

  /** One pass of the drain loop: `play_game` on one open game of `rest`
    * with its number of universes. */
  method Drain(rest: map<Game, nat>, game: Game, m: map<Game, nat>, winCounts: array<nat>,
               ghost round: nat, ghost total: (nat, nat))
    returns (m': map<Game, nat>)
    requires winCounts.Length == 2 && game in rest
    requires forall g :: g in rest ==> ValidGame(g) && ScoreSum(g) >= round
    requires forall g :: g in m ==> ValidGame(g) && ScoreSum(g) > round
    requires Value(Tally(winCounts[0], winCounts[1], m)).0 + MapSum(rest, Wins0) == total.0
    requires Value(Tally(winCounts[0], winCounts[1], m)).1 + MapSum(rest, Wins1) == total.1
    modifies winCounts
    ensures forall g :: g in m' ==> ValidGame(g) && ScoreSum(g) > round
    ensures Value(Tally(winCounts[0], winCounts[1], m')).0 + MapSum(rest - {game}, Wins0) == total.0
    ensures Value(Tally(winCounts[0], winCounts[1], m')).1 + MapSum(rest - {game}, Wins1) == total.1
  {
    var cnt := rest[game];
    ghost var before := Tally(winCounts[0], winCounts[1], m);
    m' := PlayGame(game, cnt, winCounts, m);
    DrainStep(rest, game, before, total);
    PlayGameOpens(game, cnt, before, |Weights|);
  }

  /** One round of the `p2` loop: every open game, with its number of
    * universes, is drained into what `play_game` makes of it. The eventual
    * wins are kept, and every new game has a higher score sum than `round`
    * when every old one reached it. */
  method PlayRound(gamesLs: map<Game, nat>, winCounts: array<nat>, ghost round: nat)
    returns (newGamesLs: map<Game, nat>)
    requires winCounts.Length == 2
    requires forall g :: g in gamesLs ==> ValidGame(g) && ScoreSum(g) >= round
    modifies winCounts
    ensures forall g :: g in newGamesLs ==> ValidGame(g) && ScoreSum(g) > round
    ensures Value(Tally(winCounts[0], winCounts[1], newGamesLs))
         == Value(Tally(old(winCounts[0]), old(winCounts[1]), gamesLs))
  {
    newGamesLs := map[];
    var rest := gamesLs;
    ghost var total := Value(Tally(winCounts[0], winCounts[1], gamesLs));
    assert total == Value(Tally(old(winCounts[0]), old(winCounts[1]), gamesLs));
    while |rest| != 0
      invariant forall g :: g in rest ==> ValidGame(g) && ScoreSum(g) >= round
      invariant forall g :: g in newGamesLs ==> ValidGame(g) && ScoreSum(g) > round
      invariant Value(Tally(winCounts[0], winCounts[1], newGamesLs)).0 + MapSum(rest, Wins0) == total.0
      invariant Value(Tally(winCounts[0], winCounts[1], newGamesLs)).1 + MapSum(rest, Wins1) == total.1
      decreases |rest|
    {
      var game :| game in rest;
      newGamesLs := Drain(rest, game, newGamesLs, winCounts, round, total);
      rest := rest - {game};
    }
    MapSumEmpty(rest, Wins0);
    MapSumEmpty(rest, Wins1);
    assert Value(Tally(winCounts[0], winCounts[1], newGamesLs)) == total;
  }

  /** `p2`: rounds are played until no game is open; the win counts are then
    * the outcome of the starting game, and the answer is the larger. */
  method P2(start1: nat, start2: nat) returns (answer: nat, winCounts: array<nat>)
    requires start1 >= 1 && start2 >= 1
    ensures winCounts.Length == 2
    ensures winCounts[0] == Outcome(Start(start1, start2)).0
    ensures winCounts[1] == Outcome(Start(start1, start2)).1
    ensures answer == if winCounts[0] >= winCounts[1] then winCounts[0] else winCounts[1]
  {
    var start := Start(start1, start2);
    var gamesLs: map<Game, nat> := map[start := 1];
    winCounts := new nat[2](_ => 0);
    ghost var round: nat := 0;
    MapSumRemove(gamesLs, Wins0, start);
    MapSumRemove(gamesLs, Wins1, start);
    assert gamesLs - {start} == map[];
    while |gamesLs| != 0
      invariant forall g :: g in gamesLs ==> ValidGame(g) && ScoreSum(g) >= round
      invariant Value(Tally(winCounts[0], winCounts[1], gamesLs)) == Outcome(start)
      decreases 42 - round
    {
      ghost var g0 :| g0 in gamesLs;
      gamesLs := PlayRound(gamesLs, winCounts, round);
      round := round + 1;
    }
    MapSumEmpty(gamesLs, Wins0);
    MapSumEmpty(gamesLs, Wins1);
    answer := if winCounts[0] >= winCounts[1] then winCounts[0] else winCounts[1];
  }

  // ---------------------------------------------------------------- input

  /** `parse_start`: the number after the last space of
    * `Player N starting position: P`; `None` is a panic. */
  function ParseStart(s: string): (r: Option<nat>)
    ensures r.Some? ==> exists a, b :: s == a + " " + b && ' ' !in b && ParseInt(b, 0, 0xFFFF_FFFF) == Some(r.value as int)
  {
    match RSplitOnce(s, ' ')
    case None => None
    case Some((_, b)) =>
      match ParseInt(b, 0, 0xFFFF_FFFF)
      case None => None
      case Some(v) => Some(v as nat)
  }

  /** `read_data`: the two starting positions from the first two lines. */
  function ReadData(lines: seq<string>): (r: Option<(nat, nat)>)
    ensures |lines| < 2 ==> r.None?
    ensures r.Some? ==> Some(r.value.0) == ParseStart(lines[0]) && Some(r.value.1) == ParseStart(lines[1])
  {
    if |lines| < 2 then None
    else
      match (ParseStart(lines[0]), ParseStart(lines[1]))
      case (Some(a), Some(b)) => Some((a, b))
      case _ => None
  }
}
