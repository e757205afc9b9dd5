/** Cave path counting (adv-12-rs): caves are numbered in order of first
  * appearance, every tunnel is stored as two directed edges, and
  * `find_path_cnt` counts routes from `start` to `end`. A small cave's edges
  * are deleted once it is entered; in part 2 one small cave may be entered a
  * second time, tracked by a three-state machine. */
module Adv12 {
  import opened Common
  import opened RustStr

  type Edge = (nat, nat)

  // ---- edge lists -------------------------------------------------------------

  /** `without`: the edges that touch neither end at `n`, in order. */
  function Without(paths: seq<Edge>, n: nat): (r: seq<Edge>)
    ensures |r| <= |paths|
  {
    if paths == [] then []
    else (if paths[0].0 != n && paths[0].1 != n then [paths[0]] else []) + Without(paths[1..], n)
  }

  lemma {:induction false} WithoutExact(paths: seq<Edge>, n: nat, e: Edge)
    ensures e in Without(paths, n) <==> e in paths && e.0 != n && e.1 != n
  {
    if paths != [] {
      WithoutExact(paths[1..], n, e);
      assert paths == [paths[0]] + paths[1..];
    }
  }

  /** Removing the edges of a cave that has an edge drops at least one. */
  lemma {:induction false} WithoutShrinks(paths: seq<Edge>, n: nat, t: nat)
    requires (n, t) in paths
    ensures |Without(paths, n)| < |paths|
  {
    if paths[0] != (n, t) {
      WithoutShrinks(paths[1..], n, t);
    }
  }

  /** `reachable_from`: the targets of the edges leaving `n`, in order. */
  function Reachable(paths: seq<Edge>, n: nat): (r: seq<nat>)
    ensures |r| <= |paths|
  {
    if paths == [] then []
    else (if paths[0].0 == n then [paths[0].1] else []) + Reachable(paths[1..], n)
  }

  lemma {:induction false} ReachableExact(paths: seq<Edge>, n: nat, t: nat)
    ensures t in Reachable(paths, n) <==> (n, t) in paths
  {
    if paths != [] {
      ReachableExact(paths[1..], n, t);
      assert paths == [paths[0]] + paths[1..];
    }
  }

  // ---- the visit states ---------------------------------------------------------

  /** `CanTwice`: a small cave may still be entered twice; `Needs(n)`: this
    * branch counts only routes that do enter `n` again; `NoTwice`: no second
    * visit is left. `is_needy` is the test `s.Needs?`. */
  datatype VisitState = CanTwice | Needs(n: nat) | NoTwice

  /** `next_states`: the states and edge lists to continue with after leaving
    * cave `from`; `big` tells whether `from` is a big cave. */
  function NextStates(s: VisitState, from: nat, isStart: bool, paths: seq<Edge>, big: bool): (r: seq<(VisitState, seq<Edge>)>)
    ensures 1 <= |r| <= 2
  {
    if big then [(s, paths)]
    else if isStart then [(s, Without(paths, from))]
    else match s {
      case CanTwice => [(CanTwice, Without(paths, from)), (Needs(from), paths)]
      case Needs(n) => [(if n == from then NoTwice else Needs(n), Without(paths, from))]
      case NoTwice => [(NoTwice, Without(paths, from))]
    }
  }

  /** A big cave hands on the state and every edge; leaving the start, or any
    * small cave in state `NoTwice`, deletes the cave's edges and keeps the
    * state. */
  lemma NextStatesKeep(s: VisitState, from: nat, isStart: bool, paths: seq<Edge>, big: bool)
    ensures big ==> NextStates(s, from, isStart, paths, big) == [(s, paths)]
    ensures !big && (isStart || s == NoTwice) ==> NextStates(s, from, isStart, paths, big) == [(s, Without(paths, from))]
  {
  }

  /** Leaving a small cave with the second visit unused branches: either the
    * cave is closed for good, or it stays open and the branch must use it
    * again. */
  lemma NextStatesBranch(from: nat, paths: seq<Edge>)
    ensures NextStates(CanTwice, from, false, paths, false) == [(CanTwice, Without(paths, from)), (Needs(from), paths)]
  {
  }

  /** Leaving a small cave while needing `n`: the need is met (no second visit
    * remains) exactly when the cave is `n`; the cave is closed either way. */
  lemma NextStatesNeeds(n: nat, from: nat, paths: seq<Edge>)
    ensures var r := NextStates(Needs(n), from, false, paths, false);
      |r| == 1 && r[0].1 == Without(paths, from) && (r[0].0 == NoTwice <==> n == from) && (r[0].0 != NoTwice ==> r[0].0 == Needs(n))
  {
  }

  // ---- termination of the search ------------------------------------------------

  /** The inputs the search handles: every cave numbered, and no tunnel
    * between two big caves (the source recurses without end there). */
  predicate Ok(paths: seq<Edge>, big: seq<bool>)
  {
    forall k :: 0 <= k < |paths| ==> paths[k].0 < |big| && paths[k].1 < |big| && !(big[paths[k].0] && big[paths[k].1])
  }

  /** No tunnel joins two big caves. */
  predicate NoBigTunnel(paths: seq<Edge>, big: seq<bool>)
  {
    forall k :: 0 <= k < |paths| && paths[k].0 < |big| && paths[k].1 < |big| ==> !(big[paths[k].0] && big[paths[k].1])
  }

  lemma OkWithout(paths: seq<Edge>, big: seq<bool>, n: nat)
    requires Ok(paths, big)
    ensures Ok(Without(paths, n), big)
  {
    forall k | 0 <= k < |Without(paths, n)|
      ensures Without(paths, n)[k] in paths
    {
      WithoutExact(paths, n, Without(paths, n)[k]);
    }
  }

  function Rank(s: VisitState): nat
  {
    match s
    case CanTwice => 2
    case Needs(_) => 1
    case NoTwice => 0
  }

  function Flag(b: bool): nat
  {
    if b then 1 else 0
  }

  /** The measure of a call falls lexicographically: fewer edges, else a lower
    * state, else a small cave after a big one. */
  predicate Below(next: (VisitState, seq<Edge>), paths: seq<Edge>, s: VisitState, fromBig: bool, toBig: bool)
  {
    |next.1| < |paths| ||
    (|next.1| == |paths| && (Rank(next.0) < Rank(s) || (Rank(next.0) == Rank(s) && Flag(toBig) < Flag(fromBig))))
  }

  /** Every continuation after following the edge `from -> to` is smaller. */
  lemma NextSmaller(s: VisitState, from: nat, isStart: bool, paths: seq<Edge>, big: seq<bool>, to: nat)
    requires Ok(paths, big) && from < |big| && (from, to) in paths
    ensures to < |big|
    ensures forall k :: 0 <= k < |NextStates(s, from, isStart, paths, big[from])| ==>
      var next := NextStates(s, from, isStart, paths, big[from])[k];
      Ok(next.1, big) && Below(next, paths, s, big[from], big[to])
  {
    var k :| 0 <= k < |paths| && paths[k] == (from, to);
    WithoutShrinks(paths, from, to);
    OkWithout(paths, big, from);
  }

  // ---- counting -------------------------------------------------------------------

  /** The count `find_path_cnt` computes: at `end`, one route unless the
    * branch still needs its second visit; elsewhere the sum over every edge
    * out of `from` and every continuation state. */
  function Count(from: nat, end: nat, paths: seq<Edge>, big: seq<bool>, s: VisitState, isStart: bool): (r: nat)
    requires Ok(paths, big) && from < |big|
    ensures from == end ==> r <= 1 && (r == 0 <==> s.Needs?)
    ensures from != end && Reachable(paths, from) == [] ==> r == 0
    decreases |paths|, Rank(s), Flag(big[from]), 2, 0
  {
    if from == end then (if s.Needs? then 0 else 1)
    else
      var tos := Reachable(paths, from);
      ReachableIn(paths, from);
      SumTo(tos, |tos|, end, paths, big, s, isStart, from)
  }

  /** The sum over the first `i` targets `tos`. */
  function SumTo(tos: seq<nat>, i: nat, end: nat, paths: seq<Edge>, big: seq<bool>, s: VisitState, isStart: bool, from: nat): nat
    requires i <= |tos| && Ok(paths, big) && from < |big|
    requires forall k :: 0 <= k < |tos| ==> (from, tos[k]) in paths
    decreases |paths|, Rank(s), Flag(big[from]), 1, i
  {
    if i == 0 then 0
    else SumTo(tos, i - 1, end, paths, big, s, isStart, from) + StepSum(tos[i - 1], end, paths, big, s, isStart, from)
  }

  /** The routes that follow the edge `from -> to`, over every continuation
    * state. */
  function StepSum(to: nat, end: nat, paths: seq<Edge>, big: seq<bool>, s: VisitState, isStart: bool, from: nat): nat
    requires Ok(paths, big) && from < |big| && (from, to) in paths
    decreases |paths|, Rank(s), Flag(big[from]), 0, 3
  {
    var nexts := NextStates(s, from, isStart, paths, big[from]);
    NextSmaller(s, from, isStart, paths, big, to);
    SumStates(to, nexts, |nexts|, end, big, paths, s, from)
  }

  /** The sum over the first `j` continuations `nexts` of the step to `to`. */
  function SumStates(to: nat, nexts: seq<(VisitState, seq<Edge>)>, j: nat, end: nat, big: seq<bool>,
                     paths: seq<Edge>, s: VisitState, from: nat): nat
    requires j <= |nexts| && from < |big| && to < |big|
    requires forall k :: 0 <= k < |nexts| ==> Ok(nexts[k].1, big) && Below(nexts[k], paths, s, big[from], big[to])
    decreases |paths|, Rank(s), Flag(big[from]), 0, j
  {
    if j == 0 then 0
    else SumStates(to, nexts, j - 1, end, big, paths, s, from) + Count(to, end, nexts[j - 1].1, big, nexts[j - 1].0, false)
  }

  lemma ReachableIn(paths: seq<Edge>, from: nat)
    ensures forall k :: 0 <= k < |Reachable(paths, from)| ==> (from, Reachable(paths, from)[k]) in paths
  {
    forall k | 0 <= k < |Reachable(paths, from)|
      ensures (from, Reachable(paths, from)[k]) in paths
    {
      ReachableExact(paths, from, Reachable(paths, from)[k]);
    }
  }

  /** `find_path_cnt`, with its `sum` loops over the targets and the
    * continuation states. */
  method FindPathCnt(from: nat, end: nat, paths: seq<Edge>, big: seq<bool>, s: VisitState, isStart: bool) returns (sum: nat)
    requires Ok(paths, big) && from < |big|
    ensures sum == Count(from, end, paths, big, s, isStart)
    decreases |paths|, Rank(s), Flag(big[from]), 1
  {
    if from == end {
      return if s.Needs? then 0 else 1;
    }
    sum := 0;
    var tos := Reachable(paths, from);
    ReachableIn(paths, from);
    for i := 0 to |tos|
      invariant sum == SumTo(tos, i, end, paths, big, s, isStart, from)
    {
      var t := StepCount(tos[i], end, paths, big, s, isStart, from);
      sum := sum + t;
    }
  }

  /** The body of `find_path_cnt`'s loop over the targets: the routes on
    * from `to`, summed over every continuation state. */
  method StepCount(to: nat, end: nat, paths: seq<Edge>, big: seq<bool>, s: VisitState, isStart: bool, from: nat)
      returns (t: nat)
    requires Ok(paths, big) && from < |big| && (from, to) in paths
    ensures t == StepSum(to, end, paths, big, s, isStart, from)
    decreases |paths|, Rank(s), Flag(big[from]), 0
  {
    var nexts := NextStates(s, from, isStart, paths, big[from]);
    NextSmaller(s, from, isStart, paths, big, to);
    t := 0;
    for j := 0 to |nexts|
      invariant t == SumStates(to, nexts, j, end, big, paths, s, from)
    {
      var r := FindPathCnt(to, end, nexts[j].1, big, nexts[j].0, false);
      t := t + r;
    }
  }

  // ---- part 2 counts at least what part 1 counts ----------------------------------

  /** With the second visit still available the count is never smaller than
    * with it used up: every route of part 1 is a route of part 2. */
  lemma {:induction false} CountMono(from: nat, end: nat, paths: seq<Edge>, big: seq<bool>, isStart: bool)
    requires Ok(paths, big) && from < |big|
    ensures Count(from, end, paths, big, CanTwice, isStart) >= Count(from, end, paths, big, NoTwice, isStart)
    decreases |paths|, Flag(big[from]), 1, 0
  {
    if from != end {
      var tos := Reachable(paths, from);
      ReachableIn(paths, from);
      SumToMono(tos, |tos|, end, paths, big, isStart, from);
    }
  }

  lemma {:induction false} SumToMono(tos: seq<nat>, i: nat, end: nat, paths: seq<Edge>, big: seq<bool>, isStart: bool, from: nat)
    requires i <= |tos| && Ok(paths, big) && from < |big|
    requires forall k :: 0 <= k < |tos| ==> (from, tos[k]) in paths
    ensures SumTo(tos, i, end, paths, big, CanTwice, isStart, from) >= SumTo(tos, i, end, paths, big, NoTwice, isStart, from)
    decreases |paths|, Flag(big[from]), 0, i
  {
    if i > 0 {
      SumToMono(tos, i - 1, end, paths, big, isStart, from);
      StepMono(tos[i - 1], end, paths, big, isStart, from);
    }
  }

  /** One edge `from -> to`: the continuations of `CanTwice` count at least
    * those of `NoTwice`. */
  lemma StepMono(to: nat, end: nat, paths: seq<Edge>, big: seq<bool>, isStart: bool, from: nat)
    requires Ok(paths, big) && from < |big| && (from, to) in paths
    ensures StepSum(to, end, paths, big, CanTwice, isStart, from) >= StepSum(to, end, paths, big, NoTwice, isStart, from)
    decreases |paths|, Flag(big[from]), 0, 0
  {
    NextSmaller(CanTwice, from, isStart, paths, big, to);
    NextSmaller(NoTwice, from, isStart, paths, big, to);
    var two := NextStates(CanTwice, from, isStart, paths, big[from]);
    var one := NextStates(NoTwice, from, isStart, paths, big[from]);
    assert one[0].1 == two[0].1 && one[0].0 == NoTwice && two[0].0 == CanTwice && |one| == 1;
    CountMono(to, end, one[0].1, big, false);
    assert SumStates(to, one, 1, end, big, paths, NoTwice, from) == Count(to, end, one[0].1, big, NoTwice, false);
    assert SumStates(to, two, 1, end, big, paths, CanTwice, from) == Count(to, end, two[0].1, big, CanTwice, false);
  }

  // ---- a branch that needs a cave it can no longer reach counts nothing --------------

  /** No edge of `paths` touches `n`. */
  predicate Untouched(paths: seq<Edge>, n: nat)
  {
    forall k :: 0 <= k < |paths| ==> paths[k].0 != n && paths[k].1 != n
  }

  /** A `Needs(n)` branch only counts routes that enter `n` again: once no
    * edge leads to `n` it counts nothing, so routes without a second visit are
    * counted once, by the `CanTwice` branch. */
  lemma {:induction false} NeedsDead(from: nat, end: nat, paths: seq<Edge>, big: seq<bool>, n: nat, isStart: bool)
    requires Ok(paths, big) && from < |big| && from != n && Untouched(paths, n)
    ensures Count(from, end, paths, big, Needs(n), isStart) == 0
    decreases |paths|, Flag(big[from]), 1, 0
  {
    if from != end {
      var tos := Reachable(paths, from);
      ReachableIn(paths, from);
      SumToNeedsDead(tos, |tos|, end, paths, big, n, isStart, from);
    }
  }

  lemma {:induction false} SumToNeedsDead(tos: seq<nat>, i: nat, end: nat, paths: seq<Edge>, big: seq<bool>, n: nat, isStart: bool, from: nat)
    requires i <= |tos| && Ok(paths, big) && from < |big| && from != n && Untouched(paths, n)
    requires forall k :: 0 <= k < |tos| ==> (from, tos[k]) in paths
    ensures SumTo(tos, i, end, paths, big, Needs(n), isStart, from) == 0
    decreases |paths|, Flag(big[from]), 0, i
  {
    if i > 0 {
      SumToNeedsDead(tos, i - 1, end, paths, big, n, isStart, from);
      StepNeedsDead(tos[i - 1], end, paths, big, n, isStart, from);
    }
  }

  lemma StepNeedsDead(to: nat, end: nat, paths: seq<Edge>, big: seq<bool>, n: nat, isStart: bool, from: nat)
    requires Ok(paths, big) && from < |big| && (from, to) in paths && from != n && Untouched(paths, n)
    ensures StepSum(to, end, paths, big, Needs(n), isStart, from) == 0
    decreases |paths|, Flag(big[from]), 0, 0
  {
    NextSmaller(Needs(n), from, isStart, paths, big, to);
    var next := NextStates(Needs(n), from, isStart, paths, big[from]);
    assert |next| == 1 && next[0].0 == Needs(n);
    assert to != n;
    UntouchedWithout(paths, n, from);
    NeedsDead(to, end, next[0].1, big, n, false);
    assert SumStates(to, next, 1, end, big, paths, Needs(n), from) == Count(to, end, next[0].1, big, Needs(n), false);
  }

  lemma UntouchedWithout(paths: seq<Edge>, n: nat, m: nat)
    requires Untouched(paths, n)
    ensures Untouched(Without(paths, m), n)
  {
    forall k | 0 <= k < |Without(paths, m)|
      ensures Without(paths, m)[k] in paths
    {
      WithoutExact(paths, m, Without(paths, m)[k]);
    }
  }

  // ---- read_data ------------------------------------------------------------------

  /** `strip_suffix('\n').unwrap_or(b)`. */
  function StripNewline(b: string): (r: string)
    ensures b == r + ['\n'] || b == r
  {
    if |b| > 0 && b[|b| - 1] == '\n' then b[..|b| - 1] else b
  }

  /** One line `a-b` as its two cave names; `None` where the line has no `-`
    * (the source's `unwrap` panics). */
  function ParseLine(line: string): Option<(string, string)>
  {
    match SplitOnce(line, '-')
    case None => None
    case Some(p) => Some((p.0, StripNewline(p.1)))
  }

  /** The parsed lines, `None` if any line has no `-`. */
  function Pairs(lines: seq<string>): (r: Option<seq<(string, string)>>)
    ensures r.Some? ==> |r.value| == |lines|
  {
    if lines == [] then Some([])
    else match (Pairs(lines[..|lines| - 1]), ParseLine(lines[|lines| - 1])) {
      case (Some(ps), Some(p)) => Some(ps + [p])
      case _ => None
    }
  }

  lemma {:induction false} PairsPrefix(lines: seq<string>, i: nat)
    requires i <= |lines| && Pairs(lines).Some?
    ensures Pairs(lines[..i]) == Some(Pairs(lines).value[..i])
    decreases |lines|
  {
    if i < |lines| {
      var prefix := lines[..|lines| - 1];
      PairsPrefix(prefix, i);
      assert prefix[..i] == lines[..i];
      var ps := Pairs(prefix).value;
      assert Pairs(lines).value == ps + [ParseLine(lines[|lines| - 1]).value];
      assert (ps + [ParseLine(lines[|lines| - 1]).value])[..i] == ps[..i];
    } else {
      assert lines[..i] == lines;
      assert Pairs(lines).value[..i] == Pairs(lines).value;
    }
  }

  /** Every cave name in line order: `a` then `b` of each line. */
  function Names(ps: seq<(string, string)>): (r: seq<string>)
    ensures |r| == 2 * |ps|
  {
    if ps == [] then [] else Names(ps[..|ps| - 1]) + [ps[|ps| - 1].0, ps[|ps| - 1].1]
  }

  lemma {:induction false} NamesAt(ps: seq<(string, string)>, i: nat)
    requires i < |ps|
    ensures Names(ps)[2 * i] == ps[i].0 && Names(ps)[2 * i + 1] == ps[i].1
  {
    if i < |ps| - 1 {
      NamesAt(ps[..|ps| - 1], i);
    }
  }

  /** The names in order of first appearance, each once: the id of a cave is
    * its index here. */
  function Dedup(s: seq<string>): (d: seq<string>)
  {
    if s == [] then []
    else
      var d := Dedup(s[..|s| - 1]);
      if s[|s| - 1] in d then d else d + [s[|s| - 1]]
  }

  lemma {:induction false} DedupExact(s: seq<string>, x: string)
    ensures x in Dedup(s) <==> x in s
  {
    if s != [] {
      DedupExact(s[..|s| - 1], x);
      assert s == s[..|s| - 1] + [s[|s| - 1]];
    }
  }

  predicate Distinct<T(==)>(d: seq<T>)
  {
    forall j, k :: 0 <= j < k < |d| ==> d[j] != d[k]
  }

  lemma {:induction false} DedupDistinct(s: seq<string>)
    ensures Distinct(Dedup(s))
  {
    if s != [] {
      DedupDistinct(s[..|s| - 1]);
    }
  }

  /** The position of the first `x` in `s`. */
  function First(s: seq<string>, x: string): (k: nat)
    requires x in s
    ensures k < |s| && s[k] == x && x !in s[..k]
  {
    if s[0] == x then 0 else 1 + First(s[1..], x)
  }

  /** Ids follow first appearance: a lower id means an earlier first
    * occurrence in the input. */
  lemma {:induction false} DedupOrder(s: seq<string>, j: nat, k: nat)
    requires j < k < |Dedup(s)|
    ensures Dedup(s)[j] in s && Dedup(s)[k] in s
    ensures First(s, Dedup(s)[j]) < First(s, Dedup(s)[k])
  {
    var d := Dedup(s);
    DedupExact(s, d[j]);
    DedupExact(s, d[k]);
    var prefix := s[..|s| - 1];
    var dp := Dedup(prefix);
    if k < |dp| {
      DedupOrder(prefix, j, k);
      FirstPrefix(s, d[j]);
      FirstPrefix(s, d[k]);
    } else {
      assert d[k] == s[|s| - 1] && d[k] !in dp;
      DedupExact(prefix, d[k]);
      DedupExact(prefix, d[j]);
      FirstPrefix(s, d[j]);
      assert First(s, d[k]) == |s| - 1;
    }
  }

  lemma FirstPrefix(s: seq<string>, x: string)
    requires s != [] && x in s[..|s| - 1]
    ensures First(s, x) == First(s[..|s| - 1], x)
  {
    var p := s[..|s| - 1];
    var k := First(p, x);
    assert s[k] == x && s[..k] == p[..k];
    FirstIs(s, x, k);
  }

  lemma FirstIs(s: seq<string>, x: string, k: nat)
    requires k < |s| && s[k] == x && x !in s[..k]
    ensures First(s, x) == k
  {
  }

  /** The id of a known name. */
  function Index(d: seq<string>, x: string): (k: nat)
    requires x in d
    ensures k < |d| && d[k] == x
  {
    if d[0] == x then 0 else 1 + Index(d[1..], x)
  }

  lemma IndexOf(d: seq<string>, k: nat)
    requires k < |d| && Distinct(d)
    ensures Index(d, d[k]) == k
  {
  }

  /** `is_uppercase` of the first character, for ASCII letters. */
  predicate Big(name: string)
  {
    |name| > 0 && 'A' <= name[0] <= 'Z'
  }

  function BigFlags(d: seq<string>): (r: seq<bool>)
    ensures |r| == |d| && forall k :: 0 <= k < |d| ==> r[k] == Big(d[k])
  {
    seq(|d|, k requires 0 <= k < |d| => Big(d[k]))
  }

  /** Every line as an edge and its reverse, named by id. */
  function Edges(ps: seq<(string, string)>, d: seq<string>): (r: seq<Edge>)
    requires forall i :: 0 <= i < |ps| ==> ps[i].0 in d && ps[i].1 in d
    ensures |r| == 2 * |ps|
  {
    if ps == [] then []
    else
      var p := ps[|ps| - 1];
      Edges(ps[..|ps| - 1], d) + [(Index(d, p.0), Index(d, p.1)), (Index(d, p.1), Index(d, p.0))]
  }

  /** Each line `a-b` is stored as the edge `a -> b` followed by `b -> a`. */
  lemma {:induction false} EdgesBothWays(ps: seq<(string, string)>, d: seq<string>, i: nat)
    requires forall i :: 0 <= i < |ps| ==> ps[i].0 in d && ps[i].1 in d
    requires i < |ps|
    ensures Edges(ps, d)[2 * i] == (Index(d, ps[i].0), Index(d, ps[i].1))
    ensures Edges(ps, d)[2 * i + 1] == (Index(d, ps[i].1), Index(d, ps[i].0))
  {
    if i < |ps| - 1 {
      EdgesBothWays(ps[..|ps| - 1], d, i);
    }
  }

  datatype Graph = Graph(start: nat, end: nat, paths: seq<Edge>, big: seq<bool>)

  /** What `read_data` returns, `None` where it panics: a line without `-`,
    * an empty cave name, or no cave `start` or `end`. */
  function ReadSpec(lines: seq<string>): (r: Option<Graph>)
    ensures r.Some? ==> Numbered(r.value)
  {
    match Pairs(lines)
    case None => None
    case Some(ps) =>
      var names := Names(ps);
      if [] in names then None
      else
        var d := Dedup(names);
        if "start" !in d || "end" !in d then None
        else
          NamesIn(ps);
          EdgesNumbered(ps, d);
          Some(Graph(Index(d, "start"), Index(d, "end"), Edges(ps, d), BigFlags(d)))
  }

  /** Every id in the graph names a cave. */
  predicate Numbered(g: Graph)
  {
    g.start < |g.big| && g.end < |g.big| &&
    forall k :: 0 <= k < |g.paths| ==> g.paths[k].0 < |g.big| && g.paths[k].1 < |g.big|
  }

  lemma {:induction false} EdgesNumbered(ps: seq<(string, string)>, d: seq<string>)
    requires forall i :: 0 <= i < |ps| ==> ps[i].0 in d && ps[i].1 in d
    ensures forall k :: 0 <= k < |Edges(ps, d)| ==> Edges(ps, d)[k].0 < |d| && Edges(ps, d)[k].1 < |d|
  {
    if ps != [] {
      EdgesNumbered(ps[..|ps| - 1], d);
    }
  }

  lemma {:induction false} NamesHas(ps: seq<(string, string)>, i: nat)
    requires i < |ps|
    ensures ps[i].0 in Names(ps) && ps[i].1 in Names(ps)
  {
    var last := ps[|ps| - 1];
    assert Names(ps) == Names(ps[..|ps| - 1]) + [last.0, last.1];
    if i < |ps| - 1 {
      NamesHas(ps[..|ps| - 1], i);
    }
  }

  lemma NamesIn(ps: seq<(string, string)>)
    ensures forall i :: 0 <= i < |ps| ==> ps[i].0 in Dedup(Names(ps)) && ps[i].1 in Dedup(Names(ps))
  {
    forall i | 0 <= i < |ps|
      ensures ps[i].0 in Dedup(Names(ps)) && ps[i].1 in Dedup(Names(ps))
    {
      NameIn(ps, Dedup(Names(ps)), i);
    }
  }

  lemma NameIn(ps: seq<(string, string)>, d: seq<string>, i: nat)
    requires d == Dedup(Names(ps)) && i < |ps|
    ensures ps[i].0 in d && ps[i].1 in d
  {
    var p := ps[i];
    NamesHas(ps, i);
    DedupExact(Names(ps), p.0);
    DedupExact(Names(ps), p.1);
  }

  // ---- read_data as a loop ----------------------------------------------------------

  /** The id table after meeting `x`: unchanged if known, else `x` appended. */
  function Grow(d: seq<string>, x: string): (r: seq<string>)
    ensures x in r && |d| <= |r| && d == r[..|d|]
  {
    if x in d then d else d + [x]
  }

  lemma DedupSnoc(s: seq<string>, x: string)
    ensures Dedup(s + [x]) == Grow(Dedup(s), x)
  {
    assert (s + [x])[..|s|] == s;
  }

  /** `id_map` gives every known name its index in `d`, and nothing else. */
  ghost predicate IdsOk(ids: map<string, nat>, d: seq<string>)
  {
    (forall x :: x in ids <==> x in d) && (forall x :: x in ids ==> x in d && ids[x] == Index(d, x))
  }

  lemma {:induction false} IndexExtend(d: seq<string>, e: seq<string>, x: string)
    requires x in d && |d| <= |e| && d == e[..|d|]
    ensures x in e && Index(e, x) == Index(d, x)
  {
    assert e[Index(d, x)] == x;
    if d[0] != x {
      assert d[1..] == e[1..][..|d| - 1];
      IndexExtend(d[1..], e[1..], x);
    }
  }

  lemma IndexLast(d: seq<string>, x: string)
    requires x !in d
    ensures Index(d + [x], x) == |d|
  {
    var k := Index(d + [x], x);
    if k < |d| {
      assert false;
    }
  }

  /** The `or_insert_with_key` of `read_data`: look a name up, or give it the
    * next id and record whether it is big. An empty new name has no first
    * character and fails. */
  method Intern(ids: map<string, nat>, nextId: nat, canMulti: seq<bool>, name: string, ghost d: seq<string>)
    returns (ok: bool, id: nat, ids': map<string, nat>, nextId': nat, canMulti': seq<bool>)
    requires IdsOk(ids, d) && nextId == |d| && canMulti == BigFlags(d) && Distinct(d)
    ensures ok <==> name in d || name != []
    ensures ok ==> IdsOk(ids', Grow(d, name)) && nextId' == |Grow(d, name)| && canMulti' == BigFlags(Grow(d, name))
    ensures ok ==> Distinct(Grow(d, name)) && id == Index(Grow(d, name), name)
  {
    ids', nextId', canMulti' := ids, nextId, canMulti;
    if name in ids {
      return true, ids[name], ids', nextId', canMulti';
    }
    if name == [] {
      return false, 0, ids', nextId', canMulti';
    }
    ok, id := true, nextId;
    nextId' := nextId + 1;
    canMulti' := canMulti + [Big(name)];
    ids' := ids[name := id];
    InternNew(ids, d, name);
  }

  lemma InternNew(ids: map<string, nat>, d: seq<string>, name: string)
    requires IdsOk(ids, d) && name !in d
    ensures IdsOk(ids[name := |d|], d + [name])
    ensures BigFlags(d) + [Big(name)] == BigFlags(d + [name])
  {
    var e := d + [name];
    IndexLast(d, name);
    forall x | x in d
      ensures Index(e, x) == Index(d, x)
    {
      IndexExtend(d, e, x);
    }
  }

  lemma GrowDistinct(d: seq<string>, x: string)
    requires Distinct(d)
    ensures Distinct(Grow(d, x))
  {
  }

  /** Each name of the lines so far is known. */
  lemma {:induction false} EdgesExtend(ps: seq<(string, string)>, d: seq<string>, e: seq<string>)
    requires forall i :: 0 <= i < |ps| ==> ps[i].0 in d && ps[i].1 in d
    requires |d| <= |e| && d == e[..|d|]
    ensures forall i :: 0 <= i < |ps| ==> ps[i].0 in e && ps[i].1 in e
    ensures Edges(ps, e) == Edges(ps, d)
  {
    forall i | 0 <= i < |ps|
      ensures ps[i].0 in e && ps[i].1 in e
    {
      IndexExtend(d, e, ps[i].0);
      IndexExtend(d, e, ps[i].1);
    }
    if ps != [] {
      var p := ps[|ps| - 1];
      EdgesExtend(ps[..|ps| - 1], d, e);
      IndexExtend(d, e, p.0);
      IndexExtend(d, e, p.1);
    }
  }

  /** The lines so far, their names and the tables `read_data` has built. */
  ghost predicate ReadSoFar(lines: seq<string>, i: nat, ps: seq<(string, string)>, ids: map<string, nat>,
                            nextId: nat, canMulti: seq<bool>, ret: seq<Edge>)
    requires i <= |lines|
  {
    var d := Dedup(Names(ps));
    Pairs(lines[..i]) == Some(ps) && [] !in Names(ps) && Distinct(d) && IdsOk(ids, d) && nextId == |d| &&
    canMulti == BigFlags(d) && (NamesIn(ps); ret == Edges(ps, d))
  }

  lemma ReadStart(lines: seq<string>)
    ensures ReadSoFar(lines, 0, [], map[], 0, [], [])
  {
    assert lines[..0] == [];
  }

  /** A line without `-` makes the whole read fail. */
  lemma PanicSplit(lines: seq<string>, i: nat)
    requires i < |lines| && ParseLine(lines[i]).None?
    ensures ReadSpec(lines).None?
  {
    if Pairs(lines).Some? {
      PairsPrefix(lines, i + 1);
      assert false;
    }
  }

  /** An empty name on line `i` makes the whole read fail. */
  lemma PanicName(lines: seq<string>, i: nat, ps: seq<(string, string)>, a: string, b: string)
    requires i < |lines| && Pairs(lines[..i]) == Some(ps) && ParseLine(lines[i]) == Some((a, b))
    requires a == [] || b == []
    ensures ReadSpec(lines).None?
  {
    ReadStep(lines, i, ps, a, b);
    var qs := ps + [(a, b)];
    assert Names(qs)[2 * |ps|] == a && Names(qs)[2 * |ps| + 1] == b;
    if Pairs(lines).Some? {
      var all := Pairs(lines).value;
      PairsPrefix(lines, i + 1);
      assert qs == all[..i + 1];
      var k := First(Names(qs), []);
      NamesPrefix(all, i + 1, k);
    }
  }

  lemma {:induction false} NamesPrefix(ps: seq<(string, string)>, j: nat, k: nat)
    requires j <= |ps| && k < |Names(ps[..j])|
    ensures Names(ps[..j])[k] in Names(ps)
    decreases |ps|
  {
    if j < |ps| {
      var prefix := ps[..|ps| - 1];
      assert prefix[..j] == ps[..j];
      NamesPrefix(prefix, j, k);
    } else {
      assert ps[..j] == ps;
    }
  }

  /** One line of `read_data`: both names interned, both edges pushed. */
  lemma ReadStep(lines: seq<string>, i: nat, ps: seq<(string, string)>, a: string, b: string)
    requires i < |lines| && Pairs(lines[..i]) == Some(ps) && ParseLine(lines[i]) == Some((a, b))
    ensures Pairs(lines[..i + 1]) == Some(ps + [(a, b)])
    ensures Names(ps + [(a, b)]) == Names(ps) + [a] + [b]
    ensures Dedup(Names(ps + [(a, b)])) == Grow(Grow(Dedup(Names(ps)), a), b)
  {
    assert lines[..i + 1][..i] == lines[..i];
    assert (ps + [(a, b)])[..|ps|] == ps;
    DedupSnoc(Names(ps), a);
    DedupSnoc(Names(ps) + [a], b);
  }

  lemma EdgesStep(ps: seq<(string, string)>, a: string, b: string, e: seq<string>)
    requires forall i :: 0 <= i < |ps| ==> ps[i].0 in e && ps[i].1 in e
    requires a in e && b in e
    ensures forall i :: 0 <= i < |ps| + 1 ==> (ps + [(a, b)])[i].0 in e && (ps + [(a, b)])[i].1 in e
    ensures Edges(ps + [(a, b)], e) == Edges(ps, e) + [(Index(e, a), Index(e, b)), (Index(e, b), Index(e, a))]
  {
    assert (ps + [(a, b)])[..|ps|] == ps;
  }

  /** Both names of line `i` interned: the tables cover one more line. */
  lemma ReadAdvance(lines: seq<string>, i: nat, ps: seq<(string, string)>, ids: map<string, nat>, nextId: nat,
                    canMulti: seq<bool>, ret: seq<Edge>, a: string, b: string, aId: nat, bId: nat,
                    ids': map<string, nat>, nextId': nat, canMulti': seq<bool>)
    requires i < |lines| && ReadSoFar(lines, i, ps, ids, nextId, canMulti, ret) && ParseLine(lines[i]) == Some((a, b))
    requires var db := Grow(Grow(Dedup(Names(ps)), a), b);
      (a in Dedup(Names(ps)) || a != []) && (b in Grow(Dedup(Names(ps)), a) || b != []) && IdsOk(ids', db) && nextId' == |db| && canMulti' == BigFlags(db) && Distinct(db) &&
      aId == Index(Grow(Dedup(Names(ps)), a), a) && bId == Index(db, b)
    ensures ReadSoFar(lines, i + 1, ps + [(a, b)], ids', nextId', canMulti', ret + [(aId, bId), (bId, aId)])
  {
    var d := Dedup(Names(ps));
    DedupExact(Names(ps), a);
    DedupExact(Names(ps), b);
    AdvanceNames(lines, i, ps, a, b);
    NamesIn(ps);
    AdvanceEdges(ps, a, b, ret, aId, bId);
  }

  lemma AdvanceNames(lines: seq<string>, i: nat, ps: seq<(string, string)>, a: string, b: string)
    requires i < |lines| && Pairs(lines[..i]) == Some(ps) && ParseLine(lines[i]) == Some((a, b))
    requires [] !in Names(ps) && a != [] && b != []
    ensures Pairs(lines[..i + 1]) == Some(ps + [(a, b)])
    ensures [] !in Names(ps + [(a, b)])
    ensures Dedup(Names(ps + [(a, b)])) == Grow(Grow(Dedup(Names(ps)), a), b)
  {
    ReadStep(lines, i, ps, a, b);
    NotInAppend(Names(ps), [a, b], []);
    assert Names(ps) + [a] + [b] == Names(ps) + [a, b];
  }

  lemma AdvanceEdges(ps: seq<(string, string)>, a: string, b: string, ret: seq<Edge>, aId: nat, bId: nat)
    requires forall i :: 0 <= i < |ps| ==> ps[i].0 in Dedup(Names(ps)) && ps[i].1 in Dedup(Names(ps))
    requires ret == Edges(ps, Dedup(Names(ps)))
    requires aId == Index(Grow(Dedup(Names(ps)), a), a) && bId == Index(Grow(Grow(Dedup(Names(ps)), a), b), b)
    requires Dedup(Names(ps + [(a, b)])) == Grow(Grow(Dedup(Names(ps)), a), b)
    ensures forall i :: 0 <= i < |ps| + 1 ==> (ps + [(a, b)])[i].0 in Dedup(Names(ps + [(a, b)])) && (ps + [(a, b)])[i].1 in Dedup(Names(ps + [(a, b)]))
    ensures ret + [(aId, bId), (bId, aId)] == Edges(ps + [(a, b)], Dedup(Names(ps + [(a, b)])))
  {
    var d := Dedup(Names(ps));
    var da := Grow(d, a);
    var db := Grow(da, b);
    EdgesExtend(ps, d, db);
    IndexExtend(da, db, a);
    EdgesStep(ps, a, b, db);
  }

  lemma NotInAppend<T>(s: seq<T>, t: seq<T>, x: T)
    requires x !in s && x !in t
    ensures x !in s + t
  {
  }

  /** After the last line: the result of `read_data` once `start` and `end`
    * are looked up. */
  lemma ReadEnd(lines: seq<string>, ps: seq<(string, string)>, ids: map<string, nat>, nextId: nat,
                canMulti: seq<bool>, ret: seq<Edge>)
    requires ReadSoFar(lines, |lines|, ps, ids, nextId, canMulti, ret)
    ensures ("start" in ids && "end" in ids) <==> ReadSpec(lines).Some?
    ensures "start" in ids && "end" in ids ==> ReadSpec(lines) == Some(Graph(ids["start"], ids["end"], ret, canMulti))
  {
    assert lines[..|lines|] == lines;
  }

  /** `read_data`: number the caves in order of first appearance, store every
    * tunnel both ways, record which caves are big, and look up `start` and
    * `end`; `None` where the source panics. */
  method ReadData(lines: seq<string>) returns (r: Option<Graph>)
    ensures r == ReadSpec(lines)
  {
    var ret: seq<Edge> := [];
    var canMulti: seq<bool> := [];
    var ids: map<string, nat> := map[];
    var nextId: nat := 0;
    ghost var ps: seq<(string, string)> := [];
    ReadStart(lines);
    for i := 0 to |lines|
      invariant ReadSoFar(lines, i, ps, ids, nextId, canMulti, ret)
    {
      var split := SplitOnce(lines[i], '-');
      if split.None? {
        PanicSplit(lines, i);
        return None;
      }
      var a := split.value.0;
      var b := StripNewline(split.value.1);
      ghost var d := Dedup(Names(ps));
      var okA, aId, idsA, nextA, multiA := Intern(ids, nextId, canMulti, a, d);
      if !okA {
        PanicName(lines, i, ps, a, b);
        return None;
      }
      var okB, bId, idsB, nextB, multiB := Intern(idsA, nextA, multiA, b, Grow(d, a));
      if !okB {
        PanicName(lines, i, ps, a, b);
        return None;
      }
      ReadAdvance(lines, i, ps, ids, nextId, canMulti, ret, a, b, aId, bId, idsB, nextB, multiB);
      ids, nextId, canMulti := idsB, nextB, multiB;
      ret := ret + [(aId, bId), (bId, aId)];
      ps := ps + [(a, b)];
    }
    ReadEnd(lines, ps, ids, nextId, canMulti, ret);
    if "start" !in ids || "end" !in ids {
      return None;
    }
    return Some(Graph(ids["start"], ids["end"], ret, canMulti));
  }

  /** Each line of the input is stored as an edge followed by its reverse. */
  lemma ReadSpecBothWays(lines: seq<string>, i: nat)
    requires ReadSpec(lines).Some? && i < |lines|
    ensures var g := ReadSpec(lines).value;
      2 * i + 1 < |g.paths| && g.paths[2 * i + 1] == (g.paths[2 * i].1, g.paths[2 * i].0)
  {
    var ps := Pairs(lines).value;
    NamesIn(ps);
    EdgesBothWays(ps, Dedup(Names(ps)), i);
  }

  lemma OkOf(g: Graph)
    requires Numbered(g) && NoBigTunnel(g.paths, g.big)
    ensures Ok(g.paths, g.big)
  {
  }

  /** `main`: both answers, `None` where `read_data` panics. Part 2 never
    * counts fewer routes than part 1. */
  method Solve(lines: seq<string>) returns (r: Option<(nat, nat)>)
    requires ReadSpec(lines).Some? ==> NoBigTunnel(ReadSpec(lines).value.paths, ReadSpec(lines).value.big)
    ensures r.Some? <==> ReadSpec(lines).Some?
    ensures r.Some? ==> var g := ReadSpec(lines).value;
      Ok(g.paths, g.big) &&
      r.value.0 == Count(g.start, g.end, g.paths, g.big, NoTwice, true) &&
      r.value.1 == Count(g.start, g.end, g.paths, g.big, CanTwice, true) && r.value.0 <= r.value.1
  {
    var g := ReadData(lines);
    if g.None? {
      return None;
    }
    OkOf(g.value);
    var p1 := FindPathCnt(g.value.start, g.value.end, g.value.paths, g.value.big, NoTwice, true);
    var p2 := FindPathCnt(g.value.start, g.value.end, g.value.paths, g.value.big, CanTwice, true);
    CountMono(g.value.start, g.value.end, g.value.paths, g.value.big, true);
    return Some((p1, p2));
  }
}
