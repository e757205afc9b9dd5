/** Day 18 (adv-18-rs/src/main.rs): snailfish numbers, binary trees of
  * literals that are added by pairing and then reduced by explosions and
  * splits until no pair is nested inside four pairs and no literal is 10 or
  * more.
  *
  * A tree is described by its `Leaves`: its literals from left to right, each
  * with the number of pairs enclosing it. Explosion and splitting are stated
  * as what they do to that sequence. The source rewrites the tree in place
  * through `&mut`; here each step returns the new tree. */
module Adv18 {
  import opened Common
  import opened CString

  const U32_MAX: nat := 0xFFFF_FFFF

  /** `SnailNum`: a literal or a pair of snailfish numbers. */
  datatype Snail = Lit(n: nat) | Pair(a: Snail, b: Snail)

  /** A literal and the number of pairs around it. */
  datatype Leaf = Leaf(value: nat, depth: nat)


  /** The number of pairs around the most deeply nested literal. */
  function Height(x: Snail): nat
  {
    match x
    case Lit(_) => 0
    case Pair(a, b) => 1 + (if Height(a) >= Height(b) then Height(a) else Height(b))
  }

  /** The literals of `x` in order, each with its depth, `x` itself being
    * nested `k` deep. */
  function LeavesAt(x: Snail, k: nat): (r: seq<Leaf>)
    ensures |r| >= 1
  {
    match x
    case Lit(n) => [Leaf(n, k)]
    case Pair(a, b) => LeavesAt(a, k + 1) + LeavesAt(b, k + 1)
  }

  /** The literals of `x` in order, each with its depth. */
  function Leaves(x: Snail): seq<Leaf>
  {
    LeavesAt(x, 0)
  }

  /** Every literal is nested at most `Height` deeper than `x`. */
  lemma {:induction false} LeavesDepth(x: Snail, k: nat)
    ensures forall i :: 0 <= i < |LeavesAt(x, k)| ==> k <= LeavesAt(x, k)[i].depth <= k + Height(x)
  {
    if x.Pair? {
      LeavesDepth(x.a, k + 1);
      LeavesDepth(x.b, k + 1);
      var la := LeavesAt(x.a, k + 1);
      assert forall i :: |la| <= i < |LeavesAt(x, k)| ==> LeavesAt(x, k)[i] == LeavesAt(x.b, k + 1)[i - |la|];
    }
  }

  /** The values of the literals do not depend on the base depth. */
  lemma {:induction false} LeavesValues(x: Snail, k: nat, j: nat)
    ensures |LeavesAt(x, k)| == |LeavesAt(x, j)|
    ensures forall i :: 0 <= i < |LeavesAt(x, k)| ==> LeavesAt(x, k)[i].value == LeavesAt(x, j)[i].value
  {
    if x.Pair? {
      LeavesValues(x.a, k + 1, j + 1);
      LeavesValues(x.b, k + 1, j + 1);
      var la := LeavesAt(x.a, k + 1);
      assert forall i :: |la| <= i < |LeavesAt(x, k)| ==> LeavesAt(x, k)[i] == LeavesAt(x.b, k + 1)[i - |la|];
      assert forall i :: |la| <= i < |LeavesAt(x, j)| ==> LeavesAt(x, j)[i] == LeavesAt(x.b, j + 1)[i - |la|];
    }
  }

  /** Every literal is at most `m`. */
  predicate AtMost(s: seq<Leaf>, m: nat)
  {
    forall i :: 0 <= i < |s| ==> s[i].value <= m
  }

  /** A pair's literals are those of its halves. */
  lemma PairAtMost(x: Snail, k: nat, m: nat)
    requires x.Pair?
    ensures AtMost(LeavesAt(x, k), m) <==> AtMost(LeavesAt(x.a, k + 1), m) && AtMost(LeavesAt(x.b, k + 1), m)
  {
    var la, lb := LeavesAt(x.a, k + 1), LeavesAt(x.b, k + 1);
    assert forall i :: 0 <= i < |la| ==> LeavesAt(x, k)[i] == la[i];
    assert forall i :: 0 <= i < |lb| ==> LeavesAt(x, k)[|la| + i] == lb[i];
  }

  // ---- editing the literal sequence --------------------------------------------

  /** `s` with `v` added to its first literal. */
  function BumpFirst(s: seq<Leaf>, v: nat): seq<Leaf>
  {
    if s == [] then [] else [Leaf(s[0].value + v, s[0].depth)] + s[1..]
  }

  /** `s` with `v` added to its last literal. */
  function BumpLast(s: seq<Leaf>, v: nat): seq<Leaf>
  {
    if s == [] then [] else s[..|s| - 1] + [Leaf(s[|s| - 1].value + v, s[|s| - 1].depth)]
  }

  lemma BumpFirstAppend(s: seq<Leaf>, t: seq<Leaf>, v: nat)
    ensures s != [] ==> BumpFirst(s + t, v) == BumpFirst(s, v) + t
    ensures s == [] ==> BumpFirst(s + t, v) == BumpFirst(t, v)
  {
    if s != [] {
      assert (s + t)[0] == s[0];
      assert (s + t)[1..] == s[1..] + t;
    } else {
      assert s + t == t;
    }
  }

  lemma BumpLastAppend(s: seq<Leaf>, t: seq<Leaf>, v: nat)
    ensures t != [] ==> BumpLast(s + t, v) == s + BumpLast(t, v)
    ensures t == [] ==> BumpLast(s + t, v) == BumpLast(s, v)
  {
    if t != [] {
      assert (s + t)[|s + t| - 1] == t[|t| - 1];
      assert (s + t)[..|s + t| - 1] == s + t[..|t| - 1];
    } else {
      assert s + t == s;
    }
  }

  lemma BumpZero(s: seq<Leaf>)
    ensures BumpFirst(s, 0) == s && BumpLast(s, 0) == s
  {
    if s != [] {
      assert s == [s[0]] + s[1..];
      assert s == s[..|s| - 1] + [s[|s| - 1]];
    }
  }

  // ---- leftmost and rightmost -------------------------------------------------------

  /** `leftmost`: the first literal in order. */
  function Leftmost(x: Snail): nat
  {
    match x
    case Lit(n) => n
    case Pair(a, _) => Leftmost(a)
  }

  /** `rightmost`: the last literal in order. */
  function Rightmost(x: Snail): nat
  {
    match x
    case Lit(n) => n
    case Pair(_, b) => Rightmost(b)
  }

  /** `leftmost` and `rightmost` are the first and last literals in order. */
  lemma {:induction false} EndsOfLeaves(x: Snail, k: nat)
    ensures Leftmost(x) == LeavesAt(x, k)[0].value
    ensures Rightmost(x) == LeavesAt(x, k)[|LeavesAt(x, k)| - 1].value
  {
    if x.Pair? {
      EndsOfLeaves(x.a, k + 1);
      EndsOfLeaves(x.b, k + 1);
    }
  }

  /** `*x.leftmost() += v`. */
  function AddLeftmost(x: Snail, v: nat): (r: Snail)
    ensures Height(r) == Height(x)
  {
    match x
    case Lit(n) => Lit(n + v)
    case Pair(a, b) => Pair(AddLeftmost(a, v), b)
  }

  /** `*x.rightmost() += v`. */
  function AddRightmost(x: Snail, v: nat): (r: Snail)
    ensures Height(r) == Height(x)
  {
    match x
    case Lit(n) => Lit(n + v)
    case Pair(a, b) => Pair(a, AddRightmost(b, v))
  }

  /** Adding to the leftmost (rightmost) literal adds to the first (last)
    * literal in order and changes nothing else. */
  lemma {:induction false} AddEndsLeaves(x: Snail, v: nat, k: nat)
    ensures LeavesAt(AddLeftmost(x, v), k) == BumpFirst(LeavesAt(x, k), v)
    ensures LeavesAt(AddRightmost(x, v), k) == BumpLast(LeavesAt(x, k), v)
  {
    if x.Pair? {
      AddEndsLeaves(x.a, v, k + 1);
      AddEndsLeaves(x.b, v, k + 1);
      BumpFirstAppend(LeavesAt(x.a, k + 1), LeavesAt(x.b, k + 1), v);
      BumpLastAppend(LeavesAt(x.a, k + 1), LeavesAt(x.b, k + 1), v);
    }
  }

  // ---- attempt_explode -------------------------------------------------------------

  /** `attempt_explode` on a subtree with `d` more pairs to descend: the first
    * pair found at that depth becomes `Lit(0)`. The result carries the
    * amounts still to be added to the nearest literal left and right of the
    * subtree (0 once a literal inside it has taken them). The source reads
    * the exploding pair's halves with `assume_lit`, which panics unless they
    * are literals: hence the bound on `Height`. */
  function ExplodeAt(x: Snail, d: nat): Option<(Snail, nat, nat)>
    requires Height(x) <= d + 1
  {
    match x
    case Lit(_) => None
    case Pair(a, b) =>
      if d == 0 then Some((Lit(0), a.n, b.n))
      else
        var ea := ExplodeAt(a, d - 1);
        if ea.Some? then
          Some((Pair(ea.value.0, AddLeftmost(b, ea.value.2)), ea.value.1, 0))
        else
          var eb := ExplodeAt(b, d - 1);
          if eb.Some? then Some((Pair(AddRightmost(a, eb.value.1), eb.value.0), 0, eb.value.2))
          else None
  }

  /** Nothing explodes exactly when no pair is nested `d` deep. */
  lemma {:induction false} ExplodeNone(x: Snail, d: nat)
    requires Height(x) <= d + 1
    ensures ExplodeAt(x, d).None? <==> Height(x) <= d
  {
    if x.Pair? && d > 0 {
      ExplodeNone(x.a, d - 1);
      ExplodeNone(x.b, d - 1);
    }
  }

  /** Explosion never deepens the tree. */
  lemma {:induction false} ExplodeKeepsHeight(x: Snail, d: nat)
    requires Height(x) <= d + 1 && ExplodeAt(x, d).Some?
    ensures Height(ExplodeAt(x, d).value.0) <= Height(x)
  {
    if d > 0 {
      if ExplodeAt(x.a, d - 1).Some? {
        ExplodeKeepsHeight(x.a, d - 1);
      } else {
        ExplodeKeepsHeight(x.b, d - 1);
      }
    }
  }

  /** How an explosion at `d` pairs below `x`, itself `k` deep, turned it
    * into `y` handing out `cl` and `cr`: the leftmost pair nested `d+1`
    * below `x`, `(u, v)`, between the literals `L` and `R`, is replaced by a
    * 0 one level up; `u` is added to the literal before it and `v` to the
    * one after it, and when there is none inside `x` they are handed
    * outwards. */
  ghost predicate ExplodedAs(x: Snail, y: Snail, cl: nat, cr: nat, d: nat, k: nat,
                             L: seq<Leaf>, u: nat, v: nat, R: seq<Leaf>)
  {
    && LeavesAt(x, k) == L + [Leaf(u, k + d + 1), Leaf(v, k + d + 1)] + R
    && (forall i :: 0 <= i < |L| ==> L[i].depth <= k + d)
    && LeavesAt(y, k) == BumpLast(L, u) + [Leaf(0, k + d)] + BumpFirst(R, v)
    && cl == (if L == [] then u else 0)
    && cr == (if R == [] then v else 0)
  }

  /** The literals after an explosion: see `ExplodedAs`. */
  lemma {:induction false} ExplodeShape(x: Snail, d: nat, k: nat) returns (L: seq<Leaf>, u: nat, v: nat, R: seq<Leaf>)
    requires Height(x) <= d + 1 && ExplodeAt(x, d).Some?
    ensures var e := ExplodeAt(x, d).value; ExplodedAs(x, e.0, e.1, e.2, d, k, L, u, v, R)
  {
    var a, b := x.a, x.b;
    if d == 0 {
      L, u, v, R := [], a.n, b.n, [];
    } else if ExplodeAt(a, d - 1).Some? {
      var A, C;
      A, u, v, C := ExplodeShape(a, d - 1, k + 1);
      var e := ExplodeAt(a, d - 1).value;
      L, R := ExplodeLeftStep(a, b, e.0, e.1, e.2, d, k, A, u, v, C);
    } else {
      ExplodeNone(a, d - 1);
      var A, C;
      A, u, v, C := ExplodeShape(b, d - 1, k + 1);
      var e := ExplodeAt(b, d - 1).value;
      L, R := ExplodeRightStep(a, b, e.0, e.1, e.2, d, k, A, u, v, C);
    }
  }

  /** The literal-sequence identities behind `ExplodeLeftStep`. */
  lemma LeftJoin(P: seq<Leaf>, W: seq<Leaf>, C: seq<Leaf>, lb: seq<Leaf>, v: nat, cr: nat)
    requires cr == (if C == [] then v else 0)
    ensures (P + BumpFirst(C, v)) + BumpFirst(lb, cr) == P + BumpFirst(C + lb, v)
    ensures (P + W + C) + lb == P + W + (C + lb)
  {
    BumpFirstAppend(C, lb, v);
    if C != [] {
      BumpZero(lb);
    }
  }

  /** The literal-sequence identities behind `ExplodeRightStep`. */
  lemma RightJoin(la: seq<Leaf>, A: seq<Leaf>, W: seq<Leaf>, C: seq<Leaf>, u: nat, cl: nat)
    requires cl == (if A == [] then u else 0)
    ensures BumpLast(la, cl) + (BumpLast(A, u) + W + C) == BumpLast(la + A, u) + W + C
    ensures la + (A + W + C) == (la + A) + W + C
  {
    BumpLastAppend(la, A, u);
    if A != [] {
      BumpZero(la);
    }
  }

  /** Depth bounds survive concatenation. */
  lemma DepthsAppend(s: seq<Leaf>, t: seq<Leaf>, m: nat)
    requires forall i :: 0 <= i < |s| ==> s[i].depth <= m
    requires forall i :: 0 <= i < |t| ==> t[i].depth <= m
    ensures forall i :: 0 <= i < |s + t| ==> (s + t)[i].depth <= m
  {
    assert forall i :: |s| <= i < |s + t| ==> (s + t)[i] == t[i - |s|];
  }

  /** The step for a pair whose left half `a` explodes into `a'`. */
  lemma ExplodeLeftStep(a: Snail, b: Snail, a': Snail, cl: nat, cr: nat, d: nat, k: nat,
                        A: seq<Leaf>, u: nat, v: nat, C: seq<Leaf>)
      returns (L: seq<Leaf>, R: seq<Leaf>)
    requires d >= 1
    requires ExplodedAs(a, a', cl, cr, d - 1, k + 1, A, u, v, C)
    ensures ExplodedAs(Pair(a, b), Pair(a', AddLeftmost(b, cr)), cl, 0, d, k, L, u, v, R)
  {
    var lb := LeavesAt(b, k + 1);
    var b2 := AddLeftmost(b, cr);
    L, R := A, C + lb;
    var W := [Leaf(u, k + d + 1), Leaf(v, k + d + 1)];
    var P := BumpLast(A, u) + [Leaf(0, k + d)];
    assert k + 1 + (d - 1) == k + d;
    LeftJoin(A, W, C, lb, v, cr);
    AddEndsLeaves(b, cr, k + 1);
    LeftJoin(P, [], C, lb, v, cr);
    assert LeavesAt(a', k + 1) == P + BumpFirst(C, v);
    assert LeavesAt(Pair(a', b2), k) == (P + BumpFirst(C, v)) + BumpFirst(lb, cr);
  }

  /** The step for a pair whose right half `b` explodes into `b'`, `a` being
    * too shallow to. */
  lemma ExplodeRightStep(a: Snail, b: Snail, b': Snail, cl: nat, cr: nat, d: nat, k: nat,
                         A: seq<Leaf>, u: nat, v: nat, C: seq<Leaf>)
      returns (L: seq<Leaf>, R: seq<Leaf>)
    requires d >= 1 && Height(a) <= d - 1
    requires ExplodedAs(b, b', cl, cr, d - 1, k + 1, A, u, v, C)
    ensures ExplodedAs(Pair(a, b), Pair(AddRightmost(a, cl), b'), 0, cr, d, k, L, u, v, R)
  {
    var la := LeavesAt(a, k + 1);
    var a2 := AddRightmost(a, cl);
    L, R := la + A, C;
    var z := [Leaf(0, k + d)];
    var W := [Leaf(u, k + d + 1), Leaf(v, k + d + 1)];
    assert k + 1 + (d - 1) == k + d;
    LeavesDepth(a, k + 1);
    DepthsAppend(la, A, k + d);
    RightJoin(la, A, W, C, u, cl);
    AddEndsLeaves(a, cl, k + 1);
    RightJoin(la, A, z, BumpFirst(C, v), u, cl);
    assert LeavesAt(b', k + 1) == BumpLast(A, u) + z + BumpFirst(C, v);
    assert LeavesAt(Pair(a2, b'), k) == BumpLast(la, cl) + (BumpLast(A, u) + z + BumpFirst(C, v));
  }

  /** An explosion removes exactly one literal. */
  lemma ExplodeShrinks(x: Snail, d: nat)
    requires Height(x) <= d + 1 && ExplodeAt(x, d).Some?
    ensures |Leaves(ExplodeAt(x, d).value.0)| + 1 == |Leaves(x)|
  {
    var L, u, v, R := ExplodeShape(x, d, 0);
    var e := ExplodeAt(x, d).value;
    assert ExplodedAs(x, e.0, e.1, e.2, d, 0, L, u, v, R);
  }

  // ---- attempt_split -----------------------------------------------------------------

  /** `attempt_split`: the leftmost literal `n >= 10` becomes the pair
    * `[n/2, n - n/2]`; `None` when the source returns false. */
  function Split(x: Snail): Option<Snail>
  {
    match x
    case Lit(n) => if n >= 10 then Some(Pair(Lit(n / 2), Lit(n - n / 2))) else None
    case Pair(a, b) =>
      var sa := Split(a);
      if sa.Some? then Some(Pair(sa.value, b))
      else
        var sb := Split(b);
        if sb.Some? then Some(Pair(a, sb.value)) else None
  }

  /** Nothing splits exactly when every literal is below 10. */
  lemma {:induction false} SplitNone(x: Snail, k: nat)
    ensures Split(x).None? <==> AtMost(LeavesAt(x, k), 9)
  {
    if x.Pair? {
      SplitNone(x.a, k + 1);
      SplitNone(x.b, k + 1);
      PairAtMost(x, k, 9);
    } else {
      assert LeavesAt(x, k)[0].value == x.n;
    }
  }

  /** How a split changed the literals of `x`, itself `k` deep: the first
    * literal of 10 or more, `n`, between `L` and `R`, is replaced by its
    * halves `n/2` and `n - n/2` one level deeper. */
  ghost predicate SplitAs(x: Snail, k: nat, L: seq<Leaf>, n: nat, j: nat, R: seq<Leaf>)
    requires Split(x).Some?
  {
    && LeavesAt(x, k) == L + [Leaf(n, j)] + R
    && n >= 10 && AtMost(L, 9)
    && LeavesAt(Split(x).value, k) == L + [Leaf(n / 2, j + 1), Leaf(n - n / 2, j + 1)] + R
  }

  /** The literals after a split: see `SplitAs`. The halves add up to `n`. */
  lemma {:induction false} SplitShape(x: Snail, k: nat) returns (L: seq<Leaf>, n: nat, j: nat, R: seq<Leaf>)
    requires Split(x).Some?
    ensures SplitAs(x, k, L, n, j, R)
    ensures n / 2 + (n - n / 2) == n
  {
    match x
    case Lit(m) =>
      L, n, j, R := [], m, k, [];
    case Pair(a, b) =>
      var la, lb := LeavesAt(a, k + 1), LeavesAt(b, k + 1);
      if Split(a).Some? {
        var A, C;
        A, n, j, C := SplitShape(a, k + 1);
        L, R := A, C + lb;
      } else {
        SplitNone(a, k + 1);
        var A, C;
        A, n, j, C := SplitShape(b, k + 1);
        L, R := la + A, C;
        assert AtMost(L, 9);
      }
  }

  /** A split deepens the tree by at most one level. */
  lemma {:induction false} SplitHeight(x: Snail)
    requires Split(x).Some?
    ensures Height(Split(x).value) <= Height(x) + 1
  {
    if x.Pair? {
      if Split(x.a).Some? {
        SplitHeight(x.a);
      } else {
        SplitHeight(x.b);
      }
    }
  }

  // ---- normalize -----------------------------------------------------------------

  /** A reduced snailfish number: no pair inside four pairs, no literal of
    * 10 or more. */
  predicate Reduced(x: Snail)
  {
    Height(x) <= 4 && AtMost(Leaves(x), 9)
  }

  /** `while self.attempt_explode(None, None, 4) {}`: explode until nothing
    * is nested inside four pairs. */
  function ExplodeAll(x: Snail): (r: Snail)
    requires Height(x) <= 5
    ensures Height(r) <= 4
    decreases |Leaves(x)|
  {
    var e := ExplodeAt(x, 4);
    if e.None? then
      ExplodeNone(x, 4);
      x
    else
      ExplodeShrinks(x, 4);
      ExplodeKeepsHeight(x, 4);
      ExplodeAll(e.value.0)
  }

  /** The reduction `normalize` performs, allowing at most `fuel` splits;
    * `None` when more are needed. A reduction that completes leaves a
    * reduced number. */
  function Reduce(x: Snail, fuel: nat): (r: Option<Snail>)
    requires Height(x) <= 5
    ensures r.Some? ==> Reduced(r.value)
    decreases fuel
  {
    var y := ExplodeAll(x);
    var s := Split(y);
    if s.None? then
      SplitNone(y, 0);
      Some(y)
    else if fuel == 0 then None
    else
      SplitHeight(y);
      Reduce(s.value, fuel - 1)
  }

  /** A reduced number is left as it is. */
  lemma ReduceReducedIdentity(x: Snail, fuel: nat)
    requires Reduced(x)
    ensures Reduce(x, fuel) == Some(x)
  {
    ExplodeNone(x, 4);
    SplitNone(x, 0);
  }

  /** `normalize`: explode while anything explodes, then split once, and
    * start again while the split happened. The source has no bound on the
    * rounds; here more than `fuel` splits give `None`. */
  method Normalize(x: Snail, fuel: nat) returns (r: Option<Snail>)
    requires Height(x) <= 5
    ensures r == Reduce(x, fuel)
  {
    var cur := x;
    var left := fuel;
    var dirty := true;
    while dirty
      invariant Height(cur) <= 5
      invariant dirty ==> Reduce(cur, left) == Reduce(x, fuel)
      invariant !dirty ==> Reduce(x, fuel) == Some(cur)
      decreases left, dirty
    {
      dirty := false;
      var start := cur;
      while true
        invariant Height(cur) <= 5
        invariant ExplodeAll(cur) == ExplodeAll(start)
        decreases |Leaves(cur)|
      {
        var e := ExplodeAt(cur, 4);
        if e.None? {
          break;
        }
        ExplodeShrinks(cur, 4);
        ExplodeKeepsHeight(cur, 4);
        cur := e.value.0;
        dirty := true;
      }
      var s := Split(cur);
      if s.None? {
        dirty := false;
      } else {
        if left == 0 {
          return None;
        }
        SplitHeight(cur);
        cur := s.value;
        left := left - 1;
        dirty := true;
      }
    }
    r := Some(cur);
  }

  /** `a + b`: the pair of the two, normalized. */
  method Add(a: Snail, b: Snail, fuel: nat) returns (r: Option<Snail>)
    requires Height(a) <= 4 && Height(b) <= 4
    ensures r == Reduce(Pair(a, b), fuel)
    ensures r.Some? ==> Reduced(r.value)
  {
    r := Normalize(Pair(a, b), fuel);
  }

  // ---- mag -------------------------------------------------------------------------

  /** `mag`: three times the left magnitude plus twice the right. */
  function Mag(x: Snail): (r: nat)
    ensures r == 0 <==> AtMost(Leaves(x), 0)
  {
    match x
    case Lit(n) =>
      assert Leaves(x)[0] == Leaf(n, 0);
      n
    case Pair(a, b) =>
      PairAtMost(x, 0, 0);
      LeavesValues(a, 1, 0);
      LeavesValues(b, 1, 0);
      3 * Mag(a) + 2 * Mag(b)
  }

  lemma {:induction false} PowFiveMono(i: nat, j: nat)
    requires i <= j
    ensures 1 <= Pow(5, i) <= Pow(5, j)
  {
    if j > 0 {
      if i == j {
        PowFiveMono(i - 1, j - 1);
      } else {
        PowFiveMono(i, j - 1);
      }
    }
  }

  /** Each level multiplies the largest literal by at most 5. */
  lemma {:induction false} MagBound(x: Snail, k: nat, m: nat)
    requires AtMost(LeavesAt(x, k), m)
    ensures Mag(x) <= m * Pow(5, Height(x))
  {
    if x.Pair? {
      PairAtMost(x, k, m);
      MagBound(x.a, k + 1, m);
      MagBound(x.b, k + 1, m);
      var h := Height(x) - 1;
      var p := Pow(5, h);
      PowFiveMono(Height(x.a), h);
      PowFiveMono(Height(x.b), h);
      MulMono(m, Pow(5, Height(x.a)), p);
      MulMono(m, Pow(5, Height(x.b)), p);
      var mp := m * p;
      assert Mag(x.a) <= mp && Mag(x.b) <= mp;
      assert Mag(x) <= 5 * mp;
      assert Pow(5, Height(x)) == 5 * p;
      MulFive(m, p);
    } else {
      assert LeavesAt(x, k)[0].value == x.n;
      assert Pow(5, Height(x)) == 1;
    }
  }

  lemma MulMono(m: nat, p: int, q: int)
    requires p <= q
    ensures m * p <= m * q
  {
  }

  lemma MulFive(m: nat, p: int)
    ensures m * (5 * p) == 5 * (m * p)
  {
  }

  /** The magnitude of a reduced number is at most `9 * 5^4`, so the
    * source's `u32` arithmetic in `mag` cannot overflow on one. */
  lemma ReducedMagFits(x: Snail)
    requires Reduced(x)
    ensures Mag(x) <= 5625
  {
    MagBound(x, 0, 9);
    PowFiveMono(Height(x), 4);
    assert Pow(5, 4) == 625;
  }

  // ---- main ------------------------------------------------------------------------

  /** The running total of part 1: the first number, then each next one
    * added to it. */
  function Total(xs: seq<Snail>, fuel: nat): (r: Option<Snail>)
    requires |xs| >= 1 && forall i :: 0 <= i < |xs| ==> Height(xs[i]) <= 4
    ensures r.Some? ==> Height(r.value) <= 4
  {
    if |xs| == 1 then Some(xs[0])
    else
      var acc := Total(xs[..|xs| - 1], fuel);
      if acc.None? then None
      else
        var s := Reduce(Pair(acc.value, xs[|xs| - 1]), fuel);
        if s.Some? then s else None
  }

  /** The sum of two or more numbers is reduced. */
  lemma TotalReduced(xs: seq<Snail>, fuel: nat)
    requires |xs| >= 2 && forall i :: 0 <= i < |xs| ==> Height(xs[i]) <= 4
    requires Total(xs, fuel).Some?
    ensures Reduced(Total(xs, fuel).value)
  {
  }

  /** Part 1's loop `acc = acc + data[i]`, then `acc.mag()`; `data[0]`
    * panics on an empty list. */
  method Part1(data: seq<Snail>, fuel: nat) returns (r: Option<nat>)
    requires forall i :: 0 <= i < |data| ==> Height(data[i]) <= 4
    ensures data == [] ==> r.None?
    ensures data != [] ==> (r.Some? <==> Total(data, fuel).Some?)
    ensures data != [] && r.Some? ==> r.value == Mag(Total(data, fuel).value)
  {
    if data == [] {
      return None;
    }
    var acc := data[0];
    for i := 1 to |data|
      invariant Total(data[..i], fuel) == Some(acc)
    {
      assert data[..i + 1][..i] == data[..i];
      var s := Add(acc, data[i], fuel);
      if s.None? {
        assert Total(data[..i + 1], fuel).None?;
        TotalNoneGrows(data, i + 1, fuel);
        return None;
      }
      acc := s.value;
    }
    assert data[..|data|] == data;
    r := Some(Mag(acc));
  }

  /** Once the running total runs out of fuel it stays out. */
  lemma {:induction false} TotalNoneGrows(xs: seq<Snail>, k: nat, fuel: nat)
    requires 1 <= k <= |xs| && forall i :: 0 <= i < |xs| ==> Height(xs[i]) <= 4
    requires Total(xs[..k], fuel).None?
    ensures Total(xs, fuel).None?
    decreases |xs| - k
  {
    if k < |xs| {
      assert xs[..k + 1][..k] == xs[..k];
      TotalNoneGrows(xs, k + 1, fuel);
    } else {
      assert xs[..k] == xs;
    }
  }

  /** The magnitude of `data[i] + data[j]`. */
  function PairMag(data: seq<Snail>, i: int, j: int, fuel: nat): Option<nat>
    requires 0 <= i < |data| && 0 <= j < |data|
    requires Height(data[i]) <= 4 && Height(data[j]) <= 4
  {
    var s := Reduce(Pair(data[i], data[j]), fuel);
    if s.Some? then Some(Mag(s.value)) else None
  }

  /** Part 2's double loop: the largest magnitude of the sum of two different
    * numbers of the list (0 when there are fewer than two). */
  method Part2(data: seq<Snail>, fuel: nat) returns (r: Option<nat>)
    requires forall i :: 0 <= i < |data| ==> Height(data[i]) <= 4
    ensures r.Some? ==> forall i, j :: 0 <= i < |data| && 0 <= j < |data| && i != j ==>
                          PairMag(data, i, j, fuel).Some? && PairMag(data, i, j, fuel).value <= r.value
    ensures r.Some? ==> r.value == 0 || (exists i, j :: 0 <= i < |data| && 0 <= j < |data| && i != j &&
                                           PairMag(data, i, j, fuel) == r)
    ensures r.None? ==> exists i, j :: 0 <= i < |data| && 0 <= j < |data| && i != j &&
                          PairMag(data, i, j, fuel).None?
  {
    var best := 0;
    for i := 0 to |data|
      invariant forall i', j :: 0 <= i' < i && 0 <= j < |data| && i' != j ==>
                  PairMag(data, i', j, fuel).Some? && PairMag(data, i', j, fuel).value <= best
      invariant best == 0 || (exists i', j :: 0 <= i' < |data| && 0 <= j < |data| && i' != j &&
                                PairMag(data, i', j, fuel) == Some(best))
    {
      for j := 0 to |data|
        invariant forall i', j' :: 0 <= i' < i && 0 <= j' < |data| && i' != j' ==>
                    PairMag(data, i', j', fuel).Some? && PairMag(data, i', j', fuel).value <= best
        invariant forall j' :: 0 <= j' < j && i != j' ==>
                    PairMag(data, i, j', fuel).Some? && PairMag(data, i, j', fuel).value <= best
        invariant best == 0 || (exists i', j' :: 0 <= i' < |data| && 0 <= j' < |data| && i' != j' &&
                                  PairMag(data, i', j', fuel) == Some(best))
      {
        if i != j {
          var s := Add(data[i], data[j], fuel);
          if s.None? {
            assert PairMag(data, i, j, fuel).None?;
            return None;
          }
          var v := Mag(s.value);
          assert PairMag(data, i, j, fuel) == Some(v);
          if best < v {
            best := v;
          }
        }
      }
    }
    r := Some(best);
  }

  // ---- Display, tokenise, parse_single ----------------------------------------------

  /** `Display`: a literal in decimal, a pair as `[a,b]`. */
  function Format(x: Snail): (r: string)
    ensures r != [] && (r[0] == '[' <==> x.Pair?) && '\n' !in r
  {
    match x
    case Lit(n) => Decimal(n)
    case Pair(a, b) => "[" + Format(a) + "," + Format(b) + "]"
  }

  datatype Token = Open | Num(n: nat)

  /** One call of the token iterator: the end, a token and the text after it,
    * or a panic. */
  datatype Next = End | Got(t: Token, rest: string) | Panic

  predicate Skipped(c: char)
  {
    c == ',' || c == ']' || c == '\n'
  }

  /** `tokenise`'s `from_fn` step: `[` is `Open`; `,`, `]` and newlines are
    * skipped; otherwise a run of digits is a `Num`. No digit at all panics
    * (`last().unwrap()`), and so does a run above `u32::MAX`
    * (`parse().unwrap()`). */
  function NextToken(s: string): (r: Next)
    ensures r.Got? ==> |r.rest| < |s|
    ensures r.Got? && r.t.Num? ==> r.t.n <= U32_MAX
  {
    if s == [] then End
    else if s[0] == '[' then Got(Open, s[1..])
    else if Skipped(s[0]) then NextToken(s[1..])
    else
      var k := DigitRun(s);
      if k == 0 then Panic
      else
        var v := DigitsValue(s[..k]);
        if v > U32_MAX then Panic else Got(Num(v), s[k..])
  }

  /** `parse_single`, pulling tokens lazily as the source's iterator does;
    * the text not yet tokenised is returned. `None` where the source
    * panics. */
  function ParseSingle(s: string): (r: Option<(Snail, string)>)
    ensures r.Some? ==> |r.value.1| < |s| && Fits(r.value.0)
    decreases |s|
  {
    var t := NextToken(s);
    if !t.Got? then None
    else
      match t.t
      case Num(n) => Some((Lit(n), t.rest))
      case Open =>
        var a := ParseSingle(t.rest);
        if a.None? then None
        else
          var b := ParseSingle(a.value.1);
          if b.None? then None else Some((Pair(a.value.0, b.value.0), b.value.1))
  }

  /** `read_data`'s parse of one line. */
  function ParseLine(line: string): (r: Option<Snail>)
    ensures r.Some? ==> Fits(r.value)
  {
    var p := ParseSingle(line);
    if p.Some? then Some(p.value.0) else None
  }

  /** Literals the tokeniser can read back. */
  predicate Fits(x: Snail)
  {
    match x
    case Lit(n) => n <= U32_MAX
    case Pair(a, b) => Fits(a) && Fits(b)
  }

  /** The closing brackets the parser leaves unread after a formatted
    * number. */
  function Closers(x: Snail): (r: string)
    ensures forall i :: 0 <= i < |r| ==> r[i] == ']'
  {
    match x
    case Lit(_) => ""
    case Pair(_, b) => Closers(b) + "]"
  }

  lemma {:induction false} SkipPrefix(p: string, t: string)
    requires forall i :: 0 <= i < |p| ==> Skipped(p[i])
    ensures NextToken(p + t) == NextToken(t)
  {
    if p != [] {
      assert (p + t)[0] == p[0];
      assert (p + t)[1..] == p[1..] + t;
      SkipPrefix(p[1..], t);
    } else {
      assert p + t == t;
    }
  }

  lemma LiteralToken(n: nat, s: string)
    requires n <= U32_MAX
    requires s == [] || !IsDigit(s[0])
    ensures NextToken(Decimal(n) + s) == Got(Num(n), s)
  {
    var d := Decimal(n);
    DigitRunOfDigitsThen(d, s);
    DecimalValue(n);
    var t := d + s;
    assert t[0] == d[0];
    assert t[..|d|] == d;
    assert t[|d|..] == s;
  }

  /** Round trip: parsing a formatted number gives it back, leaving only its
    * trailing `]`s, whatever non-digit text follows. */
  lemma {:induction false} ParseFormat(x: Snail, s: string)
    requires Fits(x)
    requires s == [] || !IsDigit(s[0])
    ensures ParseSingle(Format(x) + s) == Some((x, Closers(x) + s))
  {
    match x
    case Lit(n) =>
      LiteralToken(n, s);
      assert Closers(x) + s == s;
    case Pair(a, b) =>
      var afterA := "," + Format(b) + "]" + s;
      ParseFormat(a, afterA);
      ParseFormat(b, "]" + s);
      ParsePair(a, b, s);
  }

  /** Skippable text in front changes nothing for the parser. */
  lemma ParseSkip(p: string, t: string)
    requires forall i :: 0 <= i < |p| ==> Skipped(p[i])
    ensures ParseSingle(p + t) == ParseSingle(t)
  {
    SkipPrefix(p, t);
  }

  /** A formatted pair starts with `[`, followed by its left half. */
  lemma OpenToken(a: Snail, b: Snail, s: string)
    ensures NextToken(Format(Pair(a, b)) + s) == Got(Open, Format(a) + ("," + Format(b) + "]" + s))
  {
    var t := Format(Pair(a, b)) + s;
    assert t == ['['] + (Format(a) + ("," + Format(b) + "]" + s));
  }

  /** What is left after the left half leads to the right half. */
  lemma SkipToRight(a: Snail, b: Snail, s: string)
    ensures ParseSingle(Closers(a) + ("," + Format(b) + "]" + s)) == ParseSingle(Format(b) + ("]" + s))
  {
    var fb := Format(b);
    var p := Closers(a) + ",";
    assert forall i :: 0 <= i < |p| ==> Skipped(p[i]) by {
      forall i | 0 <= i < |p|
        ensures Skipped(p[i])
      {
        if i < |Closers(a)| {
          assert p[i] == Closers(a)[i];
        }
      }
    }
    assert Closers(a) + ("," + fb + "]" + s) == p + (fb + ("]" + s));
    ParseSkip(p, fb + ("]" + s));
  }

  /** The pair step of `ParseFormat`, given the round trips of both halves. */
  lemma ParsePair(a: Snail, b: Snail, s: string)
    requires ParseSingle(Format(a) + ("," + Format(b) + "]" + s)) == Some((a, Closers(a) + ("," + Format(b) + "]" + s)))
    requires ParseSingle(Format(b) + ("]" + s)) == Some((b, Closers(b) + ("]" + s)))
    ensures ParseSingle(Format(Pair(a, b)) + s) == Some((Pair(a, b), Closers(Pair(a, b)) + s))
  {
    OpenToken(a, b, s);
    SkipToRight(a, b, s);
    assert Closers(b) + ("]" + s) == Closers(Pair(a, b)) + s;
  }

  /** A formatted line, with its newline, parses back to the number. */
  lemma LineRoundTrip(x: Snail)
    requires Fits(x)
    ensures ParseLine(Format(x) + "\n") == Some(x)
    ensures ParseLine(Format(x)) == Some(x)
  {
    ParseFormat(x, "\n");
    ParseFormat(x, "");
    assert Format(x) + "" == Format(x);
  }
}
