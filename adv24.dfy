/** Day 24: Arithmetic Logic Unit. A program of `inp`, `add`, `mul`, `div`,
  * `mod` and `eql` instructions over the registers `w`, `x`, `y`, `z` reads
  * one digit 1..9 per `inp`; the answers are the largest and the smallest
  * digit string after which `z` is 0. The solution runs all digit strings at
  * once as a map from register state to the best number reaching it. */
module Adv24 {
  import opened Common
  import opened CString
  import opened RustStr

  /** A register index: 0..3 for `w`, `x`, `y`, `z`. */
  type RegIdx = r: int | 0 <= r < 4

  /** The contents of the four registers. */
  type Regs = s: seq<int> | |s| == 4 witness [0, 0, 0, 0]

  const Zero: Regs := [0, 0, 0, 0]

  /** `RVal`: the second operand, a register or a literal. */
  datatype RVal = Reg(r: RegIdx) | Val(n: int)

  datatype RegInsType = Add | Mul | Div | Mod | Eql

  /** `RegIns`: `t a b`, storing into register `a`. */
  datatype RegIns = RegIns(t: RegInsType, a: RegIdx, b: RVal)

  /** `Ins`: an input instruction or a register instruction. */
  datatype Ins = Inp(r: RegIdx) | RegOp(op: RegIns)

  // ---------------------------------------------------------------- execution

  /** What `RegInsType::exec` stores for the old target value `x` and the
    * operand `y`; `None` is the panic on a zero divisor. `div` is Rust's `/`,
    * rounding toward zero, and `mod` is `rem_euclid`. */
  function Apply(t: RegInsType, x: int, y: int): (r: Option<int>)
    ensures r.None? <==> (t == Div || t == Mod) && y == 0
    ensures t == Add ==> r == Some(x + y)
    ensures t == Mul ==> r == Some(x * y)
    ensures t == Eql ==> r == Some(if x == y then 1 else 0)
    ensures t == Mod && y != 0 ==> 0 <= r.value < Abs(y) && (x - r.value) % Abs(y) == 0
    ensures t == Div && y != 0 ==>
      (Abs(x - y * r.value) < Abs(y) && (x >= 0 ==> x - y * r.value >= 0) && (x <= 0 ==> x - y * r.value <= 0))
  {
    match t
    case Add => Some(x + y)
    case Mul => Some(x * y)
    case Div =>
      if y == 0 then None
      else
        RemMeaning(x, y);
        Some(Quot(x, y))
    case Mod =>
      if y == 0 then None
      else
        ModMeaning(x, y);
        Some(x % y)
    case Eql => Some(if x == y then 1 else 0)
  }

  lemma ModMeaning(x: int, y: int)
    requires y != 0
    ensures 0 <= x % y < Abs(y) && (x - x % y) % Abs(y) == 0
  {
    var q := x / y;
    assert x - x % y == y * q;
    if y > 0 {
      ModUnique(y * q, y, q, 0);
    } else {
      assert y * q == Abs(y) * (-q);
      ModUnique(Abs(y) * (-q), Abs(y), -q, 0);
    }
  }

  /** The value of the second operand. */
  function Operand(regs: Regs, b: RVal): int
  {
    match b
    case Reg(r) => regs[r]
    case Val(n) => n
  }

  /** The registers with register `r` set to `v`, as `inp` does. */
  function SetReg(regs: Regs, r: RegIdx, v: int): (res: Regs)
    ensures res[r] == v && forall k :: 0 <= k < 4 && k != r ==> res[k] == regs[k]
  {
    regs[r := v]
  }

  /** One register instruction: only the target register changes, to what
    * `Apply` gives; `None` is the panic. */
  function StepRegs(regs: Regs, ins: RegIns): (r: Option<Regs>)
    ensures r.None? <==> Apply(ins.t, regs[ins.a], Operand(regs, ins.b)).None?
    ensures r.Some? ==> r.value[ins.a] == Apply(ins.t, regs[ins.a], Operand(regs, ins.b)).value
    ensures r.Some? ==> forall k :: 0 <= k < 4 && k != ins.a ==> r.value[k] == regs[k]
  {
    match Apply(ins.t, regs[ins.a], Operand(regs, ins.b))
    case None => None
    case Some(v) =>
      var next: Regs := regs[ins.a := v];
      Some(next)
  }

  /** `RegInsType::exec`: the instruction applied to the registers in place.
    * A zero divisor panics, which the caller must rule out. */
  method Exec(t: RegInsType, regs: array<int>, a: RegIdx, b: RVal)
    requires regs.Length == 4
    requires Apply(t, regs[a], Operand(regs[..], b)).Some?
    modifies regs
    ensures StepRegs(old(regs[..]), RegIns(t, a, b)).Some?
    ensures StepRegs(old(regs[..]), RegIns(t, a, b)).value == regs[..]
  {
    var y := match b case Reg(r) => regs[r] case Val(n) => n;
    var v := match t
      case Add => regs[a] + y
      case Mul => regs[a] * y
      case Div => Quot(regs[a], y)
      case Mod => regs[a] % y
      case Eql => if regs[a] == y then 1 else 0;
    regs[a] := v;
  }

  /** The number of `inp` instructions. */
  function Inputs(prog: seq<Ins>): nat
  {
    if prog == [] then 0 else (if prog[0].Inp? then 1 else 0) + Inputs(prog[1..])
  }

  predicate AllReg(prog: seq<Ins>)
  {
    forall j :: 0 <= j < |prog| ==> prog[j].RegOp?
  }

  /** The program run from `regs` with the input digits `ds`, one per `inp`;
    * `None` is a panic on a zero divisor. */
  function Run(prog: seq<Ins>, regs: Regs, ds: seq<int>): (r: Option<Regs>)
    requires |ds| == Inputs(prog)
    ensures r.None? ==> exists j :: 0 <= j < |prog| && Divides(prog[j])
  {
    if prog == [] then Some(regs)
    else
      assert forall j :: 0 <= j < |prog| - 1 ==> prog[1..][j] == prog[j + 1];
      match prog[0]
      case Inp(r) => Run(prog[1..], SetReg(regs, r, ds[0]), ds[1..])
      case RegOp(op) =>
        match StepRegs(regs, op)
        case None => None
        case Some(next) => Run(prog[1..], next, ds)
  }

  /** A `div` or `mod`: the only instructions that can panic. */
  predicate Divides(i: Ins)
  {
    i.RegOp? && (i.op.t == Div || i.op.t == Mod)
  }

  lemma {:induction false} InputsConcat(p: seq<Ins>, q: seq<Ins>)
    ensures Inputs(p + q) == Inputs(p) + Inputs(q)
  {
    if p != [] {
      assert (p + q)[1..] == p[1..] + q;
      InputsConcat(p[1..], q);
    } else {
      assert p + q == q;
    }
  }

  lemma {:induction false} AllRegInputs(prog: seq<Ins>)
    requires AllReg(prog)
    ensures Inputs(prog) == 0
  {
    if prog != [] {
      AllRegInputs(prog[1..]);
    }
  }

  /** Running two programs one after the other is running their
    * concatenation. */
  lemma {:induction false} RunConcat(p: seq<Ins>, q: seq<Ins>, regs: Regs, ds1: seq<int>, ds2: seq<int>)
    requires |ds1| == Inputs(p) && |ds2| == Inputs(q)
    ensures Inputs(p + q) == Inputs(p) + Inputs(q)
    ensures Run(p + q, regs, ds1 + ds2)
      == match Run(p, regs, ds1) { case None => None case Some(r) => Run(q, r, ds2) }
  {
    InputsConcat(p, q);
    if p == [] {
      assert p + q == q && ds1 + ds2 == ds2;
    } else {
      assert (p + q)[0] == p[0] && (p + q)[1..] == p[1..] + q;
      match p[0]
      case Inp(r) =>
        assert (ds1 + ds2)[0] == ds1[0] && (ds1 + ds2)[1..] == ds1[1..] + ds2;
        RunConcat(p[1..], q, SetReg(regs, r, ds1[0]), ds1[1..], ds2);
      case RegOp(op) =>
        match StepRegs(regs, op)
        case None =>
        case Some(next) =>
          RunConcat(p[1..], q, next, ds1, ds2);
    }
  }

  /** The `for ins in exec` loop: the register instructions run in order on
    * the registers in place; `false` is the panic on a zero divisor. */
  method RunBlock(exec: seq<Ins>, regs: array<int>) returns (ok: bool)
    requires regs.Length == 4 && AllReg(exec)
    modifies regs
    ensures Inputs(exec) == 0
    ensures ok <==> Run(exec, old(regs[..]), []).Some?
    ensures ok ==> Run(exec, old(regs[..]), []).value == regs[..]
  {
    AllRegInputs(exec);
    for i := 0 to |exec|
      invariant AllReg(exec[i..]) && Inputs(exec[i..]) == 0
      invariant Run(exec, old(regs[..]), []) == Run(exec[i..], regs[..], [])
    {
      AllRegInputs(exec[i + 1..]);
      assert exec[i..][1..] == exec[i + 1..];
      var ins := exec[i].op;
      if Apply(ins.t, regs[ins.a], Operand(regs[..], ins.b)).None? {
        return false;
      }
      Exec(ins.t, regs, ins.a, ins.b);
    }
    return true;
  }

  /** `split_reg_ins`: the longest prefix of register instructions and the
    * rest, which is empty or starts with `inp`. */
  method SplitRegIns(ls: seq<Ins>) returns (exec: seq<Ins>, rest: seq<Ins>)
    ensures exec + rest == ls
    ensures AllReg(exec)
    ensures rest == [] || rest[0].Inp?
  {
    var i := 0;
    while true
      invariant 0 <= i <= |ls| && AllReg(ls[..i])
      decreases |ls| - i
    {
      if i >= |ls| {
        assert ls[..i] == ls;
        return ls, [];
      } else if !ls[i].RegOp? {
        assert ls[..i] + ls[i..] == ls;
        return ls[..i], ls[i..];
      }
      i := i + 1;
    }
  }

  // ---------------------------------------------------------------- search

  /** `a` is at least as good as `b`: larger for part one (`big`), smaller
    * for part two. */
  predicate Better(big: bool, a: int, b: int)
  {
    if big then a >= b else a <= b
  }

  predicate ValidDigits(ds: seq<int>)
  {
    forall j :: 0 <= j < |ds| ==> 1 <= ds[j] <= 9
  }

  /** The decimal number the digit string spells. */
  function Number(ds: seq<int>): int
  {
    if ds == [] then 0 else Number(ds[..|ds| - 1]) * 10 + ds[|ds| - 1]
  }

  /** A digit string for every `inp` of the program. */
  ghost predicate Full(prog: seq<Ins>, ds: seq<int>)
  {
    |ds| == Inputs(prog) && ValidDigits(ds)
  }

  /** The digit string runs the program from zeroed registers to `z == 0`. */
  ghost predicate Accepts(prog: seq<Ins>, ds: seq<int>)
  {
    Full(prog, ds) && Run(prog, Zero, ds).Some? && Run(prog, Zero, ds).value[3] == 0
  }

  /** Every state of the map is reached by a digit string whose number is
    * the one stored for it. */
  ghost predicate Witnessed(done: seq<Ins>, m: map<Regs, int>)
  {
    forall k: Regs :: k in m ==> exists ds :: Full(done, ds) && Run(done, Zero, ds) == Some(k) && Number(ds) == m[k]
  }

  /** Every digit string runs without a panic to a state of the map whose
    * stored number is at least as good as its own. */
  ghost predicate Dominates(done: seq<Ins>, m: map<Regs, int>, big: bool)
  {
    forall ds :: Full(done, ds) ==>
      Run(done, Zero, ds).Some? && Run(done, Zero, ds).value in m
      && Better(big, m[Run(done, Zero, ds).value], Number(ds))
  }

  /** The keys of the map in some order (`HashMap` iteration order is not
    * specified). */
  method KeysOf(m: map<Regs, int>) returns (ks: seq<Regs>)
    ensures forall k: Regs :: k in m <==> k in ks
  {
    ks := [];
    var left := m.Keys;
    while left != {}
      invariant left <= m.Keys
      invariant forall k: Regs :: k in m <==> k in ks || k in left
      decreases left
    {
      var k :| k in left;
      ks := ks + [k];
      left := left - {k};
    }
  }

  /** `collect_big` (`big`) and `collect_small`: the pairs gathered into a
    * map that keeps, per state, the largest or the smallest number. */
  method Collect(it: seq<(Regs, int)>, big: bool) returns (h: map<Regs, int>)
    ensures forall j :: 0 <= j < |it| ==> it[j].0 in h && Better(big, h[it[j].0], it[j].1)
    ensures forall k :: k in h ==> exists j :: 0 <= j < |it| && it[j] == (k, h[k])
  {
    h := map[];
    for j := 0 to |it|
      invariant forall t :: 0 <= t < j ==> it[t].0 in h && Better(big, h[it[t].0], it[t].1)
      invariant forall k :: k in h ==> exists t :: 0 <= t < j && it[t] == (k, h[k])
    {
      var (regs, n) := it[j];
      if regs in h {
        if (big && h[regs] < n) || (!big && h[regs] > n) {
          h := h[regs := n];
        }
      } else {
        h := h[regs := n];
      }
    }
  }

  /** The closure of the `map` over the states: the block run on a fresh
    * register array holding one state; `false` is a panic. */
  method RunState(exec: seq<Ins>, k: Regs) returns (good: bool, out: Regs)
    requires AllReg(exec)
    ensures Inputs(exec) == 0
    ensures good <==> Run(exec, k, []).Some?
    ensures good ==> Run(exec, k, []) == Some(out)
  {
    var regs := new int[4](t => if 0 <= t < 4 then k[t] else 0);
    assert regs[..] == k;
    good := RunBlock(exec, regs);
    out := if good then regs[..] else k;
  }

  /** The register-instruction branch of `p1`/`p2`: the block run on every
    * state, then collected; `false` is a panic in some state. */
  method MapBlock(m: map<Regs, int>, exec: seq<Ins>, big: bool) returns (ok: bool, m': map<Regs, int>)
    requires AllReg(exec)
    ensures Inputs(exec) == 0
    ensures ok <==> forall k: Regs :: k in m ==> Run(exec, k, []).Some?
    ensures ok ==> forall k: Regs :: k in m ==> Run(exec, k, []).value in m' && Better(big, m'[Run(exec, k, []).value], m[k])
    ensures ok ==> forall k': Regs :: k' in m' ==> exists k: Regs :: k in m && Run(exec, k, []) == Some(k') && m'[k'] == m[k]
  {
    AllRegInputs(exec);
    var ks := KeysOf(m);
    var it: seq<(Regs, int)> := [];
    for j := 0 to |ks|
      invariant |it| == j
      invariant forall t :: 0 <= t < j ==> ks[t] in m && Run(exec, ks[t], []) == Some(it[t].0) && it[t].1 == m[ks[t]]
    {
      var good, out := RunState(exec, ks[j]);
      if !good {
        return false, map[];
      }
      it := it + [(out, m[ks[j]])];
    }
    m' := Collect(it, big);
    ok := true;
    forall k: Regs | k in m
      ensures Run(exec, k, []).Some?
    {
      var t :| 0 <= t < |ks| && ks[t] == k;
    }
  }

  /** A position of an element of a sequence. */
  lemma IndexOf<T>(s: seq<T>, y: T) returns (j: nat)
    requires y in s
    ensures j < |s| && s[j] == y
  {
    j :| 0 <= j < |s| && s[j] == y;
  }

  /** The nine pairs one state spreads into on `inp`: the input register
    * set to `i` and the number extended by the digit `i`, for `i` in 1..9. */
  function Spread(k: Regs, n: int, r: RegIdx): (s: seq<(Regs, int)>)
    ensures |s| == 9 && forall i :: 0 <= i < 9 ==> s[i] == (SetReg(k, r, i + 1), n * 10 + i + 1)
  {
    seq(9, i requires 0 <= i < 9 => (SetReg(k, r, i + 1), n * 10 + i + 1))
  }


  /** The closure `p1`/`p2` hand to `flat_map` on `inp`. */
  function SpreadOf(m: map<Regs, int>, r: RegIdx): Regs -> seq<(Regs, int)>
  {
    (k: Regs) => if k in m then Spread(k, m[k], r) else []
  }

  /** Every key of `m` with every digit is in the `flat_map` over its keys. */
  lemma SpreadAllHas(m: map<Regs, int>, ks: seq<Regs>, r: RegIdx, k: Regs, i: int)
    requires forall k: Regs :: k in m <==> k in ks
    requires k in m && 1 <= i <= 9
    ensures (SetReg(k, r, i), m[k] * 10 + i) in FlatMap(ks, SpreadOf(m, r))
  {
    var f := SpreadOf(m, r);
    var y := (SetReg(k, r, i), m[k] * 10 + i);
    var t :| 0 <= t < |ks| && ks[t] == k;
    var sp := Spread(k, m[k], r);
    assert f(ks[t]) == sp;
    assert sp[i - 1] == y;
    FlatMapIn(ks, f, y);
  }

  /** Everything in the `flat_map` over the keys of `m` is a key with a
    * digit. */
  lemma SpreadAllFrom(m: map<Regs, int>, ks: seq<Regs>, r: RegIdx, y: (Regs, int)) returns (k: Regs, i: int)
    requires forall k: Regs :: k in ks ==> k in m
    requires y in FlatMap(ks, SpreadOf(m, r))
    ensures k in m && 1 <= i <= 9 && y == (SetReg(k, r, i), m[k] * 10 + i)
  {
    var t := SpreadAllIndex(m, ks, r, y);
    k := ks[t];
    i := SpreadFrom(k, m[k], r, y);
  }

  lemma SpreadAllIndex(m: map<Regs, int>, ks: seq<Regs>, r: RegIdx, y: (Regs, int)) returns (t: nat)
    requires forall k: Regs :: k in ks ==> k in m
    requires y in FlatMap(ks, SpreadOf(m, r))
    ensures t < |ks| && y in Spread(ks[t], m[ks[t]], r)
  {
    var f := SpreadOf(m, r);
    FlatMapIn(ks, f, y);
    t :| 0 <= t < |ks| && y in f(ks[t]);
  }

  lemma SpreadFrom(k: Regs, n: int, r: RegIdx, y: (Regs, int)) returns (i: int)
    requires y in Spread(k, n, r)
    ensures 1 <= i <= 9 && y == (SetReg(k, r, i), n * 10 + i)
  {
    var sp := Spread(k, n, r);
    var j :| 0 <= j < 9 && sp[j] == y;
    i := j + 1;
  }

  /** The `inp` branch of `p1`/`p2`: every state spread into nine, then
    * collected. */
  method Expand(m: map<Regs, int>, r: RegIdx, big: bool) returns (m': map<Regs, int>)
    ensures forall k: Regs, i :: k in m && 1 <= i <= 9 ==>
      SetReg(k, r, i) in m' && Better(big, m'[SetReg(k, r, i)], m[k] * 10 + i)
    ensures forall k': Regs :: k' in m' ==>
      exists k: Regs, i :: k in m && 1 <= i <= 9 && k' == SetReg(k, r, i) && m'[k'] == m[k] * 10 + i
  {
    var ks := KeysOf(m);
    var it := FlatMap(ks, SpreadOf(m, r));
    m' := Collect(it, big);
    forall k: Regs, i | k in m && 1 <= i <= 9
      ensures SetReg(k, r, i) in m' && Better(big, m'[SetReg(k, r, i)], m[k] * 10 + i)
    {
      var y := (SetReg(k, r, i), m[k] * 10 + i);
      SpreadAllHas(m, ks, r, k, i);
      var j := IndexOf(it, y);
    }
    forall k': Regs | k' in m'
      ensures exists k: Regs, i :: k in m && 1 <= i <= 9 && k' == SetReg(k, r, i) && m'[k'] == m[k] * 10 + i
    {
      var j :| 0 <= j < |it| && it[j] == (k', m'[k']);
      var k, i := SpreadAllFrom(m, ks, r, it[j]);
    }
  }

  /** The final `filter_map(..).max().unwrap()` (`big`) or `.min()`: the best
    * number stored for a state with `z == 0`; `None` is the panic when there
    * is none. */
  method Best(m: map<Regs, int>, big: bool) returns (r: Option<int>)
    ensures r.None? <==> forall k: Regs :: k in m ==> k[3] != 0
    ensures r.Some? ==> exists k: Regs :: k in m && k[3] == 0 && m[k] == r.value
    ensures r.Some? ==> forall k: Regs :: k in m && k[3] == 0 ==> Better(big, r.value, m[k])
  {
    var ks := KeysOf(m);
    r := None;
    for j := 0 to |ks|
      invariant r.None? <==> forall t :: 0 <= t < j ==> ks[t][3] != 0
      invariant r.Some? ==> exists t :: 0 <= t < j && ks[t][3] == 0 && m[ks[t]] == r.value
      invariant r.Some? ==> forall t :: 0 <= t < j && ks[t][3] == 0 ==> Better(big, r.value, m[ks[t]])
    {
      var k := ks[j];
      if k[3] == 0 {
        if r.None? || (big && m[k] > r.value) || (!big && m[k] < r.value) {
          r := Some(m[k]);
        }
      }
    }
    forall k: Regs | k in m
      ensures exists t :: 0 <= t < |ks| && ks[t] == k
    {
    }
  }

  /** The start: only the zeroed registers, with number 0. */
  lemma SearchStart(big: bool)
    ensures Witnessed([], map[Zero := 0]) && Dominates([], map[Zero := 0], big)
  {
    assert Full([], []) && Run([], Zero, []) == Some(Zero) && Number([]) == 0;
  }

  /** A block of register instructions keeps the invariant. */
  lemma SearchBlock(done: seq<Ins>, exec: seq<Ins>, m: map<Regs, int>, m': map<Regs, int>, big: bool)
    requires Inputs(exec) == 0 && Witnessed(done, m) && Dominates(done, m, big)
    requires forall k: Regs :: k in m ==> Run(exec, k, []).Some?
    requires forall k: Regs :: k in m ==> Run(exec, k, []).value in m' && Better(big, m'[Run(exec, k, []).value], m[k])
    requires forall k': Regs :: k' in m' ==> exists k: Regs :: k in m && Run(exec, k, []) == Some(k') && m'[k'] == m[k]
    ensures Witnessed(done + exec, m') && Dominates(done + exec, m', big)
  {
    InputsConcat(done, exec);
    forall ds | Full(done, ds)
      ensures Full(done + exec, ds) && Run(done + exec, Zero, ds) == Run(exec, Run(done, Zero, ds).value, [])
    {
      RunConcat(done, exec, Zero, ds, []);
      assert ds + [] == ds;
    }
    forall k': Regs | k' in m'
      ensures exists ds :: Full(done + exec, ds) && Run(done + exec, Zero, ds) == Some(k') && Number(ds) == m'[k']
    {
      var k: Regs :| k in m && Run(exec, k, []) == Some(k') && m'[k'] == m[k];
      var ds :| Full(done, ds) && Run(done, Zero, ds) == Some(k) && Number(ds) == m[k];
    }
    forall ds | Full(done + exec, ds)
      ensures Run(done + exec, Zero, ds).Some? && Run(done + exec, Zero, ds).value in m'
        && Better(big, m'[Run(done + exec, Zero, ds).value], Number(ds))
    {
      assert Full(done, ds);
    }
  }

  /** One `inp` after `done` reads the next digit into register `r`. */
  lemma InputStep(done: seq<Ins>, r: RegIdx, ds: seq<int>, i: int)
    requires Full(done, ds) && 1 <= i <= 9
    ensures Full(done + [Inp(r)], ds + [i]) && Number(ds + [i]) == Number(ds) * 10 + i
    ensures Run(done + [Inp(r)], Zero, ds + [i]).Some? <==> Run(done, Zero, ds).Some?
    ensures Run(done, Zero, ds).Some? ==>
      Run(done + [Inp(r)], Zero, ds + [i]).value == SetReg(Run(done, Zero, ds).value, r, i)
  {
    InputsConcat(done, [Inp(r)]);
    assert [Inp(r)][1..] == [];
    RunConcat(done, [Inp(r)], Zero, ds, [i]);
    assert (ds + [i])[..|ds|] == ds;
  }

  /** Every full digit string of `done + [Inp(r)]` is one of `done` and a
    * digit. */
  lemma InputSplit(done: seq<Ins>, r: RegIdx, ds': seq<int>)
    requires Full(done + [Inp(r)], ds')
    ensures |ds'| >= 1 && Full(done, ds'[..|ds'| - 1]) && 1 <= ds'[|ds'| - 1] <= 9
    ensures ds' == ds'[..|ds'| - 1] + [ds'[|ds'| - 1]]
  {
    InputsConcat(done, [Inp(r)]);
    assert [Inp(r)][1..] == [];
  }

  /** An `inp` keeps every state witnessed. */
  lemma InputWitnessed(done: seq<Ins>, r: RegIdx, m: map<Regs, int>, m': map<Regs, int>)
    requires Witnessed(done, m)
    requires forall k': Regs :: k' in m' ==> exists k: Regs, i :: k in m && 1 <= i <= 9 && k' == SetReg(k, r, i) && m'[k'] == m[k] * 10 + i
    ensures Witnessed(done + [Inp(r)], m')
  {
    forall k': Regs | k' in m'
      ensures exists ds :: Full(done + [Inp(r)], ds) && Run(done + [Inp(r)], Zero, ds) == Some(k') && Number(ds) == m'[k']
    {
      var k: Regs, i :| k in m && 1 <= i <= 9 && k' == SetReg(k, r, i) && m'[k'] == m[k] * 10 + i;
      var ds :| Full(done, ds) && Run(done, Zero, ds) == Some(k) && Number(ds) == m[k];
      InputStep(done, r, ds, i);
      assert Run(done + [Inp(r)], Zero, ds + [i]) == Some(k');
    }
  }

  /** An `inp` keeps every digit string dominated. */
  lemma InputDominates(done: seq<Ins>, r: RegIdx, m: map<Regs, int>, m': map<Regs, int>, big: bool)
    requires Dominates(done, m, big)
    requires forall k: Regs, i :: k in m && 1 <= i <= 9 ==> SetReg(k, r, i) in m' && Better(big, m'[SetReg(k, r, i)], m[k] * 10 + i)
    ensures Dominates(done + [Inp(r)], m', big)
  {
    var done' := done + [Inp(r)];
    forall ds' | Full(done', ds')
      ensures Run(done', Zero, ds').Some? && Run(done', Zero, ds').value in m'
        && Better(big, m'[Run(done', Zero, ds').value], Number(ds'))
    {
      InputSplit(done, r, ds');
      var n := |ds'| - 1;
      var ds, i := ds'[..n], ds'[n];
      InputStep(done, r, ds, i);
      var k := Run(done, Zero, ds).value;
      assert SetReg(k, r, i) in m' && Better(big, m'[SetReg(k, r, i)], m[k] * 10 + i);
    }
  }

  /** The digit string `ds` followed by ones. */
  function PadOnes(ds: seq<int>, n: nat): (r: seq<int>)
    ensures |r| == |ds| + n && r[..|ds|] == ds
    ensures ValidDigits(ds) ==> ValidDigits(r)
  {
    ds + seq(n, _ => 1)
  }

  /** A panic of the block in a reached state is a panic of some full run. */
  lemma SearchPanic(ls0: seq<Ins>, done: seq<Ins>, exec: seq<Ins>, rest: seq<Ins>, m: map<Regs, int>, k: Regs)
    requires done + (exec + rest) == ls0 && Inputs(exec) == 0 && Witnessed(done, m) && k in m
    requires Run(exec, k, []).None?
    ensures exists ds :: Full(ls0, ds) && Run(ls0, Zero, ds).None?
  {
    var ds :| Full(done, ds) && Run(done, Zero, ds) == Some(k) && Number(ds) == m[k];
    InputsConcat(exec, rest);
    InputsConcat(done, exec + rest);
    var pad := seq(Inputs(rest), _ => 1);
    RunConcat(exec, rest, k, [], pad);
    assert [] + pad == pad;
    RunConcat(done, exec + rest, Zero, ds, pad);
    assert ValidDigits(ds + pad);
    assert Full(ls0, ds + pad);
  }

  /** The end of the search: the best stored number is the answer. */
  lemma SearchEnd(ls0: seq<Ins>, m: map<Regs, int>, big: bool, r: Option<int>)
    requires Witnessed(ls0, m) && Dominates(ls0, m, big)
    requires r.None? <==> forall k: Regs :: k in m ==> k[3] != 0
    requires r.Some? ==> exists k: Regs :: k in m && k[3] == 0 && m[k] == r.value
    requires r.Some? ==> forall k: Regs :: k in m && k[3] == 0 ==> Better(big, r.value, m[k])
    ensures forall ds :: Full(ls0, ds) ==> Run(ls0, Zero, ds).Some?
    ensures r.Some? ==> exists ds :: Accepts(ls0, ds) && Number(ds) == r.value
    ensures r.Some? ==> forall ds :: Accepts(ls0, ds) ==> Better(big, r.value, Number(ds))
    ensures r.None? ==> forall ds :: !Accepts(ls0, ds)
  {
    if r.Some? {
      var k: Regs :| k in m && k[3] == 0 && m[k] == r.value;
      var ds :| Full(ls0, ds) && Run(ls0, Zero, ds) == Some(k) && Number(ds) == m[k];
      assert Accepts(ls0, ds);
    }
  }

  /** `p1` (`big`) and `p2`, which differ only in collecting and choosing the
    * largest or the smallest number: `None` is a panic, either on a zero
    * divisor in some run or because no digit string is accepted. */
  method Search(ls0: seq<Ins>, big: bool) returns (r: Option<int>)
    ensures r.Some? ==> forall ds :: Full(ls0, ds) ==> Run(ls0, Zero, ds).Some?
    ensures r.Some? ==> exists ds :: Accepts(ls0, ds) && Number(ds) == r.value
    ensures r.Some? ==> forall ds :: Accepts(ls0, ds) ==> Better(big, r.value, Number(ds))
    ensures r.None? ==> (exists ds :: Full(ls0, ds) && Run(ls0, Zero, ds).None?) || (forall ds :: !Accepts(ls0, ds))
  {
    var m: map<Regs, int> := map[Zero := 0];
    var ls := ls0;
    ghost var done: seq<Ins> := [];
    SearchStart(big);
    while |ls| != 0
      invariant done + ls == ls0
      invariant Witnessed(done, m) && Dominates(done, m, big)
      decreases |ls|
    {
      var exec, newLs := SplitRegIns(ls);
      if |exec| != 0 {
        ls := newLs;
        var ok, m' := MapBlock(m, exec, big);
        if !ok {
          var k: Regs :| k in m && Run(exec, k, []).None?;
          SearchPanic(ls0, done, exec, newLs, m, k);
          return None;
        }
        SearchBlock(done, exec, m, m', big);
        assert (done + exec) + newLs == ls0;
        done := done + exec;
        m := m';
      } else {
        var reg := ls[0].r;
        ls := ls[1..];
        var m' := Expand(m, reg, big);
        InputWitnessed(done, reg, m, m');
        InputDominates(done, reg, m, m', big);
        assert (done + [Inp(reg)]) + ls == ls0;
        done := done + [Inp(reg)];
        m := m';
      }
    }
    assert done == ls0;
    r := Best(m, big);
    SearchEnd(ls0, m, big, r);
  }

  /** `p1`: the largest accepted model number. */
  method P1(ls: seq<Ins>) returns (r: Option<int>)
    ensures r.Some? ==> exists ds :: Accepts(ls, ds) && Number(ds) == r.value
    ensures r.Some? ==> forall ds :: Accepts(ls, ds) ==> Number(ds) <= r.value
  {
    r := Search(ls, true);
  }

  /** `p2`: the smallest accepted model number. */
  method P2(ls: seq<Ins>) returns (r: Option<int>)
    ensures r.Some? ==> exists ds :: Accepts(ls, ds) && Number(ds) == r.value
    ensures r.Some? ==> forall ds :: Accepts(ls, ds) ==> r.value <= Number(ds)
  {
    r := Search(ls, false);
  }

  // ---------------------------------------------------------------- input

  const I64Min: int := -0x8000_0000_0000_0000
  const I64Max: int := 0x7FFF_FFFF_FFFF_FFFF

  function RegName(r: RegIdx): string
  {
    if r == 0 then "w" else if r == 1 then "x" else if r == 2 then "y" else "z"
  }

  /** `parse_reg`: `w`, `x`, `y`, `z` are 0..3; anything else is `None`. */
  function ParseReg(s: string): (r: Option<RegIdx>)
    ensures r.Some? ==> RegName(r.value) == s
  {
    if s == "w" then Some(0)
    else if s == "x" then Some(1)
    else if s == "y" then Some(2)
    else if s == "z" then Some(3)
    else None
  }

  /** Every register name is read back. */
  lemma ParseRegName(r: RegIdx)
    ensures ParseReg(RegName(r)) == Some(r)
  {
  }

  /** `parse_rval`: a register name, else an `i64` literal; `None` is the
    * panic of `unwrap`. */
  function ParseRVal(s: string): (r: Option<RVal>)
    ensures r.Some? && r.value.Reg? ==> RegName(r.value.r) == s
    ensures r.Some? && r.value.Val? ==> ParseInt(s, I64Min, I64Max) == Some(r.value.n)
  {
    match ParseReg(s)
    case Some(r) => Some(Reg(r))
    case None =>
      match ParseInt(s, I64Min, I64Max)
      case None => None
      case Some(n) => Some(Val(n))
  }

  /** `parse_ab`: a register, a space, and the second operand. */
  function ParseAb(s: string): (r: Option<(RegIdx, RVal)>)
    ensures r.Some? ==> |s| >= 2 && s[..1] == RegName(r.value.0) && s[1] == ' '
    ensures r.Some? ==> ParseRVal(s[2..]) == Some(r.value.1)
  {
    match SplitOnce(s, ' ')
    case None => None
    case Some((a, b)) =>
      match (ParseReg(a), ParseRVal(b))
      case (Some(ra), Some(rb)) => Some((ra, rb))
      case _ => None
  }

  function OpName(t: RegInsType): string
  {
    match t
    case Add => "add "
    case Mul => "mul "
    case Div => "div "
    case Mod => "mod "
    case Eql => "eql "
  }

  /** The operation named by a four-character head. */
  function OpOf(head: string): (r: Option<RegInsType>)
    ensures r.Some? ==> OpName(r.value) == head
  {
    if head == "add " then Some(Add)
    else if head == "mul " then Some(Mul)
    else if head == "div " then Some(Div)
    else if head == "mod " then Some(Mod)
    else if head == "eql " then Some(Eql)
    else None
  }

  /** `parse_ins`: `inp ` and a register, or an operation head and its two
    * operands; `None` is a panic (a short line, a bad operand or an unknown
    * head). */
  function ParseIns(s: string): (r: Option<Ins>)
    ensures r.Some? ==> |s| >= 4 && (r.value.Inp? <==> s[..4] == "inp ")
    ensures r.Some? && r.value.RegOp? ==> s[..4] == OpName(r.value.op.t)
  {
    if |s| < 4 then None
    else
      var head, body := s[..4], s[4..];
      if head == "inp " then
        match ParseReg(body)
        case None => None
        case Some(r) => Some(Inp(r))
      else
        match ParseAb(body)
        case None => None
        case Some((a, b)) =>
          match OpOf(head)
          case None => None
          case Some(t) => Some(RegOp(RegIns(t, a, b)))
  }

  function RValText(b: RVal): string
  {
    match b
    case Reg(r) => RegName(r)
    case Val(n) => Signed(n)
  }

  /** How an instruction is written in the input. */
  function InsText(ins: Ins): string
  {
    match ins
    case Inp(r) => "inp " + RegName(r)
    case RegOp(op) => OpName(op.t) + RegName(op.a) + " " + RValText(op.b)
  }

  /** A literal is never taken for a register name. */
  lemma ParseRValText(b: RVal)
    requires b.Val? ==> I64Min <= b.n <= I64Max
    ensures ParseRVal(RValText(b)) == Some(b)
  {
    match b
    case Reg(r) =>
    case Val(n) =>
      var s := Signed(n);
      assert s[0] == '-' || IsDigit(s[0]);
      assert ParseReg(s).None?;
      ParseSigned(n, I64Min, I64Max);
  }

  /** A four-character head and a body are split back apart. */
  lemma HeadBody(head: string, body: string)
    requires |head| == 4
    ensures |head + body| >= 4 && (head + body)[..4] == head && (head + body)[4..] == body
  {
  }

  /** `parse_ab` reads back a register name, a space and an operand. */
  lemma ParseAbText(a: RegIdx, b: RVal)
    requires b.Val? ==> I64Min <= b.n <= I64Max
    ensures ParseAb(RegName(a) + " " + RValText(b)) == Some((a, b))
  {
    SplitOnceAt(RegName(a), ' ', RValText(b));
    ParseRValText(b);
  }

  /** Every operation head is read back. */
  lemma OpOfName(t: RegInsType)
    ensures OpOf(OpName(t)) == Some(t) && OpName(t) != "inp "
  {
  }

  lemma ParseInsOp(head: string, body: string, t: RegInsType, a: RegIdx, b: RVal)
    requires |head| == 4 && head != "inp " && OpOf(head) == Some(t) && ParseAb(body) == Some((a, b))
    ensures ParseIns(head + body) == Some(RegOp(RegIns(t, a, b)))
  {
    HeadBody(head, body);
  }

  /** `parse_ins` reads back every instruction written in the input format
    * with its literal in the `i64` range. */
  lemma ParseInsText(ins: Ins)
    requires ins.RegOp? && ins.op.b.Val? ==> I64Min <= ins.op.b.n <= I64Max
    ensures ParseIns(InsText(ins)) == Some(ins)
  {
    match ins
    case Inp(r) =>
      HeadBody("inp ", RegName(r));
    case RegOp(op) =>
      var body := RegName(op.a) + " " + RValText(op.b);
      assert InsText(ins) == OpName(op.t) + body;
      ParseAbText(op.a, op.b);
      OpOfName(op.t);
      ParseInsOp(OpName(op.t), body, op.t, op.a, op.b);
  }

  /** `read_data`: one instruction per line. */
  function ReadData(lines: seq<string>): (r: seq<Option<Ins>>)
    ensures |r| == |lines| && forall i :: 0 <= i < |lines| ==> r[i] == ParseIns(lines[i])
  {
    seq(|lines|, i requires 0 <= i < |lines| => ParseIns(lines[i]))
  }
}
