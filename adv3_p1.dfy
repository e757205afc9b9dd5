/** adv-3/p1.c: per-column balance of '1' over '0' characters in the first
  * twelve columns of every line, then the "gamma" number whose bits are the
  * majority bits and the "epsilon" number that is its 12-bit complement. */
module Adv3P1 {
  import opened Common

  const Cols: nat := 12

  /** Every one of the first twelve characters is '0' or '1'; anything else
    * (including a line too short, whose '\n' or terminator is reached)
    * makes the program `exit(-1)`. */
  predicate ValidLine(line: string)
  {
    |line| >= Cols && forall i :: 0 <= i < Cols ==> line[i] == '0' || line[i] == '1'
  }

  /** `+1` for '1', `-1` for '0'. */
  function Vote(c: char): int
  {
    if c == '1' then 1 else if c == '0' then -1 else 0
  }

  /** Value of counter `buff[col]` after the given lines. */
  function Balance(lines: seq<string>, col: nat): int
    requires col < Cols
    requires forall k :: 0 <= k < |lines| ==> ValidLine(lines[k])
  {
    if lines == [] then 0
    else
      var last := lines[|lines| - 1];
      assert ValidLine(last);
      Balance(lines[..|lines| - 1], col) + Vote(last[col])
  }

  /** Number of lines whose column `col` holds `c`. */
  function CountChar(lines: seq<string>, col: nat, c: char): nat
    requires forall k :: 0 <= k < |lines| ==> |lines[k]| > col
  {
    if lines == [] then 0
    else CountChar(lines[..|lines| - 1], col, c) + (if lines[|lines| - 1][col] == c then 1 else 0)
  }

  /** The counter is the number of ones minus the number of zeros, so it is
    * positive exactly when the column holds more ones than zeros. */
  lemma {:induction false} BalanceCounts(lines: seq<string>, col: nat)
    requires col < Cols
    requires forall k :: 0 <= k < |lines| ==> ValidLine(lines[k])
    ensures Balance(lines, col) == CountChar(lines, col, '1') - CountChar(lines, col, '0')
    ensures CountChar(lines, col, '1') + CountChar(lines, col, '0') == |lines|
  {
    if lines != [] {
      BalanceCounts(lines[..|lines| - 1], col);
    }
  }

  /** The shift loop: `gamma = (gamma << 1) | (buff[i] > 0)` for each column. */
  function GammaOf(balances: seq<int>): (g: nat)
    ensures g < Pow2(|balances|)
  {
    if balances == [] then 0
    else 2 * GammaOf(balances[..|balances| - 1]) + (if balances[|balances| - 1] > 0 then 1 else 0)
  }

  /** Bit `|b| - 1 - i` of gamma (column 0 is the most significant) is set
    * exactly when column `i` has a positive balance. */
  lemma {:induction false} GammaBits(b: seq<int>, i: nat)
    requires i < |b|
    ensures BitSet(GammaOf(b), |b| - 1 - i) <==> b[i] > 0
  {
    var p := b[..|b| - 1];
    var bit := if b[|b| - 1] > 0 then 1 else 0;
    if i == |b| - 1 {
      BitsOfShiftIn(GammaOf(p), bit, 0);
    } else {
      GammaBits(p, i);
      assert b[i] == p[i];
      BitsOfShiftIn(GammaOf(p), bit, |p| - 1 - i);
    }
  }

  /** `~g & (2^n - 1)`: the low `n` bits of `g`, each one flipped. */
  function Complement(g: nat, n: nat): nat
  {
    if n == 0 then 0 else 2 * Complement(g / 2, n - 1) + (1 - g % 2)
  }

  /** Each of the low `n` bits of the complement is the opposite of `g`'s. */
  lemma {:induction false} ComplementBits(g: nat, n: nat, j: nat)
    requires j < n
    ensures BitSet(Complement(g, n), j) <==> !BitSet(g, j)
  {
    BitsOfShiftIn(Complement(g / 2, n - 1), 1 - g % 2, if j == 0 then 0 else j - 1);
    if j > 0 {
      ComplementBits(g / 2, n - 1, j - 1);
    }
  }

  /** For `g` below `2^n` the complement is `2^n - 1 - g`; with `n = 12`,
    * gamma and epsilon add up to 4095. */
  lemma {:induction false} ComplementValue(g: nat, n: nat)
    requires g < Pow2(n)
    ensures Complement(g, n) == Pow2(n) - 1 - g
  {
    if n > 0 {
      ComplementValue(g / 2, n - 1);
    }
  }

  /** The twelve counters after all lines. */
  function Balances(lines: seq<string>): (b: seq<int>)
    requires forall k :: 0 <= k < |lines| ==> ValidLine(lines[k])
    ensures |b| == Cols && forall c :: 0 <= c < Cols ==> b[c] == Balance(lines, c)
  {
    seq(Cols, c requires 0 <= c < Cols => Balance(lines, c))
  }

  /** The reading loop of `main`: `None` where it exits on a bad character,
    * otherwise the twelve column counters. */
  method CountColumns(lines: seq<string>) returns (buff: Option<array<int>>)
    ensures buff.None? <==> exists k :: 0 <= k < |lines| && !ValidLine(lines[k])
    ensures buff.Some? ==> fresh(buff.value) && buff.value.Length == Cols
    ensures buff.Some? ==> forall c :: 0 <= c < Cols ==> buff.value[c] == Balance(lines, c)
  {
    var b := new int[Cols](_ => 0);
    var k := 0;
    while k < |lines|
      invariant 0 <= k <= |lines|
      invariant forall j :: 0 <= j < k ==> ValidLine(lines[j])
      invariant forall c :: 0 <= c < Cols ==> b[c] == Balance(lines[..k], c)
    {
      var line := lines[k];
      if !ValidLine(line) {
        return None;
      }
      var i := 0;
      while i < Cols
        invariant 0 <= i <= Cols
        invariant forall c :: 0 <= c < i ==> b[c] == Balance(lines[..k], c) + Vote(line[c])
        invariant forall c :: i <= c < Cols ==> b[c] == Balance(lines[..k], c)
      {
        if line[i] == '0' {
          b[i] := b[i] - 1;
        } else {
          b[i] := b[i] + 1;
        }
        i := i + 1;
      }
      assert lines[..k + 1][..k] == lines[..k];
      k := k + 1;
    }
    assert lines[..k] == lines;
    return Some(b);
  }

  /** The shift loop of `main` over the twelve counters. */
  method Gamma(buff: array<int>) returns (gamma: nat)
    requires buff.Length == Cols
    ensures gamma == GammaOf(buff[..])
  {
    gamma := 0;
    var i := 0;
    while i < Cols
      invariant 0 <= i <= Cols
      invariant gamma == GammaOf(buff[..i])
    {
      assert buff[..i + 1][..i] == buff[..i];
      // gamma <<= 1; gamma |= buff[i] > 0: the new bit fills the cleared low bit
      gamma := gamma * 2 + (if buff[i] > 0 then 1 else 0);
      i := i + 1;
    }
    assert buff[..i] == buff[..];
  }

  /** Gamma read from twelve counters, each the balance of its column, times
    * its twelve bits flipped, is the power consumption of the lines. */
  lemma PowerOf(lines: seq<string>, b: seq<int>, gamma: nat)
    requires forall k :: 0 <= k < |lines| ==> ValidLine(lines[k])
    requires |b| == Cols && forall c :: 0 <= c < Cols ==> b[c] == Balance(lines, c)
    requires gamma == GammaOf(b)
    ensures gamma == GammaOf(Balances(lines))
    ensures Complement(gamma, Cols) == 4095 - gamma
  {
    assert b == Balances(lines);
    Pow2Cols();
    ComplementValue(gamma, Cols);
  }

  lemma Pow2Cols()
    ensures Pow2(Cols) == 4096
  {
  }

  lemma SameProduct(a: int, b: int, c: int, d: int)
    requires a == c && b == d
    ensures a * b == c * d
  {
  }

  /** `main`: the product of gamma and `eps = ~gamma & 4095`, or `None` where
    * the program exits on a bad character. */
  method PowerConsumption(lines: seq<string>) returns (r: Option<int>)
    ensures r.None? <==> exists k :: 0 <= k < |lines| && !ValidLine(lines[k])
    ensures r.Some? ==> r.value == GammaOf(Balances(lines)) * (4095 - GammaOf(Balances(lines)))
  {
    var buff := CountColumns(lines);
    if buff.None? {
      return None;
    }
    var p := PowerFrom(lines, buff.value);
    r := Some(p);
  }

  /** The tail of `main`: gamma from the twelve counters, `eps` its bits
    * flipped, and their product. */
  method PowerFrom(ghost lines: seq<string>, buff: array<int>) returns (p: int)
    requires forall k :: 0 <= k < |lines| ==> ValidLine(lines[k])
    requires buff.Length == Cols && forall c :: 0 <= c < Cols ==> buff[c] == Balance(lines, c)
    ensures p == GammaOf(Balances(lines)) * (4095 - GammaOf(Balances(lines)))
  {
    var gamma := Gamma(buff);
    PowerOf(lines, buff[..], gamma);
    var eps := Complement(gamma, Cols);
    SameProduct(gamma, eps, GammaOf(Balances(lines)), 4095 - GammaOf(Balances(lines)));
    p := gamma * eps;
  }
}
