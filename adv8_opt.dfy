/** The seven-segment identity search (adv-8-rs/opt/main.c): for every set of
  * two or more of the ten digits, XOR their segment patterns and report the
  * sets whose XOR is itself the pattern of a digit. A set of digits is the
  * unsigned integer `dig_combo`, bit `i` standing for digit `i`. */
module Adv8Opt {
  import opened Common

  /** Segment bits A..G. */
  const A: bv16 := 0x01
  const B: bv16 := 0x02
  const C: bv16 := 0x04
  const D: bv16 := 0x08
  const E: bv16 := 0x10
  const F: bv16 := 0x20
  const G: bv16 := 0x40

  /** `digits`: the lit segments of each digit. */
  const Digits: seq<bv16> := [
    A | B | C | E | F | G,
    C | F,
    A | C | D | E | G,
    A | C | D | F | G,
    B | C | D | F,
    A | B | D | F | G,
    A | B | D | E | F | G,
    A | C | F,
    A | B | C | D | E | F | G,
    A | B | C | D | F | G
  ]

  /** No two digits share a pattern, and every pattern is a non-empty 7-bit value. */
  lemma DigitsDistinct()
    ensures |Digits| == 10
    ensures forall i, j :: 0 <= i < j < 10 ==> Digits[i] != Digits[j]
    ensures forall i :: 0 <= i < 10 ==> 0 < Digits[i] < 128
  {
  }

  /** The accumulator after considering digit `i`: toggled by its pattern
    * when the digit is selected. */
  function Toggle(acc: bv16, selected: bool, i: nat): bv16
    requires i < 10
  {
    if selected then acc ^ Digits[i] else acc
  }

  /** The XOR of the patterns of the digits below `n` that `combo` selects. */
  function XorOf(combo: nat, n: nat): bv16
    requires n <= 10
  {
    if n == 0 then 0 else Toggle(XorOf(combo, n - 1), BitSet(combo, n - 1), n - 1)
  }

  /** A single digit XORs to its own pattern: singletons are trivial
    * identities, which is why the search skips them. */
  lemma {:induction false} XorOfSingle(k: nat, n: nat)
    requires k < 10 && n <= 10
    ensures XorOf(Pow2(k), n) == if k < n then Digits[k] else 0
  {
    if n > 0 {
      XorOfSingle(k, n - 1);
      BitSetPow2(k, n - 1);
    }
  }

  /** A power of two, written without exponents. */
  predicate IsPow2(c: nat)
  {
    c == 1 || (c > 1 && c % 2 == 0 && IsPow2(c / 2))
  }

  /** The skip test `!(c & (c - 1))`: for a positive `c` it holds exactly when
    * `c` is a power of two. */
  predicate Single(c: nat)
    requires c > 0
  {
    BitAnd(c, c - 1) == 0
  }

  lemma {:induction false} SingleIsPow2(c: nat)
    requires c > 0
    ensures Single(c) <==> IsPow2(c)
  {
    if c % 2 == 1 {
      BitAndSelf(c / 2);
      assert BitAnd(c, c - 1) == 2 * (c / 2);
    } else {
      SingleIsPow2(c / 2);
      assert (c - 1) / 2 == c / 2 - 1;
    }
  }

  lemma {:induction false} Pow2IsPow2(k: nat)
    ensures IsPow2(Pow2(k))
  {
    if k > 0 {
      Pow2IsPow2(k - 1);
    }
  }

  /** A power of two below `Pow2(n)` is `Pow2(k)` for some `k < n`. */
  lemma {:induction false} IsPow2Below(c: nat, n: nat) returns (k: nat)
    requires IsPow2(c) && c < Pow2(n)
    ensures k < n && c == Pow2(k)
  {
    if c == 1 {
      k := 0;
    } else {
      var k' := IsPow2Below(c / 2, n - 1);
      k := k' + 1;
    }
  }

  /** For `c` in 1..1023 the skip test holds exactly when `c` selects a
    * single digit. */
  lemma SingleMeansOneDigit(c: nat)
    requires 0 < c < 1024
    ensures Single(c) <==> exists k :: 0 <= k < 10 && c == Pow2(k)
  {
    SingleIsPow2(c);
    assert Pow2(10) == 1024;
    if Single(c) {
      var k := IsPow2Below(c, 10);
    } else {
      forall k | 0 <= k < 10
        ensures c != Pow2(k)
      {
        Pow2IsPow2(k);
      }
    }
  }

  /** `c & (2^n - 1)` keeps the low `n` bits. */
  lemma {:induction false} BitAndLowMask(c: nat, n: nat)
    ensures BitAnd(c, Pow2(n) - 1) == c % Pow2(n)
  {
    var mask := Pow2(n) - 1;
    if n == 0 {
      assert mask == 0;
    } else if c == 0 {
      ModUnique(0, Pow2(n), 0, 0);
    } else {
      var p := Pow2(n - 1);
      assert Pow2(n) == 2 * p;
      assert mask / 2 == p - 1 && mask % 2 == 1;
      calc {
        BitAnd(c, mask);
        2 * BitAnd(c / 2, p - 1) + c % 2;
        { BitAndLowMask(c / 2, n - 1); }
        2 * ((c / 2) % p) + c % 2;
        { HalfMod(c, p); }
        c % (2 * p);
      }
    }
  }

  /** Remainder modulo `2p` from the remainder of the half modulo `p`. */
  lemma HalfMod(c: nat, p: nat)
    requires p > 0
    ensures c % (2 * p) == 2 * ((c / 2) % p) + c % 2
  {
    var q, r := (c / 2) / p, (c / 2) % p;
    var m := p * q;
    assert c == 2 * m + (2 * r + c % 2);
    assert 2 * m == (2 * p) * q;
    ModUnique(c, 2 * p, q, 2 * r + c % 2);
  }

  /** The outer loop guard `dig_combo & ((1 << 10) - 1)`: for values up to
    * 1024 it is non-zero exactly below 1024. */
  lemma GuardMeansBelow(c: nat)
    requires 0 < c <= 1024
    ensures (BitAnd(c, 1023) != 0) <==> c < 1024
  {
    assert Pow2(10) == 1024;
    BitAndLowMask(c, 10);
    if c < 1024 {
      ModUnique(c, 1024, 0, c);
    } else {
      ModUnique(c, 1024, 1, 0);
    }
  }

  /** The inner XOR loop: `tmp` is `dig_combo >> i`, whose low bit picks digit `i`. */
  method XorSum(combo: nat) returns (base: bv16)
    ensures base == XorOf(combo, 10)
  {
    var tmp := combo;
    base := 0;
    for i := 0 to 10
      invariant tmp == Shr(combo, i)
      invariant base == XorOf(combo, i)
    {
      BitSetShr(combo, i);
      if tmp % 2 == 1 {
        base := base ^ Digits[i];
      }
      tmp := tmp / 2;
    }
  }

  /** The first digit whose pattern is `base`, if any. */
  function Match(base: bv16): (r: Option<nat>)
    ensures r.Some? ==> r.value < 10 && Digits[r.value] == base
    ensures r.Some? ==> forall j :: 0 <= j < r.value ==> Digits[j] != base
    ensures r.None? ==> forall j :: 0 <= j < 10 ==> Digits[j] != base
  {
    MatchFrom(base, 0)
  }

  function MatchFrom(base: bv16, i: nat): (r: Option<nat>)
    requires i <= 10
    ensures r.Some? ==> i <= r.value < 10 && Digits[r.value] == base
    ensures r.Some? ==> forall j :: i <= j < r.value ==> Digits[j] != base
    ensures r.None? ==> forall j :: i <= j < 10 ==> Digits[j] != base
    decreases 10 - i
  {
    if i == 10 then None else if Digits[i] == base then Some(i) else MatchFrom(base, i + 1)
  }

  /** The "check digits" loop: it stops at the first digit equal to `base`. */
  method FirstMatch(base: bv16) returns (r: Option<nat>)
    ensures r == Match(base)
  {
    DigitsDistinct();
    for i := 0 to 10
      invariant forall j :: 0 <= j < i ==> Digits[j] != base
    {
      if base == Digits[i] {
        return Some(i);
      }
    }
    return None;
  }

  /** A reported line: a combination of digits and the digit its XOR equals. */
  datatype Identity = Identity(combo: nat, digit: nat)

  /** The combinations `main` reports. */
  predicate Reported(c: nat)
  {
    0 < c < 1024 && !Single(c) && Match(XorOf(c, 10)).Some?
  }

  /** One round of the outer loop: skip singletons, XOR, look the result up. */
  method Check(dig_combo: nat) returns (m: Option<nat>)
    requires 0 < dig_combo < 1024
    ensures m.Some? <==> Reported(dig_combo)
    ensures m.Some? ==> m == Match(XorOf(dig_combo, 10))
  {
    if Single(dig_combo) {
      return None;
    }
    var base := XorSum(dig_combo);
    m := FirstMatch(base);
  }

  /** The digit reported for a combination: the first one its XOR equals. */
  function DigitOf(c: nat): nat
  {
    var m := Match(XorOf(c, 10));
    if m.Some? then m.value else 0
  }

  /** The lines for the combinations below `n` that `keep` selects, in order. */
  function Collect(n: nat, keep: nat -> bool, digit: nat -> nat): seq<Identity>
  {
    if n == 0 then []
    else Collect(n - 1, keep, digit) + (if keep(n - 1) then [Identity(n - 1, digit(n - 1))] else [])
  }

  /** `main`: one line per reported combination, in increasing order, each
    * naming the first digit the combination's XOR equals. */
  method Search() returns (out: seq<Identity>)
    ensures forall k :: 0 <= k < |out| ==>
      Reported(out[k].combo) && Match(XorOf(out[k].combo, 10)) == Some(out[k].digit)
    ensures forall c: nat :: Reported(c) ==> exists k :: 0 <= k < |out| && out[k].combo == c
    ensures forall k, l :: 0 <= k < l < |out| ==> out[k].combo < out[l].combo
  {
    out := [];
    var dig_combo: nat := 1;
    GuardMeansBelow(dig_combo);
    while BitAnd(dig_combo, 1023) != 0
      invariant 1 <= dig_combo <= 1024
      invariant (BitAnd(dig_combo, 1023) != 0) <==> dig_combo < 1024
      invariant out == Collect(dig_combo, Reported, DigitOf)
      decreases 1024 - dig_combo
    {
      var m := Check(dig_combo);
      if m.Some? {
        out := out + [Identity(dig_combo, m.value)];
      }
      dig_combo := dig_combo + 1;
      GuardMeansBelow(dig_combo);
    }
    CollectExactly(dig_combo, Reported, DigitOf);
  }

  /** The collected lines are exactly the selected combinations, each once,
    * in increasing order, each with its digit. */
  lemma {:induction false} CollectExactly(n: nat, keep: nat -> bool, digit: nat -> nat)
    ensures forall k :: 0 <= k < |Collect(n, keep, digit)| ==>
      var x := Collect(n, keep, digit)[k]; x.combo < n && keep(x.combo) && x.digit == digit(x.combo)
    ensures forall c: nat :: c < n && keep(c) ==>
      exists k :: 0 <= k < |Collect(n, keep, digit)| && Collect(n, keep, digit)[k].combo == c
    ensures forall k, l :: 0 <= k < l < |Collect(n, keep, digit)| ==>
      Collect(n, keep, digit)[k].combo < Collect(n, keep, digit)[l].combo
  {
    if n > 0 {
      CollectExactly(n - 1, keep, digit);
      var prev, r := Collect(n - 1, keep, digit), Collect(n, keep, digit);
      var last := Identity(n - 1, digit(n - 1));
      assert r == prev + (if keep(n - 1) then [last] else []);
      assert forall k :: 0 <= k < |prev| ==> r[k] == prev[k];
      assert forall k :: |prev| <= k < |r| ==> r[k] == last && keep(n - 1);
      forall k, l | 0 <= k < l < |r|
        ensures r[k].combo < r[l].combo
      {
        if l >= |prev| {
          assert r[k] == prev[k];
        }
      }
      forall c: nat | c < n && keep(c)
        ensures exists k :: 0 <= k < |r| && r[k].combo == c
      {
        if c == n - 1 {
          assert r[|r| - 1].combo == c;
        } else {
          var k :| 0 <= k < |prev| && prev[k].combo == c;
          assert r[k].combo == c;
        }
      }
    }
  }

  /** Every reported identity is a genuine one: the selected digits' patterns
    * XOR to the reported digit's pattern, and more than one digit is selected. */
  lemma ReportedIsIdentity(c: nat)
    requires Reported(c)
    ensures Digits[Match(XorOf(c, 10)).value] == XorOf(c, 10)
    ensures forall k :: 0 <= k < 10 ==> c != Pow2(k)
  {
    SingleMeansOneDigit(c);
  }

  /** The digits `combo` selects below `n`, in ascending order. */
  function SetBits(combo: nat, n: nat): (r: seq<nat>)
    ensures forall k :: 0 <= k < |r| ==> r[k] < n && BitSet(combo, r[k])
    ensures forall i :: 0 <= i < n && BitSet(combo, i) ==> i in r
    ensures forall k, l :: 0 <= k < l < |r| ==> r[k] < r[l]
  {
    if n == 0 then [] else SetBits(combo, n - 1) + (if BitSet(combo, n - 1) then [n - 1] else [])
  }

  /** Digits as characters, separated by " ^ ". */
  function Joined(ds: seq<nat>): string
  {
    if ds == [] then [] else if |ds| == 1 then [Digit(ds[0])] else Joined(ds[..|ds| - 1]) + " ^ " + [Digit(ds[|ds| - 1])]
  }

  lemma JoinedSnoc(ds: seq<nat>, d: nat)
    ensures Joined(ds + [d]) == if ds == [] then [Digit(d)] else Joined(ds) + " ^ " + [Digit(d)]
  {
    assert (ds + [d])[..|ds|] == ds;
  }

  function Digit(d: nat): char
  {
    if d < 10 then ('0' as int + d) as char else '?'
  }

  /** `print_digits`: the selected digits in ascending order, joined by " ^ ". */
  method PrintDigits(combo: nat) returns (s: string)
    ensures s == Joined(SetBits(combo, 10))
  {
    s := [];
    var had_last := false;
    var c := combo;
    for i := 0 to 10
      invariant c == Shr(combo, i)
      invariant had_last <==> SetBits(combo, i) != []
      invariant s == Joined(SetBits(combo, i))
    {
      BitSetShr(combo, i);
      if c % 2 == 1 {
        assert SetBits(combo, i + 1) == SetBits(combo, i) + [i];
        JoinedSnoc(SetBits(combo, i), i);
        if had_last {
          s := s + " ^ ";
        } else {
          assert SetBits(combo, i) == [];
        }
        had_last := true;
        s := s + [Digit(i)];
      } else {
        assert SetBits(combo, i + 1) == SetBits(combo, i);
      }
      c := c / 2;
    }
  }
}
