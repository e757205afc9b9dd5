/** Seven-segment search (adv-8-rs): every display shows the ten digits with
  * its segment wires scrambled. Each pattern is a `LetterSet`, a bit set over
  * the letters a..g (bit 0 = a). `get_true_digits` identifies the ten
  * patterns from letter counts, unions and XORs. */
module Adv8 {
  import opened Common

  /** `LetterSet`: the letters as the bits of an unsigned integer. */
  datatype LetterSet = LetterSet(inner: nat)

  /** `letter_cnt`: `count_ones`, which is 0 only for the empty set. */
  function LetterCnt(s: LetterSet): (r: nat)
    ensures r == 0 <==> s.inner == 0
  {
    PopCountZero(s.inner);
    PopCount(s.inner)
  }

  lemma {:induction false} PopCountZero(a: nat)
    ensures PopCount(a) == 0 <==> a == 0
  {
    if a > 0 && a % 2 == 0 {
      PopCountZero(a / 2);
    }
  }

  function Or(a: LetterSet, b: LetterSet): LetterSet
  {
    LetterSet(BitOr(a.inner, b.inner))
  }

  function And(a: LetterSet, b: LetterSet): LetterSet
  {
    LetterSet(BitAnd(a.inner, b.inner))
  }

  function Xor(a: LetterSet, b: LetterSet): LetterSet
  {
    LetterSet(BitXor(a.inner, b.inner))
  }

  // ---- the operators act bit by bit ------------------------------------------

  lemma {:induction false} OrBits(a: nat, b: nat, k: nat)
    ensures BitSet(BitOr(a, b), k) <==> BitSet(a, k) || BitSet(b, k)
  {
    if a == 0 {
      BitSetZero(k);
    } else if b == 0 {
      BitSetZero(k);
    } else if k > 0 {
      OrBits(a / 2, b / 2, k - 1);
    }
  }

  lemma {:induction false} AndBits(a: nat, b: nat, k: nat)
    ensures BitSet(BitAnd(a, b), k) <==> BitSet(a, k) && BitSet(b, k)
  {
    if a == 0 || b == 0 {
      BitSetZero(k);
    } else if k > 0 {
      AndBits(a / 2, b / 2, k - 1);
    }
  }

  lemma {:induction false} XorBits(a: nat, b: nat, k: nat)
    ensures BitSet(BitXor(a, b), k) <==> BitSet(a, k) != BitSet(b, k)
  {
    if a == 0 {
      BitSetZero(k);
    } else if b == 0 {
      BitSetZero(k);
    } else if k > 0 {
      XorBits(a / 2, b / 2, k - 1);
    }
  }

  /** Letters in either set, counted: the union and the intersection together
    * count every letter of both sets. */
  lemma {:induction false} CountUnion(a: nat, b: nat)
    ensures PopCount(BitOr(a, b)) + PopCount(BitAnd(a, b)) == PopCount(a) + PopCount(b)
  {
    if a == 0 || b == 0 {
      assert BitAnd(a, b) == 0 && BitOr(a, b) == a + b;
    } else {
      CountUnion(a / 2, b / 2);
      PopCountStep(BitOr(a / 2, b / 2), if a % 2 == 1 || b % 2 == 1 then 1 else 0);
      PopCountStep(BitAnd(a / 2, b / 2), if a % 2 == 1 && b % 2 == 1 then 1 else 0);
      assert PopCount(a) + PopCount(b) == a % 2 + b % 2 + PopCount(a / 2) + PopCount(b / 2);
    }
  }

  /** Shifting a bit in adds it to the count. */
  lemma PopCountStep(x: nat, bit: nat)
    requires bit < 2
    ensures PopCount(2 * x + bit) == PopCount(x) + bit
  {
    assert (2 * x + bit) / 2 == x;
  }

  /** The XOR holds the letters of exactly one of the sets. */
  lemma {:induction false} CountXor(a: nat, b: nat)
    ensures PopCount(BitXor(a, b)) + 2 * PopCount(BitAnd(a, b)) == PopCount(a) + PopCount(b)
  {
    if a == 0 || b == 0 {
      assert BitAnd(a, b) == 0 && BitXor(a, b) == a + b;
    } else {
      CountXor(a / 2, b / 2);
      PopCountStep(BitXor(a / 2, b / 2), if a % 2 != b % 2 then 1 else 0);
      PopCountStep(BitAnd(a / 2, b / 2), if a % 2 == 1 && b % 2 == 1 then 1 else 0);
    }
  }

  // ---- parsing ------------------------------------------------------------------

  /** The set of one letter a..g; any other character has none (the source panics). */
  function Letter(c: char): Option<LetterSet>
  {
    if 'a' <= c <= 'g' then Some(LetterSet(Pow2(c as int - 'a' as int))) else None
  }

  /** One token folded into a set: the union of its letters. */
  function Token(e: string): (r: Option<LetterSet>)
  {
    if e == [] then Some(LetterSet(0))
    else
      match (Token(e[..|e| - 1]), Letter(e[|e| - 1]))
      case (Some(acc), Some(l)) => Some(Or(acc, l))
      case _ => None
  }

  /** A token parses iff it only holds letters a..g, and then letter `k` is in
    * the set iff it occurs in the token. */
  lemma {:induction false} TokenLetters(e: string)
    ensures Token(e).Some? <==> forall i :: 0 <= i < |e| ==> 'a' <= e[i] <= 'g'
    ensures Token(e).Some? ==> Token(e).value.inner < 128
    ensures Token(e).Some? ==> forall k: nat :: k < 7 ==>
      (BitSet(Token(e).value.inner, k) <==> ('a' as int + k) as char in e)
  {
    if e == [] {
      forall k: nat { BitSetZero(k); }
    } else {
      var init, c := e[..|e| - 1], e[|e| - 1];
      assert e == init + [c];
      TokenLetters(init);
      if Token(e).Some? {
        TokenSnoc(init, c);
      }
    }
  }

  /** One more letter in a token: its bit joins the set, which stays below
    * `2^7`. */
  lemma TokenSnoc(init: string, c: char)
    requires Token(init).Some? && 'a' <= c <= 'g'
    requires Token(init).value.inner < 128
    requires forall k: nat :: k < 7 ==> (BitSet(Token(init).value.inner, k) <==> ('a' as int + k) as char in init)
    ensures Token(init + [c]).Some? && Token(init + [c]).value.inner < 128
    ensures forall k: nat :: k < 7 ==> (BitSet(Token(init + [c]).value.inner, k) <==> ('a' as int + k) as char in init + [c])
  {
    var e := init + [c];
    assert e[..|e| - 1] == init;
    var acc, l := Token(init).value.inner, Letter(c).value.inner;
    var k0: nat := c as int - 'a' as int;
    LetterBelow(k0);
    OrBelow(acc, l, 7);
    assert Token(e).value.inner == BitOr(acc, l);
    forall k: nat | k < 7
      ensures BitSet(BitOr(acc, l), k) <==> ('a' as int + k) as char in e
    {
      OrBits(acc, l, k);
      BitSetPow2(k0, k);
      var ch := ('a' as int + k) as char;
      assert ch in e <==> ch in init || ch == c;
      assert ch == c <==> k == k0;
    }
  }

  /** The bit of a letter lies below `2^7`. */
  lemma LetterBelow(k0: nat)
    requires k0 < 7
    ensures Pow2(k0) < Pow2(7) == 128
  {
    assert Pow2(0) == 1 && Pow2(1) == 2 && Pow2(2) == 4 && Pow2(3) == 8;
    assert Pow2(4) == 16 && Pow2(5) == 32 && Pow2(6) == 64;
  }

  /** The union of two values below `2^n` is below `2^n`. */
  lemma {:induction false} OrBelow(a: nat, b: nat, n: nat)
    requires a < Pow2(n) && b < Pow2(n)
    ensures BitOr(a, b) < Pow2(n)
  {
    if a != 0 && b != 0 {
      OrBelow(a / 2, b / 2, n - 1);
    }
  }

  /** The whitespace-separated tokens of a line (the `\S+` matches). */
  function Words(line: string): seq<string>
  {
    WordsFrom(line, [])
  }

  predicate Space(c: char)
  {
    c == ' ' || c == '\t' || c == '\n' || c == '\U{B}' || c == '\U{C}' || c == '\r'
  }

  /** Tokens of `rest`, `cur` being the token being read. */
  function WordsFrom(rest: string, cur: string): (r: seq<string>)
    ensures forall w :: w in r ==> w != [] && forall i :: 0 <= i < |w| ==> !Space(w[i])
    requires forall i :: 0 <= i < |cur| ==> !Space(cur[i])
    decreases |rest|
  {
    if rest == [] then (if cur == [] then [] else [cur])
    else if Space(rest[0]) then (if cur == [] then [] else [cur]) + WordsFrom(rest[1..], [])
    else WordsFrom(rest[1..], cur + [rest[0]])
  }

  /** `read_data` for one line: every token but "|" becomes a set; `None` when a
    * token holds another character. */
  function ParseLine(line: string): Option<seq<LetterSet>>
  {
    ParseTokens(Words(line))
  }

  function ParseTokens(ws: seq<string>): (r: Option<seq<LetterSet>>)
    ensures r.Some? ==> |r.value| == |ws| - CountBars(ws)
  {
    if ws == [] then Some([])
    else if ws[0] == "|" then ParseTokens(ws[1..])
    else
      match (Token(ws[0]), ParseTokens(ws[1..]))
      case (Some(s), Some(rest)) => Some([s] + rest)
      case _ => None
  }

  /** A line parses iff every token other than "|" holds only letters a..g. */
  lemma {:induction false} ParseTokensDefined(ws: seq<string>)
    ensures ParseTokens(ws).Some? <==> forall i :: 0 <= i < |ws| && ws[i] != "|" ==> Token(ws[i]).Some?
  {
    if ws != [] {
      ParseTokensDefined(ws[1..]);
      assert forall i :: 1 <= i < |ws| ==> ws[i] == ws[1..][i - 1];
    }
  }

  function CountBars(ws: seq<string>): nat
  {
    if ws == [] then 0 else (if ws[0] == "|" then 1 else 0) + CountBars(ws[1..])
  }

  // ---- the standard display ---------------------------------------------------

  /** The patterns of 0..9 with the wires in place: a=1, b=2, ..., g=64. */
  const Std: seq<LetterSet> := [
    LetterSet(119), LetterSet(36), LetterSet(93), LetterSet(109), LetterSet(46),
    LetterSet(107), LetterSet(123), LetterSet(37), LetterSet(127), LetterSet(111)
  ]

  const Full := LetterSet(127)

  /** The last pattern of `ds` with property `p`, or `dflt` if none: what a
    * loop that overwrites one slot on every match leaves behind. */
  function Last(ds: seq<LetterSet>, p: LetterSet -> bool, dflt: LetterSet): LetterSet
  {
    if ds == [] then dflt
    else if p(ds[|ds| - 1]) then ds[|ds| - 1]
    else Last(ds[..|ds| - 1], p, dflt)
  }

  /** When exactly one pattern value has the property, `Last` finds it. */
  lemma {:induction false} LastUnique(ds: seq<LetterSet>, p: LetterSet -> bool, dflt: LetterSet, x: LetterSet)
    requires x in ds && p(x)
    requires forall y :: y in ds && p(y) ==> y == x
    ensures Last(ds, p, dflt) == x
  {
    var init := ds[..|ds| - 1];
    if !p(ds[|ds| - 1]) {
      assert x in init by {
        var i :| 0 <= i < |ds| && ds[i] == x;
        assert i < |ds| - 1;
        assert init[i] == x;
      }
      forall y | y in init && p(y)
        ensures y == x
      {
        assert y in ds;
      }
      LastUnique(init, p, dflt, x);
    }
  }

  /** One more element for `Last` to look at. */
  lemma LastSnoc(ds: seq<LetterSet>, i: nat, p: LetterSet -> bool, dflt: LetterSet)
    requires i < |ds|
    ensures Last(ds[..i + 1], p, dflt) == if p(ds[i]) then ds[i] else Last(ds[..i], p, dflt)
  {
    assert ds[..i + 1][..i] == ds[..i];
  }

  predicate HasCount(n: nat, d: LetterSet)
  {
    LetterCnt(d) == n
  }

  function CountIs(n: nat): LetterSet -> bool
  {
    d => HasCount(n, d)
  }

  /** The choice of digit 6: not all segments, but all of them together with 1. */
  predicate IsSix(one: LetterSet, d: LetterSet)
  {
    d != Full && Or(d, one) == Full
  }

  function SixOf(one: LetterSet): LetterSet -> bool
  {
    d => IsSix(one, d)
  }

  /** The choice of digit 3: neither 8 nor 6, and three segments away from 1. */
  predicate IsThree(one: LetterSet, d: LetterSet)
  {
    d != Full && Or(d, one) != Full && LetterCnt(Xor(d, one)) == 3
  }

  function ThreeOf(one: LetterSet): LetterSet -> bool
  {
    d => IsThree(one, d)
  }

  const Blank := LetterSet(0)

  /** What `get_true_digits` computes, slot by slot. */
  function TrueDigits(ds: seq<LetterSet>): (r: seq<LetterSet>)
    ensures |r| == 10
  {
    var one := Last(ds, CountIs(2), Blank);
    Table(one, Last(ds, ThreeOf(one), Blank), Last(ds, CountIs(4), Blank),
          Last(ds, SixOf(one), Blank), Last(ds, CountIs(3), Blank))
  }

  /** The table once 1, 3, 4, 6, 7 are known. */
  function Table(one: LetterSet, three: LetterSet, four: LetterSet, six: LetterSet, seven: LetterSet): (r: seq<LetterSet>)
  {
    var nine := Or(three, four);
    var two := Xor(Xor(Xor(one, three), six), nine);
    var five := Xor(Xor(Xor(one, two), three), Full);
    var zero := Xor(Xor(Xor(two, four), six), Full);
    [zero, one, two, three, four, five, six, seven, Full, nine]
  }

  /** A ten-slot table whose derived slots follow the rules is the `Table`
    * of its slots 1, 3, 4, 6, 7. */
  lemma TableIs(r: seq<LetterSet>)
    requires |r| == 10 && r[8] == Full && r[9] == Or(r[3], r[4])
    requires r[2] == Xor(Xor(Xor(r[1], r[3]), r[6]), r[9])
    requires r[5] == Xor(Xor(Xor(r[1], r[2]), r[3]), r[8])
    requires r[0] == Xor(Xor(Xor(r[2], r[4]), r[6]), r[8])
    ensures r == Table(r[1], r[3], r[4], r[6], r[7])
  {
  }

  /** `get_true_digits`: two passes over the ten patterns filling the table. */
  method GetTrueDigits(digits: seq<LetterSet>) returns (r: seq<LetterSet>)
    ensures r == TrueDigits(digits)
  {
    var ret := new LetterSet[10](_ => Blank);
    ret[8] := Full;
    CountPass(digits, ret);
    OnePass(digits, ret);
    ret[9] := Or(ret[3], ret[4]);
    ret[2] := Xor(Xor(Xor(ret[1], ret[3]), ret[6]), ret[9]);
    ret[5] := Xor(Xor(Xor(ret[1], ret[2]), ret[3]), ret[8]);
    ret[0] := Xor(Xor(Xor(ret[2], ret[4]), ret[6]), ret[8]);
    r := ret[..];
    TableIs(r);
  }

  /** The first pass of `get_true_digits`: 1, 4 and 7 are the last patterns
    * with two, four and three segments. */
  method CountPass(digits: seq<LetterSet>, ret: array<LetterSet>)
    requires ret.Length == 10 && ret[1] == Blank && ret[4] == Blank && ret[7] == Blank
    modifies ret
    ensures ret[1] == Last(digits, CountIs(2), Blank)
    ensures ret[4] == Last(digits, CountIs(4), Blank)
    ensures ret[7] == Last(digits, CountIs(3), Blank)
    ensures forall k :: 0 <= k < 10 && k != 1 && k != 4 && k != 7 ==> ret[k] == old(ret[k])
  {
    for i := 0 to |digits|
      invariant ret[1] == Last(digits[..i], CountIs(2), Blank)
      invariant ret[4] == Last(digits[..i], CountIs(4), Blank)
      invariant ret[7] == Last(digits[..i], CountIs(3), Blank)
      invariant forall k :: 0 <= k < 10 && k != 1 && k != 4 && k != 7 ==> ret[k] == old(ret[k])
    {
      var d := digits[i];
      LastSnoc(digits, i, CountIs(2), Blank);
      LastSnoc(digits, i, CountIs(4), Blank);
      LastSnoc(digits, i, CountIs(3), Blank);
      var cnt := LetterCnt(d);
      if cnt == 2 {
        ret[1] := d;
      } else if cnt == 4 {
        ret[4] := d;
      } else if cnt == 3 {
        ret[7] := d;
      }
    }
    assert digits[..|digits|] == digits;
  }

  /** The second pass of `get_true_digits`: with 1 known, 6 and 3 are the
    * last patterns that complete it to 8 and that differ from it in three
    * segments. */
  method OnePass(digits: seq<LetterSet>, ret: array<LetterSet>)
    requires ret.Length == 10 && ret[6] == Blank && ret[3] == Blank
    modifies ret
    ensures ret[6] == Last(digits, SixOf(old(ret[1])), Blank)
    ensures ret[3] == Last(digits, ThreeOf(old(ret[1])), Blank)
    ensures forall k :: 0 <= k < 10 && k != 6 && k != 3 ==> ret[k] == old(ret[k])
  {
    ghost var one := ret[1];
    for i := 0 to |digits|
      invariant ret[6] == Last(digits[..i], SixOf(one), Blank)
      invariant ret[3] == Last(digits[..i], ThreeOf(one), Blank)
      invariant forall k :: 0 <= k < 10 && k != 6 && k != 3 ==> ret[k] == old(ret[k])
    {
      var d := digits[i];
      LastSnoc(digits, i, SixOf(one), Blank);
      LastSnoc(digits, i, ThreeOf(one), Blank);
      if d == Full {
      } else if Or(d, ret[1]) == Full {
        ret[6] := d;
      } else if LetterCnt(Xor(d, ret[1])) == 3 {
        ret[3] := d;
      }
    }
    assert digits[..|digits|] == digits;
  }

  // ---- the identification is right on an unscrambled display ----------------

  /** Letter counts of the standard patterns of digits 0-4. */
  lemma StdCountsLow()
    ensures PopCount(119) == 6 && PopCount(36) == 2 && PopCount(93) == 5 && PopCount(109) == 5 && PopCount(46) == 4
  {
    assert PopCount(1) == 1;
    assert PopCount(3) == 2;
    assert PopCount(7) == 3;
    assert PopCount(14) == 3;
    assert PopCount(29) == 4;
    assert PopCount(59) == 5;
    assert PopCount(2) == 1;
    assert PopCount(4) == 1;
    assert PopCount(9) == 2;
    assert PopCount(18) == 2;
    assert PopCount(5) == 2;
    assert PopCount(11) == 3;
    assert PopCount(23) == 4;
    assert PopCount(6) == 2;
    assert PopCount(13) == 3;
    assert PopCount(27) == 4;
    assert PopCount(54) == 4;
  }

  /** Letter counts of the standard patterns of digits 5-9. */
  lemma StdCountsHigh()
    ensures PopCount(107) == 5 && PopCount(123) == 6 && PopCount(37) == 3 && PopCount(127) == 7 && PopCount(111) == 6
  {
    assert PopCount(1) == 1;
    assert PopCount(3) == 2;
    assert PopCount(6) == 2;
    assert PopCount(13) == 3;
    assert PopCount(26) == 3;
    assert PopCount(53) == 4;
    assert PopCount(7) == 3;
    assert PopCount(15) == 4;
    assert PopCount(30) == 4;
    assert PopCount(61) == 5;
    assert PopCount(2) == 1;
    assert PopCount(4) == 1;
    assert PopCount(9) == 2;
    assert PopCount(18) == 2;
    assert PopCount(31) == 5;
    assert PopCount(63) == 6;
    assert PopCount(27) == 4;
    assert PopCount(55) == 5;
  }

  /** Digits 0-4 XOR the pattern of 1. */
  lemma StdXorOneLow()
    ensures BitXor(119, 36) == 83 && BitXor(36, 36) == 0 && BitXor(93, 36) == 121 && BitXor(109, 36) == 73 && BitXor(46, 36) == 10
  {
    assert BitXor(3, 1) == 2;
    assert BitXor(7, 2) == 5;
    assert BitXor(14, 4) == 10;
    assert BitXor(29, 9) == 20;
    assert BitXor(59, 18) == 41;
    assert BitXor(1, 1) == 0;
    assert BitXor(2, 2) == 0;
    assert BitXor(4, 4) == 0;
    assert BitXor(9, 9) == 0;
    assert BitXor(18, 18) == 0;
    assert BitXor(2, 1) == 3;
    assert BitXor(5, 2) == 7;
    assert BitXor(11, 4) == 15;
    assert BitXor(23, 9) == 30;
    assert BitXor(46, 18) == 60;
    assert BitXor(6, 2) == 4;
    assert BitXor(13, 4) == 9;
    assert BitXor(27, 9) == 18;
    assert BitXor(54, 18) == 36;
    assert BitXor(5, 4) == 1;
    assert BitXor(11, 9) == 2;
    assert BitXor(23, 18) == 5;
  }

  /** Letter counts of digits 0-4 XOR the pattern of 1. */
  lemma XorOneCountsLow()
    ensures PopCount(83) == 4 && PopCount(0) == 0 && PopCount(121) == 5 && PopCount(73) == 3 && PopCount(10) == 2
  {
    assert PopCount(1) == 1;
    assert PopCount(2) == 1;
    assert PopCount(5) == 2;
    assert PopCount(20) == 2;
    assert PopCount(41) == 3;
    assert PopCount(3) == 2;
    assert PopCount(7) == 3;
    assert PopCount(15) == 4;
    assert PopCount(30) == 4;
    assert PopCount(60) == 4;
    assert PopCount(4) == 1;
    assert PopCount(9) == 2;
    assert PopCount(18) == 2;
    assert PopCount(36) == 2;
  }

  /** Digits 5-9 XOR the pattern of 1. */
  lemma StdXorOneHigh()
    ensures BitXor(107, 36) == 79 && BitXor(123, 36) == 95 && BitXor(37, 36) == 1 && BitXor(127, 36) == 91 && BitXor(111, 36) == 75
  {
    assert BitXor(3, 1) == 2;
    assert BitXor(6, 2) == 4;
    assert BitXor(13, 4) == 9;
    assert BitXor(26, 9) == 19;
    assert BitXor(53, 18) == 39;
    assert BitXor(7, 2) == 5;
    assert BitXor(15, 4) == 11;
    assert BitXor(30, 9) == 23;
    assert BitXor(61, 18) == 47;
    assert BitXor(1, 1) == 0;
    assert BitXor(2, 2) == 0;
    assert BitXor(4, 4) == 0;
    assert BitXor(9, 9) == 0;
    assert BitXor(18, 18) == 0;
    assert BitXor(31, 9) == 22;
    assert BitXor(63, 18) == 45;
    assert BitXor(27, 9) == 18;
    assert BitXor(55, 18) == 37;
  }

  /** Letter counts of digits 5-9 XOR the pattern of 1. */
  lemma XorOneCountsHigh()
    ensures PopCount(79) == 5 && PopCount(95) == 6 && PopCount(1) == 1 && PopCount(91) == 5 && PopCount(75) == 4
  {
    assert PopCount(2) == 1;
    assert PopCount(4) == 1;
    assert PopCount(9) == 2;
    assert PopCount(19) == 3;
    assert PopCount(39) == 4;
    assert PopCount(5) == 2;
    assert PopCount(11) == 3;
    assert PopCount(23) == 4;
    assert PopCount(47) == 5;
    assert PopCount(22) == 3;
    assert PopCount(45) == 4;
    assert PopCount(18) == 2;
    assert PopCount(37) == 3;
  }

  /** Slot 5 as 1 ^ 2 ^ 3 ^ 8, on the standard patterns. */
  lemma StdFive()
    ensures BitXor(36, 93) == 121 && BitXor(121, 109) == 20 && BitXor(20, 127) == 107
  {
    assert BitXor(1, 2) == 3;
    assert BitXor(2, 5) == 7;
    assert BitXor(4, 11) == 15;
    assert BitXor(9, 23) == 30;
    assert BitXor(18, 46) == 60;
    assert BitXor(1, 1) == 0;
    assert BitXor(3, 3) == 0;
    assert BitXor(7, 6) == 1;
    assert BitXor(15, 13) == 2;
    assert BitXor(30, 27) == 5;
    assert BitXor(60, 54) == 10;
    assert BitXor(1, 7) == 6;
    assert BitXor(2, 15) == 13;
    assert BitXor(5, 31) == 26;
    assert BitXor(10, 63) == 53;
  }

  /** Slot 0 as 2 ^ 4 ^ 6 ^ 8, on the standard patterns. */
  lemma StdZero()
    ensures BitXor(93, 46) == 115 && BitXor(115, 123) == 8 && BitXor(8, 127) == 119
  {
    assert BitXor(2, 1) == 3;
    assert BitXor(5, 2) == 7;
    assert BitXor(11, 5) == 14;
    assert BitXor(23, 11) == 28;
    assert BitXor(46, 23) == 57;
    assert BitXor(1, 1) == 0;
    assert BitXor(3, 3) == 0;
    assert BitXor(7, 7) == 0;
    assert BitXor(14, 15) == 1;
    assert BitXor(28, 30) == 2;
    assert BitXor(57, 61) == 4;
    assert BitXor(1, 15) == 14;
    assert BitXor(2, 31) == 29;
    assert BitXor(4, 63) == 59;
  }

  /** Digit 0 together with the pattern of 1. */
  lemma StdOrOne0()
    ensures BitOr(119, 36) == 119
  {
    assert BitOr(3, 1) == 3;
    assert BitOr(7, 2) == 7;
    assert BitOr(14, 4) == 14;
    assert BitOr(29, 9) == 29;
    assert BitOr(59, 18) == 59;
  }

  /** Digit 1 together with the pattern of 1. */
  lemma StdOrOne1()
    ensures BitOr(36, 36) == 36
  {
    assert BitOr(1, 1) == 1;
    assert BitOr(2, 2) == 2;
    assert BitOr(4, 4) == 4;
    assert BitOr(9, 9) == 9;
    assert BitOr(18, 18) == 18;
  }

  /** Digit 2 together with the pattern of 1. */
  lemma StdOrOne2()
    ensures BitOr(93, 36) == 125
  {
    assert BitOr(2, 1) == 3;
    assert BitOr(5, 2) == 7;
    assert BitOr(11, 4) == 15;
    assert BitOr(23, 9) == 31;
    assert BitOr(46, 18) == 62;
  }

  /** Digit 3 together with the pattern of 1. */
  lemma StdOrOne3()
    ensures BitOr(109, 36) == 109
  {
    assert BitOr(3, 1) == 3;
    assert BitOr(6, 2) == 6;
    assert BitOr(13, 4) == 13;
    assert BitOr(27, 9) == 27;
    assert BitOr(54, 18) == 54;
  }

  /** Digit 4 together with the pattern of 1. */
  lemma StdOrOne4()
    ensures BitOr(46, 36) == 46
  {
    assert BitOr(1, 1) == 1;
    assert BitOr(2, 2) == 2;
    assert BitOr(5, 4) == 5;
    assert BitOr(11, 9) == 11;
    assert BitOr(23, 18) == 23;
  }

  /** Digit 5 together with the pattern of 1. */
  lemma StdOrOne5()
    ensures BitOr(107, 36) == 111
  {
    assert BitOr(3, 1) == 3;
    assert BitOr(6, 2) == 6;
    assert BitOr(13, 4) == 13;
    assert BitOr(26, 9) == 27;
    assert BitOr(53, 18) == 55;
  }

  /** Digit 6 together with the pattern of 1. */
  lemma StdOrOne6()
    ensures BitOr(123, 36) == 127
  {
    assert BitOr(3, 1) == 3;
    assert BitOr(7, 2) == 7;
    assert BitOr(15, 4) == 15;
    assert BitOr(30, 9) == 31;
    assert BitOr(61, 18) == 63;
  }

  /** Digit 7 together with the pattern of 1. */
  lemma StdOrOne7()
    ensures BitOr(37, 36) == 37
  {
    assert BitOr(1, 1) == 1;
    assert BitOr(2, 2) == 2;
    assert BitOr(4, 4) == 4;
    assert BitOr(9, 9) == 9;
    assert BitOr(18, 18) == 18;
  }

  /** Digit 8 together with the pattern of 1. */
  lemma StdOrOne8()
    ensures BitOr(127, 36) == 127
  {
    assert BitOr(3, 1) == 3;
    assert BitOr(7, 2) == 7;
    assert BitOr(15, 4) == 15;
    assert BitOr(31, 9) == 31;
    assert BitOr(63, 18) == 63;
  }

  /** Digit 9 together with the pattern of 1. */
  lemma StdOrOne9()
    ensures BitOr(111, 36) == 111
  {
    assert BitOr(3, 1) == 3;
    assert BitOr(6, 2) == 6;
    assert BitOr(13, 4) == 13;
    assert BitOr(27, 9) == 27;
    assert BitOr(55, 18) == 55;
  }

  /** Slot 9 as 3 | 4 on the standard patterns. */
  lemma StdNine()
    ensures BitOr(109, 46) == 111
  {
    assert BitOr(3, 1) == 3;
    assert BitOr(6, 2) == 6;
    assert BitOr(13, 5) == 13;
    assert BitOr(27, 11) == 27;
    assert BitOr(54, 23) == 55;
  }

  /** Slot 2 as 1 ^ 3 ^ 6 ^ 9 on the standard patterns. */
  lemma StdTwo()
    ensures BitXor(36, 109) == 73 && BitXor(73, 123) == 50 && BitXor(50, 111) == 93
  {
    assert BitXor(1, 3) == 2;
    assert BitXor(2, 6) == 4;
    assert BitXor(4, 13) == 9;
    assert BitXor(9, 27) == 18;
    assert BitXor(18, 54) == 36;
    assert BitXor(1, 1) == 0;
    assert BitXor(2, 3) == 1;
    assert BitXor(4, 7) == 3;
    assert BitXor(9, 15) == 6;
    assert BitXor(18, 30) == 12;
    assert BitXor(36, 61) == 25;
    assert BitXor(3, 6) == 5;
    assert BitXor(6, 13) == 11;
    assert BitXor(12, 27) == 23;
    assert BitXor(25, 55) == 46;
  }

  /** Digits 1, 4, 7 and 8 are the only ones with 2, 4, 3 and 7 letters. */
  lemma {:induction false} UniqueCounts(i: nat)
    requires i < 10
    ensures LetterCnt(Std[i]) == 2 <==> i == 1
    ensures LetterCnt(Std[i]) == 4 <==> i == 4
    ensures LetterCnt(Std[i]) == 3 <==> i == 7
    ensures LetterCnt(Std[i]) == 7 <==> i == 8
  {
    StdCountsLow();
    StdCountsHigh();
  }

  /** With 1 known, 6 and 3 are the only matches of their rules. */
  lemma {:induction false} UniqueSixThree(i: nat)
    requires i < 10
    ensures IsSix(Std[1], Std[i]) <==> i == 6
    ensures IsThree(Std[1], Std[i]) <==> i == 3
  {
    StdOrOne0(); StdOrOne1(); StdOrOne2(); StdOrOne3(); StdOrOne4();
    StdOrOne5(); StdOrOne6(); StdOrOne7(); StdOrOne8(); StdOrOne9();
    StdXorOneLow();
    StdXorOneHigh();
    XorOneCountsLow();
    XorOneCountsHigh();
  }

  lemma SlotNine()
    ensures Or(Std[3], Std[4]) == Std[9]
  {
    StdNine();
  }

  lemma SlotTwo()
    ensures Xor(Xor(Xor(Std[1], Std[3]), Std[6]), Std[9]) == Std[2]
  {
    StdTwo();
  }

  lemma SlotFive()
    ensures Xor(Xor(Xor(Std[1], Std[2]), Std[3]), Std[8]) == Std[5]
  {
    StdFive();
  }

  lemma SlotZero()
    ensures Xor(Xor(Xor(Std[2], Std[4]), Std[6]), Std[8]) == Std[0]
  {
    StdZero();
  }

  /** The derived slots come out right from the standard 1, 3, 4, 6, 7. */
  lemma StdTable()
    ensures Table(Std[1], Std[3], Std[4], Std[6], Std[7]) == Std
  {
    SlotNine();
    SlotTwo();
    SlotFive();
    SlotZero();
    TableIs(Std);
  }

  lemma StdIndex(y: LetterSet) returns (i: nat)
    requires y in Std
    ensures i < 10 && Std[i] == y
  {
    i :| 0 <= i < 10 && Std[i] == y;
  }

  /** `get_true_digits` recovers the standard table from any listing of the ten
    * standard patterns, in any order and with repeats. */
  lemma StdIdentified(ds: seq<LetterSet>)
    requires forall x :: x in ds <==> x in Std
    ensures TrueDigits(ds) == Std
  {
    forall y | y in ds
      ensures CountIs(2)(y) ==> y == Std[1]
      ensures CountIs(4)(y) ==> y == Std[4]
      ensures CountIs(3)(y) ==> y == Std[7]
      ensures SixOf(Std[1])(y) ==> y == Std[6]
      ensures ThreeOf(Std[1])(y) ==> y == Std[3]
    {
      var i := StdIndex(y);
      UniqueCounts(i);
      UniqueSixThree(i);
    }
    UniqueCounts(1);
    UniqueCounts(4);
    UniqueCounts(7);
    UniqueSixThree(6);
    UniqueSixThree(3);
    assert Std[1] in Std && Std[4] in Std && Std[7] in Std && Std[6] in Std && Std[3] in Std;
    LastUnique(ds, CountIs(2), Blank, Std[1]);
    LastUnique(ds, CountIs(4), Blank, Std[4]);
    LastUnique(ds, CountIs(3), Blank, Std[7]);
    LastUnique(ds, SixOf(Std[1]), Blank, Std[6]);
    LastUnique(ds, ThreeOf(Std[1]), Blank, Std[3]);
    StdTable();
  }

  // ---- part 1 -------------------------------------------------------------------

  /** An output pattern `p1` counts: 2, 4, 3 or 7 letters. */
  predicate Easy(d: LetterSet)
  {
    var c := LetterCnt(d);
    c == 2 || c == 4 || c == 3 || c == 7
  }

  function CountEasy(v: seq<LetterSet>): (r: nat)
    ensures r <= |v|
  {
    if v == [] then 0 else CountEasy(v[..|v| - 1]) + (if Easy(v[|v| - 1]) then 1 else 0)
  }

  /** The patterns after the first ten of a line (`skip(10)`). */
  function Outputs(entry: seq<LetterSet>): seq<LetterSet>
  {
    if |entry| <= 10 then [] else entry[10..]
  }

  /** `p1`: the easy output patterns over all lines. */
  function P1(data: seq<seq<LetterSet>>): (r: nat)
    ensures r == 0 <==> forall i :: 0 <= i < |data| ==> CountEasy(Outputs(data[i])) == 0
  {
    if data == [] then 0
    else
      var init := data[..|data| - 1];
      assert forall i :: 0 <= i < |init| ==> init[i] == data[i];
      P1(init) + CountEasy(Outputs(data[|data| - 1]))
  }

  /** On the standard display, exactly the digits 1, 4, 7 and 8 are easy. */
  lemma EasyDigits(i: nat)
    requires i < 10
    ensures Easy(Std[i]) <==> i in {1, 4, 7, 8}
  {
    UniqueCounts(i);
  }

  /** How many of the digits `os` are 1, 4, 7 or 8. */
  function CountEasyDigits(os: seq<nat>): nat
  {
    if os == [] then 0 else CountEasyDigits(os[..|os| - 1]) + (if os[|os| - 1] in {1, 4, 7, 8} then 1 else 0)
  }

  /** `outs` are the standard patterns of the digits `os`. */
  predicate Shows(outs: seq<LetterSet>, os: seq<nat>)
  {
    |outs| == |os| && forall k :: 0 <= k < |os| ==> os[k] < 10 && outs[k] == Std[os[k]]
  }

  /** On an unscrambled display `p1` counts the outputs that are 1, 4, 7 or 8. */
  lemma {:induction false} CountEasyShown(outs: seq<LetterSet>, os: seq<nat>)
    requires Shows(outs, os)
    ensures CountEasy(outs) == CountEasyDigits(os)
  {
    if os != [] {
      CountEasyShown(outs[..|outs| - 1], os[..|os| - 1]);
      EasyDigits(os[|os| - 1]);
    }
  }

  /** `p1` adds up line by line. */
  lemma {:induction false} P1Append(a: seq<seq<LetterSet>>, b: seq<seq<LetterSet>>)
    ensures P1(a + b) == P1(a) + P1(b)
  {
    if b != [] {
      assert (a + b)[..|a + b| - 1] == a + b[..|b| - 1];
      P1Append(a, b[..|b| - 1]);
    } else {
      assert a + b == a;
    }
  }

  // ---- part 2 -------------------------------------------------------------------

  /** The first slot of the table that holds `d` (`find_map` over `enumerate`). */
  function IndexIn(table: seq<LetterSet>, d: LetterSet): (r: Option<nat>)
    ensures r.Some? ==> r.value < |table| && table[r.value] == d
    ensures r.Some? ==> forall j :: 0 <= j < r.value ==> table[j] != d
    ensures r.None? ==> d !in table
  {
    if table == [] then None
    else if table[0] == d then Some(0)
    else match IndexIn(table[1..], d)
      case Some(j) => Some(j + 1)
      case None => None
  }

  /** The digits read left to right as a base-10 number (`fold(0, acc * 10 + v)`). */
  function Value(ds: seq<nat>): nat
  {
    if ds == [] then 0 else Value(ds[..|ds| - 1]) * 10 + ds[|ds| - 1]
  }

  /** The digits of the outputs, looked up in `table`, or `None` if one is missing
    * (the source's `unwrap` panics). */
  function Lookup(table: seq<LetterSet>, outs: seq<LetterSet>): (r: Option<seq<nat>>)
    ensures r.Some? ==> |r.value| == |outs|
    ensures r.Some? ==> forall k :: 0 <= k < |outs| ==> r.value[k] < |table| && table[r.value[k]] == outs[k]
    ensures r.None? ==> exists k :: 0 <= k < |outs| && outs[k] !in table
  {
    if outs == [] then Some([])
    else match (Lookup(table, outs[..|outs| - 1]), IndexIn(table, outs[|outs| - 1]))
      case (Some(ds), Some(i)) => Some(ds + [i])
      case (None, _) => None
      case (_, None) => None
  }

  /** One line of `p2`: identify the digits from the first ten patterns and read
    * the four outputs. `None` where the source panics: a line shorter than 14
    * patterns or an output that matches no identified digit. */
  function Decode(entry: seq<LetterSet>): Option<nat>
  {
    if |entry| < 14 then None else ReadOutputs(TrueDigits(entry[..10]), entry[10..14])
  }

  /** The number the outputs spell once the table is known. */
  function ReadOutputs(table: seq<LetterSet>, outs: seq<LetterSet>): Option<nat>
  {
    match Lookup(table, outs)
    case Some(ds) => Some(Value(ds))
    case None => None
  }

  /** The sum of `value` over the lines, `None` as soon as one line has none. */
  function SumAll(data: seq<seq<LetterSet>>, value: seq<LetterSet> -> Option<nat>): Option<nat>
  {
    if data == [] then Some(0)
    else match (SumAll(data[..|data| - 1], value), value(data[|data| - 1]))
      case (Some(acc), Some(v)) => Some(acc + v)
      case _ => None
  }

  /** `p2`: the sum of the decoded lines. */
  function P2(data: seq<seq<LetterSet>>): (r: Option<nat>)
    ensures r.Some? <==> forall i :: 0 <= i < |data| ==> Decode(data[i]).Some?
  {
    SumAllDefined(data, Decode);
    SumAll(data, Decode)
  }

  /** A sum has a value iff every line has one. */
  lemma {:induction false} SumAllDefined(data: seq<seq<LetterSet>>, value: seq<LetterSet> -> Option<nat>)
    ensures SumAll(data, value).Some? <==> forall i :: 0 <= i < |data| ==> value(data[i]).Some?
  {
    if data != [] {
      var init := data[..|data| - 1];
      SumAllDefined(init, value);
      assert forall i :: 0 <= i < |init| ==> init[i] == data[i];
    }
  }

  /** The standard patterns are distinct, so each is found at its own digit. */
  lemma FoundAt(i: nat)
    requires i < 10
    ensures IndexIn(Std, Std[i]) == Some(i)
  {
    forall j | 0 <= j < i
      ensures Std[j] != Std[i]
    {
    }
    IndexFirst(Std, i);
  }

  /** An entry no earlier entry equals is found at its own position. */
  lemma {:induction false} IndexFirst(table: seq<LetterSet>, i: nat)
    requires i < |table|
    requires forall j :: 0 <= j < i ==> table[j] != table[i]
    ensures IndexIn(table, table[i]) == Some(i)
  {
    if i > 0 {
      IndexFirst(table[1..], i - 1);
    }
  }

  /** Outputs found one by one are found together. */
  lemma {:induction false} LookupAll(table: seq<LetterSet>, outs: seq<LetterSet>, os: seq<nat>)
    requires |outs| == |os|
    requires forall k :: 0 <= k < |outs| ==> IndexIn(table, outs[k]) == Some(os[k])
    ensures Lookup(table, outs) == Some(os)
  {
    if outs != [] {
      LookupAll(table, outs[..|outs| - 1], os[..|os| - 1]);
      assert os[..|os| - 1] + [os[|os| - 1]] == os;
    }
  }

  /** Four digits read as a number. */
  lemma ValueFour(os: seq<nat>)
    requires |os| == 4
    ensures Value(os) == 1000 * os[0] + 100 * os[1] + 10 * os[2] + os[3]
  {
    assert Value(os[..1]) == os[0] by { assert os[..1][..0] == []; }
    assert Value(os[..2]) == 10 * os[0] + os[1] by { assert os[..2][..1] == os[..1]; }
    assert Value(os[..3]) == 100 * os[0] + 10 * os[1] + os[2] by { assert os[..3][..2] == os[..2]; }
  }

  /** Four digits found in the table read as the number they spell. */
  lemma ReadFour(table: seq<LetterSet>, outs: seq<LetterSet>, os: seq<nat>)
    requires |os| == 4 && Lookup(table, outs) == Some(os)
    ensures ReadOutputs(table, outs) == Some(1000 * os[0] + 100 * os[1] + 10 * os[2] + os[3])
  {
    ValueFour(os);
  }

  /** A line whose first ten patterns list the standard ones and whose four
    * outputs show the digits `os` decodes to the number those digits spell. */
  lemma DecodeStd(entry: seq<LetterSet>, os: seq<nat>)
    requires |entry| == 14 && |os| == 4
    requires forall x :: x in entry[..10] <==> x in Std
    requires Shows(entry[10..], os)
    ensures Decode(entry) == Some(1000 * os[0] + 100 * os[1] + 10 * os[2] + os[3])
  {
    StdIdentified(entry[..10]);
    forall k | 0 <= k < 4
      ensures IndexIn(Std, entry[10 + k]) == Some(os[k])
    {
      assert entry[10 + k] == entry[10..][k];
      FoundAt(os[k]);
    }
    DecodeWith(entry, Std, os);
  }

  /** The four outputs of a line, each found in `table`. */
  lemma LookupOutputs(entry: seq<LetterSet>, table: seq<LetterSet>, os: seq<nat>)
    requires |entry| == 14 && |os| == 4
    requires forall k :: 0 <= k < 4 ==> IndexIn(table, entry[10 + k]) == Some(os[k])
    ensures Lookup(table, entry[10..14]) == Some(os)
  {
    var outs := entry[10..14];
    forall k | 0 <= k < 4
      ensures IndexIn(table, outs[k]) == Some(os[k])
    {
      assert outs[k] == entry[10 + k];
    }
    LookupAll(table, outs, os);
  }

  /** `Decode` once the table is known and every output has been found in it. */
  lemma DecodeWith(entry: seq<LetterSet>, table: seq<LetterSet>, os: seq<nat>)
    requires |entry| == 14 && |os| == 4
    requires TrueDigits(entry[..10]) == table
    requires forall k :: 0 <= k < 4 ==> IndexIn(table, entry[10 + k]) == Some(os[k])
    ensures Decode(entry) == Some(1000 * os[0] + 100 * os[1] + 10 * os[2] + os[3])
  {
    LookupOutputs(entry, table, os);
    ReadFour(table, entry[10..14], os);
  }
}
