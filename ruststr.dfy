/** The few pieces of Rust's `str` API the Rust solutions parse their input
  * with: `split_once`, `trim_end` and integer `parse` (`FromStr` for the
  * integer types). White space is the ASCII white space of `CString.IsSpace`. */
module RustStr {
  import opened Common
  import opened CString

  /** The position of the first `c` in `s`, `|s|` when there is none. */
  function FirstIndex(s: string, c: char): (i: nat)
    ensures i <= |s| && (i < |s| ==> s[i] == c)
    ensures forall j :: 0 <= j < i ==> s[j] != c
  {
    if s == [] || s[0] == c then 0 else 1 + FirstIndex(s[1..], c)
  }

  /** `s.split_once(c)`: the text before and after the first `c`. */
  function SplitOnce(s: string, c: char): (r: Option<(string, string)>)
    ensures r.None? <==> c !in s
    ensures r.Some? ==> s == r.value.0 + [c] + r.value.1 && c !in r.value.0
  {
    var i := FirstIndex(s, c);
    if i == |s| then None
    else
      assert s == s[..i] + [c] + s[i + 1..];
      Some((s[..i], s[i + 1..]))
  }

  /** `s.rsplit_once(c)`: the text before and after the last `c`. */
  function RSplitOnce(s: string, c: char): (r: Option<(string, string)>)
    ensures r.None? <==> c !in s
    ensures r.Some? ==> s == r.value.0 + [c] + r.value.1 && c !in r.value.1
  {
    if s == [] then None
    else if s[|s| - 1] == c then
      assert s == s[..|s| - 1] + [c] + [];
      Some((s[..|s| - 1], []))
    else
      match RSplitOnce(s[..|s| - 1], c)
      case None =>
        assert s == s[..|s| - 1] + [s[|s| - 1]];
        None
      case Some((a, b)) =>
        assert s == s[..|s| - 1] + [s[|s| - 1]];
        Some((a, b + [s[|s| - 1]]))
  }

  /** Splitting at the first `c` of `a + [c] + b`, where `a` has none. */
  lemma SplitOnceAt(a: string, c: char, b: string)
    requires c !in a
    ensures SplitOnce(a + [c] + b, c) == Some((a, b))
  {
    var r := SplitOnce(a + [c] + b, c);
    assert c in a + [c] + b by {
      assert (a + [c] + b)[|a|] == c;
    }
    SplitPrefixUnique(a, b, r.value.0, r.value.1, c);
  }

  lemma SplitPrefixUnique(a: string, b: string, a': string, b': string, c: char)
    requires c !in a && c !in a'
    requires a + [c] + b == a' + [c] + b'
    ensures a == a' && b == b'
  {
    var s := a + [c] + b;
    assert s[|a|] == c && s[|a'|] == c;
    assert |a| == |a'|;
    assert a == s[..|a|] && a' == s[..|a'|];
    assert b == s[|a| + 1..] && b' == s[|a'| + 1..];
  }

  /** `s.starts_with(p)`. */
  predicate StartsWith(s: string, p: string)
  {
    |p| <= |s| && s[..|p|] == p
  }

  /** `pat` occurs in `s` at position `j`. */
  predicate OccursAt(s: string, pat: string, j: nat)
  {
    j + |pat| <= |s| && s[j..j + |pat|] == pat
  }

  /** The position of the first occurrence of `pat` in `s` at or after `i`,
    * `|s|` when there is none. */
  function FindStr(s: string, pat: string, i: nat): (r: nat)
    requires |pat| >= 1 && i <= |s|
    ensures r == |s| || (i <= r && OccursAt(s, pat, r))
    ensures forall j :: i <= j < r ==> !OccursAt(s, pat, j)
    decreases |s| - i
  {
    if i + |pat| > |s| then |s|
    else if s[i..i + |pat|] == pat then i
    else FindStr(s, pat, i + 1)
  }

  /** `s.split_once(pat)` for a non-empty text pattern: the text before and
    * after its first occurrence. */
  function SplitOnceStr(s: string, pat: string): (r: Option<(string, string)>)
    requires |pat| >= 1
    ensures r.Some? ==> s == r.value.0 + pat + r.value.1
  {
    var i := FindStr(s, pat, 0);
    if i == |s| then None
    else
      assert s == s[..i] + s[i..i + |pat|] + s[i + |pat|..];
      Some((s[..i], s[i + |pat|..]))
  }

  /** Splitting `a + pat + b` where `a` never holds the first character of
    * the pattern gives `a` and `b`. */
  lemma SplitOnceStrAt(a: string, pat: string, b: string)
    requires |pat| >= 1 && pat[0] !in a
    ensures SplitOnceStr(a + pat + b, pat) == Some((a, b))
  {
    var s := a + pat + b;
    assert s[|a|..|a| + |pat|] == pat;
    forall j | 0 <= j < |a|
      ensures !OccursAt(s, pat, j)
    {
      if j + |pat| <= |s| {
        assert s[j..j + |pat|][0] == a[j];
      }
    }
    assert OccursAt(s, pat, |a|);
    assert FindStr(s, pat, 0) == |a|;
    assert s[..|a|] == a && s[|a| + |pat|..] == b;
  }

  /** `s.trim_end()`: `s` without its trailing white space. */
  function TrimEnd(s: string): (r: string)
    ensures |r| <= |s| && r == s[..|r|]
    ensures r == [] || !IsSpace(r[|r| - 1])
    ensures forall i :: |r| <= i < |s| ==> IsSpace(s[i])
  {
    if s != [] && IsSpace(s[|s| - 1]) then TrimEnd(s[..|s| - 1]) else s
  }

  /** Trimming keeps a text that ends in something other than white space
    * and removes any white space after it. */
  lemma {:induction false} TrimEndAfter(t: string, w: string)
    requires t == [] || !IsSpace(t[|t| - 1])
    requires forall i :: 0 <= i < |w| ==> IsSpace(w[i])
    ensures TrimEnd(t + w) == t
  {
    if w != [] {
      assert (t + w)[..|t + w| - 1] == t + w[..|w| - 1];
      TrimEndAfter(t, w[..|w| - 1]);
    } else {
      assert t + w == t;
    }
  }

  predicate AllDigits(s: string)
  {
    forall i :: 0 <= i < |s| ==> IsDigit(s[i])
  }

  /** `s.parse()` into an integer type whose values are `lo..=hi`: an
    * optional sign and then at least one decimal digit and nothing else;
    * `-` is a sign only for a signed type (`lo < 0`). `None` is the `Err`,
    * also for a value out of range. */
  function ParseInt(s: string, lo: int, hi: int): (r: Option<int>)
    ensures r.Some? ==> lo <= r.value <= hi
  {
    var neg := lo < 0 && |s| > 0 && s[0] == '-';
    var d := if |s| > 0 && (s[0] == '+' || neg) then s[1..] else s;
    if d == [] || !AllDigits(d) then None
    else
      var v: int := if neg then -(DigitsValue(d) as int) else DigitsValue(d);
      if lo <= v <= hi then Some(v) else None
  }

  /** `n.to_string()` for any integer: a `-` for negative values, then the
    * decimal digits of the magnitude. */
  function Signed(n: int): (r: string)
    ensures |r| >= 1 && !IsSpace(r[|r| - 1]) && ',' !in r && '.' !in r
  {
    if n < 0 then "-" + Decimal(-n) else Decimal(n)
  }

  /** Parsing what `to_string` writes gives the number back, in range. */
  lemma ParseSigned(n: int, lo: int, hi: int)
    requires lo <= n <= hi
    ensures ParseInt(Signed(n), lo, hi) == Some(n)
  {
    if n < 0 {
      DecimalValue(-n);
      ParseNegative(Decimal(-n), lo, hi);
    } else {
      DecimalValue(n);
      ParseDigits(Decimal(n), lo, hi);
    }
  }

  /** Digits alone parse as their value, when it is in range. */
  lemma ParseDigits(d: string, lo: int, hi: int)
    requires d != [] && forall i :: 0 <= i < |d| ==> IsDigit(d[i])
    requires lo <= DigitsValue(d) <= hi
    ensures ParseInt(d, lo, hi) == Some(DigitsValue(d) as int)
  {
  }

  /** A `-` and digits parse as minus their value, when it is in range. */
  lemma ParseNegative(d: string, lo: int, hi: int)
    requires d != [] && forall i :: 0 <= i < |d| ==> IsDigit(d[i])
    requires DigitsValue(d) > 0 && lo <= -(DigitsValue(d) as int) <= hi
    ensures ParseInt("-" + d, lo, hi) == Some(-(DigitsValue(d) as int))
  {
    assert ("-" + d)[1..] == d;
  }

  /** Text with no digit in it never parses. */
  lemma ParseNoDigits(s: string, lo: int, hi: int)
    requires forall i :: 0 <= i < |s| ==> !IsDigit(s[i])
    ensures ParseInt(s, lo, hi).None?
  {
    if |s| > 1 {
      assert !IsDigit(s[1]);
    }
  }

  /** The lines `read_lines` yields for a text: the pieces between `\n`s,
    * with no empty line after a final `\n`. */
  function Lines(s: string): seq<string>
    decreases |s|
  {
    if s == [] then []
    else
      match SplitOnce(s, '\n')
      case None => [s]
      case Some((a, b)) => [a] + Lines(b)
  }

  /** Lines written one after the other with a `\n` between each two. */
  function Join(ls: seq<string>): string
  {
    if |ls| == 0 then [] else if |ls| == 1 then ls[0] else ls[0] + "\n" + Join(ls[1..])
  }

  /** Reading back joined lines, none of them empty or holding a `\n`, gives
    * the lines. */
  lemma {:induction false} LinesJoin(ls: seq<string>)
    requires forall i :: 0 <= i < |ls| ==> ls[i] != [] && '\n' !in ls[i]
    ensures Lines(Join(ls)) == ls
  {
    if |ls| == 1 {
      LinesOne(ls[0]);
    } else if |ls| > 1 {
      LinesCons(ls[0], Join(ls[1..]));
      LinesJoin(ls[1..]);
      assert ls == [ls[0]] + ls[1..];
    }
  }

  /** A line with no `\n` in it is read as itself. */
  lemma LinesOne(s: string)
    requires s != [] && '\n' !in s
    ensures Lines(s) == [s]
  {
    assert SplitOnce(s, '\n').None?;
  }

  /** A line, a `\n` and more text: the line, then the lines of the rest. */
  lemma LinesCons(a: string, rest: string)
    requires '\n' !in a
    ensures Lines(a + "\n" + rest) == [a] + Lines(rest)
  {
    SplitOnceAt(a, '\n', rest);
  }
}
