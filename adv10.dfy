/** Bracket syntax scoring (adv-10-rs): each line is a run of the four bracket
  * kinds; a stack finds the first closer that does not match (part 1), and the
  * openers left unmatched on an intact line are scored as their completion
  * (part 2, the median of the completion scores). */
module Adv10 {
  import opened Common

  datatype PType = Paren | Square | Curly | Arrow
  datatype Action = Open | Close
  type Ent = (PType, Action)

  /** The `filter_map` of `read_data`: the eight bracket characters, nothing else. */
  function Bracket(c: char): Option<Ent>
  {
    match c
    case '(' => Some((Paren, Open))
    case '[' => Some((Square, Open))
    case '{' => Some((Curly, Open))
    case '<' => Some((Arrow, Open))
    case ')' => Some((Paren, Close))
    case ']' => Some((Square, Close))
    case '}' => Some((Curly, Close))
    case '>' => Some((Arrow, Close))
    case _ => None
  }

  /** The character a bracket entry is written as. */
  function Glyph(e: Ent): char
  {
    match e
    case (Paren, Open) => '('
    case (Square, Open) => '['
    case (Curly, Open) => '{'
    case (Arrow, Open) => '<'
    case (Paren, Close) => ')'
    case (Square, Close) => ']'
    case (Curly, Close) => '}'
    case (Arrow, Close) => '>'
  }

  /** Exactly the eight bracket characters are recognised, each as the entry
    * it is written as. */
  lemma BracketExact(c: char)
    ensures Bracket(c).Some? <==> c in "()[]{}<>"
    ensures Bracket(c).Some? ==> Glyph(Bracket(c).value) == c
  {
  }

  lemma BracketGlyph(e: Ent)
    ensures Bracket(Glyph(e)) == Some(e)
  {
  }

  /** One input line as bracket entries. */
  function ReadLine(s: string): (r: seq<Ent>)
    ensures |r| <= |s|
  {
    if s == [] then []
    else (match Bracket(s[0]) case Some(e) => [e] case None => []) + ReadLine(s[1..])
  }

  function Render(es: seq<Ent>): (r: string)
    ensures |r| == |es|
  {
    if es == [] then [] else [Glyph(es[0])] + Render(es[1..])
  }

  /** Reading distributes over concatenation, so characters other than
    * brackets are dropped wherever they stand. */
  lemma {:induction false} ReadLineAppend(a: string, b: string)
    ensures ReadLine(a + b) == ReadLine(a) + ReadLine(b)
  {
    if a == [] {
      assert a + b == b;
    } else {
      var h: seq<Ent> := match Bracket(a[0]) case Some(e) => [e] case None => [];
      assert (a + b)[0] == a[0] && (a + b)[1..] == a[1..] + b;
      assert ReadLine(a + b) == h + ReadLine(a[1..] + b);
      ReadLineAppend(a[1..], b);
    }
  }

  lemma {:induction false} ReadLineDropsOther(a: string, c: char, b: string)
    requires Bracket(c).None?
    ensures ReadLine(a + [c] + b) == ReadLine(a + b)
  {
    ReadLineAppend(a + [c], b);
    ReadLineAppend(a, [c]);
    ReadLineAppend(a, b);
    assert ReadLine([c]) == [] by {
      assert [c][1..] == [];
    }
  }

  /** Writing entries out and reading them back is the identity. */
  lemma {:induction false} ReadRender(es: seq<Ent>)
    ensures ReadLine(Render(es)) == es
  {
    if es != [] {
      BracketGlyph(es[0]);
      ReadRender(es[1..]);
      assert Render(es)[1..] == Render(es[1..]);
    }
  }

  // ---- the stack scan --------------------------------------------------------

  /** A line is corrupted at closer kind `bad`, or intact with the unmatched
    * openers `open` left on the stack, bottom first. */
  datatype Verdict = Corrupt(bad: PType) | Incomplete(open: seq<PType>)

  /** A closer of kind `t` does not match the top of `stack` (or meets an
    * empty one). */
  predicate Mismatch(stack: seq<PType>, t: PType)
  {
    stack == [] || stack[|stack| - 1] != t
  }

  /** The scan of `main`'s inner loop, from stack `stack`. */
  function Check(line: seq<Ent>, stack: seq<PType>): (r: Verdict)
    ensures r.Corrupt? ==> (r.bad, Close) in line
    ensures r.Incomplete? ==> |r.open| <= |stack| + |line|
    decreases |line|
  {
    if line == [] then Incomplete(stack)
    else
      assert line == [line[0]] + line[1..];
      match line[0].1
      case Open => Check(line[1..], stack + [line[0].0])
      case Close =>
        if Mismatch(stack, line[0].0) then Corrupt(line[0].0)
        else Check(line[1..], stack[..|stack| - 1])
  }

  /** Scanning a concatenation is scanning the second part from wherever the
    * first part left the stack. */
  lemma {:induction false} CheckAppend(a: seq<Ent>, b: seq<Ent>, stack: seq<PType>)
    ensures Check(a + b, stack) ==
      match Check(a, stack) case Corrupt(t) => Corrupt(t) case Incomplete(s) => Check(b, s)
    decreases |a|
  {
    if a == [] {
      assert a + b == b;
    } else {
      assert (a + b)[0] == a[0] && (a + b)[1..] == a[1..] + b;
      match a[0].1
      case Open => CheckAppend(a[1..], b, stack + [a[0].0]);
      case Close =>
        if !Mismatch(stack, a[0].0) {
          CheckAppend(a[1..], b, stack[..|stack| - 1]);
        }
    }
  }

  /** The openers of `s`, bottom first. */
  function Opens(s: seq<PType>): (r: seq<Ent>)
    ensures |r| == |s|
  {
    if s == [] then [] else [(s[0], Open)] + Opens(s[1..])
  }

  lemma {:induction false} OpensPush(s: seq<PType>, stack: seq<PType>)
    ensures Check(Opens(s), stack) == Incomplete(stack + s)
    decreases |s|
  {
    if s == [] {
      assert stack + s == stack;
    } else {
      var o := Opens(s);
      assert o[0] == (s[0], Open) && o[1..] == Opens(s[1..]);
      assert Check(o, stack) == Check(o[1..], stack + [s[0]]);
      OpensPush(s[1..], stack + [s[0]]);
      assert stack + [s[0]] + s[1..] == stack + s;
    }
  }

  /** On an intact line the stack holds exactly the unmatched openers: the
    * line behaves, before anything that follows it, like those openers alone. */
  lemma StackIsUnmatched(line: seq<Ent>, s: seq<PType>, rest: seq<Ent>)
    requires Check(line, []) == Incomplete(s)
    ensures Check(line + rest, []) == Check(Opens(s) + rest, [])
  {
    CheckAppend(line, rest, []);
    CheckAppend(Opens(s), rest, []);
    OpensPush(s, []);
    assert [] + s == s;
  }

  /** A mismatching closer `t` after an intact prefix corrupts the line. */
  predicate CorruptsAt(line: seq<Ent>, t: PType, i: nat)
  {
    i < |line| && line[i] == (t, Close) && Check(line[..i], []).Incomplete? &&
      Mismatch(Check(line[..i], []).open, t)
  }

  /** A line is corrupted by closer kind `t` exactly when, at some position,
    * the prefix before it is intact and a mismatching closer `t` follows. */
  lemma CorruptAt(line: seq<Ent>, t: PType)
    ensures Check(line, []) == Corrupt(t) <==> exists i :: CorruptsAt(line, t, i)
  {
    if Check(line, []) == Corrupt(t) {
      var i := CorruptIndex(line, [], t);
      assert CorruptsAt(line, t, i);
    }
    if exists i :: CorruptsAt(line, t, i) {
      var i :| CorruptsAt(line, t, i);
      CorruptFrom(line, t, i);
    }
  }

  lemma CorruptFrom(line: seq<Ent>, t: PType, i: nat)
    requires CorruptsAt(line, t, i)
    ensures Check(line, []) == Corrupt(t)
  {
    var rest := line[i..];
    assert line[..i] + rest == line;
    assert rest[0] == (t, Close);
    CheckAppend(line[..i], rest, []);
  }

  lemma {:induction false} CorruptIndex(line: seq<Ent>, stack: seq<PType>, t: PType) returns (i: nat)
    requires Check(line, stack) == Corrupt(t)
    ensures i < |line| && line[i] == (t, Close)
    ensures Check(line[..i], stack).Incomplete? && Mismatch(Check(line[..i], stack).open, t)
    decreases |line|
  {
    match line[0].1
    case Open =>
      var j := CorruptIndex(line[1..], stack + [line[0].0], t);
      i := j + 1;
      assert line[..i] == [line[0]] + line[1..][..j];
      CheckAppend([line[0]], line[1..][..j], stack);
      assert [line[0]][1..] == [];
    case Close =>
      if Mismatch(stack, line[0].0) {
        i := 0;
        assert line[..0] == [];
      } else {
        var j := CorruptIndex(line[1..], stack[..|stack| - 1], t);
        i := j + 1;
        assert line[..i] == [line[0]] + line[1..][..j];
        CheckAppend([line[0]], line[1..][..j], stack);
        assert [line[0]][1..] == [];
      }
  }

  /** The closers that complete `s`, top of the stack first. */
  function Closers(s: seq<PType>): (r: seq<Ent>)
    ensures |r| == |s|
  {
    if s == [] then [] else [(s[|s| - 1], Close)] + Closers(s[..|s| - 1])
  }

  lemma {:induction false} ClosersPop(s: seq<PType>, stack: seq<PType>)
    ensures Check(Closers(s), stack + s) == Incomplete(stack)
    decreases |s|
  {
    if s == [] {
      assert stack + s == stack;
    } else {
      assert Closers(s)[1..] == Closers(s[..|s| - 1]);
      assert (stack + s)[..|stack + s| - 1] == stack + s[..|s| - 1];
      ClosersPop(s[..|s| - 1], stack);
    }
  }

  /** Appending the completion of an intact line balances it. */
  lemma CompletionBalances(line: seq<Ent>, s: seq<PType>)
    requires Check(line, []) == Incomplete(s)
    ensures Check(line + Closers(s), []) == Incomplete([])
  {
    CheckAppend(line, Closers(s), []);
    ClosersPop(s, []);
    assert [] + s == s;
  }

  // ---- scores ----------------------------------------------------------------

  /** Part-1 points for a corrupting closer. */
  function ErrorScore(t: PType): (r: nat)
    ensures r >= 3
  {
    match t
    case Paren => 3
    case Square => 57
    case Curly => 1197
    case Arrow => 25137
  }

  /** Part-2 points per completing closer. */
  function Points(t: PType): (r: nat)
    ensures 1 <= r <= 4
  {
    match t
    case Paren => 1
    case Square => 2
    case Curly => 3
    case Arrow => 4
  }

  /** The completion score of stack `s`: popping from the top, `score * 5 +
    * points`, so the bottom opener is the least significant base-5 digit. */
  function CompletionScore(s: seq<PType>): (r: nat)
    ensures r == 0 <==> s == []
  {
    if s == [] then 0 else Points(s[0]) + 5 * CompletionScore(s[1..])
  }

  /** Different stacks never score the same. */
  lemma {:induction false} CompletionScoreInjective(a: seq<PType>, b: seq<PType>)
    requires CompletionScore(a) == CompletionScore(b)
    ensures a == b
    decreases |a|
  {
    if a != [] {
      var x, y := CompletionScore(a[1..]), CompletionScore(b[1..]);
      ModUnique(CompletionScore(a), 5, x, Points(a[0]));
      ModUnique(CompletionScore(a), 5, y, Points(b[0]));
      assert Points(a[0]) == Points(b[0]);
      assert x == y;
      CompletionScoreInjective(a[1..], b[1..]);
      assert a == [a[0]] + a[1..] && b == [b[0]] + b[1..];
    }
  }

  /** The part-1 total: error points of every corrupted line. */
  function SyntaxScore(data: seq<seq<Ent>>): nat
  {
    if data == [] then 0
    else
      var last := match Check(data[|data| - 1], []) case Corrupt(t) => ErrorScore(t) case Incomplete(_) => 0;
      SyntaxScore(data[..|data| - 1]) + last
  }

  /** The completion scores of the intact lines, in line order. */
  function Scores(data: seq<seq<Ent>>): seq<nat>
  {
    if data == [] then []
    else
      var last := match Check(data[|data| - 1], []) case Corrupt(_) => [] case Incomplete(s) => [CompletionScore(s)];
      Scores(data[..|data| - 1]) + last
  }

  /** The inner loop of `main` over one line: push openers, pop on closers,
    * and stop at the first closer that does not match. */
  method ScanLine(line: seq<Ent>) returns (v: Verdict)
    ensures v == Check(line, [])
  {
    var queue: seq<PType> := [];
    for i := 0 to |line|
      invariant Check(line, []) == Check(line[i..], queue)
    {
      var ent := line[i];
      assert line[i..][0] == ent && line[i..][1..] == line[i + 1..];
      match ent.1 {
        case Open =>
          queue := queue + [ent.0];
        case Close =>
          if queue == [] || queue[|queue| - 1] != ent.0 {
            return Corrupt(ent.0);
          }
          queue := queue[..|queue| - 1];
      }
    }
    assert line[|line|..] == [];
    return Incomplete(queue);
  }

  /** The `while let Some(c) = queue.pop()` loop: the closers still owed,
    * innermost first, scored in base 5. */
  method Complete(queue: seq<PType>) returns (score: nat)
    ensures score == CompletionScore(queue)
  {
    score := 0;
    var q := queue;
    while q != []
      invariant |q| <= |queue| && q == queue[..|q|]
      invariant score == CompletionScore(queue[|q|..])
    {
      var c := q[|q| - 1];
      assert queue[|q| - 1..] == [c] + queue[|q|..];
      q := q[..|q| - 1];
      score := score * 5 + Points(c);
    }
    assert queue[0..] == queue;
  }

  /** The line loop of `main`: a stack scan per line, then either error points
    * or the completion score popped off the stack. */
  method ScoreLines(data: seq<seq<Ent>>) returns (res1: nat, lineScores: seq<nat>)
    ensures res1 == SyntaxScore(data)
    ensures lineScores == Scores(data)
  {
    res1 := 0;
    lineScores := [];
    for n := 0 to |data|
      invariant res1 == SyntaxScore(data[..n])
      invariant lineScores == Scores(data[..n])
    {
      assert data[..n + 1][..n] == data[..n];
      var v := ScanLine(data[n]);
      if v.Corrupt? {
        res1 := res1 + ErrorScore(v.bad);
      } else {
        var score := Complete(v.open);
        lineScores := lineScores + [score];
      }
    }
    assert data[..|data|] == data;
  }

  // ---- the median ------------------------------------------------------------

  predicate Sorted(s: seq<nat>)
  {
    forall i, j :: 0 <= i < j < |s| ==> s[i] <= s[j]
  }

  /** A sorted arrangement of a multiset is unique, so the median below does
    * not depend on how the scores were sorted. */
  lemma {:induction false} SortedUnique(a: seq<nat>, b: seq<nat>)
    requires Sorted(a) && Sorted(b) && multiset(a) == multiset(b)
    ensures a == b
    decreases |a|
  {
    assert |b| == |multiset(b)| == |a|;
    if a != [] {
      SortedFirst(a, b);
      SortedTail(a);
      SortedTail(b);
      SortedUnique(a[1..], b[1..]);
      assert a == [a[0]] + a[1..] && b == [b[0]] + b[1..];
    }
  }

  lemma SortedFirst(a: seq<nat>, b: seq<nat>)
    requires Sorted(a) && Sorted(b) && multiset(a) == multiset(b) && a != [] && b != []
    ensures a[0] == b[0]
  {
    assert a[0] in multiset(b) && b[0] in multiset(a);
    var i :| 0 <= i < |b| && b[i] == a[0];
    var j :| 0 <= j < |a| && a[j] == b[0];
  }

  lemma SortedTail(a: seq<nat>)
    requires Sorted(a) && a != []
    ensures Sorted(a[1..]) && multiset(a[1..]) == multiset(a) - multiset{a[0]}
  {
    assert a == [a[0]] + a[1..];
  }

  /** How many entries of `s` are below `r`, and at most `r`. */
  function CountLess(s: seq<nat>, r: nat): (c: nat)
    ensures c <= |s|
  {
    if s == [] then 0 else CountLess(s[..|s| - 1], r) + (if s[|s| - 1] < r then 1 else 0)
  }

  function CountAtMost(s: seq<nat>, r: nat): (c: nat)
    ensures c <= |s|
  {
    if s == [] then 0 else CountAtMost(s[..|s| - 1], r) + (if s[|s| - 1] <= r then 1 else 0)
  }

  lemma {:induction false} CountLessBound(s: seq<nat>, r: nat, m: nat)
    requires m <= |s| && forall k :: m <= k < |s| ==> s[k] >= r
    ensures CountLess(s, r) <= m
  {
    if |s| > m {
      CountLessBound(s[..|s| - 1], r, m);
    }
  }

  lemma {:induction false} CountAtMostBound(s: seq<nat>, r: nat, m: nat)
    requires m <= |s| && forall k :: 0 <= k < m ==> s[k] <= r
    ensures CountAtMost(s, r) >= m
  {
    if |s| > m {
      CountAtMostBound(s[..|s| - 1], r, m);
    } else if m > 0 {
      CountAtMostBound(s[..|s| - 1], r, m - 1);
    }
  }

  /** `line_scores.sort()` then `line_scores[len / 2]`: the library sort is
    * any sorted permutation `sorted`; indexing panics on an empty list. The
    * result is a score with at most half the scores below it and more than
    * half at or below it. */
  function Median(scores: seq<nat>, sorted: seq<nat>): (r: nat)
    requires |scores| > 0
    requires Sorted(sorted) && multiset(sorted) == multiset(scores)
    ensures r in scores
    ensures CountLess(sorted, r) <= |scores| / 2 < CountAtMost(sorted, r)
  {
    assert |sorted| == |multiset(sorted)| == |scores|;
    var m := |sorted| / 2;
    assert sorted[m] in multiset(scores);
    CountLessBound(sorted, sorted[m], m);
    CountAtMostBound(sorted, sorted[m], m + 1);
    sorted[m]
  }
}
