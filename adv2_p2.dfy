/** adv-2/p2.c: steer with "forward v", "down v" and "up v" lines, where
  * "down"/"up" change the aim and "forward" moves by `v` and dives by
  * `aim * v`. Lines arrive as strings (including their `'\n'`). */
module Adv2P2 {
  import opened CString

  datatype Sub = Sub(x: int, y: int, aim: int)

  /** `memcmp(line, p, |p|) == 0`: the line starts with the command word. */
  predicate StartsWith(line: string, p: string)
  {
    |line| >= |p| && line[..|p|] == p
  }

  /** The body of the loop in `main`, for one line. */
  function Step(st: Sub, line: string): Sub
  {
    if StartsWith(line, "forward ") then
      var v := Atoi(line[8..]);
      Sub(st.x + v, st.y + st.aim * v, st.aim)
    else if StartsWith(line, "down ") then
      Sub(st.x, st.y, st.aim + Atoi(line[5..]))
    else if StartsWith(line, "up ") then
      Sub(st.x, st.y, st.aim - Atoi(line[3..]))
    else st
  }

  /** All lines from the start state `x = y = aim = 0`, last line last. */
  function Run(lines: seq<string>): Sub
  {
    if lines == [] then Sub(0, 0, 0) else Step(Run(lines[..|lines| - 1]), lines[|lines| - 1])
  }

  /** The loop of `main` and the printed product `x * y`. */
  method Pilot(lines: seq<string>) returns (x: int, y: int, aim: int, answer: int)
    ensures Sub(x, y, aim) == Run(lines)
    ensures answer == Run(lines).x * Run(lines).y
  {
    x, y, aim := 0, 0, 0;
    var k := 0;
    while k < |lines|
      invariant 0 <= k <= |lines|
      invariant Sub(x, y, aim) == Run(lines[..k])
    {
      var line := lines[k];
      assert lines[..k + 1][..k] == lines[..k];
      assert Run(lines[..k + 1]) == Step(Sub(x, y, aim), line);
      if StartsWith(line, "forward ") {
        var v := Atoi(line[8..]);
        x := x + v;
        y := y + aim * v;
      } else if StartsWith(line, "down ") {
        aim := aim + Atoi(line[5..]);
      } else if StartsWith(line, "up ") {
        aim := aim - Atoi(line[3..]);
      }
      k := k + 1;
    }
    assert lines[..k] == lines;
    answer := x * y;
  }

  /** Value a line contributes to the horizontal position. */
  function ForwardAmount(line: string): int
  {
    if StartsWith(line, "forward ") then Atoi(line[8..]) else 0
  }

  /** Value a line contributes to the aim. */
  function AimChange(line: string): int
  {
    if StartsWith(line, "forward ") then 0
    else if StartsWith(line, "down ") then Atoi(line[5..])
    else if StartsWith(line, "up ") then -Atoi(line[3..])
    else 0
  }

  function SumOf(lines: seq<string>, f: string -> int): int
  {
    if lines == [] then 0 else SumOf(lines[..|lines| - 1], f) + f(lines[|lines| - 1])
  }

  /** The position is the sum of the "forward" amounts and the aim is the
    * sum of the "down" amounts minus the "up" amounts; other lines change
    * nothing. */
  lemma {:induction false} RunSums(lines: seq<string>)
    ensures Run(lines).x == SumOf(lines, ForwardAmount)
    ensures Run(lines).aim == SumOf(lines, AimChange)
  {
    if lines != [] {
      RunSums(lines[..|lines| - 1]);
    }
  }

  /** The depth grows by `aim * v` on "forward v", with the aim reached after
    * the lines before it. */
  lemma ForwardDives(lines: seq<string>, v: nat)
    ensures Run(lines + ["forward " + Decimal(v) + "\n"]).y == Run(lines).y + Run(lines).aim * v
    ensures Run(lines + ["forward " + Decimal(v) + "\n"]).x == Run(lines).x + v
  {
    var line := "forward " + Decimal(v) + "\n";
    var all := lines + [line];
    assert all[..|all| - 1] == lines;
    assert line[..8] == "forward ";
    assert line[8..] == Decimal(v) + "\n";
    AtoiDecimal(v, "\n");
  }
}
