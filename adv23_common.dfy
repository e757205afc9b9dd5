/** Day 23: Amphipod, the part shared by both halves. Four colours of
  * amphipod, each with a home room, a cost per step and a letter in the
  * puzzle's drawing. */
module Adv23Common {
  import opened Common

  /** `Color`: the four kinds of amphipod, in the order of their rooms. */
  datatype Color = Amber | Bronze | Copper | Desert

  /** `get_idx`: the number of the colour's home room, counted from the left. */
  function Idx(c: Color): (i: nat)
    ensures i < 4
  {
    match c
    case Amber => 0
    case Bronze => 1
    case Copper => 2
    case Desert => 3
  }

  /** `from_idx`: the colour whose home room has the number `i` (the source
    * indexes a four-element array, so any other number panics). */
  function FromIdx(i: nat): (c: Color)
    requires i < 4
    ensures Idx(c) == i
  {
    [Amber, Bronze, Copper, Desert][i]
  }

  /** Going from a colour to its room number and back gives the colour. */
  lemma FromIdxOfIdx(c: Color)
    ensures FromIdx(Idx(c)) == c
  {
  }

  /** `get_cost`: the energy one step of the colour costs, ten times the
    * cost of the colour before it. */
  function Cost(c: Color): (r: nat)
    ensures r == Pow(10, Idx(c))
  {
    match c
    case Amber => 1
    case Bronze => 10
    case Copper =>
      assert Pow(10, 2) == 10 * Pow(10, 1);
      100
    case Desert =>
      assert Pow(10, 2) == 10 * Pow(10, 1);
      assert Pow(10, 3) == 10 * Pow(10, 2);
      1000
  }

  /** `get_letter`: the colour's letter, `A` to `D` in room order, so that
    * different colours have different letters. */
  function Letter(c: Color): (ch: char)
    ensures 'A' <= ch <= 'D' && ch as int - 'A' as int == Idx(c)
  {
    match c
    case Amber => 'A'
    case Bronze => 'B'
    case Copper => 'C'
    case Desert => 'D'
  }
}
