/** adv-3/p2.c: the bit-criteria filter `search`. From the top bit of a
  * 32-bit mask down, keep the entries whose bit agrees with the majority
  * (or, with `neg`, the minority within the low twelve bits) until one entry
  * is left. */
module Adv3P2 {
  import opened Common

  const Cols: nat := 12
  const TopBit: nat := 31

  /** `cnt`: the number of entries with bit `k` set minus the number with it
    * clear. */
  function Balance(s: seq<nat>, k: nat): int
  {
    if s == [] then 0
    else Balance(s[..|s| - 1], k) + (if BitSet(s[|s| - 1], k) then 1 else -1)
  }

  /** The entries whose bit `k` is `b`, in their original order. */
  function Keep(s: seq<nat>, k: nat, b: bool): (r: seq<nat>)
    ensures |r| <= |s|
  {
    if s == [] then []
    else Keep(s[..|s| - 1], k, b) + (if BitSet(s[|s| - 1], k) == b then [s[|s| - 1]] else [])
  }

  /** Entries are kept when `(ls[i] ^ not_expect) & mask` is non-zero: bit `k`
    * must differ from `not_expect`, which is all ones when `cnt < 0` and has
    * its low twelve bits flipped when `neg` is set. */
  function WantedBit(s: seq<nat>, k: nat, neg: bool): bool
  {
    var notExpect := Balance(s, k) < 0;
    var flipped := if neg && k < Cols then !notExpect else notExpect;
    !flipped
  }

  /** The rounds of `search` from bit `k` down; `None` stands for the
    * `__builtin_trap` when nothing survives or the bits run out. */
  function SearchFrom(s: seq<nat>, k: int, neg: bool): Option<nat>
    requires k <= TopBit
    decreases k + 1
  {
    if k < 0 then None
    else
      var w := Keep(s, k, WantedBit(s, k, neg));
      if |w| == 0 then None
      else if |w| == 1 then Some(w[0])
      else SearchFrom(w, k - 1, neg)
  }

  /** The counting loop of one round over the `n` surviving entries. */
  method CountBalance(ls: array<nat>, n: nat, k: nat) returns (cnt: int)
    requires n <= ls.Length
    ensures cnt == Balance(ls[..n], k)
  {
    cnt := 0;
    var i := 0;
    while i < n
      invariant 0 <= i <= n
      invariant cnt == Balance(ls[..i], k)
    {
      assert ls[..i + 1][..i] == ls[..i];
      cnt := cnt + (if BitSet(ls[i], k) then 1 else -1);
      i := i + 1;
    }
  }

  /** The filtering loop of one round: move every kept entry down to the
    * write index `w`, preserving their order. */
  method Compact(ls: array<nat>, n: nat, k: nat, want: bool) returns (w: nat)
    requires n <= ls.Length
    modifies ls
    ensures w <= n
    ensures ls[..w] == Keep(old(ls[..n]), k, want)
  {
    ghost var before := ls[..n];
    w := 0;
    var i := 0;
    while i < n
      invariant 0 <= w <= i <= n
      invariant ls[..w] == Keep(before[..i], k, want)
      invariant forall j :: i <= j < n ==> ls[j] == before[j]
    {
      assert before[..i + 1][..i] == before[..i];
      var x := ls[i];
      assert x == before[i];
      ghost var kept := Keep(before[..i + 1], k, want);
      if BitSet(x, k) == want {
        assert kept == ls[..w] + [x];
        ls[w] := x;
        assert ls[..w + 1] == kept;
        w := w + 1;
      } else {
        assert kept == ls[..w];
      }
      i := i + 1;
    }
    assert before[..i] == before;
  }

  /** `search(ls_in, len, neg)`: filter a private copy in place; the
    * caller's array is only read. */
  method Search(lsIn: array<nat>, len: nat, neg: bool) returns (r: Option<nat>)
    requires len <= lsIn.Length
    ensures r == SearchFrom(lsIn[..len], TopBit, neg)
  {
    var ls := new nat[len](i requires 0 <= i < len reads lsIn => lsIn[i]);
    var n: nat := len;
    assert ls[..n] == lsIn[..len];
    var k: int := TopBit;
    while k >= 0
      invariant -1 <= k <= TopBit
      invariant ls.Length == len && n <= len
      invariant SearchFrom(ls[..n], k, neg) == SearchFrom(lsIn[..len], TopBit, neg)
      decreases k + 1
    {
      ghost var s := ls[..n];
      var w := Round(ls, n, k as nat, neg);
      assert SearchFrom(s, k, neg) == if w == 0 then None else if w == 1 then Some(ls[0]) else SearchFrom(ls[..w], k - 1, neg);
      if w == 0 {
        return None;
      }
      if w == 1 {
        return Some(ls[0]);
      }
      n := w;
      k := k - 1;
    }
    return None;
  }

  /** One round of `search` on bit `k`: count, pick the wanted bit, and
    * compact the survivors to the front. */
  method Round(ls: array<nat>, n: nat, k: nat, neg: bool) returns (w: nat)
    requires n <= ls.Length
    modifies ls
    ensures w <= n
    ensures ls[..w] == Keep(old(ls[..n]), k, WantedBit(old(ls[..n]), k, neg))
  {
    var cnt := CountBalance(ls, n, k);
    var notExpect := cnt < 0;
    if neg && k < Cols {
      notExpect := !notExpect;
    }
    var want := !notExpect;
    assert want == WantedBit(ls[..n], k, neg);
    w := Compact(ls, n, k, want);
  }

  /** `main`: the product of the two ratings, `None` where either search
    * traps. At most 1024 entries are read. */
  method LifeSupport(entries: array<nat>) returns (r: Option<int>)
    ensures var n := if entries.Length < 1024 then entries.Length else 1024;
      var a, b := SearchFrom(entries[..n], TopBit, false), SearchFrom(entries[..n], TopBit, true);
      r == if a.Some? && b.Some? then Some(a.value * b.value) else None
  {
    var n := if entries.Length < 1024 then entries.Length else 1024;
    var a := Search(entries, n, false);
    var b := Search(entries, n, true);
    r := if a.Some? && b.Some? then Some(a.value * b.value) else None;
  }

  /** The counter is the number of set bits minus the number of clear bits;
    * the two kept groups split the entries. */
  lemma {:induction false} BalanceCounts(s: seq<nat>, k: nat)
    ensures Balance(s, k) == |Keep(s, k, true)| - |Keep(s, k, false)|
    ensures |Keep(s, k, true)| + |Keep(s, k, false)| == |s|
  {
    if s != [] {
      BalanceCounts(s[..|s| - 1], k);
    }
  }

  /** Without `neg` the kept group is the larger one (ties keep the ones);
    * with `neg` and a bit among the low twelve it is the smaller one (ties
    * keep the zeros). */
  lemma KeepsMajorityOrMinority(s: seq<nat>, k: nat, neg: bool)
    ensures var b := WantedBit(s, k, neg);
      var kept, other := |Keep(s, k, b)|, |Keep(s, k, !b)|;
      if neg && k < Cols then kept < other || (kept == other && !b)
      else kept > other || (kept == other && b)
  {
    BalanceCounts(s, k);
  }

  /** Filtering keeps only entries of the input whose bit `k` is `b`. */
  lemma {:induction false} KeepMembers(s: seq<nat>, k: nat, b: bool)
    ensures forall x :: x in Keep(s, k, b) ==> x in s && BitSet(x, k) == b
  {
    if s != [] {
      KeepMembers(s[..|s| - 1], k, b);
    }
  }

  /** A returned rating is one of the entries searched. */
  lemma {:induction false} SearchFromMember(s: seq<nat>, k: int, neg: bool)
    requires k <= TopBit
    ensures SearchFrom(s, k, neg).Some? ==> SearchFrom(s, k, neg).value in s
    decreases k + 1
  {
    if k >= 0 {
      var w := Keep(s, k, WantedBit(s, k, neg));
      KeepMembers(s, k, WantedBit(s, k, neg));
      assert SearchFrom(s, k, neg) == if |w| == 0 then None else if |w| == 1 then Some(w[0]) else SearchFrom(w, k - 1, neg);
      if |w| > 1 {
        SearchFromMember(w, k - 1, neg);
      } else if |w| == 1 {
        assert w[0] in w;
      }
    }
  }

  /** A returned rating agrees with the bit chosen in every round it took
    * part in: in the first round, with the wanted bit of the whole input. */
  lemma FirstRoundBit(s: seq<nat>, neg: bool)
    ensures SearchFrom(s, TopBit, neg).Some? ==>
      BitSet(SearchFrom(s, TopBit, neg).value, TopBit) == WantedBit(s, TopBit, neg)
  {
    var w := Keep(s, TopBit, WantedBit(s, TopBit, neg));
    KeepMembers(s, TopBit, WantedBit(s, TopBit, neg));
    if |w| > 1 {
      SearchFromMember(w, TopBit - 1, neg);
    } else if |w| == 1 {
      assert w[0] in w;
    }
  }
}
