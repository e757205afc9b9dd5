/** Day 16 (adv-16-rs/src/main.rs): a hexadecimal transmission is expanded
  * into bits and decoded into a tree of packets; part 1 sums the version
  * fields, part 2 evaluates the tree as an expression.
  *
  * The parsers are specified by the functions `Literal`, `Single`, `Many`
  * and `All`, which return `None` where the source panics (a slice out of
  * range); the methods `ParseSinglePacket`, `ParseNPackets` and
  * `ParseAllPackets` walk a cursor over the bits as the source does and are
  * proved to compute those functions. `Encode` writes a packet back as bits,
  * and the round-trip lemmas show that every packet the format can carry is
  * decoded to itself. */
module Adv16 {
  import opened Common

  type Bits = seq<bool>

  /** 2^64: `acc` is a `u64`, so `acc << 4` drops the bits above 64. */
  const U64: nat := 0x1_0000_0000_0000_0000

  // ---- bit fields ---------------------------------------------------------------

  /** `load_be`: a bit slice read as a big-endian unsigned number. */
  function Load(b: Bits): (r: nat)
    ensures r < Pow2(|b|)
  {
    if b == [] then 0 else 2 * Load(b[..|b| - 1]) + (if b[|b| - 1] then 1 else 0)
  }

  /** `x` written in `w` bits, most significant first. */
  function ToBits(x: nat, w: nat): (r: Bits)
    ensures |r| == w
  {
    if w == 0 then [] else ToBits(x / 2, w - 1) + [x % 2 == 1]
  }

  /** Writing a number that fits and reading it back gives the number. */
  lemma {:induction false} LoadToBits(x: nat, w: nat)
    requires x < Pow2(w)
    ensures Load(ToBits(x, w)) == x
  {
    if w > 0 {
      var b := ToBits(x, w);
      assert b[..|b| - 1] == ToBits(x / 2, w - 1);
      LoadToBits(x / 2, w - 1);
    }
  }

  /** Reading bits and writing them back in as many bits gives the bits. */
  lemma {:induction false} ToBitsLoad(b: Bits)
    ensures ToBits(Load(b), |b|) == b
  {
    if b != [] {
      var init := b[..|b| - 1];
      var bit := if b[|b| - 1] then 1 else 0;
      assert Load(b) / 2 == Load(init) && Load(b) % 2 == bit;
      ToBitsLoad(init);
      assert b == init + [b[|b| - 1]];
    }
  }

  /** Reading a concatenation: the front bits are shifted past the back ones. */
  lemma {:induction false} LoadAppend(a: Bits, b: Bits)
    ensures Load(a + b) == Load(a) * Pow2(|b|) + Load(b)
    decreases |b|
  {
    if b == [] {
      assert a + b == a;
    } else {
      var init := b[..|b| - 1];
      assert (a + b)[..|a + b| - 1] == a + init;
      LoadAppend(a, init);
      var bit := if b[|b| - 1] then 1 else 0;
      assert Load(a + b) == 2 * Load(a + init) + bit;
      DoubleProduct(Load(a), Pow2(|init|));
    }
  }

  lemma DoubleProduct(x: nat, p: nat)
    ensures 2 * (x * p) == x * (2 * p)
  {
  }

  /** The field widths the packet format uses. */
  lemma Widths()
    ensures Pow2(3) == 8 && Pow2(4) == 16 && Pow2(11) == 2048 && Pow2(15) == 32768
  {
    assert Pow2(4) == 16;
    assert Pow2(8) == 256;
    assert Pow2(11) == 2048;
    assert Pow2(13) == 8192;
  }

  // ---- read_data: hex digits to bits -----------------------------------------

  /** The value of one byte of the line: `0`-`9` and `A`-`F` (upper case
    * only); every other byte is dropped. */
  function HexValue(c: char): (r: Option<nat>)
    ensures r.Some? ==> r.value < 16
  {
    if '0' <= c <= '9' then Some(c as nat - '0' as nat)
    else if 'A' <= c <= 'F' then Some(c as nat - 'A' as nat + 10)
    else None
  }

  const HexDigits: string := "0123456789ABCDEF"

  /** The digits the parser accepts are exactly the sixteen upper-case hex
    * digits, each read as its position in `0123456789ABCDEF`. */
  lemma HexValueExact(c: char, d: nat)
    ensures HexValue(c) == Some(d) <==> d < 16 && c == HexDigits[d]
  {
  }

  /** The bits of a line: each accepted digit becomes its four bits, most
    * significant first, in the order of the line. */
  function HexBits(s: string): (r: Bits)
    ensures |r| % 4 == 0
  {
    if s == [] then []
    else
      var d := HexValue(s[|s| - 1]);
      HexBits(s[..|s| - 1]) + (if d.Some? then ToBits(d.value, 4) else [])
  }

  /** The digit values of the accepted characters of a line, in order. */
  function DigitValues(s: string): (r: seq<nat>)
  {
    if s == [] then []
    else
      var d := HexValue(s[|s| - 1]);
      DigitValues(s[..|s| - 1]) + (if d.Some? then [d.value] else [])
  }

  /** A sequence of base-16 digits read as a number, most significant first. */
  function Base16(ds: seq<nat>): nat
  {
    if ds == [] then 0 else 16 * Base16(ds[..|ds| - 1]) + ds[|ds| - 1]
  }

  /** The expanded bits have four bits per accepted digit and, read as one
    * number, give the hexadecimal number the line spells. */
  lemma {:induction false} HexBitsValue(s: string)
    ensures |HexBits(s)| == 4 * |DigitValues(s)|
    ensures Load(HexBits(s)) == Base16(DigitValues(s))
  {
    if s != [] {
      var init := s[..|s| - 1];
      HexBitsValue(init);
      var d := HexValue(s[|s| - 1]);
      if d.Some? {
        var ds := DigitValues(s);
        assert ds == DigitValues(init) + [d.value];
        assert ds[..|ds| - 1] == DigitValues(init);
        assert HexBits(s) == HexBits(init) + ToBits(d.value, 4);
        LoadAppend(HexBits(init), ToBits(d.value, 4));
        LoadToBits(d.value, 4);
        assert Pow2(4) == 16;
      } else {
        assert HexBits(s) == HexBits(init) + [];
        assert DigitValues(s) == DigitValues(init) + [];
        assert HexBits(s) == HexBits(init) && DigitValues(s) == DigitValues(init);
      }
    }
  }

  /** Bits whose length is a multiple of four, written as upper-case hex. */
  function HexString(b: Bits): (r: string)
    requires |b| % 4 == 0
    ensures |r| * 4 == |b|
  {
    if b == [] then "" else HexString(b[..|b| - 4]) + [HexDigits[Load(b[|b| - 4..])]]
  }

  /** Expanding the hex text of some bits gives the bits back. */
  lemma {:induction false} HexRoundTrip(b: Bits)
    requires |b| % 4 == 0
    ensures HexBits(HexString(b)) == b
  {
    if b != [] {
      var init, nib := b[..|b| - 4], b[|b| - 4..];
      var s := HexString(b);
      assert s[..|s| - 1] == HexString(init);
      HexRoundTrip(init);
      assert Pow2(4) == 16;
      HexValueExact(s[|s| - 1], Load(nib));
      ToBitsLoad(nib);
      assert b == init + nib;
    }
  }

  // ---- packets ------------------------------------------------------------------

  /** `Packet::Op` (an operator with its sub-packets) and `Packet::Lit`. */
  datatype Packet =
    | Op(version: nat, typeId: nat, ls: seq<Packet>)
    | Lit(version: nat, val: nat)

  /** `rest` is the tail of `v` after at least one bit was consumed. */
  predicate ProperSuffix(rest: Bits, v: Bits)
  {
    |rest| < |v| && rest == v[|v| - |rest|..]
  }

  predicate Suffix(rest: Bits, v: Bits)
  {
    |rest| <= |v| && rest == v[|v| - |rest|..]
  }

  /** The literal loop of `parse_single_packet`: five-bit groups, each adding
    * its four payload bits below `acc` (shifted within a `u64`), until a
    * group whose lead bit is clear. `None` when the bits run out. */
  function Literal(v: Bits, acc: nat): (r: Option<(nat, Bits)>)
    ensures r.Some? ==> r.value.0 < U64 && ProperSuffix(r.value.1, v)
    ensures r.Some? ==> (|v| - |r.value.1|) % 5 == 0
    decreases |v|
  {
    if |v| < 5 then None
    else
      var next := (acc * 16 + Load(v[1..5])) % U64;
      if !v[0] then Some((next, v[5..]))
      else
        var r := Literal(v[5..], next);
        if r.Some? then
          assert v[5..][|v[5..]| - |r.value.1|..] == v[|v| - |r.value.1|..];
          r
        else r
  }

  /** The header fields a decoded packet carries: 3-bit version and type, a
    * `u64` literal value, and operators never of literal type 4. */
  predicate Header(p: Packet)
  {
    p.version < 8 &&
    (p.Op? ==> p.typeId < 8 && p.typeId != 4) &&
    (p.Lit? ==> p.val < U64)
  }

  /** `parse_single_packet`: the packet at the front of `v` and the bits
    * after it, or `None` where the source would index past the end. */
  function Single(v: Bits): (r: Option<(Packet, Bits)>)
    ensures r.Some? ==> Header(r.value.0) && ProperSuffix(r.value.1, v)
    decreases |v|, 1
  {
    if |v| < 6 then None
    else
      var version := Load(v[0..3]);
      var typeId := Load(v[3..6]);
      var body := v[6..];
      assert Pow2(3) == 8;
      if typeId == 4 then
        var lit := Literal(body, 0);
        if lit.None? then None
        else
          assert body[|body| - |lit.value.1|..] == v[|v| - |lit.value.1|..];
          Some((Lit(version, lit.value.0), lit.value.1))
      else if body == [] then None
      else if body[0] then
        if |body| < 12 then None
        else
          var subs := Many(body[12..], Load(body[1..12]));
          if subs.None? then None
          else
            assert body[12..][|body[12..]| - |subs.value.1|..] == v[|v| - |subs.value.1|..];
            Some((Op(version, typeId, subs.value.0), subs.value.1))
      else if |body| < 16 then None
      else
        var size := Load(body[1..16]);
        var after := body[16..];
        if |after| < size then None
        else
          var subs := All(after[..size]);
          if subs.None? then None
          else
            assert after[size..] == v[|v| - |after[size..]|..];
            Some((Op(version, typeId, subs.value), after[size..]))
  }

  /** `parse_n_packets`: exactly `n` packets one after another. */
  function Many(v: Bits, n: nat): (r: Option<(seq<Packet>, Bits)>)
    ensures r.Some? ==> |r.value.0| == n && Suffix(r.value.1, v)
    ensures r.Some? ==> forall i :: 0 <= i < n ==> Header(r.value.0[i])
    decreases |v|, 2, n
  {
    if n == 0 then Some(([], v))
    else
      var first := Single(v);
      if first.None? then None
      else
        var (p, rest) := first.value;
        var others := Many(rest, n - 1);
        if others.None? then None
        else
          assert rest[|rest| - |others.value.1|..] == v[|v| - |others.value.1|..];
          Some(([p] + others.value.0, others.value.1))
  }

  /** `parse_all_packets`: packets one after another until no bit is left. */
  function All(v: Bits): (r: Option<seq<Packet>>)
    ensures r.Some? ==> forall i :: 0 <= i < |r.value| ==> Header(r.value[i])
    decreases |v|, 2
  {
    if v == [] then Some([])
    else
      var first := Single(v);
      if first.None? then None
      else
        var (p, rest) := first.value;
        var others := All(rest);
        if others.None? then None else Some([p] + others.value)
  }

  // ---- the parsers as the source runs them --------------------------------------

  /** The `loop` of `parse_single_packet` for a literal, on the bits after
    * the header. */
  method ReadLiteral(v: Bits) returns (r: Option<(nat, Bits)>)
    ensures r == Literal(v, 0)
  {
    var cur := v;
    var acc: nat := 0;
    while true
      invariant Literal(cur, acc) == Literal(v, 0)
      decreases |cur|
    {
      if |cur| < 5 {
        return None;
      }
      var shouldStop := !cur[0];
      var n := Load(cur[1..5]);
      acc := (acc * 16 + n) % U64;
      cur := cur[5..];
      if shouldStop {
        return Some((acc, cur));
      }
    }
  }

  method ParseSinglePacket(v: Bits) returns (r: Option<(Packet, Bits)>)
    ensures r == Single(v)
    decreases |v|, 1
  {
    if |v| < 6 {
      return None;
    }
    var version := Load(v[0..3]);
    var typeId := Load(v[3..6]);
    var body := v[6..];
    if typeId == 4 {
      var lit := ReadLiteral(body);
      if lit.None? {
        return None;
      }
      return Some((Lit(version, lit.value.0), lit.value.1));
    }
    if body == [] {
      return None;
    }
    if body[0] {
      if |body| < 12 {
        return None;
      }
      var n := Load(body[1..12]);
      var subs := ParseNPackets(body[12..], n);
      if subs.None? {
        return None;
      }
      return Some((Op(version, typeId, subs.value.0), subs.value.1));
    }
    if |body| < 16 {
      return None;
    }
    var size := Load(body[1..16]);
    var after := body[16..];
    if |after| < size {
      return None;
    }
    var subs := ParseAllPackets(after[..size]);
    if subs.None? {
      return None;
    }
    return Some((Op(version, typeId, subs.value), after[size..]));
  }

  /** What is left of `Many` once `done` is already collected. */
  function Prefixed(done: seq<Packet>, r: Option<(seq<Packet>, Bits)>): Option<(seq<Packet>, Bits)>
  {
    if r.None? then None else Some((done + r.value.0, r.value.1))
  }

  lemma PrefixedNone(r: Option<(seq<Packet>, Bits)>)
    ensures Prefixed([], r) == r
  {
    if r.Some? {
      assert [] + r.value.0 == r.value.0;
    }
  }

  lemma ManyStep(done: seq<Packet>, cur: Bits, k: nat, p: Packet, rest: Bits)
    requires k > 0 && Single(cur) == Some((p, rest))
    ensures Prefixed(done, Many(cur, k)) == Prefixed(done + [p], Many(rest, k - 1))
  {
    var others := Many(rest, k - 1);
    if others.Some? {
      assert done + ([p] + others.value.0) == (done + [p]) + others.value.0;
    }
  }

  method ParseNPackets(v: Bits, n: nat) returns (r: Option<(seq<Packet>, Bits)>)
    ensures r == Many(v, n)
    decreases |v|, 2, n
  {
    var cur := v;
    var ls: seq<Packet> := [];
    PrefixedNone(Many(v, n));
    for i := 0 to n
      invariant |cur| <= |v|
      invariant Prefixed(ls, Many(cur, n - i)) == Many(v, n)
    {
      var first := ParseSinglePacket(cur);
      if first.None? {
        return None;
      }
      ManyStep(ls, cur, n - i, first.value.0, first.value.1);
      ls := ls + [first.value.0];
      cur := first.value.1;
    }
    assert ls + [] == ls;
    return Some((ls, cur));
  }

  /** What is left of `All` once `done` is already collected. */
  function PrefixedAll(done: seq<Packet>, r: Option<seq<Packet>>): Option<seq<Packet>>
  {
    if r.None? then None else Some(done + r.value)
  }

  lemma AllStep(done: seq<Packet>, cur: Bits, p: Packet, rest: Bits)
    requires cur != [] && Single(cur) == Some((p, rest))
    ensures PrefixedAll(done, All(cur)) == PrefixedAll(done + [p], All(rest))
  {
    var others := All(rest);
    if others.Some? {
      assert done + ([p] + others.value) == (done + [p]) + others.value;
    }
  }

  method ParseAllPackets(v: Bits) returns (r: Option<seq<Packet>>)
    ensures r == All(v)
    decreases |v|, 2
  {
    var cur := v;
    var ls: seq<Packet> := [];
    if All(v).Some? {
      assert [] + All(v).value == All(v).value;
    }
    while cur != []
      invariant |cur| <= |v|
      invariant PrefixedAll(ls, All(cur)) == All(v)
      decreases |cur|
    {
      var first := ParseSinglePacket(cur);
      if first.None? {
        return None;
      }
      AllStep(ls, cur, first.value.0, first.value.1);
      ls := ls + [first.value.0];
      cur := first.value.1;
    }
    assert ls + [] == ls;
    return Some(ls);
  }

  // ---- writing packets back -----------------------------------------------------

  /** The hex digits of `x`, most significant first, at least one. */
  function Nibbles(x: nat): (r: seq<nat>)
    ensures r != [] && forall i :: 0 <= i < |r| ==> r[i] < 16
  {
    if x < 16 then [x] else Nibbles(x / 16) + [x % 16]
  }

  /** Literal groups for the digits `ds`: a lead bit (set on all but the
    * last group) and the digit's four bits. */
  function Groups(ds: seq<nat>): (r: Bits)
    requires ds != []
    ensures |r| == 5 * |ds|
  {
    if |ds| == 1 then [false] + ToBits(ds[0], 4)
    else [true] + ToBits(ds[0], 4) + Groups(ds[1..])
  }

  /** The literal loop's accumulation without the `u64` cut: `acc` followed
    * by the digits `ds`. */
  function Shifted(acc: nat, ds: seq<nat>): nat
    decreases ds
  {
    if ds == [] then acc else Shifted(acc * 16 + ds[0], ds[1..])
  }

  lemma {:induction false} ShiftedGrows(acc: nat, ds: seq<nat>)
    ensures Shifted(acc, ds) >= acc
    decreases ds
  {
    if ds != [] {
      ShiftedGrows(acc * 16 + ds[0], ds[1..]);
    }
  }

  lemma {:induction false} ShiftedSnoc(acc: nat, ds: seq<nat>, d: nat)
    ensures Shifted(acc, ds + [d]) == 16 * Shifted(acc, ds) + d
    decreases ds
  {
    if ds != [] {
      assert (ds + [d])[1..] == ds[1..] + [d];
      ShiftedSnoc(acc * 16 + ds[0], ds[1..], d);
    }
  }

  /** The digits of `x` accumulate back to `x`. */
  lemma {:induction false} ShiftedNibbles(x: nat)
    ensures Shifted(0, Nibbles(x)) == x
  {
    if x >= 16 {
      ShiftedNibbles(x / 16);
      ShiftedSnoc(0, Nibbles(x / 16), x % 16);
    }
  }

  /** The literal loop reads the groups of `ds` back as their digits. */
  lemma {:induction false} LiteralGroups(ds: seq<nat>, acc: nat, rest: Bits)
    requires ds != [] && forall i :: 0 <= i < |ds| ==> ds[i] < 16
    requires Shifted(acc, ds) < U64
    ensures Literal(Groups(ds) + rest, acc) == Some((Shifted(acc, ds), rest))
  {
    var next := acc * 16 + ds[0];
    ShiftedGrows(next, ds[1..]);
    LiteralHead(ds, acc, rest);
    if |ds| > 1 {
      LiteralGroups(ds[1..], next, rest);
    }
  }

  /** The first group of `ds` is read as its digit, and the loop stops after
    * it exactly when it is the last. */
  lemma LiteralHead(ds: seq<nat>, acc: nat, rest: Bits)
    requires ds != [] && ds[0] < 16 && acc * 16 + ds[0] < U64
    ensures Literal(Groups(ds) + rest, acc) ==
      if |ds| == 1 then Some((acc * 16 + ds[0], rest))
      else Literal(Groups(ds[1..]) + rest, acc * 16 + ds[0])
  {
    Widths();
    LoadToBits(ds[0], 4);
    GroupsParts(ds, rest);
    LiteralStep(Groups(ds) + rest, acc, ds[0]);
  }

  /** One group read by the literal loop, when the `u64` cut does not bite. */
  lemma LiteralStep(v: Bits, acc: nat, d: nat)
    requires |v| >= 5 && Load(v[1..5]) == d && acc * 16 + d < U64
    ensures Literal(v, acc) ==
      if !v[0] then Some((acc * 16 + d, v[5..])) else Literal(v[5..], acc * 16 + d)
  {
  }

  /** The bits of the first group: its continuation flag, then its digit;
    * what follows is the other groups or, after the last, the rest. */
  lemma GroupsParts(ds: seq<nat>, rest: Bits)
    requires ds != []
    ensures |Groups(ds) + rest| >= 5
    ensures (Groups(ds) + rest)[0] == (|ds| > 1)
    ensures (Groups(ds) + rest)[1..5] == ToBits(ds[0], 4)
    ensures (Groups(ds) + rest)[5..] == if |ds| == 1 then rest else Groups(ds[1..]) + rest
  {
    var v := Groups(ds) + rest;
    assert v[1..5] == ToBits(ds[0], 4);
    if |ds| == 1 {
      assert v[5..] == rest;
    } else {
      assert v[5..] == Groups(ds[1..]) + rest;
    }
  }

  /** `Encode(p, count)` writes `p` with operators in length type 1 (a
    * sub-packet count) when `count` holds, in length type 0 (a bit length)
    * otherwise. */
  function Encode(p: Packet, count: bool): Bits
  {
    match p
    case Lit(version, val) => ToBits(version, 3) + ToBits(4, 3) + Groups(Nibbles(val))
    case Op(version, typeId, ls) =>
      ToBits(version, 3) + ToBits(typeId, 3) +
      (if count then [true] + ToBits(|ls|, 11) else [false] + ToBits(|Body(ls, count)|, 15)) +
      Body(ls, count)
  }

  /** The sub-packets written one after another. */
  function Body(ls: seq<Packet>, count: bool): Bits
  {
    if ls == [] then [] else Encode(ls[0], count) + Body(ls[1..], count)
  }

  /** Packets the format can carry: headers fit and every operator's count
    * fits 11 bits (`count`) or its body length fits 15 bits. */
  predicate Encodable(p: Packet, count: bool)
  {
    Header(p) &&
    match p
    case Lit(_, _) => true
    case Op(_, _, ls) =>
      (if count then |ls| < 2048 else |Body(ls, count)| < 32768) && EncodableAll(ls, count)
  }

  predicate EncodableAll(ls: seq<Packet>, count: bool)
  {
    ls == [] || (Encodable(ls[0], count) && EncodableAll(ls[1..], count))
  }

  lemma HeaderBits(p: Packet, count: bool, rest: Bits, tag: nat)
    requires p.version < 8 && tag < 8
    ensures (ToBits(p.version, 3) + ToBits(tag, 3) + rest)[0..3] == ToBits(p.version, 3)
    ensures (ToBits(p.version, 3) + ToBits(tag, 3) + rest)[3..6] == ToBits(tag, 3)
    ensures (ToBits(p.version, 3) + ToBits(tag, 3) + rest)[6..] == rest
    ensures Load(ToBits(p.version, 3)) == p.version && Load(ToBits(tag, 3)) == tag
  {
    assert Pow2(3) == 8;
    LoadToBits(p.version, 3);
    LoadToBits(tag, 3);
  }

  /** Round trip: decoding the encoding of a packet, followed by anything,
    * gives back the packet and exactly what followed. */
  lemma SingleRoundTrip(p: Packet, count: bool, rest: Bits)
    requires Encodable(p, count)
    ensures Single(Encode(p, count) + rest) == Some((p, rest))
    decreases p, 2
  {
    if p.Lit? {
      LitRoundTrip(p, count, rest);
    } else if count {
      CountRoundTrip(p, rest);
    } else {
      SizeRoundTrip(p, rest);
    }
  }

  lemma LitRoundTrip(p: Packet, count: bool, rest: Bits)
    requires p.Lit? && Encodable(p, count)
    ensures Single(Encode(p, count) + rest) == Some((p, rest))
  {
    var g := Groups(Nibbles(p.val));
    Widths();
    assert Encode(p, count) + rest == ToBits(p.version, 3) + ToBits(4, 3) + (g + rest);
    HeaderBits(p, count, g + rest, 4);
    ShiftedNibbles(p.val);
    LiteralGroups(Nibbles(p.val), 0, rest);
  }

  /** An operator written in length type 1 reads back. */
  lemma {:induction false} CountRoundTrip(p: Packet, rest: Bits)
    requires p.Op? && Encodable(p, true)
    ensures Single(Encode(p, true) + rest) == Some((p, rest))
    decreases p, 1
  {
    var body := Body(p.ls, true);
    var tail := [true] + ToBits(|p.ls|, 11) + (body + rest);
    Widths();
    assert Encode(p, true) + rest == ToBits(p.version, 3) + ToBits(p.typeId, 3) + tail;
    HeaderBits(p, true, tail, p.typeId);
    assert tail[1..12] == ToBits(|p.ls|, 11) && tail[12..] == body + rest;
    LoadToBits(|p.ls|, 11);
    ManyRoundTrip(p.ls, true, rest);
  }

  /** An operator written in length type 0 reads back. */
  lemma {:induction false} SizeRoundTrip(p: Packet, rest: Bits)
    requires p.Op? && Encodable(p, false)
    ensures Single(Encode(p, false) + rest) == Some((p, rest))
    decreases p, 1
  {
    var body := Body(p.ls, false);
    var tail := [false] + ToBits(|body|, 15) + (body + rest);
    Widths();
    assert Encode(p, false) + rest == ToBits(p.version, 3) + ToBits(p.typeId, 3) + tail;
    HeaderBits(p, false, tail, p.typeId);
    assert tail[1..16] == ToBits(|body|, 15);
    var after := tail[16..];
    assert after == body + rest;
    assert after[..|body|] == body && after[|body|..] == rest;
    LoadToBits(|body|, 15);
    AllRoundTrip(p.ls, false);
  }

  /** Decoding `|ls|` packets from their encodings gives `ls` back. */
  lemma {:induction false} ManyRoundTrip(ls: seq<Packet>, count: bool, rest: Bits)
    requires EncodableAll(ls, count)
    ensures Many(Body(ls, count) + rest, |ls|) == Some((ls, rest))
    decreases ls, 0
  {
    if ls != [] {
      var tail := Body(ls[1..], count) + rest;
      BodyCons(ls, count, rest);
      SingleRoundTrip(ls[0], count, tail);
      ManyRoundTrip(ls[1..], count, rest);
      ManyCons(Body(ls, count) + rest, ls, tail, rest);
    } else {
      assert Body(ls, count) + rest == rest;
    }
  }

  lemma BodyCons(ls: seq<Packet>, count: bool, rest: Bits)
    requires ls != []
    ensures Body(ls, count) + rest == Encode(ls[0], count) + (Body(ls[1..], count) + rest)
  {
  }

  /** One packet read by `Single`, then the others, make all of `ls`. */
  lemma ManyCons(v: Bits, ls: seq<Packet>, tail: Bits, rest: Bits)
    requires ls != []
    requires Single(v) == Some((ls[0], tail)) && Many(tail, |ls| - 1) == Some((ls[1..], rest))
    ensures Many(v, |ls|) == Some((ls, rest))
  {
    assert [ls[0]] + ls[1..] == ls;
  }

  /** Decoding packets until the bits run out, on exactly their encodings,
    * gives them back. */
  lemma {:induction false} AllRoundTrip(ls: seq<Packet>, count: bool)
    requires EncodableAll(ls, count)
    ensures All(Body(ls, count)) == Some(ls)
    decreases ls, 0
  {
    if ls != [] {
      var tail := Body(ls[1..], count);
      SingleRoundTrip(ls[0], count, tail);
      AllRoundTrip(ls[1..], count);
      assert [ls[0]] + ls[1..] == ls;
    }
  }

  // ---- get_version_sum and exec -------------------------------------------------

  /** Every version field of the tree, in pre-order. */
  function Versions(p: Packet): seq<nat>
  {
    match p
    case Lit(version, _) => [version]
    case Op(version, _, ls) => [version] + VersionsAll(ls)
  }

  function VersionsAll(ls: seq<Packet>): seq<nat>
  {
    if ls == [] then [] else Versions(ls[0]) + VersionsAll(ls[1..])
  }

  /** `get_version_sum`: the packet's own version plus its children's sums,
    * which is every version field of the tree counted once. */
  function VersionSum(p: Packet): (r: nat)
    ensures r == Sum(Versions(p))
    decreases p, 1
  {
    match p
    case Lit(version, _) =>
      assert Sum([version]) == version + Sum([]);
      version
    case Op(version, _, ls) =>
      SumAppend([version], VersionsAll(ls));
      assert Sum([version]) == version + Sum([]);
      SumVersions(ls) + version
  }

  /** The children's version sums add up to the sum of all their versions. */
  function SumVersions(ls: seq<Packet>): (r: nat)
    ensures r == Sum(VersionsAll(ls))
    decreases ls, 0
  {
    if ls == [] then 0
    else
      SumAppend(Versions(ls[0]), VersionsAll(ls[1..]));
      VersionSum(ls[0]) + SumVersions(ls[1..])
  }

  /** `exec` neither unwraps an empty `min`/`max`, nor indexes a missing
    * operand, nor meets an unknown type. A comparison evaluates only its
    * first two children, so only they need to be runnable. */
  predicate Runnable(p: Packet)
  {
    match p
    case Lit(_, _) => true
    case Op(_, t, ls) =>
      if t == 5 || t == 6 || t == 7 then |ls| >= 2 && Runnable(ls[0]) && Runnable(ls[1])
      else (t == 0 || t == 1 || ((t == 2 || t == 3) && ls != [])) && RunnableAll(ls)
  }

  predicate RunnableAll(ls: seq<Packet>)
  {
    ls == [] || (Runnable(ls[0]) && RunnableAll(ls[1..]))
  }

  lemma {:induction false} RunnableAt(ls: seq<Packet>, i: nat)
    requires RunnableAll(ls) && i < |ls|
    ensures Runnable(ls[i])
  {
    if i > 0 {
      RunnableAt(ls[1..], i - 1);
    }
  }

  function Total(xs: seq<nat>): nat
  {
    if xs == [] then 0 else xs[0] + Total(xs[1..])
  }

  function Product(xs: seq<nat>): nat
  {
    if xs == [] then 1 else xs[0] * Product(xs[1..])
  }

  /** The least of a non-empty sequence. */
  function Least(xs: seq<nat>): (r: nat)
    requires xs != []
    ensures r in xs && forall i :: 0 <= i < |xs| ==> r <= xs[i]
  {
    if |xs| == 1 then xs[0]
    else
      var m := Least(xs[1..]);
      assert forall i :: 1 <= i < |xs| ==> xs[i] == xs[1..][i - 1];
      if xs[0] <= m then xs[0] else m
  }

  /** The greatest of a non-empty sequence. */
  function Greatest(xs: seq<nat>): (r: nat)
    requires xs != []
    ensures r in xs && forall i :: 0 <= i < |xs| ==> xs[i] <= r
  {
    if |xs| == 1 then xs[0]
    else
      var m := Greatest(xs[1..]);
      assert forall i :: 1 <= i < |xs| ==> xs[i] == xs[1..][i - 1];
      if xs[0] >= m then xs[0] else m
  }

  function Flag(b: bool): nat
  {
    if b then 1 else 0
  }

  /** `exec`: a literal's value, or the operator applied to its children's
    * values. */
  function Exec(p: Packet): (r: nat)
    requires Runnable(p)
    ensures p.Op? && 5 <= p.typeId <= 7 ==> r <= 1
    ensures p.Op? && (p.typeId == 2 || p.typeId == 3) ==> r in Values(p.ls)
    decreases p, 1
  {
    match p
    case Lit(_, val) => val
    case Op(_, t, ls) =>
      if t == 5 then Flag(Exec(ls[0]) > Exec(ls[1]))
      else if t == 6 then Flag(Exec(ls[0]) < Exec(ls[1]))
      else if t == 7 then Flag(Exec(ls[0]) == Exec(ls[1]))
      else
        var xs := Values(ls);
        if t == 0 then Total(xs)
        else if t == 1 then Product(xs)
        else if t == 2 then Least(xs)
        else Greatest(xs)
  }

  /** The children's values, in order. */
  function Values(ls: seq<Packet>): (r: seq<nat>)
    requires RunnableAll(ls)
    ensures |r| == |ls|
    decreases ls, 0
  {
    if ls == [] then [] else [Exec(ls[0])] + Values(ls[1..])
  }

  lemma {:induction false} ValuesAt(ls: seq<Packet>, i: nat)
    requires RunnableAll(ls) && i < |ls|
    ensures Runnable(ls[i]) && Values(ls)[i] == Exec(ls[i])
  {
    if i > 0 {
      ValuesAt(ls[1..], i - 1);
    }
  }

  /** A minimum or maximum operator takes the value of one of its children,
    * and bounds all of them from below or above. */
  lemma ExecExtremes(p: Packet)
    requires Runnable(p) && p.Op? && (p.typeId == 2 || p.typeId == 3)
    ensures exists i :: 0 <= i < |p.ls| && Runnable(p.ls[i]) && Exec(p) == Exec(p.ls[i])
    ensures forall i :: 0 <= i < |p.ls| ==>
      Runnable(p.ls[i]) && (if p.typeId == 2 then Exec(p) <= Exec(p.ls[i]) else Exec(p.ls[i]) <= Exec(p))
  {
    var xs := Values(p.ls);
    forall i | 0 <= i < |p.ls|
      ensures Runnable(p.ls[i]) && Values(p.ls)[i] == Exec(p.ls[i])
    {
      ValuesAt(p.ls, i);
    }
    var j :| 0 <= j < |xs| && xs[j] == Exec(p);
    assert Runnable(p.ls[j]) && Exec(p) == Exec(p.ls[j]);
  }

  /** A comparison operator yields 1 exactly when its first two children
    * compare as its type says, and 0 otherwise. */
  lemma ExecCompare(p: Packet)
    requires Runnable(p) && p.Op? && 5 <= p.typeId <= 7
    ensures Runnable(p.ls[0]) && Runnable(p.ls[1])
    ensures Exec(p) <= 1
    ensures Exec(p) == 1 <==>
      (if p.typeId == 5 then Exec(p.ls[0]) > Exec(p.ls[1])
       else if p.typeId == 6 then Exec(p.ls[0]) < Exec(p.ls[1])
       else Exec(p.ls[0]) == Exec(p.ls[1]))
  {
  }

  /** Children after the first two of a comparison are never evaluated:
    * the comparison runs, with the same value, whatever they hold. */
  lemma CompareIgnoresRest(p: Packet)
    requires p.Op? && 5 <= p.typeId <= 7 && |p.ls| >= 2
    requires Runnable(p.ls[0]) && Runnable(p.ls[1])
    ensures Runnable(p) && Runnable(Op(p.version, p.typeId, p.ls[..2]))
    ensures Exec(p) == Exec(Op(p.version, p.typeId, p.ls[..2]))
  {
    var q := Op(p.version, p.typeId, p.ls[..2]);
    assert q.ls[0] == p.ls[0] && q.ls[1] == p.ls[1];
  }

  /** A sum operator adds, and a product operator multiplies, the children's
    * values; with no children they give 0 and 1. */
  lemma {:induction false} ExecFolds(p: Packet, q: Packet)
    requires Runnable(p) && Runnable(q) && p.Op? && q.Op? && p.ls != []
    requires q.ls == p.ls[1..] && q.typeId == p.typeId && p.typeId <= 1
    ensures Runnable(p.ls[0])
    ensures p.typeId == 0 ==> Exec(p) == Exec(p.ls[0]) + Exec(q)
    ensures p.typeId == 1 ==> Exec(p) == Exec(p.ls[0]) * Exec(q)
  {
    ValuesAt(p.ls, 0);
  }

  lemma ExecEmpty(p: Packet)
    requires p.Op? && p.ls == [] && p.typeId <= 1
    ensures Runnable(p) && Exec(p) == p.typeId
  {
  }

  // ---- main ---------------------------------------------------------------------

  /** `main`: the packet at the front of the line's bits, with its version
    * sum and, where `exec` does not panic, its value. */
  function Answers(line: string): (r: Option<(nat, Option<nat>)>)
    ensures r.Some? <==> Single(HexBits(line)).Some?
  {
    var parsed := Single(HexBits(line));
    if parsed.None? then None
    else
      var p := parsed.value.0;
      Some((VersionSum(p), if Runnable(p) then Some(Exec(p)) else None))
  }

  /** A transmission written as hex, padded with any bits to a multiple of
    * four, is answered with the version sum and value of the packet it
    * carries. */
  lemma Transmission(p: Packet, count: bool, pad: Bits)
    requires Encodable(p, count) && Runnable(p)
    requires (|Encode(p, count)| + |pad|) % 4 == 0
    ensures Answers(HexString(Encode(p, count) + pad)) == Some((VersionSum(p), Some(Exec(p))))
  {
    var bits := Encode(p, count) + pad;
    SingleRoundTrip(p, count, pad);
    HexAnswers(bits, p, pad);
  }

  /** Bits a packet starts, written as hex, are answered for that packet. */
  lemma HexAnswers(bits: Bits, p: Packet, rest: Bits)
    requires |bits| % 4 == 0 && Single(bits) == Some((p, rest)) && Runnable(p)
    ensures Answers(HexString(bits)) == Some((VersionSum(p), Some(Exec(p))))
  {
    HexRoundTrip(bits);
    AnswersOf(HexString(bits), p, rest);
  }

  lemma AnswersOf(line: string, p: Packet, rest: Bits)
    requires Single(HexBits(line)) == Some((p, rest)) && Runnable(p)
    ensures Answers(line) == Some((VersionSum(p), Some(Exec(p))))
  {
  }
}
