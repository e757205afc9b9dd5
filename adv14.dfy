/** Polymer growth (adv-14-rs): a polymer is a string of element letters and
  * a rule `AB -> C` inserts `C` between every adjacent `A`, `B`. The program
  * never builds the string; it keeps a count per adjacent pair, with the two
  * ends marked by `None` sentinels, and rewrites the counts. */
module Adv14 {
  import opened Common

  /** A counted pair; `(None, Some(c))` and `(Some(c), None)` mark the ends. */
  type Key = (Option<char>, Option<char>)

  type Rules = map<(char, char), char>

  // ---- maps of counts read as multisets ---------------------------------------

  /** The count a map holds for `k`, 0 when absent. */
  function Count<K(!new)>(m: map<K, nat>, k: K): nat
  {
    if k in m then m[k] else 0
  }

  /** The map holds exactly the multiplicities of `b`. */
  ghost predicate Holds<K(!new)>(m: map<K, nat>, b: multiset<K>)
  {
    forall k {:trigger Count(m, k)} :: Count(m, k) == b[k]
  }

  /** `inc_by`: add `v` to the count of `k`, inserting it when absent. */
  function IncBy<K(!new)>(m: map<K, nat>, k: K, v: nat): (r: map<K, nat>)
    ensures r.Keys == m.Keys + {k}
    ensures r[k] == Count(m, k) + v
    ensures forall j :: j != k ==> Count(r, j) == Count(m, j)
  {
    m[k := Count(m, k) + v]
  }

  /** Every stored count is positive. */
  predicate Positive<K>(m: map<K, nat>)
  {
    forall k :: k in m ==> m[k] > 0
  }

  lemma IncByPositive<K(!new)>(m: map<K, nat>, k: K, v: nat)
    requires Positive(m) && v > 0
    ensures Positive(IncBy(m, k, v))
  {
  }

  /** Adding `v` copies of `k` to the multiset a map holds. */
  lemma IncByHolds<K(!new)>(m: map<K, nat>, b: multiset<K>, k: K, v: nat)
    requires Holds(m, b)
    ensures Holds(IncBy(m, k, v), b + Scale(multiset{k}, v))
  {
    forall j ensures Count(IncBy(m, k, v), j) == (b + Scale(multiset{k}, v))[j] {
      ScaleOne(k, v, j);
    }
  }

  /** `v` copies of `k` hold `k` `v` times and nothing else. */
  lemma ScaleOne<K>(k: K, v: nat, j: K)
    ensures Scale(multiset{k}, v)[j] == if j == k then v else 0
  {
    ScaleAt(multiset{k}, v, j);
  }

  /** `n` copies of every element of `b`. */
  function Scale<T>(b: multiset<T>, n: nat): multiset<T>
  {
    if n == 0 then multiset{} else Scale(b, n - 1) + b
  }

  lemma {:induction false} ScaleAt<T>(b: multiset<T>, n: nat, x: T)
    ensures Scale(b, n)[x] == n * b[x]
  {
    if n > 0 {
      ScaleAt(b, n - 1, x);
      MulPred(n, b[x]);
    }
  }

  lemma {:induction false} ScaleSize<T>(b: multiset<T>, n: nat)
    ensures |Scale(b, n)| == n * |b|
  {
    if n > 0 {
      ScaleSize(b, n - 1);
      MulPred(n, |b|);
    }
  }

  lemma MulPred(n: nat, c: nat)
    requires n > 0
    ensures (n - 1) * c + c == n * c
  {
  }

  /** Every key `k` of `S` contributes `m[k]` copies of `f(k)`; since `+` on
    * multisets is commutative the order the keys are visited in (a hash
    * map's iteration order) does not matter, as `FoldBagRemove` shows. */
  ghost function FoldBag<K(!new), T>(S: set<K>, m: map<K, nat>, f: K -> multiset<T>): multiset<T>
    requires S <= m.Keys
    decreases S
  {
    if S == {} then multiset{}
    else
      var k :| k in S;
      FoldBag(S - {k}, m, f) + Scale(f(k), m[k])
  }

  /** Any key can be taken out of the fold first. */
  lemma {:induction false} FoldBagRemove<K(!new), T>(S: set<K>, m: map<K, nat>, f: K -> multiset<T>, k: K)
    requires S <= m.Keys && k in S
    ensures FoldBag(S, m, f) == FoldBag(S - {k}, m, f) + Scale(f(k), m[k])
    decreases S
  {
    var j :| j in S && FoldBag(S, m, f) == FoldBag(S - {j}, m, f) + Scale(f(j), m[j]);
    if j != k {
      FoldBagRemove(S - {j}, m, f, k);
      FoldBagRemove(S - {k}, m, f, j);
      assert S - {j} - {k} == S - {k} - {j};
    }
  }

  /** The fold only looks at the counts of the keys in `S`. */
  lemma {:induction false} FoldBagAgree<K(!new), T>(S: set<K>, m1: map<K, nat>, m2: map<K, nat>, f: K -> multiset<T>)
    requires S <= m1.Keys && S <= m2.Keys
    requires forall k :: k in S ==> m1[k] == m2[k]
    ensures FoldBag(S, m1, f) == FoldBag(S, m2, f)
    decreases S
  {
    if S != {} {
      var k :| k in S;
      FoldBagRemove(S, m1, f, k);
      FoldBagRemove(S, m2, f, k);
      FoldBagAgree(S - {k}, m1, m2, f);
    }
  }

  lemma {:induction false} FoldBagZero<K(!new), T>(S: set<K>, m: map<K, nat>, f: K -> multiset<T>)
    requires S <= m.Keys
    requires forall k :: k in S ==> m[k] == 0
    ensures FoldBag(S, m, f) == multiset{}
    decreases S
  {
    if S != {} {
      var k :| k in S;
      FoldBagRemove(S, m, f, k);
      FoldBagZero(S - {k}, m, f);
    }
  }

  /** If every key contributes as much to `f` as to `g` and `h` together, so
    * does the whole fold. */
  lemma {:induction false} FoldBagSizeSplit<K(!new), T>(S: set<K>, m: map<K, nat>, f: K -> multiset<T>, g: K -> multiset<T>, h: K -> multiset<T>)
    requires S <= m.Keys
    requires forall k :: k in S ==> |f(k)| == |g(k)| + |h(k)|
    ensures |FoldBag(S, m, f)| == |FoldBag(S, m, g)| + |FoldBag(S, m, h)|
    decreases S
  {
    if S != {} {
      var k :| k in S;
      FoldBagRemove(S, m, f, k);
      FoldBagRemove(S, m, g, k);
      FoldBagRemove(S, m, h, k);
      FoldBagSizeSplit(S - {k}, m, f, g, h);
      ScaleSizeSplit(f(k), g(k), h(k), m[k]);
    }
  }

  /** Copies of a multiset as large as two others together are as large as
    * the same number of copies of each. */
  lemma ScaleSizeSplit<T>(x: multiset<T>, y: multiset<T>, z: multiset<T>, n: nat)
    requires |x| == |y| + |z|
    ensures |Scale(x, n)| == |Scale(y, n)| + |Scale(z, n)|
  {
    ScaleSize(x, n);
    ScaleSize(y, n);
    ScaleSize(z, n);
    Distribute(n, |x|, |y|, |z|);
  }

  lemma Distribute(n: nat, s: nat, a: nat, b: nat)
    requires s == a + b
    ensures n * s == n * a + n * b
  {
  }

  /** The contributions of a sequence of keys, one copy of `f(k)` each. */
  function SeqBag<K(!new), T>(ks: seq<K>, f: K -> multiset<T>): multiset<T>
  {
    if ks == [] then multiset{} else f(ks[0]) + SeqBag(ks[1..], f)
  }

  lemma {:induction false} SeqBagAppend<K(!new), T>(a: seq<K>, b: seq<K>, f: K -> multiset<T>)
    ensures SeqBag(a + b, f) == SeqBag(a, f) + SeqBag(b, f)
    decreases |a|
  {
    if a == [] {
      assert a + b == b;
    } else {
      assert (a + b)[0] == a[0] && (a + b)[1..] == a[1..] + b;
      SeqBagAppend(a[1..], b, f);
    }
  }

  /** Counting first and then adding up per key gives what adding up per
    * element gives. */
  lemma {:induction false} Grouping<K(!new), T>(ks: seq<K>, m: map<K, nat>, f: K -> multiset<T>)
    requires Holds(m, multiset(ks))
    ensures FoldBag(m.Keys, m, f) == SeqBag(ks, f)
    decreases |ks|
  {
    if ks == [] {
      forall k | k in m.Keys ensures m[k] == 0 {
        assert Count(m, k) == multiset(ks)[k];
      }
      FoldBagZero(m.Keys, m, f);
    } else {
      var x := ks[0];
      HoldsDecrement(ks, m);
      Grouping(ks[1..], m[x := m[x] - 1], f);
      FoldBagDecrement(m, f, x);
    }
  }

  /** Taking the first key off the sequence takes one off its count. */
  lemma HoldsDecrement<K(!new)>(ks: seq<K>, m: map<K, nat>)
    requires ks != [] && Holds(m, multiset(ks))
    ensures ks[0] in m && m[ks[0]] >= 1 && m[ks[0] := m[ks[0]] - 1].Keys == m.Keys
    ensures Holds(m[ks[0] := m[ks[0]] - 1], multiset(ks[1..]))
  {
    var x, tail := ks[0], ks[1..];
    assert ks == [x] + tail;
    assert multiset(ks) == multiset{x} + multiset(tail);
    assert Count(m, x) >= 1;
    var m' := m[x := m[x] - 1];
    assert m'.Keys == m.Keys;
    forall k ensures Count(m', k) == multiset(tail)[k] {
      assert Count(m, k) == multiset(ks)[k];
    }
  }

  /** One count less of `x` takes one copy of `f(x)` out of the fold. */
  lemma FoldBagDecrement<K(!new), T>(m: map<K, nat>, f: K -> multiset<T>, x: K)
    requires x in m && m[x] >= 1
    ensures FoldBag(m.Keys, m, f) == f(x) + FoldBag(m.Keys, m[x := m[x] - 1], f)
  {
    var m' := m[x := m[x] - 1];
    assert m'.Keys == m.Keys;
    FoldBagRemove(m.Keys, m, f, x);
    FoldBagRemove(m.Keys, m', f, x);
    FoldBagAgree(m.Keys - {x}, m, m', f);
    assert Scale(f(x), m[x]) == Scale(f(x), m[x] - 1) + f(x);
    UnionRotate(FoldBag(m.Keys - {x}, m, f), Scale(f(x), m[x] - 1), f(x));
  }

  lemma UnionRotate<T>(a: multiset<T>, b: multiset<T>, c: multiset<T>)
    ensures a + (b + c) == c + (a + b)
  {
    forall x ensures (a + (b + c))[x] == (c + (a + b))[x] {
    }
  }

  // ---- the polymer the counts stand for ----------------------------------------

  /** The inner adjacent pairs of a polymer. */
  function InnerPairs(p: seq<char>): (r: seq<Key>)
    ensures |r| == if |p| < 2 then 0 else |p| - 1
  {
    if |p| < 2 then [] else [(Some(p[0]), Some(p[1]))] + InnerPairs(p[1..])
  }

  /** The pairs `Chain::init` counts: the two end markers and every adjacent
    * pair; nothing at all for an empty polymer. */
  function Pairs(p: seq<char>): (r: seq<Key>)
    ensures |r| == if p == [] then 0 else |p| + 1
  {
    if p == [] then []
    else [(None, Some(p[0]))] + InnerPairs(p) + [(Some(p[|p| - 1]), None)]
  }

  /** One growth step on the string itself: the rule's letter, if any,
    * between every adjacent pair. */
  function Insert(p: seq<char>, rules: Rules): (r: seq<char>)
    ensures p != [] ==> r != [] && r[0] == p[0] && r[|r| - 1] == p[|p| - 1]
  {
    if |p| < 2 then p else [p[0]] + Between(p[0], p[1], rules) + Insert(p[1..], rules)
  }

  /** What a growth step puts between `a` and `b`. */
  function Between(a: char, b: char, rules: Rules): (r: seq<char>)
    ensures |r| <= 1
  {
    if (a, b) in rules then [rules[(a, b)]] else []
  }

  /** `n` growth steps. */
  function Grow(p: seq<char>, rules: Rules, n: nat): seq<char>
  {
    if n == 0 then p else Insert(Grow(p, rules, n - 1), rules)
  }

  /** Whether the pair has a rule. */
  predicate Ruled(k: Key, rules: Rules)
  {
    k.0.Some? && k.1.Some? && (k.0.value, k.1.value) in rules
  }

  /** What `apply_map` turns one counted pair into: a ruled pair `(a, b)`
    * into `(a, ins)` and `(ins, b)`, anything else into itself. */
  function Expand(k: Key, rules: Rules): (r: multiset<Key>)
    ensures |r| == if Ruled(k, rules) then 2 else 1
  {
    if Ruled(k, rules) then
      var ins := rules[(k.0.value, k.1.value)];
      multiset{(k.0, Some(ins)), (Some(ins), k.1)}
    else multiset{k}
  }

  function Expansion(rules: Rules): Key -> multiset<Key>
  {
    k => Expand(k, rules)
  }

  /** The letters a counted pair mentions. */
  function Letters(k: Key): (r: multiset<char>)
  {
    (if k.0.Some? then multiset{k.0.value} else multiset{}) + (if k.1.Some? then multiset{k.1.value} else multiset{})
  }

  /** One growth step rewrites the inner pairs exactly as `Expand` does. */
  lemma {:induction false} InsertPairs(p: seq<char>, rules: Rules)
    requires p != []
    ensures multiset(InnerPairs(Insert(p, rules))) == SeqBag(InnerPairs(p), Expansion(rules))
    decreases |p|
  {
    if |p| >= 2 {
      var a, b, q := p[0], p[1], Insert(p[1..], rules);
      InsertPairs(p[1..], rules);
      var head := (Some(a), Some(b));
      InnerPairsCons(a, p[1..]);
      assert p == [a] + p[1..];
      SeqBagCons(head, InnerPairs(p[1..]), Expansion(rules));
      InsertStep(p, rules);
      var E := Expansion(rules);
      if (a, b) in rules {
        var ins := rules[(a, b)];
        var x, y := (Some(a), Some(ins)), (Some(ins), Some(b));
        InnerPairsCons(ins, q);
        InnerPairsCons(a, [ins] + q);
        assert ([ins] + q)[0] == ins;
        PrependTwo(x, y, InnerPairs(q));
        calc {
          multiset(InnerPairs(Insert(p, rules)));
          multiset(InnerPairs([a] + ([ins] + q)));
          multiset([x] + ([y] + InnerPairs(q)));
          multiset{x, y} + multiset(InnerPairs(q));
          Expand(head, rules) + SeqBag(InnerPairs(p[1..]), E);
          SeqBag([head] + InnerPairs(p[1..]), E);
        }
      } else {
        InnerPairsCons(a, q);
        PrependOne(head, InnerPairs(q));
        calc {
          multiset(InnerPairs(Insert(p, rules)));
          multiset(InnerPairs([a] + q));
          multiset([head] + InnerPairs(q));
          multiset{head} + multiset(InnerPairs(q));
          Expand(head, rules) + SeqBag(InnerPairs(p[1..]), E);
          SeqBag([head] + InnerPairs(p[1..]), E);
        }
      }
    }
  }

  lemma SeqBagCons<K(!new), T>(k: K, ks: seq<K>, f: K -> multiset<T>)
    ensures SeqBag([k] + ks, f) == f(k) + SeqBag(ks, f)
  {
    assert ([k] + ks)[1..] == ks;
  }

  lemma InnerPairsCons(a: char, q: seq<char>)
    requires q != []
    ensures InnerPairs([a] + q) == [(Some(a), Some(q[0]))] + InnerPairs(q)
  {
    assert ([a] + q)[1..] == q;
  }

  /** The first growth step of a polymer of two or more letters. */
  lemma InsertStep(p: seq<char>, rules: Rules)
    requires |p| >= 2
    ensures Insert(p[1..], rules) != [] && Insert(p[1..], rules)[0] == p[1]
    ensures (p[0], p[1]) in rules ==> Insert(p, rules) == [p[0]] + ([rules[(p[0], p[1])]] + Insert(p[1..], rules))
    ensures (p[0], p[1]) !in rules ==> Insert(p, rules) == [p[0]] + Insert(p[1..], rules)
  {
    var q := Insert(p[1..], rules);
    var mid := Between(p[0], p[1], rules);
    assert Insert(p, rules) == [p[0]] + mid + q;
    assert [p[0]] + mid + q == [p[0]] + (mid + q);
    if (p[0], p[1]) !in rules {
      assert mid + q == q;
    }
  }

  lemma PrependOne(x: Key, rest: seq<Key>)
    ensures multiset([x] + rest) == multiset{x} + multiset(rest)
  {
  }

  lemma PrependTwo(x: Key, y: Key, rest: seq<Key>)
    ensures multiset([x] + ([y] + rest)) == multiset{x, y} + multiset(rest)
  {
    forall k ensures multiset([x] + ([y] + rest))[k] == (multiset{x, y} + multiset(rest))[k] {
      assert multiset([x] + ([y] + rest)) == multiset([x]) + (multiset([y]) + multiset(rest));
    }
  }

  /** The end markers never change and the inner pairs follow `Expand`, so
    * one growth step maps the pair counts by `Expand`. */
  lemma PairsInsert(p: seq<char>, rules: Rules)
    ensures multiset(Pairs(Insert(p, rules))) == SeqBag(Pairs(p), Expansion(rules))
  {
    if p != [] {
      var s, e := (None, Some(p[0])), (Some(p[|p| - 1]), None);
      var r := Insert(p, rules);
      var E := Expansion(rules);
      InsertPairs(p, rules);
      PairsSplit(p, E);
      PairsSplit(r, E);
      calc {
        multiset(Pairs(r));
        multiset{s} + multiset(InnerPairs(r)) + multiset{e};
        E(s) + SeqBag(InnerPairs(p), E) + E(e);
        SeqBag(Pairs(p), E);
      }
    }
  }

  /** The end markers and the inner pairs, counted apart. */
  lemma PairsSplit<T>(p: seq<char>, f: Key -> multiset<T>)
    requires p != []
    ensures multiset(Pairs(p)) == multiset{(None, Some(p[0]))} + multiset(InnerPairs(p)) + multiset{(Some(p[|p| - 1]), None)}
    ensures SeqBag(Pairs(p), f) == f((None, Some(p[0]))) + SeqBag(InnerPairs(p), f) + f((Some(p[|p| - 1]), None))
  {
    var s, e := (None, Some(p[0])), (Some(p[|p| - 1]), None);
    SeqBagAppend([s], InnerPairs(p), f);
    SeqBagAppend([s] + InnerPairs(p), [e], f);
    assert [s][1..] == [] && [e][1..] == [];
  }

  /** Every letter occurrence is in exactly two counted pairs: with the ends
    * added back the inner pairs mention each occurrence twice. */
  lemma {:induction false} InnerLetters(p: seq<char>)
    requires p != []
    ensures SeqBag(InnerPairs(p), Letters) + multiset{p[0], p[|p| - 1]} == multiset(p) + multiset(p)
    decreases |p|
  {
    if |p| >= 2 {
      InnerLetters(p[1..]);
      InnerBag(p);
      DoubleCount(p, SeqBag(InnerPairs(p[1..]), Letters), SeqBag(InnerPairs(p), Letters));
    }
  }

  /** The first inner pair of `p` counted apart from the rest. */
  lemma InnerBag(p: seq<char>)
    requires |p| >= 2
    ensures SeqBag(InnerPairs(p), Letters) == Letters((Some(p[0]), Some(p[1]))) + SeqBag(InnerPairs(p[1..]), Letters)
  {
    var ps := InnerPairs(p);
    assert ps[0] == (Some(p[0]), Some(p[1])) && ps[1..] == InnerPairs(p[1..]);
  }

  /** The multiset step of `InnerLetters`: a new first letter `p[0]` before
    * `p[1..]` adds the pair `(p[0], p[1])` and moves the front end marker to
    * `p[0]`. */
  lemma DoubleCount(p: seq<char>, rest: multiset<char>, all: multiset<char>)
    requires |p| >= 2
    requires rest + multiset{p[1], p[|p| - 1]} == multiset(p[1..]) + multiset(p[1..])
    requires all == Letters((Some(p[0]), Some(p[1]))) + rest
    ensures all + multiset{p[0], p[|p| - 1]} == multiset(p) + multiset(p)
  {
    var q := p[1..];
    assert p == [p[0]] + q;
    assert multiset(p) == multiset([p[0]]) + multiset(q);
    forall x ensures (all + multiset{p[0], p[|p| - 1]})[x] == (multiset(p) + multiset(p))[x] {
      assert (rest + multiset{p[1], p[|p| - 1]})[x] == (multiset(q) + multiset(q))[x];
    }
  }

  lemma PairsLetters(p: seq<char>)
    ensures SeqBag(Pairs(p), Letters) == multiset(p) + multiset(p)
  {
    if p != [] {
      InnerLetters(p);
      PairsSplit(p, Letters);
      EndLetters(p[0], p[|p| - 1], SeqBag(InnerPairs(p), Letters), multiset(p) + multiset(p));
    }
  }

  lemma EndLetters(a: char, z: char, inner: multiset<char>, all: multiset<char>)
    requires inner + multiset{a, z} == all
    ensures Letters((None, Some(a))) + inner + Letters((Some(z), None)) == all
  {
    forall x ensures (Letters((None, Some(a))) + inner + Letters((Some(z), None)))[x] == all[x] {
      assert (inner + multiset{a, z})[x] == all[x];
    }
  }

  /** A growth step adds one letter per ruled inner pair. */
  lemma {:induction false} InsertLength(p: seq<char>, rules: Rules)
    ensures |Insert(p, rules)| == |p| + |SeqBag(InnerPairs(p), RuledOnly(rules))|
    decreases |p|
  {
    if |p| >= 2 {
      InsertLength(p[1..], rules);
      var head := (Some(p[0]), Some(p[1]));
      SeqBagAppend([head], InnerPairs(p[1..]), RuledOnly(rules));
      assert [head][..0] == [];
    }
  }

  /** A pair if it has a rule, nothing otherwise. */
  function RuledOnly(rules: Rules): Key -> multiset<Key>
  {
    k => if Ruled(k, rules) then multiset{k} else multiset{}
  }

  function Single(k: Key): multiset<Key>
  {
    multiset{k}
  }

  /** The multiset of pairs a map of counts stands for. */
  ghost function Bag(m: map<Key, nat>): multiset<Key>
  {
    FoldBag(m.Keys, m, Single)
  }

  /** `Bag` is the multiset the map holds. */
  lemma BagHolds(m: map<Key, nat>)
    ensures Holds(m, Bag(m))
  {
    forall k ensures Count(m, k) == Bag(m)[k] {
      if k in m {
        FoldBagRemove(m.Keys, m, Single, k);
        FoldBagMissing(m.Keys - {k}, m, Single, k);
        ScaleAt(Single(k), m[k], k);
      } else {
        FoldBagMissing(m.Keys, m, Single, k);
      }
    }
  }

  lemma {:induction false} FoldBagMissing(S: set<Key>, m: map<Key, nat>, f: Key -> multiset<Key>, k: Key)
    requires S <= m.Keys && k !in S
    requires forall j :: j in S ==> f(j)[k] == 0
    ensures FoldBag(S, m, f)[k] == 0
    decreases S
  {
    if S != {} {
      var j :| j in S;
      FoldBagRemove(S, m, f, j);
      FoldBagMissing(S - {j}, m, f, k);
      ScaleAt(f(j), m[j], k);
    }
  }

  /** After a step the total count is the old total plus the counts of the
    * ruled pairs. */
  lemma StepTotal(m: map<Key, nat>, rules: Rules)
    ensures |FoldBag(m.Keys, m, Expansion(rules))| == |Bag(m)| + |FoldBag(m.Keys, m, RuledOnly(rules))|
  {
    FoldBagSizeSplit(m.Keys, m, Expansion(rules), Single, RuledOnly(rules));
  }

  /** The largest and the smallest multiplicity of a non-empty multiset. */
  ghost predicate Spread<T>(b: multiset<T>, hi: nat, lo: nat)
  {
    (exists c :: c in b && b[c] == hi) && (exists d :: d in b && b[d] == lo) &&
    forall e :: e in b ==> lo <= b[e] <= hi
  }

  /** `score` is the most minus the least multiplicity of `b`. */
  ghost predicate Gap<T>(b: multiset<T>, score: nat)
  {
    exists hi: nat, lo: nat :: Spread(b, hi, lo) && score == hi - lo
  }

  /** `score` is half the most minus the least multiplicity of `b`. */
  ghost predicate HalfGap<T>(b: multiset<T>, score: nat)
  {
    exists hi: nat, lo: nat :: Spread(b, hi, lo) && score == (hi - lo) / 2
  }

  // ---- Chain ------------------------------------------------------------------

  class Chain {
    var links: map<Key, nat>

    /** Every stored count is positive. */
    ghost predicate Valid()
      reads this
    {
      Positive(links)
    }

    /** `Chain::init`: the counts of `Pairs(chain)`. */
    constructor Init(chain: seq<char>)
      ensures Valid() && Holds(links, multiset(Pairs(chain)))
      ensures chain == [] ==> links == map[]
    {
      var m := CountPairs(chain);
      links := m;
    }

    /** `apply_map`: the old counts are taken out and every pair's count goes
      * to what it expands to; the end markers are copied over. */
    method ApplyMap(rules: Rules)
      requires Valid()
      modifies this
      ensures Valid()
      ensures Holds(links, FoldBag(old(links).Keys, old(links), Expansion(rules)))
    {
      var oldMap := links;
      links := map[];
      var rest := oldMap.Keys;
      while rest != {}
        invariant rest <= oldMap.Keys
        invariant Valid()
        invariant Holds(links, FoldBag(oldMap.Keys - rest, oldMap, Expansion(rules)))
        decreases rest
      {
        var k :| k in rest;
        VisitStep(oldMap, rest, k, Expansion(rules));
        if k.0.None? || k.1.None? {
          SentinelFresh(oldMap.Keys - rest, oldMap, rules, k);
        }
        Credit(k, oldMap[k], rules, FoldBag(oldMap.Keys - rest, oldMap, Expansion(rules)));
        rest := rest - {k};
      }
      assert oldMap.Keys - rest == oldMap.Keys;
    }

    /** The body of the loop of `apply_map`: the count `n` of the old pair
      * `k` goes to the pairs `k` expands to; an end marker, which nothing
      * else expands to, is stored as it is. */
    method Credit(k: Key, n: nat, rules: Rules, ghost b: multiset<Key>)
      requires Valid() && n > 0 && Holds(links, b)
      requires k.0.None? || k.1.None? ==> b[k] == 0
      modifies this
      ensures Valid() && Holds(links, b + Scale(Expansion(rules)(k), n))
    {
      var m := links;
      if k.0.Some? && k.1.Some? {
        var a, c := k.0.value, k.1.value;
        if (a, c) in rules {
          var ins := rules[(a, c)];
          CreditRule(m, b, rules, a, c, n);
          m := IncBy(m, (Some(a), Some(ins)), n);
          m := IncBy(m, (Some(ins), Some(c)), n);
        } else {
          CreditSame(m, b, rules, k, n);
          m := IncBy(m, k, n);
        }
      } else {
        CreditSame(m, b, rules, k, n);
        m := m[k := n];
      }
      links := m;
    }

  /** `get_chain_score`: every pair's count is credited to the letters it
      * mentions, and the result is half the gap between the most and the
      * least credited letter. */
    method GetChainScore() returns (score: nat)
      requires Valid()
      requires FoldBag(links.Keys, links, Letters) != multiset{}
      ensures HalfGap(FoldBag(links.Keys, links, Letters), score)
    {
      ghost var refsBag := FoldBag(links.Keys, links, Letters);
      var charRefs: map<char, nat> := map[];
      var rest := links.Keys;
      while rest != {}
        invariant rest <= links.Keys
        invariant Positive(charRefs)
        invariant Holds(charRefs, FoldBag(links.Keys - rest, links, Letters))
        decreases rest
      {
        var k :| k in rest;
        VisitStep(links, rest, k, Letters);
        charRefs := AddLetters(charRefs, k, links[k], FoldBag(links.Keys - rest, links, Letters));
        rest := rest - {k};
      }
      assert links.Keys - rest == links.Keys;
      var hi, lo := MaxMin(charRefs, refsBag);
      score := (hi - lo) / 2;
    }
  }

  /** The body of the first loop of `get_chain_score`: the count `n` of a
    * pair is credited to each letter it mentions. */
  method AddLetters(refs: map<char, nat>, k: Key, n: nat, ghost b: multiset<char>) returns (r: map<char, nat>)
    requires Positive(refs)
    requires Holds(refs, b) && n > 0
    ensures Positive(r)
    ensures Holds(r, b + Scale(Letters(k), n))
  {
    r := refs;
    CreditEnd(r, b, k.0, n);
    if k.0.Some? {
      IncByPositive(r, k.0.value, n);
      r := IncBy(r, k.0.value, n);
    }
    CreditEnd(r, b + EndScale(k.0, n), k.1, n);
    if k.1.Some? {
      IncByPositive(r, k.1.value, n);
      r := IncBy(r, k.1.value, n);
    }
    LettersScale(k, n);
    assert b + EndScale(k.0, n) + EndScale(k.1, n) == b + Scale(Letters(k), n);
  }

  /** The body of `Chain::init`: the front marker, a count per adjacent
    * pair, the back marker; an empty map for an empty chain. */
  method CountPairs(chain: seq<char>) returns (m: map<Key, nat>)
    ensures Positive(m)
    ensures Holds(m, multiset(Pairs(chain)))
    ensures chain == [] ==> m == map[]
  {
    if |chain| == 0 {
      m := map[];
    } else {
      var s: Key := (None, Some(chain[0]));
      m := map[s := 1];
      ghost var pre := [s];
      assert chain[..1][1..] == [];
      for i := 0 to |chain| - 1
        invariant Positive(m)
        invariant pre == [s] + InnerPairs(chain[..i + 1])
        invariant Holds(m, multiset(pre))
      {
        var k := (Some(chain[i]), Some(chain[i + 1]));
        CountStep(chain, i, m, pre);
        m := IncBy(m, k, 1);
        pre := pre + [k];
      }
      InitLast(chain, m, pre);
      m := m[(Some(chain[|chain| - 1]), None) := 1];
    }
  }

  /** Adding `v` copies of both `x` and `y`. */
  /** A ruled pair's count goes to the two pairs its rule makes. */
  lemma CreditRule(m: map<Key, nat>, b: multiset<Key>, rules: Rules, a: char, c: char, n: nat)
    requires Positive(m) && Holds(m, b) && n > 0 && (a, c) in rules
    ensures var ins := rules[(a, c)];
      var r := IncBy(IncBy(m, (Some(a), Some(ins)), n), (Some(ins), Some(c)), n);
      Positive(r) && Holds(r, b + Scale(Expansion(rules)((Some(a), Some(c))), n))
  {
    var ins := rules[(a, c)];
    IncByTwice(m, b, (Some(a), Some(ins)), (Some(ins), Some(c)), n);
    IncByPositive(m, (Some(a), Some(ins)), n);
    IncByPositive(IncBy(m, (Some(a), Some(ins)), n), (Some(ins), Some(c)), n);
    assert Expansion(rules)((Some(a), Some(c))) == multiset{(Some(a), Some(ins)), (Some(ins), Some(c))};
  }

  /** A pair without a rule keeps its count, added to what is stored for it;
    * an end marker not stored yet is stored with its count. */
  lemma CreditSame(m: map<Key, nat>, b: multiset<Key>, rules: Rules, k: Key, n: nat)
    requires Positive(m) && Holds(m, b) && n > 0 && !Ruled(k, rules)
    requires k.0.None? || k.1.None? ==> b[k] == 0
    ensures Positive(IncBy(m, k, n)) && Holds(IncBy(m, k, n), b + Scale(Expansion(rules)(k), n))
    ensures k.0.None? || k.1.None? ==> IncBy(m, k, n) == m[k := n]
  {
    IncByHolds(m, b, k, n);
    IncByPositive(m, k, n);
    assert Expansion(rules)(k) == multiset{k};
    if k.0.None? || k.1.None? {
      assert Count(m, k) == b[k];
      assert k !in m;
    }
  }

  lemma IncByTwice(m: map<Key, nat>, b: multiset<Key>, x: Key, y: Key, v: nat)
    requires Holds(m, b)
    ensures Holds(IncBy(IncBy(m, x, v), y, v), b + Scale(multiset{x, y}, v))
  {
    IncByHolds(m, b, x, v);
    IncByHolds(IncBy(m, x, v), b + Scale(multiset{x}, v), y, v);
    assert multiset{x, y} == multiset{x} + multiset{y};
    ScaleSplit(multiset{x}, multiset{y}, v);
  }

  lemma ScaleSplit(x: multiset<Key>, y: multiset<Key>, n: nat)
    ensures Scale(x + y, n) == Scale(x, n) + Scale(y, n)
  {
    forall j ensures Scale(x + y, n)[j] == (Scale(x, n) + Scale(y, n))[j] {
      ScaleAt(x + y, n, j);
      ScaleAt(x, n, j);
      ScaleAt(y, n, j);
    }
  }

  /** `n` copies of the letter an end of a pair holds, if any. */
  function EndScale(o: Option<char>, n: nat): multiset<char>
  {
    if o.Some? then Scale(multiset{o.value}, n) else multiset{}
  }

  lemma LettersScale(k: Key, n: nat)
    ensures Scale(Letters(k), n) == EndScale(k.0, n) + EndScale(k.1, n)
  {
    forall c ensures Scale(Letters(k), n)[c] == (EndScale(k.0, n) + EndScale(k.1, n))[c] {
      ScaleAt(Letters(k), n, c);
      if k.0.Some? { ScaleAt(multiset{k.0.value}, n, c); }
      if k.1.Some? { ScaleAt(multiset{k.1.value}, n, c); }
    }
  }

  /** Crediting `n` to the letter an end holds, if any. */
  lemma CreditEnd(refs: map<char, nat>, b: multiset<char>, o: Option<char>, n: nat)
    requires Holds(refs, b)
    ensures Holds(if o.Some? then IncBy(refs, o.value, n) else refs, b + EndScale(o, n))
  {
    if o.Some? {
      IncByHolds(refs, b, o.value, n);
    } else {
      assert b + EndScale(o, n) == b;
    }
  }

  /** Counting one more `k`. */
  lemma IncBySnoc<K(!new)>(m: map<K, nat>, ks: seq<K>, k: K)
    requires Holds(m, multiset(ks))
    ensures Holds(IncBy(m, k, 1), multiset(ks + [k]))
  {
    forall j ensures Count(IncBy(m, k, 1), j) == multiset(ks + [k])[j] {
      assert Count(m, j) == multiset(ks)[j];
    }
  }

  /** Storing a first count of 1 for a key not counted yet. */
  lemma InsertFresh<K(!new)>(m: map<K, nat>, ks: seq<K>, k: K)
    requires Holds(m, multiset(ks)) && Count(m, k) == 0
    ensures Holds(m[k := 1], multiset(ks + [k]))
  {
    forall j ensures Count(m[k := 1], j) == multiset(ks + [k])[j] {
      assert Count(m, j) == multiset(ks)[j];
    }
  }

  /** One turn of the loop of `Chain::init` counts the next adjacent pair. */
  lemma CountStep(chain: seq<char>, i: nat, m: map<Key, nat>, pre: seq<Key>)
    requires i + 1 < |chain|
    requires pre == [(None, Some(chain[0]))] + InnerPairs(chain[..i + 1])
    requires Holds(m, multiset(pre))
    ensures pre + [(Some(chain[i]), Some(chain[i + 1]))] == [(None, Some(chain[0]))] + InnerPairs(chain[..i + 2])
    ensures Holds(IncBy(m, (Some(chain[i]), Some(chain[i + 1])), 1), multiset(pre + [(Some(chain[i]), Some(chain[i + 1]))]))
  {
    InnerPairsSnoc(chain, i + 1);
    IncBySnoc(m, pre, (Some(chain[i]), Some(chain[i + 1])));
  }

  /** The back end marker completes the count of `Chain::init`. */
  lemma InitLast(chain: seq<char>, m: map<Key, nat>, pre: seq<Key>)
    requires chain != [] && pre == [(None, Some(chain[0]))] + InnerPairs(chain[..|chain|])
    requires Holds(m, multiset(pre))
    ensures Holds(m[(Some(chain[|chain| - 1]), None) := 1], multiset(Pairs(chain)))
  {
    assert chain[..|chain|] == chain;
    var e := (Some(chain[|chain| - 1]), None);
    EndNotCounted(chain, e);
    assert Count(m, e) == multiset(pre)[e];
    InsertFresh(m, pre, e);
  }

  /** Inner pairs have a letter on both sides, so no end marker is one. */
  lemma {:induction false} InnerPairsFull(p: seq<char>, k: Key)
    requires k in InnerPairs(p)
    ensures k.0.Some? && k.1.Some?
    decreases |p|
  {
    if k != InnerPairs(p)[0] {
      assert InnerPairs(p) == [InnerPairs(p)[0]] + InnerPairs(p[1..]);
      InnerPairsFull(p[1..], k);
    }
  }

  lemma EndNotCounted(p: seq<char>, e: Key)
    requires p != [] && e.1.None?
    ensures multiset([(None, Some(p[0]))] + InnerPairs(p))[e] == 0
  {
    if e in InnerPairs(p) {
      InnerPairsFull(p, e);
    }
    assert e !in [(None, Some(p[0]))] + InnerPairs(p);
  }

  lemma {:induction false} InnerPairsSnoc(chain: seq<char>, n: nat)
    requires 1 <= n < |chain|
    ensures InnerPairs(chain[..n + 1]) == InnerPairs(chain[..n]) + [(Some(chain[n - 1]), Some(chain[n]))]
    ensures forall i :: 0 <= i < |InnerPairs(chain[..n])| ==> InnerPairs(chain[..n])[i].0.Some? && InnerPairs(chain[..n])[i].1.Some?
    decreases n
  {
    var p := chain[..n + 1];
    if n == 1 {
      assert p[1..] == [chain[1]];
      assert chain[..1][1..] == [];
    } else {
      InnerPairsSnoc(chain[1..], n - 1);
      assert chain[1..][..n] == p[1..];
      assert chain[1..][..n - 1] == chain[..n][1..];
    }
  }

  /** Visiting key `k` of `m` adds `m[k]` copies of `f(k)` to the fold over
    * the keys visited so far. */
  lemma VisitStep<T>(m: map<Key, nat>, rest: set<Key>, k: Key, f: Key -> multiset<T>)
    requires k in rest && rest <= m.Keys
    ensures FoldBag(m.Keys - (rest - {k}), m, f) == FoldBag(m.Keys - rest, m, f) + Scale(f(k), m[k])
  {
    var done := m.Keys - rest;
    assert m.Keys - (rest - {k}) == done + {k};
    FoldBagRemove(done + {k}, m, f, k);
    assert done + {k} - {k} == done;
  }

  /** An end marker `k` not yet visited has no count in the new map yet:
    * only end markers expand to end markers, each to itself. */
  lemma SentinelFresh(done: set<Key>, m: map<Key, nat>, rules: Rules, k: Key)
    requires done <= m.Keys && k !in done
    requires k.0.None? || k.1.None?
    ensures FoldBag(done, m, Expansion(rules))[k] == 0
  {
    forall j | j in done ensures Expansion(rules)(j)[k] == 0 {
      assert j != k;
    }
    FoldBagMissing(done, m, Expansion(rules), k);
  }

  /** The min/max scan over `char_refs`: ties go to the later entry, which
    * changes the letter kept but not its count. */
  method MaxMin(refs: map<char, nat>, ghost b: multiset<char>) returns (hi: nat, lo: nat)
    requires Holds(refs, b) && b != multiset{}
    requires Positive(refs)
    ensures Spread(b, hi, lo)
  {
    ghost var c0 :| c0 in b;
    var min: Option<(char, nat)> := None;
    var max: Option<(char, nat)> := None;
    var rest := refs.Keys;
    while rest != {}
      invariant rest <= refs.Keys
      invariant min.None? <==> rest == refs.Keys
      invariant max.None? <==> rest == refs.Keys
      invariant min.Some? ==> min.value.0 in refs && refs[min.value.0] == min.value.1
      invariant max.Some? ==> max.value.0 in refs && refs[max.value.0] == max.value.1
      invariant forall c :: c in refs && c !in rest ==> min.value.1 <= refs[c] <= max.value.1
      decreases rest
    {
      var c :| c in rest;
      var n := refs[c];
      if !(min.Some? && min.value.1 < n) {
        min := Some((c, n));
      }
      if !(max.Some? && max.value.1 > n) {
        max := Some((c, n));
      }
      rest := rest - {c};
    }
    assert Count(refs, c0) > 0;
    hi, lo := max.value.1, min.value.1;
    assert Count(refs, max.value.0) == hi && Count(refs, min.value.0) == lo;
    forall e | e in b ensures lo <= b[e] <= hi {
      assert Count(refs, e) == b[e];
    }
  }

  // ---- get_char_max / get_char_min ------------------------------------------

  /** The `track` map of `get_char_max` and `get_char_min`: occurrences of
    * each letter. */
  method Track(chain: seq<char>) returns (track: map<char, nat>)
    ensures Holds(track, multiset(chain))
    ensures Positive(track)
  {
    track := map[];
    for i := 0 to |chain|
      invariant Holds(track, multiset(chain[..i]))
      invariant Positive(track)
    {
      assert chain[..i + 1] == chain[..i] + [chain[i]];
      track := IncBy(track, chain[i], 1);
    }
    assert chain[..|chain|] == chain;
  }

  /** `get_char_max`: the largest number of occurrences of one letter. */
  method GetCharMax(chain: seq<char>) returns (r: nat)
    requires chain != []
    ensures exists hi: nat, lo: nat :: Spread(multiset(chain), hi, lo) && r == hi
  {
    var track := Track(chain);
    assert chain[0] in multiset(chain);
    var hi, lo := MaxMin(track, multiset(chain));
    r := hi;
  }

  /** `get_char_min`: the smallest number of occurrences of one letter. */
  method GetCharMin(chain: seq<char>) returns (r: nat)
    requires chain != []
    ensures exists hi: nat, lo: nat :: Spread(multiset(chain), hi, lo) && r == lo
  {
    var track := Track(chain);
    assert chain[0] in multiset(chain);
    var hi, lo := MaxMin(track, multiset(chain));
    r := lo;
  }

  // ---- main --------------------------------------------------------------------

  /** The counts stand for the pairs of polymer `p`. */
  ghost predicate Represents(links: map<Key, nat>, p: seq<char>)
  {
    Holds(links, multiset(Pairs(p)))
  }

  /** One `apply_map` on the counts of `p` gives the counts of the grown
    * polymer. */
  lemma StepRepresents(old_links: map<Key, nat>, new_links: map<Key, nat>, p: seq<char>, rules: Rules)
    requires Represents(old_links, p)
    requires Holds(new_links, FoldBag(old_links.Keys, old_links, Expansion(rules)))
    ensures Represents(new_links, Insert(p, rules))
  {
    Grouping(Pairs(p), old_links, Expansion(rules));
    PairsInsert(p, rules);
  }

  /** On the counts of `p` the letter credits are twice the occurrences, so
    * the score is exactly the most minus the least frequent letter's count. */
  lemma ScoreOfPolymer(links: map<Key, nat>, p: seq<char>, hi: nat, lo: nat)
    requires Represents(links, p)
    requires Spread(FoldBag(links.Keys, links, Letters), hi, lo)
    ensures Spread(multiset(p), hi / 2, lo / 2) && hi % 2 == 0 && lo % 2 == 0
    ensures (hi - lo) / 2 == hi / 2 - lo / 2
  {
    Grouping(Pairs(p), links, Letters);
    PairsLetters(p);
    SpreadHalf(multiset(p), hi, lo);
  }

  /** Doubling every multiplicity doubles the largest and the smallest. */
  lemma SpreadHalf<T>(b: multiset<T>, hi: nat, lo: nat)
    requires Spread(b + b, hi, lo)
    ensures Spread(b, hi / 2, lo / 2) && hi % 2 == 0 && lo % 2 == 0
    ensures (hi - lo) / 2 == hi / 2 - lo / 2
  {
    var c :| c in b + b && (b + b)[c] == hi;
    var d :| d in b + b && (b + b)[d] == lo;
    var x, y := b[c], b[d];
    assert hi == 2 * x && lo == 2 * y;
    forall e | e in b ensures y <= b[e] <= x {
      assert e in b + b;
    }
    assert y <= x by {
      assert c in b;
    }
    assert hi - lo == 2 * (x - y);
  }

  /** `main`'s rounds: `apply_map` `n` times, then `get_chain_score`; the
    * score is the gap between the most and least common letter of the
    * polymer grown `n` times (10 and 40 in `main`). */
  method Run(chain: seq<char>, rules: Rules, n: nat) returns (score: nat)
    requires chain != []
    ensures Gap(multiset(Grow(chain, rules, n)), score)
  {
    var c := new Chain.Init(chain);
    for i := 0 to n
      invariant c.Valid() && Represents(c.links, Grow(chain, rules, i))
    {
      ghost var before := c.links;
      c.ApplyMap(rules);
      StepRepresents(before, c.links, Grow(chain, rules, i), rules);
      assert Grow(chain, rules, i + 1) == Insert(Grow(chain, rules, i), rules);
    }
    ghost var p := Grow(chain, rules, n);
    GrowNonEmpty(chain, rules, n);
    LettersOfPolymer(c.links, p);
    score := c.GetChainScore();
    ScoreOfPolymerExists(c.links, p, score);
  }

  lemma ScoreOfPolymerExists(links: map<Key, nat>, p: seq<char>, score: nat)
    requires Represents(links, p)
    requires HalfGap(FoldBag(links.Keys, links, Letters), score)
    ensures Gap(multiset(p), score)
  {
    var hi: nat, lo: nat :| Spread(FoldBag(links.Keys, links, Letters), hi, lo) && score == (hi - lo) / 2;
    ScoreOfPolymer(links, p, hi, lo);
    assert Spread(multiset(p), hi / 2, lo / 2) && score == hi / 2 - lo / 2;
  }

  /** The letter credits of the counts of a non-empty polymer are not empty. */
  lemma LettersOfPolymer(links: map<Key, nat>, p: seq<char>)
    requires Represents(links, p) && p != []
    ensures FoldBag(links.Keys, links, Letters) != multiset{}
  {
    Grouping(Pairs(p), links, Letters);
    PairsLetters(p);
    assert p[0] in multiset(p) + multiset(p);
  }

  lemma {:induction false} GrowNonEmpty(p: seq<char>, rules: Rules, n: nat)
    requires p != []
    ensures Grow(p, rules, n) != []
  {
    if n > 0 {
      GrowNonEmpty(p, rules, n - 1);
    }
  }
}
