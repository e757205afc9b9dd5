/** Small shared vocabulary used by every puzzle module: an optional value
  * (Rust's `Option`, C's "-1 on error" returns) and a few sequence folds. */
module Common {
  datatype Option<T> = None | Some(value: T)

  /** Sum of a sequence of integers, folded from the front. */
  function Sum(s: seq<int>): int
  {
    if s == [] then 0 else s[0] + Sum(s[1..])
  }

  lemma {:induction false} SumAppend(a: seq<int>, b: seq<int>)
    ensures Sum(a + b) == Sum(a) + Sum(b)
  {
    if a == [] {
      assert a + b == b;
    } else {
      assert (a + b)[1..] == a[1..] + b;
      SumAppend(a[1..], b);
    }
  }

  /** Two to the power `k`. */
  function Pow2(k: nat): (r: nat)
    ensures r >= 1
  {
    if k == 0 then 1 else 2 * Pow2(k - 1)
  }

  /** `x` raised to the power `k`. */
  function Pow(x: int, k: nat): int
  {
    if k == 0 then 1 else x * Pow(x, k - 1)
  }

  function Abs(x: int): (r: nat)
    ensures r == x || r == -x
  {
    if x < 0 then -x else x
  }

  /** Bit `k` of a natural number, bit 0 being the least significant. */
  predicate BitSet(x: nat, k: nat)
  {
    if k == 0 then x % 2 == 1 else BitSet(x / 2, k - 1)
  }

  /** Shifting one bit in at the bottom (`x << 1 | bit`) moves every other
    * bit up by one place. */
  lemma BitsOfShiftIn(g: nat, bit: nat, j: nat)
    requires bit <= 1
    ensures BitSet(2 * g + bit, 0) <==> bit == 1
    ensures BitSet(2 * g + bit, j + 1) <==> BitSet(g, j)
  {
    assert (2 * g + bit) / 2 == g;
  }

  /** `x >> i` on an unsigned value: `i` halvings. */
  function Shr(x: nat, i: nat): nat
  {
    if i == 0 then x else Shr(x, i - 1) / 2
  }

  lemma {:induction false} ShrHalf(x: nat, i: nat)
    requires i > 0
    ensures Shr(x, i) == Shr(x / 2, i - 1)
  {
    if i > 1 {
      ShrHalf(x, i - 1);
    }
  }

  /** Bit `i` is the low bit of `x >> i`. */
  lemma {:induction false} BitSetShr(x: nat, i: nat)
    ensures BitSet(x, i) <==> Shr(x, i) % 2 == 1
  {
    if i > 0 {
      ShrHalf(x, i);
      BitSetShr(x / 2, i - 1);
    }
  }

  /** `1 << k` has bit `k` and no other. */
  lemma {:induction false} BitSetPow2(k: nat, j: nat)
    ensures BitSet(Pow2(k), j) <==> j == k
  {
    if k > 0 && j > 0 {
      BitSetPow2(k - 1, j - 1);
    } else if j > 0 {
      BitSetZero(j - 1);
    }
  }

  lemma {:induction false} BitSetZero(j: nat)
    ensures !BitSet(0, j)
  {
    if j > 0 {
      BitSetZero(j - 1);
    }
  }

  /** `a & b` on unsigned values. */
  function BitAnd(a: nat, b: nat): nat
  {
    if a == 0 || b == 0 then 0
    else 2 * BitAnd(a / 2, b / 2) + (if a % 2 == 1 && b % 2 == 1 then 1 else 0)
  }

  lemma {:induction false} BitAndSelf(a: nat)
    ensures BitAnd(a, a) == a
  {
    if a > 0 {
      BitAndSelf(a / 2);
    }
  }

  /** `a | b` on unsigned values. */
  function BitOr(a: nat, b: nat): nat
  {
    if a == 0 then b else if b == 0 then a
    else 2 * BitOr(a / 2, b / 2) + (if a % 2 == 1 || b % 2 == 1 then 1 else 0)
  }

  /** `a ^ b` on unsigned values. */
  function BitXor(a: nat, b: nat): nat
  {
    if a == 0 then b else if b == 0 then a
    else 2 * BitXor(a / 2, b / 2) + (if a % 2 != b % 2 then 1 else 0)
  }

  /** `count_ones`: the number of set bits. */
  function PopCount(a: nat): nat
  {
    if a == 0 then 0 else a % 2 + PopCount(a / 2)
  }

  lemma MulAtLeast(b: int, t: int)
    requires b > 0 && t >= 1
    ensures b * t >= b
  {
  }

  /** Division with remainder is unique: if `x == b * k + r` with `0 <= r < b`
    * then `k` and `r` are Dafny's (Euclidean) quotient and remainder. */
  lemma ModUnique(x: int, b: int, k: int, r: int)
    requires b > 0 && 0 <= r < b
    requires x == b * k + r
    ensures x % b == r && x / b == k
  {
    var q, s := x / b, x % b;
    assert x == b * q + s;
    assert b * (k - q) == s - r;
    if k - q >= 1 {
      MulAtLeast(b, k - q);
    } else if q - k >= 1 {
      MulAtLeast(b, q - k);
    }
  }

  /** Rust's `/` on signed integers: the quotient truncated toward zero. */
  function Quot(n: int, d: int): int
    requires d != 0
  {
    if d > 0 then (if n >= 0 then n / d else -((-n) / d))
    else (if n >= 0 then -(n / -d) else (-n) / (-d))
  }

  /** Rust's `%` (`rem`) on signed integers: what the truncated quotient
    * leaves over. */
  function Rem(n: int, d: int): int
    requires d != 0
  {
    n - d * Quot(n, d)
  }

  /** The remainder is smaller than the divisor and takes the sign of `n`;
    * it is zero exactly when `d` divides `n`. */
  lemma RemMeaning(n: int, d: int)
    requires d != 0
    ensures Abs(Rem(n, d)) < Abs(d)
    ensures n >= 0 ==> Rem(n, d) >= 0
    ensures n <= 0 ==> Rem(n, d) <= 0
    ensures Rem(n, d) == 0 <==> n % Abs(d) == 0
  {
    if d < 0 {
      assert Quot(n, d) == -Quot(n, -d);
      assert Rem(n, d) == Rem(n, -d);
      RemPositive(n, -d);
    } else {
      RemPositive(n, d);
    }
  }

  lemma RemPositive(n: int, d: int)
    requires d > 0
    ensures Abs(Rem(n, d)) < d
    ensures n >= 0 ==> Rem(n, d) >= 0
    ensures n <= 0 ==> Rem(n, d) <= 0
    ensures Rem(n, d) == 0 <==> n % d == 0
  {
    if n >= 0 {
      assert Rem(n, d) == n % d;
    } else {
      var m := -n;
      var q, r := m / d, m % d;
      assert m == d * q + r;
      assert Rem(n, d) == -r;
      if r == 0 {
        ModUnique(n, d, -q, 0);
      } else {
        ModUnique(n, d, -q - 1, d - r);
      }
    }
  }

  /** A multiple of `d` leaves no remainder and divides back exactly. */
  lemma QuotOfMultiple(d: int, q: int)
    requires d != 0
    ensures Rem(d * q, d) == 0 && Quot(d * q, d) == q
  {
    var e := Abs(d);
    if d > 0 {
      if q >= 0 {
        ModUnique(d * q, d, q, 0);
      } else {
        assert -(d * q) == d * (-q);
        ModUnique(-(d * q), d, -q, 0);
      }
    } else {
      if q >= 0 {
        assert d * q == -(e * q);
        assert -(d * q) == e * q;
        ModUnique(e * q, e, q, 0);
      } else {
        assert d * q == e * (-q);
        ModUnique(d * q, e, -q, 0);
      }
    }
  }

  /** `f` applied to every element and the results concatenated
    * (`flat_map`). */
  function FlatMap<A, B>(xs: seq<A>, f: A -> seq<B>): (r: seq<B>)
  {
    if xs == [] then [] else f(xs[0]) + FlatMap(xs[1..], f)
  }

  /** An element of a `flat_map` comes from the image of some element. */
  lemma {:induction false} FlatMapIn<A, B>(xs: seq<A>, f: A -> seq<B>, y: B)
    ensures y in FlatMap(xs, f) <==> exists i :: 0 <= i < |xs| && y in f(xs[i])
  {
    if xs != [] {
      FlatMapIn(xs[1..], f, y);
      if y in FlatMap(xs[1..], f) {
        var i :| 0 <= i < |xs[1..]| && y in f(xs[1..][i]);
        assert y in f(xs[i + 1]);
      }
      if exists i :: 0 <= i < |xs| && y in f(xs[i]) {
        var i :| 0 <= i < |xs| && y in f(xs[i]);
        if i > 0 {
          assert xs[1..][i - 1] == xs[i];
        }
      }
    }
  }

  /** `f` applied `t` times to `x`. */
  function Iterate<T>(f: T -> T, x: T, t: nat): T
  {
    if t == 0 then x else f(Iterate(f, x, t - 1))
  }

  /** `s` steps and then `t` more are `s + t` steps. */
  lemma {:induction false} IterateAdd<T>(f: T -> T, x: T, s: nat, t: nat)
    ensures Iterate(f, Iterate(f, x, s), t) == Iterate(f, x, s + t)
  {
    if t > 0 {
      IterateAdd(f, x, s, t - 1);
    }
  }

  /** A view `h` that turns each step `f` on states satisfying `inv` (which `f`
    * preserves) into a step `g` turns `t` steps of `f` into `t` steps of `g`. */
  lemma {:induction false} IterateCommute<T, U>(f: T -> T, g: U -> U, h: T -> U, inv: T -> bool, x: T, t: nat)
    requires inv(x)
    requires forall y :: inv(y) ==> inv(f(y)) && h(f(y)) == g(h(y))
    ensures inv(Iterate(f, x, t)) && h(Iterate(f, x, t)) == Iterate(g, h(x), t)
  {
    if t > 0 {
      IterateCommute(f, g, h, inv, x, t - 1);
    }
  }

  /** A function that sends `a` one-to-one onto `b` shows that the two sets
    * have the same number of elements. */
  lemma {:induction false} BijectionCard<T>(a: set<T>, b: set<T>, f: T -> T)
    requires forall x :: x in a ==> f(x) in b
    requires forall y :: y in b ==> exists x :: x in a && f(x) == y
    requires forall x, x' :: x in a && x' in a && f(x) == f(x') ==> x == x'
    ensures |a| == |b|
    decreases |a|
  {
    if a == {} {
      assert b == {};
    } else {
      var x :| x in a;
      BijectionCard(a - {x}, b - {f(x)}, f);
    }
  }
}
