/** Dense integer matrices stored row-major in a flat backing sequence, as the
  * `Matrix<R, C>` of the lanternfish (adv-6) and beacon (adv-19) programs:
  * entry (row, col) of an R×C matrix lives at index `row * C + col`. The
  * dimensions, const generics in the source, are explicit parameters here. */
module Matrix {
  import opened Common

  /** Entry `k` of `s`, 0 outside it (only ever used inside the bounds). */
  function At(s: seq<int>, k: int): int
  {
    if 0 <= k < |s| then s[k] else 0
  }

  /** The sum `f(0) + ... + f(n - 1)`. */
  function SumBelow(n: nat, f: nat -> int): int
  {
    if n == 0 then 0 else SumBelow(n - 1, f) + f(n - 1)
  }

  lemma {:induction false} SumExt(n: nat, f: nat -> int, g: nat -> int)
    requires forall i: nat :: i < n ==> f(i) == g(i)
    ensures SumBelow(n, f) == SumBelow(n, g)
  {
    if n > 0 {
      SumExt(n - 1, f, g);
    }
  }

  lemma {:induction false} SumAdd(n: nat, f: nat -> int, g: nat -> int, h: nat -> int)
    requires forall i: nat :: i < n ==> h(i) == f(i) + g(i)
    ensures SumBelow(n, h) == SumBelow(n, f) + SumBelow(n, g)
  {
    if n > 0 {
      SumAdd(n - 1, f, g, h);
    }
  }

  lemma {:induction false} SumScale(n: nat, c: int, f: nat -> int, g: nat -> int)
    requires forall i: nat :: i < n ==> g(i) == c * f(i)
    ensures SumBelow(n, g) == c * SumBelow(n, f)
  {
    if n > 0 {
      SumScale(n - 1, c, f, g);
      assert c * SumBelow(n, f) == c * SumBelow(n - 1, f) + c * f(n - 1);
    }
  }

  /** A sum whose terms vanish everywhere except at `k`. */
  lemma {:induction false} SumSingle(n: nat, f: nat -> int, k: nat)
    requires k < n
    requires forall i: nat :: i < n && i != k ==> f(i) == 0
    ensures SumBelow(n, f) == f(k)
  {
    if n - 1 != k {
      SumSingle(n - 1, f, k);
    } else {
      SumZero(n - 1, f);
    }
  }

  lemma {:induction false} SumZero(n: nat, f: nat -> int)
    requires forall i: nat :: i < n ==> f(i) == 0
    ensures SumBelow(n, f) == 0
  {
    if n > 0 {
      SumZero(n - 1, f);
    }
  }

  /** `i ↦ g(i, 0) + ... + g(i, m - 1)`, the row sums of `g`. */
  function RowSums(m: nat, g: (nat, nat) -> int): nat -> int
  {
    (i: nat) => SumBelow(m, (j: nat) => g(i, j))
  }

  /** `j ↦ g(0, j) + ... + g(n - 1, j)`, the column sums of `g`. */
  function ColSums(n: nat, g: (nat, nat) -> int): nat -> int
  {
    (j: nat) => SumBelow(n, (i: nat) => g(i, j))
  }

  /** Exchanging the order of a double sum. */
  lemma {:induction false} SumSwap(n: nat, m: nat, g: (nat, nat) -> int)
    ensures SumBelow(n, RowSums(m, g)) == SumBelow(m, ColSums(n, g))
  {
    if n > 0 {
      var last := (j: nat) => g(n - 1, j);
      SumSwap(n - 1, m, g);
      SumExt(m, (j: nat) => g(n - 1, j), last);
      assert RowSums(m, g)(n - 1) == SumBelow(m, last);
      SumAdd(m, ColSums(n - 1, g), last, ColSums(n, g));
    } else {
      SumZero(m, ColSums(n, g));
    }
  }

  /** `a * b` by repeated addition. Index arithmetic goes through this
    * function and the lemmas below, which keeps the solver's reasoning about
    * row-major positions linear. */
  function Mul(a: nat, b: nat): nat
  {
    if a == 0 then 0 else Mul(a - 1, b) + b
  }

  lemma {:induction false} MulIsTimes(a: nat, b: nat)
    ensures Mul(a, b) == a * b
  {
    if a > 0 {
      MulIsTimes(a - 1, b);
    }
  }

  lemma {:induction false} MulMonotone(p: nat, q: nat, C: nat)
    requires p <= q
    ensures Mul(p, C) <= Mul(q, C)
  {
    if q > p {
      MulMonotone(p, q - 1, C);
    }
  }

  /** Row-major indexing stays inside an R×C backing array. */
  lemma IndexBound(row: nat, col: nat, R: nat, C: nat)
    requires row < R && col < C
    ensures Mul(row, C) + col < Mul(R, C)
  {
    MulMonotone(row + 1, R, C);
  }

  /** Row-major indexing is one-to-one. */
  lemma IndexDistinct(r1: nat, c1: nat, r2: nat, c2: nat, C: nat)
    requires c1 < C && c2 < C && (r1 != r2 || c1 != c2)
    ensures Mul(r1, C) + c1 != Mul(r2, C) + c2
  {
    if r1 < r2 {
      MulMonotone(r1 + 1, r2, C);
    } else if r2 < r1 {
      MulMonotone(r2 + 1, r1, C);
    }
  }

  /** `i * (n + 1) == i * n + i`, the diagonal step of `ident`. */
  lemma {:induction false} MulSuccRight(i: nat, n: nat)
    ensures Mul(i, n + 1) == Mul(i, n) + i
  {
    if i > 0 {
      MulSuccRight(i - 1, n);
    }
  }

  /** Entry (row, col) of an R×C matrix with `C` columns. */
  function Get(m: seq<int>, C: nat, row: nat, col: nat): int
  {
    At(m, Mul(row, C) + col)
  }

  /** The R×C matrix whose entry (row, col) is `f(row, col)`, built row by row. */
  function Build(R: nat, C: nat, f: (nat, nat) -> int): (m: seq<int>)
    ensures |m| == Mul(R, C)
  {
    if R == 0 then [] else Build(R - 1, C, f) + seq(C, (col: nat) => f(R - 1, col))
  }

  lemma {:induction false} BuildGet(R: nat, C: nat, f: (nat, nat) -> int, row: nat, col: nat)
    requires row < R && col < C
    ensures Get(Build(R, C, f), C, row, col) == f(row, col)
  {
    IndexBound(row, col, R, C);
    if row < R - 1 {
      IndexBound(row, col, R - 1, C);
      BuildGet(R - 1, C, f, row, col);
    }
  }

  /** A matrix is determined by its entries. */
  lemma {:induction false} BuildExt(m: seq<int>, R: nat, C: nat, f: (nat, nat) -> int)
    requires |m| == Mul(R, C)
    requires forall row: nat, col: nat :: row < R && col < C ==> Get(m, C, row, col) == f(row, col)
    ensures m == Build(R, C, f)
    decreases R
  {
    if R > 0 {
      var p := m[..Mul(R - 1, C)];
      FirstRows(m, R, C, f);
      BuildExt(p, R - 1, C, f);
      LastRow(m, R, C, f);
      assert m == p + m[Mul(R - 1, C)..];
      assert Build(R, C, f) == Build(R - 1, C, f) + seq(C, (col: nat) => f(R - 1, col));
    }
  }

  /** The first `R - 1` rows of a matrix whose entries are given by `f`. */
  lemma FirstRows(m: seq<int>, R: nat, C: nat, f: (nat, nat) -> int)
    requires R > 0 && |m| == Mul(R, C)
    requires forall row: nat, col: nat :: row < R && col < C ==> Get(m, C, row, col) == f(row, col)
    ensures Mul(R - 1, C) <= |m|
    ensures forall row: nat, col: nat :: row < R - 1 && col < C ==> Get(m[..Mul(R - 1, C)], C, row, col) == f(row, col)
  {
    var p := m[..Mul(R - 1, C)];
    forall row: nat, col: nat | row < R - 1 && col < C
      ensures Get(p, C, row, col) == f(row, col)
    {
      IndexBound(row, col, R - 1, C);
      assert Get(p, C, row, col) == Get(m, C, row, col);
    }
  }

  /** The last row of a matrix whose entries are given by `f`. */
  lemma LastRow(m: seq<int>, R: nat, C: nat, f: (nat, nat) -> int)
    requires R > 0 && |m| == Mul(R, C)
    requires forall row: nat, col: nat :: row < R && col < C ==> Get(m, C, row, col) == f(row, col)
    ensures Mul(R - 1, C) <= |m|
    ensures m[Mul(R - 1, C)..] == seq(C, (col: nat) => f(R - 1, col))
  {
    var last := m[Mul(R - 1, C)..];
    forall col: nat | col < C
      ensures last[col] == f(R - 1, col)
    {
      assert Get(m, C, R - 1, col) == f(R - 1, col);
    }
  }

  /** Matrices built from functions that agree on the index range are equal. */
  lemma BuildCongruent(R: nat, C: nat, f: (nat, nat) -> int, g: (nat, nat) -> int)
    requires forall row: nat, col: nat :: row < R && col < C ==> f(row, col) == g(row, col)
    ensures Build(R, C, f) == Build(R, C, g)
  {
    forall row: nat, col: nat | row < R && col < C
      ensures Get(Build(R, C, f), C, row, col) == g(row, col)
    {
      BuildGet(R, C, f, row, col);
    }
    BuildExt(Build(R, C, f), R, C, g);
  }

  // ---- element-wise operations -------------------------------------------

  /** `impl Add for Matrix`: element-wise sum. */
  method Add(a: seq<int>, b: seq<int>) returns (r: seq<int>)
    requires |a| == |b|
    ensures |r| == |a|
    ensures forall k :: 0 <= k < |r| ==> r[k] == a[k] + b[k]
  {
    var ret := new int[|a|](_ => 0);
    for i := 0 to |a|
      invariant forall k :: 0 <= k < i ==> ret[k] == a[k] + b[k]
    {
      ret[i] := a[i] + b[i];
    }
    r := ret[..];
  }

  /** `impl Sub for Matrix`: element-wise difference. */
  method Sub(a: seq<int>, b: seq<int>) returns (r: seq<int>)
    requires |a| == |b|
    ensures |r| == |a|
    ensures forall k :: 0 <= k < |r| ==> r[k] == a[k] - b[k]
  {
    var ret := new int[|a|](_ => 0);
    for i := 0 to |a|
      invariant forall k :: 0 <= k < i ==> ret[k] == a[k] - b[k]
    {
      ret[i] := a[i] - b[i];
    }
    r := ret[..];
  }

  /** Subtraction undoes addition. */
  method AddThenSub(a: seq<int>, b: seq<int>) returns (r: seq<int>)
    requires |a| == |b|
    ensures r == a
  {
    var s := Add(a, b);
    r := Sub(s, b);
  }

  // ---- transpose ----------------------------------------------------------

  /** The transpose of an n×n matrix: entry (row, col) is the input's (col, row). */
  function Transposed(a: seq<int>, n: nat): (r: seq<int>)
    ensures |r| == Mul(n, n)
  {
    Build(n, n, (row: nat, col: nat) => Get(a, n, col, row))
  }

  /** The transpose's backing array once the source's loops have copied every
    * entry (row', col') that comes before (row, col) in row-major order;
    * everything else is still 0. */
  function TransposeSoFar(a: seq<int>, n: nat, row: nat, col: nat): (r: seq<int>)
    ensures |r| == Mul(n, n)
  {
    Build(n, n, (r: nat, c: nat) => if c < row || (c == row && r < col) then Get(a, n, c, r) else 0)
  }

  /** One copy `ret[col * n + row] = a[row * n + col]` advances the loop state. */
  lemma TransposeStep(a: seq<int>, n: nat, row: nat, col: nat)
    requires row < n && col < n
    ensures Mul(col, n) + row < Mul(n, n)
    ensures TransposeSoFar(a, n, row, col)[Mul(col, n) + row := Get(a, n, row, col)]
         == TransposeSoFar(a, n, row, col + 1)
  {
    IndexBound(col, row, n, n);
    var m := TransposeSoFar(a, n, row, col)[Mul(col, n) + row := Get(a, n, row, col)];
    var f := (r: nat, c: nat) => if c < row || (c == row && r < col + 1) then Get(a, n, c, r) else 0;
    forall r: nat, c: nat | r < n && c < n
      ensures Get(m, n, r, c) == f(r, c)
    {
      BuildGet(n, n, (r: nat, c: nat) => if c < row || (c == row && r < col) then Get(a, n, c, r) else 0, r, c);
      if r != col || c != row {
        IndexDistinct(r, c, col, row, n);
      }
    }
    BuildExt(m, n, n, f);
  }

  /** `Matrix::transpose`: `ret[col * RC + row] = self[row * RC + col]`. */
  method Transpose(a: seq<int>, n: nat) returns (r: seq<int>)
    requires |a| == Mul(n, n)
    ensures r == Transposed(a, n)
  {
    var ret := new int[Mul(n, n)](_ => 0);
    BuildExt(ret[..], n, n, (r: nat, c: nat) => if c < 0 || (c == 0 && r < 0) then Get(a, n, c, r) else 0);
    for row := 0 to n
      invariant ret[..] == TransposeSoFar(a, n, row, 0)
    {
      TransposeRow(a, n, ret, row);
    }
    BuildCongruent(n, n, (r: nat, c: nat) => if c < n || (c == n && r < 0) then Get(a, n, c, r) else 0,
      (row: nat, col: nat) => Get(a, n, col, row));
    r := ret[..];
  }

  /** One pass of the outer loop: row `row` of `a` is copied into column
    * `row` of `ret`. */
  method TransposeRow(a: seq<int>, n: nat, ret: array<int>, row: nat)
    requires |a| == Mul(n, n) && row < n
    requires ret.Length == Mul(n, n) && ret[..] == TransposeSoFar(a, n, row, 0)
    modifies ret
    ensures ret[..] == TransposeSoFar(a, n, row + 1, 0)
  {
    for col := 0 to n
      invariant ret[..] == TransposeSoFar(a, n, row, col)
    {
      TransposeStep(a, n, row, col);
      IndexBound(row, col, n, n);
      ret[Mul(col, n) + row] := a[Mul(row, n) + col];
    }
    BuildCongruent(n, n, (r: nat, c: nat) => if c < row || (c == row && r < n) then Get(a, n, c, r) else 0,
      (r: nat, c: nat) => if c < row + 1 || (c == row + 1 && r < 0) then Get(a, n, c, r) else 0);
  }

  /** Transposing twice gives the matrix back. */
  lemma TransposeInvolution(a: seq<int>, n: nat)
    requires |a| == Mul(n, n)
    ensures Transposed(Transposed(a, n), n) == a
  {
    forall row: nat, col: nat | row < n && col < n
      ensures Get(a, n, row, col) == Get(Transposed(a, n), n, col, row)
    {
      BuildGet(n, n, (row: nat, col: nat) => Get(a, n, col, row), col, row);
    }
    BuildExt(a, n, n, (row: nat, col: nat) => Get(Transposed(a, n), n, col, row));
  }

  // ---- multiplication -----------------------------------------------------

  /** The terms of entry (row, col) of an A×B by B×C product. */
  function Term(a: seq<int>, b: seq<int>, B: nat, C: nat, row: nat, col: nat): nat -> int
  {
    (i: nat) => Get(a, B, row, i) * Get(b, C, i, col)
  }

  /** Entry (row, col) of the product: the sum over `i` of `a[row][i] * b[i][col]`. */
  function Entry(a: seq<int>, b: seq<int>, B: nat, C: nat, row: nat, col: nat): int
  {
    SumBelow(B, Term(a, b, B, C, row, col))
  }

  /** The product of an A×B and a B×C matrix. */
  function Product(a: seq<int>, b: seq<int>, A: nat, B: nat, C: nat): (r: seq<int>)
    ensures |r| == Mul(A, C)
  {
    Build(A, C, (row: nat, col: nat) => Entry(a, b, B, C, row, col))
  }

  lemma ProductGet(a: seq<int>, b: seq<int>, A: nat, B: nat, C: nat, row: nat, col: nat)
    requires row < A && col < C
    ensures Get(Product(a, b, A, B, C), C, row, col) == Entry(a, b, B, C, row, col)
  {
    BuildGet(A, C, (row: nat, col: nat) => Entry(a, b, B, C, row, col), row, col);
  }

  /** `matrix_multiply`: three nested loops accumulating into `ret[row * C + col]`. */
  method Multiply(a: seq<int>, b: seq<int>, A: nat, B: nat, C: nat) returns (r: seq<int>)
    requires |a| == Mul(A, B) && |b| == Mul(B, C)
    ensures r == Product(a, b, A, B, C)
  {
    var ret := new int[Mul(A, C)](_ => 0);
    ghost var p := Product(a, b, A, B, C);
    for row := 0 to A
      invariant Mul(row, C) <= Mul(A, C)
      invariant forall k :: 0 <= k < Mul(row, C) ==> ret[k] == p[k]
    {
      MulMonotone(row + 1, A, C);
      for col := 0 to C
        invariant Mul(row, C) + col <= Mul(A, C)
        invariant forall k :: 0 <= k < Mul(row, C) + col ==> ret[k] == p[k]
      {
        IndexBound(row, col, A, C);
        ProductGet(a, b, A, B, C, row, col);
        Accumulate(ret, a, b, A, B, C, row, col);
      }
    }
    r := ret[..];
  }

  /** The innermost loop of `matrix_multiply`: entry (row, col) of the product
    * is summed up in place; no other entry of `ret` changes. */
  method Accumulate(ret: array<int>, a: seq<int>, b: seq<int>, A: nat, B: nat, C: nat, row: nat, col: nat)
    requires |a| == Mul(A, B) && |b| == Mul(B, C)
    requires row < A && col < C && ret.Length == Mul(A, C)
    modifies ret
    ensures Mul(row, C) + col < ret.Length
    ensures ret[..] == old(ret[..])[Mul(row, C) + col := Entry(a, b, B, C, row, col)]
  {
    IndexBound(row, col, A, C);
    var idx := Mul(row, C) + col;
    ret[idx] := 0;
    for i := 0 to B
      invariant ret[..] == old(ret[..])[idx := SumBelow(i, Term(a, b, B, C, row, col))]
    {
      IndexBound(row, i, A, B);
      IndexBound(i, col, B, C);
      ret[idx] := ret[idx] + a[Mul(row, B) + i] * b[Mul(i, C) + col];
    }
  }

  /** Matrix multiplication is associative: (ab)c == a(bc). */
  lemma ProductAssociative(a: seq<int>, b: seq<int>, c: seq<int>, A: nat, B: nat, C: nat, D: nat)
    ensures Product(Product(a, b, A, B, C), c, A, C, D) == Product(a, Product(b, c, B, C, D), A, B, D)
  {
    var ab, bc := Product(a, b, A, B, C), Product(b, c, B, C, D);
    forall row: nat, col: nat | row < A && col < D
      ensures Entry(ab, c, C, D, row, col) == Entry(a, bc, B, D, row, col)
    {
      EntryAssociative(a, b, c, A, B, C, D, row, col);
    }
    BuildCongruent(A, D, (row: nat, col: nat) => Entry(ab, c, C, D, row, col),
      (row: nat, col: nat) => Entry(a, bc, B, D, row, col));
  }

  lemma MulRotate(x: int, y: int, z: int)
    ensures x * (y * z) == z * (x * y)
  {
  }

  /** The triple products `a[row][i] * b[i][j] * c[j][col]`. */
  function Triple(a: seq<int>, b: seq<int>, c: seq<int>, B: nat, C: nat, D: nat, row: nat, col: nat): (nat, nat) -> int
  {
    (i: nat, j: nat) => Get(a, B, row, i) * (Get(b, C, i, j) * Get(c, D, j, col))
  }

  lemma EntryAssociative(a: seq<int>, b: seq<int>, c: seq<int>, A: nat, B: nat, C: nat, D: nat,
                         row: nat, col: nat)
    requires row < A && col < D
    ensures Entry(Product(a, b, A, B, C), c, C, D, row, col)
         == Entry(a, Product(b, c, B, C, D), B, D, row, col)
  {
    var g := Triple(a, b, c, B, C, D, row, col);
    LeftEntry(a, b, c, A, B, C, D, row, col);
    RightEntry(a, b, c, B, C, D, row, col);
    SumSwap(B, C, g);
  }

  /** An entry of (ab)c sums the triple products column by column... */
  lemma LeftEntry(a: seq<int>, b: seq<int>, c: seq<int>, A: nat, B: nat, C: nat, D: nat,
                  row: nat, col: nat)
    requires row < A
    ensures Entry(Product(a, b, A, B, C), c, C, D, row, col)
         == SumBelow(C, ColSums(B, Triple(a, b, c, B, C, D, row, col)))
  {
    var ab := Product(a, b, A, B, C);
    var g := Triple(a, b, c, B, C, D, row, col);
    forall j: nat | j < C
      ensures Term(ab, c, C, D, row, col)(j) == ColSums(B, g)(j)
    {
      ProductGet(a, b, A, B, C, row, j);
      forall i: nat | i < B
        ensures g(i, j) == Get(c, D, j, col) * Term(a, b, B, C, row, j)(i)
      {
        MulRotate(Get(a, B, row, i), Get(b, C, i, j), Get(c, D, j, col));
      }
      SumScale(B, Get(c, D, j, col), Term(a, b, B, C, row, j), (i: nat) => g(i, j));
    }
    SumExt(C, Term(ab, c, C, D, row, col), ColSums(B, g));
  }

  /** ...and an entry of a(bc) sums them row by row. */
  lemma RightEntry(a: seq<int>, b: seq<int>, c: seq<int>, B: nat, C: nat, D: nat, row: nat, col: nat)
    requires col < D
    ensures Entry(a, Product(b, c, B, C, D), B, D, row, col)
         == SumBelow(B, RowSums(C, Triple(a, b, c, B, C, D, row, col)))
  {
    var bc := Product(b, c, B, C, D);
    var g := Triple(a, b, c, B, C, D, row, col);
    forall i: nat | i < B
      ensures Term(a, bc, B, D, row, col)(i) == RowSums(C, g)(i)
    {
      ProductGet(b, c, B, C, D, i, col);
      SumScale(C, Get(a, B, row, i), Term(b, c, C, D, i, col), (j: nat) => g(i, j));
    }
    SumExt(B, Term(a, bc, B, D, row, col), RowSums(C, g));
  }

  // ---- identity and power -------------------------------------------------

  /** The n×n identity: 1 where row == col, 0 elsewhere. */
  function Identity(n: nat): (r: seq<int>)
    ensures |r| == Mul(n, n)
  {
    Build(n, n, (row: nat, col: nat) => if row == col then 1 else 0)
  }

  /** `ident`'s array once the first `i` diagonal entries are set. */
  function IdentSoFar(n: nat, i: nat): (r: seq<int>)
    ensures |r| == Mul(n, n)
  {
    Build(n, n, (row: nat, col: nat) => if row == col && row < i then 1 else 0)
  }

  /** Setting `backing[i * (n + 1)]` puts the next 1 on the diagonal. */
  lemma IdentStep(n: nat, i: nat)
    requires i < n
    ensures Mul(i, n + 1) < Mul(n, n)
    ensures IdentSoFar(n, i)[Mul(i, n + 1) := 1] == IdentSoFar(n, i + 1)
  {
    MulSuccRight(i, n);
    IndexBound(i, i, n, n);
    var m := IdentSoFar(n, i)[Mul(i, n + 1) := 1];
    forall r: nat, c: nat | r < n && c < n
      ensures Get(m, n, r, c) == if r == c && r < i + 1 then 1 else 0
    {
      BuildGet(n, n, (row: nat, col: nat) => if row == col && row < i then 1 else 0, r, c);
      if r != i || c != i {
        IndexDistinct(r, c, i, i, n);
      }
    }
    BuildExt(m, n, n, (row: nat, col: nat) => if row == col && row < i + 1 then 1 else 0);
  }

  /** `Matrix::ident`: a zero array with `backing[i * (RC + 1)] = 1` for each `i`. */
  method Ident(n: nat) returns (r: seq<int>)
    ensures r == Identity(n)
  {
    var backing := new int[Mul(n, n)](_ => 0);
    BuildExt(backing[..], n, n, (row: nat, col: nat) => if row == col && row < 0 then 1 else 0);
    for i := 0 to n
      invariant backing[..] == IdentSoFar(n, i)
    {
      IdentStep(n, i);
      backing[Mul(i, n + 1)] := 1;
    }
    BuildCongruent(n, n, (row: nat, col: nat) => if row == col && row < n then 1 else 0,
      (row: nat, col: nat) => if row == col then 1 else 0);
    r := backing[..];
  }

  /** The identity is neutral on the left: I·m == m for an n×C matrix m. */
  lemma IdentityLeft(m: seq<int>, n: nat, C: nat)
    requires |m| == Mul(n, C)
    ensures Product(Identity(n), m, n, n, C) == m
  {
    forall row: nat, col: nat | row < n && col < C
      ensures Get(m, C, row, col) == Entry(Identity(n), m, n, C, row, col)
    {
      forall i: nat | i < n
        ensures Term(Identity(n), m, n, C, row, col)(i) == if i == row then Get(m, C, row, col) else 0
      {
        BuildGet(n, n, (row: nat, col: nat) => if row == col then 1 else 0, row, i);
      }
      SumSingle(n, Term(Identity(n), m, n, C, row, col), row);
    }
    BuildExt(m, n, C, (row: nat, col: nat) => Entry(Identity(n), m, n, C, row, col));
  }

  /** The identity is neutral on the right: m·I == m for an R×n matrix m. */
  lemma IdentityRight(m: seq<int>, R: nat, n: nat)
    requires |m| == Mul(R, n)
    ensures Product(m, Identity(n), R, n, n) == m
  {
    forall row: nat, col: nat | row < R && col < n
      ensures Get(m, n, row, col) == Entry(m, Identity(n), n, n, row, col)
    {
      forall i: nat | i < n
        ensures Term(m, Identity(n), n, n, row, col)(i) == if i == col then Get(m, n, row, col) else 0
      {
        BuildGet(n, n, (row: nat, col: nat) => if row == col then 1 else 0, i, col);
      }
      SumSingle(n, Term(m, Identity(n), n, n, row, col), col);
    }
    BuildExt(m, R, n, (row: nat, col: nat) => Entry(m, Identity(n), n, n, row, col));
  }

  /** The e-fold product `m · m · ... · m` of an n×n matrix, I for e == 0. */
  function Power(m: seq<int>, n: nat, e: nat): (r: seq<int>)
    ensures |r| == Mul(n, n)
  {
    if e == 0 then Identity(n) else Product(Power(m, n, e - 1), m, n, n, n)
  }

  /** Powers add up: m^(p+q) == m^p · m^q. */
  lemma {:induction false} PowerAdd(m: seq<int>, n: nat, p: nat, q: nat)
    requires |m| == Mul(n, n)
    ensures Power(m, n, p + q) == Product(Power(m, n, p), Power(m, n, q), n, n, n)
  {
    if q == 0 {
      IdentityRight(Power(m, n, p), n, n);
    } else {
      PowerAdd(m, n, p, q - 1);
      ProductAssociative(Power(m, n, p), Power(m, n, q - 1), m, n, n, n, n);
    }
  }

  /** `matrix_pow`: square-and-multiply on `e >> 1` and `e & 1`. */
  method Pow(m: seq<int>, n: nat, e: nat) returns (r: seq<int>)
    requires |m| == Mul(n, n)
    ensures r == Power(m, n, e)
    decreases e
  {
    if e == 0 {
      r := Ident(n);
    } else if e == 1 {
      IdentityLeft(m, n, n);
      r := m;
    } else {
      var sub := Pow(m, n, e / 2);
      sub := Multiply(sub, sub, n, n, n);
      PowerAdd(m, n, e / 2, e / 2);
      if e % 2 != 0 {
        sub := Multiply(sub, m, n, n, n);
      }
      r := sub;
    }
  }

  /** `m^t == m · m^(t-1)`. */
  lemma PowerLeft(m: seq<int>, n: nat, t: nat)
    requires |m| == Mul(n, n) && t > 0
    ensures Power(m, n, t) == Product(m, Power(m, n, t - 1), n, n, n)
  {
    PowerAdd(m, n, 1, t - 1);
    IdentityLeft(m, n, n);
  }

  /** When multiplying a column by `m` performs `step`, multiplying it by
    * `m^t` performs `t` steps. */
  lemma {:induction false} PowerSteps(m: seq<int>, n: nat, d: seq<int>, t: nat, step: seq<int> -> seq<int>)
    requires |m| == Mul(n, n) && |d| == Mul(n, 1)
    requires forall x :: |x| == Mul(n, 1) ==> Product(m, x, n, n, 1) == step(x)
    ensures Product(Power(m, n, t), d, n, n, 1) == Iterate(step, d, t)
  {
    if t == 0 {
      IdentityLeft(d, n, 1);
    } else {
      PowerSteps(m, n, d, t - 1, step);
      PowerStep(m, n, d, t, step);
    }
  }

  lemma PowerStep(m: seq<int>, n: nat, d: seq<int>, t: nat, step: seq<int> -> seq<int>)
    requires |m| == Mul(n, n) && |d| == Mul(n, 1) && t > 0
    requires Product(m, Iterate(step, d, t - 1), n, n, 1) == step(Iterate(step, d, t - 1))
    requires Product(Power(m, n, t - 1), d, n, n, 1) == Iterate(step, d, t - 1)
    ensures Product(Power(m, n, t), d, n, n, 1) == Iterate(step, d, t)
  {
    var p := Power(m, n, t - 1);
    PowerLeft(m, n, t);
    ProductAssociative(m, p, d, n, n, n, 1);
  }
}
