/** Day 19 (adv-19-rs/src/main.rs): scanners each report the beacons they see
  * in their own frame; placing the scanners means finding, for each one, one
  * of the 24 rotations of the cube and a translation under which at least 12
  * of its beacons coincide with beacons of a scanner already placed.
  *
  * Vectors and rotations are the source's `Matrix<3, 1>` and `Matrix<3, 3>`
  * written out by components and rows; lemmas below tie them to the flat
  * row-major matrices of the `Matrix` module, whose `matrix_multiply` and
  * `transpose` loops are proved there. */
module Adv19 {
  import opened Common
  import opened CString
  import opened RustStr
  import Matrix

  const I32_MIN: int := -0x8000_0000
  const I32_MAX: int := 0x7FFF_FFFF

  // ---- vectors -----------------------------------------------------------------

  /** `Vec3i`: a column vector. */
  datatype V3 = V3(x: int, y: int, z: int)

  /** The backing array of the `Matrix<3, 1>` behind a `Vec3i`. */
  function Col(v: V3): seq<int>
  {
    [v.x, v.y, v.z]
  }

  /** `impl Add for Vec3i`. */
  function Plus(a: V3, b: V3): V3
  {
    V3(a.x + b.x, a.y + b.y, a.z + b.z)
  }

  /** `impl Sub for Vec3i`. */
  function Minus(a: V3, b: V3): V3
  {
    V3(a.x - b.x, a.y - b.y, a.z - b.z)
  }

  function Neg(a: V3): V3
  {
    V3(-a.x, -a.y, -a.z)
  }

  function Dot(a: V3, b: V3): int
  {
    a.x * b.x + a.y * b.y + a.z * b.z
  }

  /** Translating by the difference of two points moves the second onto the
    * first, and translations are one-to-one. */
  lemma PlusMinus(a: V3, b: V3, c: V3)
    ensures Plus(b, Minus(a, b)) == a
    ensures Plus(a, c) == Plus(b, c) ==> a == b
  {
  }

  // ---- rotations ---------------------------------------------------------------

  /** `Rot`: a 3×3 matrix, given by its rows. */
  datatype Rot = Rot(r0: V3, r1: V3, r2: V3)

  /** The row-major backing array of the `Matrix<3, 3>` behind a `Rot`. */
  function Backing(m: Rot): seq<int>
  {
    Col(m.r0) + Col(m.r1) + Col(m.r2)
  }

  /** `apply_rot`: the matrix times the column vector. */
  function ApplyRot(v: V3, m: Rot): V3
  {
    V3(Dot(m.r0, v), Dot(m.r1, v), Dot(m.r2, v))
  }

  /** `Matrix::transpose` on a 3×3 matrix. */
  function Transpose(m: Rot): Rot
  {
    Rot(V3(m.r0.x, m.r1.x, m.r2.x), V3(m.r0.y, m.r1.y, m.r2.y), V3(m.r0.z, m.r1.z, m.r2.z))
  }

  /** `impl Mul for Rot`: the product `p * q`; row `i` of it is row `i` of
    * `p` times `q`. */
  function Compose(p: Rot, q: Rot): Rot
  {
    var t := Transpose(q);
    Rot(ApplyRot(p.r0, t), ApplyRot(p.r1, t), ApplyRot(p.r2, t))
  }

  /** `EMPTY_ROTATION`, the identity. */
  const Id3: Rot := Rot(V3(1, 0, 0), V3(0, 1, 0), V3(0, 0, 1))

  // ---- the link to the flat matrices -------------------------------------------

  lemma Mul3()
    ensures Matrix.Mul(0, 3) == 0 && Matrix.Mul(1, 3) == 3 && Matrix.Mul(2, 3) == 6 && Matrix.Mul(3, 3) == 9
    ensures Matrix.Mul(0, 1) == 0 && Matrix.Mul(1, 1) == 1 && Matrix.Mul(2, 1) == 2 && Matrix.Mul(3, 1) == 3
  {
    assert Matrix.Mul(1, 3) == 3;
    assert Matrix.Mul(2, 3) == 6;
    assert Matrix.Mul(1, 1) == 1;
    assert Matrix.Mul(2, 1) == 2;
  }

  /** An entry of a product with inner dimension 3 is a sum of three terms. */
  lemma Entry3(a: seq<int>, b: seq<int>, C: nat, row: nat, col: nat)
    ensures Matrix.Entry(a, b, 3, C, row, col)
         == Matrix.Get(a, 3, row, 0) * Matrix.Get(b, C, 0, col)
          + Matrix.Get(a, 3, row, 1) * Matrix.Get(b, C, 1, col)
          + Matrix.Get(a, 3, row, 2) * Matrix.Get(b, C, 2, col)
  {
    var f := Matrix.Term(a, b, 3, C, row, col);
    assert Matrix.SumBelow(3, f) == f(0) + f(1) + f(2) by {
      assert Matrix.SumBelow(0, f) == 0;
    }
  }

  /** Entry (row, col) of a 3×3 backing array. */
  lemma Get3(m: Rot)
    ensures Matrix.Get(Backing(m), 3, 0, 0) == m.r0.x && Matrix.Get(Backing(m), 3, 0, 1) == m.r0.y
    ensures Matrix.Get(Backing(m), 3, 0, 2) == m.r0.z && Matrix.Get(Backing(m), 3, 1, 0) == m.r1.x
    ensures Matrix.Get(Backing(m), 3, 1, 1) == m.r1.y && Matrix.Get(Backing(m), 3, 1, 2) == m.r1.z
    ensures Matrix.Get(Backing(m), 3, 2, 0) == m.r2.x && Matrix.Get(Backing(m), 3, 2, 1) == m.r2.y
    ensures Matrix.Get(Backing(m), 3, 2, 2) == m.r2.z
  {
    Mul3();
  }

  /** Entry `row` of a column vector's backing array. */
  lemma Get1(v: V3)
    ensures Matrix.Get(Col(v), 1, 0, 0) == v.x && Matrix.Get(Col(v), 1, 1, 0) == v.y
    ensures Matrix.Get(Col(v), 1, 2, 0) == v.z
  {
    Mul3();
  }

  /** A 3-vector is its three entries. */
  lemma ColExt(s: seq<int>, v: V3)
    requires |s| == Matrix.Mul(3, 1)
    requires Matrix.Get(s, 1, 0, 0) == v.x && Matrix.Get(s, 1, 1, 0) == v.y && Matrix.Get(s, 1, 2, 0) == v.z
    ensures s == Col(v)
  {
    Mul3();
  }

  /** A 3×3 matrix is its nine entries. */
  lemma BackingExt(s: seq<int>, m: Rot)
    requires |s| == Matrix.Mul(3, 3)
    requires Matrix.Get(s, 3, 0, 0) == m.r0.x && Matrix.Get(s, 3, 0, 1) == m.r0.y && Matrix.Get(s, 3, 0, 2) == m.r0.z
    requires Matrix.Get(s, 3, 1, 0) == m.r1.x && Matrix.Get(s, 3, 1, 1) == m.r1.y && Matrix.Get(s, 3, 1, 2) == m.r1.z
    requires Matrix.Get(s, 3, 2, 0) == m.r2.x && Matrix.Get(s, 3, 2, 1) == m.r2.y && Matrix.Get(s, 3, 2, 2) == m.r2.z
    ensures s == Backing(m)
  {
    Mul3();
  }

  /** `apply_rot` is `matrix_multiply(rot, v)`. */
  lemma ApplyRotIsProduct(v: V3, m: Rot)
    ensures Matrix.Product(Backing(m), Col(v), 3, 3, 1) == Col(ApplyRot(v, m))
  {
    var p := Matrix.Product(Backing(m), Col(v), 3, 3, 1);
    Get3(m);
    Get1(v);
    forall row: nat | row < 3
      ensures Matrix.Get(p, 1, row, 0) == Matrix.Entry(Backing(m), Col(v), 3, 1, row, 0)
    {
      Matrix.ProductGet(Backing(m), Col(v), 3, 3, 1, row, 0);
    }
    Entry3(Backing(m), Col(v), 1, 0, 0);
    Entry3(Backing(m), Col(v), 1, 1, 0);
    Entry3(Backing(m), Col(v), 1, 2, 0);
    ColExt(p, ApplyRot(v, m));
  }

  /** `Rot * Rot` is `matrix_multiply` of the backing arrays. */
  lemma ComposeIsProduct(p: Rot, q: Rot)
    ensures Matrix.Product(Backing(p), Backing(q), 3, 3, 3) == Backing(Compose(p, q))
  {
    var s := Matrix.Product(Backing(p), Backing(q), 3, 3, 3);
    Get3(p);
    Get3(q);
    forall row: nat, col: nat | row < 3 && col < 3
      ensures Matrix.Get(s, 3, row, col) == Matrix.Entry(Backing(p), Backing(q), 3, 3, row, col)
      ensures Matrix.Get(s, 3, row, col)
           == Matrix.Get(Backing(p), 3, row, 0) * Matrix.Get(Backing(q), 3, 0, col)
            + Matrix.Get(Backing(p), 3, row, 1) * Matrix.Get(Backing(q), 3, 1, col)
            + Matrix.Get(Backing(p), 3, row, 2) * Matrix.Get(Backing(q), 3, 2, col)
    {
      Matrix.ProductGet(Backing(p), Backing(q), 3, 3, 3, row, col);
      Entry3(Backing(p), Backing(q), 3, row, col);
    }
    BackingExt(s, Compose(p, q));
  }

  /** `Matrix::transpose` on the backing array is `Transpose`. */
  lemma TransposeIsTransposed(m: Rot)
    ensures Matrix.Transposed(Backing(m), 3) == Backing(Transpose(m))
  {
    var t := Matrix.Transposed(Backing(m), 3);
    Get3(m);
    forall row: nat, col: nat | row < 3 && col < 3
      ensures Matrix.Get(t, 3, row, col) == Matrix.Get(Backing(m), 3, col, row)
    {
      Matrix.BuildGet(3, 3, (row: nat, col: nat) => Matrix.Get(Backing(m), 3, col, row), row, col);
    }
    BackingExt(t, Transpose(m));
  }

  /** `EMPTY_ROTATION` is `Matrix::ident`'s 3×3 identity. */
  lemma Id3IsIdentity()
    ensures Matrix.Identity(3) == Backing(Id3)
  {
    var f := (row: nat, col: nat) => if row == col then 1 else 0;
    Get3(Id3);
    forall row: nat, col: nat | row < 3 && col < 3
      ensures Matrix.Get(Backing(Id3), 3, row, col) == f(row, col)
    {
    }
    Matrix.BuildExt(Backing(Id3), 3, 3, f);
  }

  lemma BackingInjective(p: Rot, q: Rot)
    requires Backing(p) == Backing(q)
    ensures p == q
  {
    assert Backing(p)[0] == Backing(q)[0] && Backing(p)[1] == Backing(q)[1] && Backing(p)[2] == Backing(q)[2];
    assert Backing(p)[3] == Backing(q)[3] && Backing(p)[4] == Backing(q)[4] && Backing(p)[5] == Backing(q)[5];
    assert Backing(p)[6] == Backing(q)[6] && Backing(p)[7] == Backing(q)[7] && Backing(p)[8] == Backing(q)[8];
  }

  lemma ColInjective(a: V3, b: V3)
    requires Col(a) == Col(b)
    ensures a == b
  {
    assert Col(a)[0] == Col(b)[0] && Col(a)[1] == Col(b)[1] && Col(a)[2] == Col(b)[2];
  }

  // ---- algebra ------------------------------------------------------------------

  /** Rotating by `q` and then by `p` is rotating by `p * q`. */
  lemma ApplyCompose(v: V3, p: Rot, q: Rot)
    ensures ApplyRot(ApplyRot(v, q), p) == ApplyRot(v, Compose(p, q))
  {
    ApplyRotIsProduct(v, q);
    ApplyRotIsProduct(ApplyRot(v, q), p);
    ApplyRotIsProduct(v, Compose(p, q));
    ComposeIsProduct(p, q);
    Matrix.ProductAssociative(Backing(p), Backing(q), Col(v), 3, 3, 3, 1);
    ColInjective(ApplyRot(ApplyRot(v, q), p), ApplyRot(v, Compose(p, q)));
  }

  /** `Rot * Rot` is associative. */
  lemma ComposeAssociative(p: Rot, q: Rot, r: Rot)
    ensures Compose(Compose(p, q), r) == Compose(p, Compose(q, r))
  {
    ComposeIsProduct(p, q);
    ComposeIsProduct(q, r);
    ComposeIsProduct(Compose(p, q), r);
    ComposeIsProduct(p, Compose(q, r));
    Matrix.ProductAssociative(Backing(p), Backing(q), Backing(r), 3, 3, 3, 3);
    BackingInjective(Compose(Compose(p, q), r), Compose(p, Compose(q, r)));
  }

  /** A rotation distributes over vector addition. */
  lemma ApplyPlus(a: V3, b: V3, m: Rot)
    ensures ApplyRot(Plus(a, b), m) == Plus(ApplyRot(a, m), ApplyRot(b, m))
  {
    DotPlus(m.r0, a, b);
    DotPlus(m.r1, a, b);
    DotPlus(m.r2, a, b);
  }

  lemma DotPlus(r: V3, a: V3, b: V3)
    ensures Dot(r, Plus(a, b)) == Dot(r, a) + Dot(r, b)
  {
    assert r.x * (a.x + b.x) == r.x * a.x + r.x * b.x;
    assert r.y * (a.y + b.y) == r.y * a.y + r.y * b.y;
    assert r.z * (a.z + b.z) == r.z * a.z + r.z * b.z;
  }

  /** The identity rotation moves nothing. */
  lemma ApplyId(v: V3)
    ensures ApplyRot(v, Id3) == v
  {
  }

  // ---- generate_all_rotations ---------------------------------------------------

  /** The six rotations `generate_all_rotations` starts from, one for each
    * direction the first axis can point in. */
  const Axes: seq<Rot> := [
    Rot(V3(1, 0, 0), V3(0, 1, 0), V3(0, 0, 1)),
    Rot(V3(0, -1, 0), V3(1, 0, 0), V3(0, 0, 1)),
    Rot(V3(-1, 0, 0), V3(0, -1, 0), V3(0, 0, 1)),
    Rot(V3(0, 1, 0), V3(-1, 0, 0), V3(0, 0, 1)),
    Rot(V3(0, 0, -1), V3(0, 1, 0), V3(1, 0, 0)),
    Rot(V3(0, 0, 1), V3(0, 1, 0), V3(-1, 0, 0))
  ]

  /** The first `flat_map`'s second matrix: the last two rows negated, a half
    * turn about the first axis. */
  function Flip(m: Rot): Rot
  {
    Rot(m.r0, Neg(m.r1), Neg(m.r2))
  }

  /** The second `flat_map`'s second matrix: rows `(r0, -r2, r1)`, a quarter
    * turn about the first axis. */
  function Turn(m: Rot): Rot
  {
    Rot(m.r0, Neg(m.r2), m.r1)
  }

  /** Each matrix followed by its `Flip` (the first `flat_map`). */
  function WithFlips(ms: seq<Rot>): (r: seq<Rot>)
    ensures |r| == 2 * |ms|
    ensures forall i :: 0 <= i < |ms| ==> r[2 * i] == ms[i] && r[2 * i + 1] == Flip(ms[i])
  {
    seq(2 * |ms|, i requires 0 <= i < 2 * |ms| => if i % 2 == 0 then ms[i / 2] else Flip(ms[i / 2]))
  }

  /** Each matrix followed by its `Turn` (the second `flat_map`). */
  function WithTurns(ms: seq<Rot>): (r: seq<Rot>)
    ensures |r| == 2 * |ms|
    ensures forall i :: 0 <= i < |ms| ==> r[2 * i] == ms[i] && r[2 * i + 1] == Turn(ms[i])
  {
    seq(2 * |ms|, i requires 0 <= i < 2 * |ms| => if i % 2 == 0 then ms[i / 2] else Turn(ms[i / 2]))
  }

  /** `generate_all_rotations()`, in the order the source enumerates them. */
  function AllRotations(): seq<Rot>
  {
    WithTurns(WithFlips(Axes))
  }

  lemma WithFlipsIn(ms: seq<Rot>, m: Rot)
    requires m in WithFlips(ms)
    ensures exists k :: 0 <= k < |ms| && (m == ms[k] || m == Flip(ms[k]))
  {
    var i :| 0 <= i < |WithFlips(ms)| && WithFlips(ms)[i] == m;
    var k := i / 2;
    assert i == 2 * k || i == 2 * k + 1;
  }

  lemma WithTurnsIn(ms: seq<Rot>, m: Rot)
    requires m in WithTurns(ms)
    ensures exists k :: 0 <= k < |ms| && (m == ms[k] || m == Turn(ms[k]))
  {
    var i :| 0 <= i < |WithTurns(ms)| && WithTurns(ms)[i] == m;
    var k := i / 2;
    assert i == 2 * k || i == 2 * k + 1;
  }

  /** Three mutually perpendicular unit vectors. */
  predicate Orthonormal(a: V3, b: V3, c: V3)
  {
    Dot(a, a) == 1 && Dot(b, b) == 1 && Dot(c, c) == 1 && Dot(a, b) == 0 && Dot(a, c) == 0 && Dot(b, c) == 0
  }

  function Cross(a: V3, b: V3): V3
  {
    V3(a.y * b.z - a.z * b.y, a.z * b.x - a.x * b.z, a.x * b.y - a.y * b.x)
  }

  /** The determinant. */
  function Det(m: Rot): int
  {
    Dot(m.r0, Cross(m.r1, m.r2))
  }

  /** A rotation of the cube: rows and columns orthonormal, and no
    * reflection. */
  predicate Proper(m: Rot)
  {
    var t := Transpose(m);
    Orthonormal(m.r0, m.r1, m.r2) && Orthonormal(t.r0, t.r1, t.r2) && Det(m) == 1
  }

  /** A vector with one entry 1 or -1 and the others 0. */
  predicate Unit(v: V3)
  {
    ((v.x == 1 || v.x == -1) && v.y == 0 && v.z == 0) || (v.x == 0 && (v.y == 1 || v.y == -1) && v.z == 0)
      || (v.x == 0 && v.y == 0 && (v.z == 1 || v.z == -1))
  }

  lemma UnitNorm(v: V3)
    requires Unit(v)
    ensures Dot(v, v) == 1
  {
  }

  lemma NegDot(a: V3, b: V3)
    ensures Dot(Neg(a), b) == -Dot(a, b) && Dot(a, Neg(b)) == -Dot(a, b) && Dot(Neg(a), Neg(b)) == Dot(a, b)
    ensures Dot(a, b) == Dot(b, a)
  {
  }

  lemma NegCross(a: V3, b: V3)
    ensures Cross(Neg(a), Neg(b)) == Cross(a, b)
    ensures Cross(Neg(b), a) == Cross(a, b)
  {
  }

  /** The Gram sums of three columns `(a.i, b.i, c.i)`: the dot products of
    * the columns, written from the rows. */
  function ColDot(a: V3, b: V3, c: V3, i: nat, j: nat): int
    requires i < 3 && j < 3
  {
    Comp(a, i) * Comp(a, j) + Comp(b, i) * Comp(b, j) + Comp(c, i) * Comp(c, j)
  }

  function Comp(v: V3, i: nat): int
    requires i < 3
  {
    if i == 0 then v.x else if i == 1 then v.y else v.z
  }

  /** Columns orthonormal, stated on the rows. */
  predicate ColsOrthonormal(a: V3, b: V3, c: V3)
  {
    forall i: nat, j: nat | i < 3 && j < 3 :: ColDot(a, b, c, i, j) == (if i == j then 1 else 0)
  }

  lemma ColsOfTranspose(m: Rot)
    ensures ColsOrthonormal(m.r0, m.r1, m.r2) <==> (var t := Transpose(m); Orthonormal(t.r0, t.r1, t.r2))
  {
    var t := Transpose(m);
    assert Dot(t.r0, t.r0) == ColDot(m.r0, m.r1, m.r2, 0, 0);
    assert Dot(t.r1, t.r1) == ColDot(m.r0, m.r1, m.r2, 1, 1);
    assert Dot(t.r2, t.r2) == ColDot(m.r0, m.r1, m.r2, 2, 2);
    assert Dot(t.r0, t.r1) == ColDot(m.r0, m.r1, m.r2, 0, 1) == ColDot(m.r0, m.r1, m.r2, 1, 0);
    assert Dot(t.r0, t.r2) == ColDot(m.r0, m.r1, m.r2, 0, 2) == ColDot(m.r0, m.r1, m.r2, 2, 0);
    assert Dot(t.r1, t.r2) == ColDot(m.r0, m.r1, m.r2, 1, 2) == ColDot(m.r0, m.r1, m.r2, 2, 1);
  }

  /** Negating rows and swapping them leaves the column dot products alone. */
  lemma ColDotSigns(a: V3, b: V3, c: V3, i: nat, j: nat)
    requires i < 3 && j < 3
    ensures ColDot(a, Neg(b), Neg(c), i, j) == ColDot(a, b, c, i, j)
    ensures ColDot(a, Neg(c), b, i, j) == ColDot(a, b, c, i, j)
  {
  }

  /** A half turn keeps a rotation proper. */
  lemma FlipProper(m: Rot)
    requires Proper(m)
    ensures Proper(Flip(m))
  {
    var f := Flip(m);
    NegDot(m.r0, m.r1);
    NegDot(m.r0, m.r2);
    NegDot(m.r1, m.r2);
    NegDot(m.r1, m.r1);
    NegDot(m.r2, m.r2);
    assert Orthonormal(f.r0, f.r1, f.r2);
    ColsOfTranspose(m);
    ColsOfTranspose(f);
    forall i: nat, j: nat | i < 3 && j < 3
      ensures ColDot(f.r0, f.r1, f.r2, i, j) == ColDot(m.r0, m.r1, m.r2, i, j)
    {
      ColDotSigns(m.r0, m.r1, m.r2, i, j);
    }
    NegCross(m.r1, m.r2);
  }

  /** A quarter turn keeps a rotation proper. */
  lemma TurnProper(m: Rot)
    requires Proper(m)
    ensures Proper(Turn(m))
  {
    var f := Turn(m);
    NegDot(m.r0, m.r2);
    NegDot(m.r2, m.r1);
    NegDot(m.r1, m.r2);
    NegDot(m.r2, m.r2);
    assert Orthonormal(f.r0, f.r1, f.r2);
    ColsOfTranspose(m);
    ColsOfTranspose(f);
    forall i: nat, j: nat | i < 3 && j < 3
      ensures ColDot(f.r0, f.r1, f.r2, i, j) == ColDot(m.r0, m.r1, m.r2, i, j)
    {
      ColDotSigns(m.r0, m.r1, m.r2, i, j);
    }
    NegCross(m.r2, m.r1);
  }

  /** The six starting matrices are proper; each is checked on its own, as
    * the solver handles one matrix of constants at a time best. */
  lemma AxisProper(m: Rot)
    requires m in Axes
    ensures Proper(m)
  {
    if m == Axes[0] {
      Axis0Proper(m);
    } else if m == Axes[1] {
      Axis1Proper(m);
    } else if m == Axes[2] {
      Axis2Proper(m);
    } else if m == Axes[3] {
      Axis3Proper(m);
    } else if m == Axes[4] {
      Axis4Proper(m);
    } else {
      Axis5Proper(m);
    }
  }

  lemma Axis0Proper(m: Rot)
    requires m == Axes[0]
    ensures Proper(m)
  {
    UnitsProper(m);
  }

  lemma Axis1Proper(m: Rot)
    requires m == Axes[1]
    ensures Proper(m)
  {
    UnitsProper(m);
  }

  lemma Axis2Proper(m: Rot)
    requires m == Axes[2]
    ensures Proper(m)
  {
    UnitsProper(m);
  }

  lemma Axis3Proper(m: Rot)
    requires m == Axes[3]
    ensures Proper(m)
  {
    UnitsProper(m);
  }

  lemma Axis4Proper(m: Rot)
    requires m == Axes[4]
    ensures Proper(m)
  {
    UnitsProper(m);
  }

  lemma Axis5Proper(m: Rot)
    requires m == Axes[5]
    ensures Proper(m)
  {
    UnitsProper(m);
  }

  /** A matrix whose rows and columns are unit vectors in different
    * positions, with determinant 1, is proper. */
  lemma UnitsProper(m: Rot)
    requires Unit(m.r0) && Unit(m.r1) && Unit(m.r2)
    requires Disjoint(m.r0, m.r1) && Disjoint(m.r0, m.r2) && Disjoint(m.r1, m.r2)
    requires var t := Transpose(m); Unit(t.r0) && Unit(t.r1) && Unit(t.r2)
    requires var t := Transpose(m); Disjoint(t.r0, t.r1) && Disjoint(t.r0, t.r2) && Disjoint(t.r1, t.r2)
    requires Det(m) == 1
    ensures Proper(m)
  {
    var t := Transpose(m);
    UnitNorm(m.r0);
    UnitNorm(m.r1);
    UnitNorm(m.r2);
    UnitNorm(t.r0);
    UnitNorm(t.r1);
    UnitNorm(t.r2);
    DisjointDot(m.r0, m.r1);
    DisjointDot(m.r0, m.r2);
    DisjointDot(m.r1, m.r2);
    DisjointDot(t.r0, t.r1);
    DisjointDot(t.r0, t.r2);
    DisjointDot(t.r1, t.r2);
  }

  /** No position where both vectors are nonzero. */
  predicate Disjoint(a: V3, b: V3)
  {
    (a.x == 0 || b.x == 0) && (a.y == 0 || b.y == 0) && (a.z == 0 || b.z == 0)
  }

  lemma DisjointDot(a: V3, b: V3)
    requires Disjoint(a, b)
    ensures Dot(a, b) == 0
  {
  }

  /** `generate_all_rotations` yields 24 proper rotations of the cube, the
    * identity first. */
  lemma AllRotationsProper()
    ensures |AllRotations()| == 24 && AllRotations()[0] == Id3
    ensures forall m :: m in AllRotations() ==> Proper(m)
  {
    var fs := WithFlips(Axes);
    assert fs[0] == Axes[0];
    forall m | m in fs
      ensures Proper(m)
    {
      WithFlipsIn(Axes, m);
      var k :| 0 <= k < |Axes| && (m == Axes[k] || m == Flip(Axes[k]));
      AxisProper(Axes[k]);
      if m != Axes[k] {
        FlipProper(Axes[k]);
      }
    }
    forall m | m in AllRotations()
      ensures Proper(m)
    {
      WithTurnsIn(fs, m);
      var k :| 0 <= k < |fs| && (m == fs[k] || m == Turn(fs[k]));
      assert fs[k] in fs;
      if m != fs[k] {
        TurnProper(fs[k]);
      }
    }
  }

  /** Over the integers a unit vector has one entry 1 or -1 and the others
    * 0, so each rotation is a signed permutation matrix. */
  lemma UnitRows(m: Rot)
    requires Proper(m)
    ensures Unit(m.r0) && Unit(m.r1) && Unit(m.r2)
  {
    NormOne(m.r0);
    NormOne(m.r1);
    NormOne(m.r2);
  }

  lemma NormOne(v: V3)
    requires Dot(v, v) == 1
    ensures Unit(v)
  {
    Square(v.x);
    Square(v.y);
    Square(v.z);
  }

  lemma Square(x: int)
    ensures x * x >= 0
    ensures x * x == 0 <==> x == 0
    ensures x != 0 && x * x != 1 ==> x * x >= 4
  {
    if x >= 2 {
      MulAtLeast(x, x);
    } else if x <= -2 {
      MulAtLeast(-x, -x);
    }
  }

  /** `Rot::inverse` (the transpose) undoes a proper rotation on both sides:
    * `R · transpose(R) == transpose(R) · R == I`. */
  lemma InverseUndoes(m: Rot, v: V3)
    requires Proper(m)
    ensures Compose(m, Transpose(m)) == Id3 && Compose(Transpose(m), m) == Id3
    ensures ApplyRot(ApplyRot(v, m), Transpose(m)) == v
    ensures ApplyRot(ApplyRot(v, Transpose(m)), m) == v
  {
    NegDot(m.r0, m.r1);
    NegDot(m.r0, m.r2);
    NegDot(m.r1, m.r2);
    var t := Transpose(m);
    NegDot(t.r0, t.r1);
    NegDot(t.r0, t.r2);
    NegDot(t.r1, t.r2);
    assert Compose(m, Transpose(m)) == Id3;
    assert Compose(Transpose(m), m) == Id3;
    ApplyCompose(v, Transpose(m), m);
    ApplyCompose(v, m, Transpose(m));
  }

  /** A proper rotation moves different points to different points. */
  lemma RotInjective(m: Rot, a: V3, b: V3)
    requires Proper(m) && ApplyRot(a, m) == ApplyRot(b, m)
    ensures a == b
  {
    InverseUndoes(m, a);
    InverseUndoes(m, b);
  }

  // ---- rotation and translation ------------------------------------------------

  /** `RotAndTrans`: rotate, then translate. */
  datatype RotAndTrans = RotAndTrans(rot: Rot, trans: V3)

  /** `apply_rt`. */
  function ApplyRt(v: V3, rt: RotAndTrans): V3
  {
    Plus(ApplyRot(v, rt.rot), rt.trans)
  }

  /** `combine_rt(first, second)`: the transform that applies `first` and
    * then `second`. */
  function CombineRt(first: RotAndTrans, second: RotAndTrans): RotAndTrans
  {
    RotAndTrans(Compose(second.rot, first.rot), Plus(ApplyRot(first.trans, second.rot), second.trans))
  }

  /** The transform `place_origin` gives the first scanner. */
  const OriginRt: RotAndTrans := RotAndTrans(Id3, V3(0, 0, 0))

  /** `combine_rt` composes: applying the combination is applying `first`,
    * then `second`. */
  lemma CombineApply(v: V3, first: RotAndTrans, second: RotAndTrans)
    ensures ApplyRt(v, CombineRt(first, second)) == ApplyRt(ApplyRt(v, first), second)
  {
    ApplyCompose(v, second.rot, first.rot);
    ApplyPlus(ApplyRot(v, first.rot), first.trans, second.rot);
  }

  /** Combining is associative, so a chain of placements does not depend on
    * how it is grouped. */
  lemma CombineAssociative(a: RotAndTrans, b: RotAndTrans, c: RotAndTrans)
    ensures CombineRt(CombineRt(a, b), c) == CombineRt(a, CombineRt(b, c))
  {
    ComposeAssociative(c.rot, b.rot, a.rot);
    ApplyCompose(a.trans, c.rot, b.rot);
    ApplyPlus(ApplyRot(a.trans, b.rot), b.trans, c.rot);
  }

  /** The origin transform changes nothing, and the image of the origin
    * (what `p1` takes as a scanner's position) is the translation. */
  lemma OriginRtIdentity(v: V3, rt: RotAndTrans)
    ensures ApplyRt(v, OriginRt) == v
    ensures ApplyRt(V3(0, 0, 0), rt) == rt.trans
  {
    ApplyId(v);
  }

  lemma ApplyNeg(a: V3, m: Rot)
    ensures ApplyRot(Neg(a), m) == Neg(ApplyRot(a, m))
  {
    NegDot(m.r0, a);
    NegDot(m.r1, a);
    NegDot(m.r2, a);
    NegDot(a, m.r0);
    NegDot(a, m.r1);
    NegDot(a, m.r2);
  }

  /** `RotAndTrans::invert` as written: the translation is rotated back but
    * not negated. */
  function InvertAsWritten(rt: RotAndTrans): RotAndTrans
  {
    var rot := Transpose(rt.rot);
    RotAndTrans(rot, ApplyRot(rt.trans, rot))
  }

  /** With the identity rotation and translation (1, 0, 0), the point
    * moved to (1, 0, 0) is sent on to (2, 0, 0) instead of back to the
    * origin. */
  lemma InvertAsWrittenFails()
    ensures var rt := RotAndTrans(Id3, V3(1, 0, 0));
      ApplyRt(ApplyRt(V3(0, 0, 0), rt), InvertAsWritten(rt)) == V3(2, 0, 0)
  {
    var rt := RotAndTrans(Id3, V3(1, 0, 0));
    assert Transpose(Id3) == Id3;
    OriginRtIdentity(V3(0, 0, 0), rt);
    ApplyId(V3(1, 0, 0));
  }

  /** The inverse of a transform with a proper rotation: rotate back, then
    * translate by the negated, rotated-back translation. */
  function Invert(rt: RotAndTrans): (r: RotAndTrans)
    ensures r.rot == Transpose(rt.rot)
  {
    var rot := Transpose(rt.rot);
    RotAndTrans(rot, Neg(ApplyRot(rt.trans, rot)))
  }

  /** `Invert` undoes a transform on both sides. */
  lemma InvertUndoes(v: V3, rt: RotAndTrans)
    requires Proper(rt.rot)
    ensures ApplyRt(ApplyRt(v, rt), Invert(rt)) == v
    ensures ApplyRt(ApplyRt(v, Invert(rt)), rt) == v
  {
    var m := rt.rot;
    var t := Transpose(m);
    InverseUndoes(m, v);
    InverseUndoes(m, rt.trans);
    ApplyPlus(ApplyRot(v, m), rt.trans, t);
    var w := Plus(ApplyRot(v, t), Neg(ApplyRot(rt.trans, t)));
    ApplyPlus(ApplyRot(v, t), Neg(ApplyRot(rt.trans, t)), m);
    ApplyNeg(ApplyRot(rt.trans, t), m);
    InverseUndoes(m, v);
  }

  // ---- try_find_trans and try_find_rt ------------------------------------------

  predicate Distinct(q: seq<V3>)
  {
    forall i, j :: 0 <= i < j < |q| ==> q[i] != q[j]
  }

  /** The plug's points translated by `d`, as a set. */
  function Shifted(plug: seq<V3>, d: V3): set<V3>
  {
    if plug == [] then {} else {Plus(plug[0], d)} + Shifted(plug[1..], d)
  }

  lemma {:induction false} ShiftedIn(plug: seq<V3>, d: V3, w: V3)
    ensures w in Shifted(plug, d) <==> exists i :: 0 <= i < |plug| && w == Plus(plug[i], d)
  {
    if plug != [] {
      ShiftedIn(plug[1..], d, w);
      if w in Shifted(plug[1..], d) {
        var i :| 0 <= i < |plug[1..]| && w == Plus(plug[1..][i], d);
        assert w == Plus(plug[i + 1], d);
      }
      forall i | 0 < i < |plug| && w == Plus(plug[i], d)
        ensures w in Shifted(plug[1..], d)
      {
        assert plug[1..][i - 1] == plug[i];
      }
    }
  }

  /** The test `try_find_trans` applies to a candidate translation: the union
    * of the socket and the translated plug is at least 12 smaller than the
    * two sizes added. */
  predicate Fits(socket: set<V3>, plug: seq<V3>, d: V3)
  {
    |socket + Shifted(plug, d)| + 12 <= |socket| + |plug|
  }

  /** A plug without repeated points keeps its size when translated. */
  lemma {:induction false} ShiftedCard(plug: seq<V3>, d: V3)
    requires Distinct(plug)
    ensures |Shifted(plug, d)| == |plug|
  {
    if plug != [] {
      var rest := plug[1..];
      assert Distinct(rest) by {
        forall i, j | 0 <= i < j < |rest|
          ensures rest[i] != rest[j]
        {
          assert rest[i] == plug[i + 1] && rest[j] == plug[j + 1];
        }
      }
      ShiftedCard(rest, d);
      if Plus(plug[0], d) in Shifted(rest, d) {
        ShiftedIn(rest, d, Plus(plug[0], d));
        var i :| 0 <= i < |rest| && Plus(plug[0], d) == Plus(rest[i], d);
        PlusMinus(rest[i], plug[0], d);
      }
    }
  }

  /** `Fits` on a plug without repeated points means at least 12 translated
    * plug points land on socket points. */
  lemma FitsMeans(socket: set<V3>, plug: seq<V3>, d: V3)
    requires Distinct(plug)
    ensures Fits(socket, plug, d) <==> |socket * Shifted(plug, d)| >= 12
  {
    ShiftedCard(plug, d);
  }

  lemma NoFitExtend(socket: set<V3>, plug: seq<V3>, sv: V3, j: nat)
    requires j < |plug|
    requires forall j' :: 0 <= j' < j ==> !Fits(socket, plug, Minus(sv, plug[j']))
    requires !(|socket + Shifted(plug, Minus(sv, plug[j]))| + 12 <= |socket| + |plug|)
    ensures forall j' :: 0 <= j' < j + 1 ==> !Fits(socket, plug, Minus(sv, plug[j']))
  {
  }

  /** `try_find_trans`: looks, over the socket's points in the set's own
    * order and then the plug's indices in turn, for a translation moving a
    * plug point onto a socket point that `Fits`; the first one is returned. */
  method TryFindTrans(socket: set<V3>, plug: seq<V3>) returns (r: Option<V3>)
    ensures r.Some? ==> Fits(socket, plug, r.value)
    ensures r.Some? ==> exists s, j :: s in socket && 0 <= j < |plug| && r.value == Minus(s, plug[j])
    ensures r.None? ==> forall s, j :: s in socket && 0 <= j < |plug| ==> !Fits(socket, plug, Minus(s, plug[j]))
  {
    var rest, tried := socket, {};
    while rest != {}
      invariant rest + tried == socket
      invariant forall s, j :: s in tried && 0 <= j < |plug| ==> !Fits(socket, plug, Minus(s, plug[j]))
      decreases |rest|
    {
      var sv :| sv in rest;
      for j := 0 to |plug|
        invariant forall j' :: 0 <= j' < j ==> !Fits(socket, plug, Minus(sv, plug[j']))
      {
        var d := Minus(sv, plug[j]);
        var newLs := socket + Shifted(plug, d);
        if |newLs| + 12 <= |socket| + |plug| {
          return Some(d);
        }
        NoFitExtend(socket, plug, sv, j);
      }
      rest, tried := rest - {sv}, tried + {sv};
    }
    return None;
  }

  /** The plug rotated point by point, in the same order. */
  function Rotated(plug: seq<V3>, m: Rot): (r: seq<V3>)
    ensures |r| == |plug| && forall i :: 0 <= i < |plug| ==> r[i] == ApplyRot(plug[i], m)
  {
    seq(|plug|, i requires 0 <= i < |plug| => ApplyRot(plug[i], m))
  }

  /** A proper rotation keeps the points distinct. */
  lemma RotatedDistinct(plug: seq<V3>, m: Rot)
    requires Distinct(plug) && Proper(m)
    ensures Distinct(Rotated(plug, m))
  {
    var q := Rotated(plug, m);
    forall i, j | 0 <= i < j < |q|
      ensures q[i] != q[j]
    {
      if q[i] == q[j] {
        RotInjective(m, plug[i], plug[j]);
      }
    }
  }

  /** No translation taking a plug point onto a socket point fits once the
    * plug is rotated by `m`. */
  predicate NoFit(socket: set<V3>, plug: seq<V3>, m: Rot)
  {
    forall s, j :: s in socket && 0 <= j < |plug| ==> !Fits(socket, Rotated(plug, m), Minus(s, ApplyRot(plug[j], m)))
  }

  /** No rotation before index `k` of `rots` has a fitting translation. */
  predicate NoFitBefore(socket: set<V3>, plug: seq<V3>, rots: seq<Rot>, k: nat)
  {
    forall k' :: 0 <= k' < k && k' < |rots| ==> NoFit(socket, plug, rots[k'])
  }

  /** One round of `try_find_rt`'s loop: rotate the plug by `m` and look for
    * a translation. */
  method TryRotation(socket: set<V3>, plug: seq<V3>, m: Rot) returns (t: Option<V3>)
    ensures t.Some? ==> Fits(socket, Rotated(plug, m), t.value)
    ensures t.Some? ==> exists s, j :: s in socket && 0 <= j < |plug| && t.value == Minus(s, ApplyRot(plug[j], m))
    ensures t.None? ==> NoFit(socket, plug, m)
  {
    var rotPlug := Rotated(plug, m);
    t := TryFindTrans(socket, rotPlug);
    if t.Some? {
      var s, j :| s in socket && 0 <= j < |rotPlug| && t.value == Minus(s, rotPlug[j]);
      assert rotPlug[j] == ApplyRot(plug[j], m);
    } else {
      forall s, j | s in socket && 0 <= j < |plug|
        ensures !Fits(socket, rotPlug, Minus(s, ApplyRot(plug[j], m)))
      {
        assert rotPlug[j] == ApplyRot(plug[j], m);
      }
    }
  }

  lemma NoFitBeforeExtend(socket: set<V3>, plug: seq<V3>, rots: seq<Rot>, k: nat)
    requires k < |rots|
    requires NoFitBefore(socket, plug, rots, k) && NoFit(socket, plug, rots[k])
    ensures NoFitBefore(socket, plug, rots, k + 1)
  {
  }

  /** The loop of `try_find_rt` over a list of rotations: the first rotation
    * under which a translation is found gives the transform. */
  method TryRotations(socket: set<V3>, plug: seq<V3>, rots: seq<Rot>) returns (r: Option<RotAndTrans>)
    ensures r.Some? ==> exists k :: 0 <= k < |rots| && r.value.rot == rots[k] && NoFitBefore(socket, plug, rots, k)
    ensures r.Some? ==> Fits(socket, Rotated(plug, r.value.rot), r.value.trans)
    ensures r.Some? ==> exists s, j :: s in socket && 0 <= j < |plug| && r.value.trans == Minus(s, ApplyRot(plug[j], r.value.rot))
    ensures r.None? ==> NoFitBefore(socket, plug, rots, |rots|)
  {
    for k := 0 to |rots|
      invariant NoFitBefore(socket, plug, rots, k)
    {
      var t := TryRotation(socket, plug, rots[k]);
      if t.Some? {
        return Some(RotAndTrans(rots[k], t.value));
      }
      NoFitBeforeExtend(socket, plug, rots, k);
    }
    return None;
  }

  /** `try_find_rt`: the 24 rotations of `generate_all_rotations` in order.
    * The plug is the scanner's beacon set, enumerated. */
  method TryFindRt(socket: set<V3>, plug: seq<V3>) returns (r: Option<RotAndTrans>)
    ensures r.Some? ==>
      exists k :: 0 <= k < |AllRotations()| && r.value.rot == AllRotations()[k] && NoFitBefore(socket, plug, AllRotations(), k)
    ensures r.Some? ==> Fits(socket, Rotated(plug, r.value.rot), r.value.trans)
    ensures r.Some? ==> exists s, j :: s in socket && 0 <= j < |plug| && r.value.trans == Minus(s, ApplyRot(plug[j], r.value.rot))
    ensures r.None? ==> NoFitBefore(socket, plug, AllRotations(), |AllRotations()|)
  {
    r := TryRotations(socket, plug, AllRotations());
  }

  // ---- placing a scanner ---------------------------------------------------------

  datatype Result<T, E> = Ok(value: T) | Err(err: E)

  /** `FreeChunk`: a scanner's beacons in its own frame, and its id. */
  datatype FreeChunk = FreeChunk(beacons: set<V3>, id: int)

  /** `PlacedChunk`: a scanner with the transform into the first scanner's
    * frame. */
  datatype PlacedChunk = PlacedChunk(beacons: set<V3>, rt: RotAndTrans, id: int)

  /** The points of `s` moved by `rt`. */
  function Image(s: set<V3>, rt: RotAndTrans): set<V3>
  {
    set v | v in s :: ApplyRt(v, rt)
  }

  /** At least 12 points of `s`, moved by `rt`, are points of `socket`. */
  predicate Overlaps(socket: set<V3>, s: set<V3>, rt: RotAndTrans)
  {
    |socket * Image(s, rt)| >= 12
  }

  /** Iterating a `HashSet`: its elements once each, in an order the set
    * chooses. */
  method Enumerate(s: set<V3>) returns (q: seq<V3>)
    ensures Distinct(q) && forall v :: v in q <==> v in s
  {
    var rest := s;
    q := [];
    while rest != {}
      invariant rest <= s && Distinct(q)
      invariant forall v :: v in q <==> v in s && v !in rest
      decreases |rest|
    {
      var v :| v in rest;
      q := q + [v];
      rest := rest - {v};
    }
  }

  /** A translated rotated enumeration is the image of the set. */
  lemma ImageIsShifted(plug: seq<V3>, s: set<V3>, rt: RotAndTrans)
    requires forall v :: v in plug <==> v in s
    ensures Image(s, rt) == Shifted(Rotated(plug, rt.rot), rt.trans)
  {
    var q := Rotated(plug, rt.rot);
    forall w | w in Image(s, rt)
      ensures w in Shifted(q, rt.trans)
    {
      var v :| v in s && w == ApplyRt(v, rt);
      var i :| 0 <= i < |plug| && plug[i] == v;
      ShiftedIn(q, rt.trans, w);
    }
    forall w | w in Shifted(q, rt.trans)
      ensures w in Image(s, rt)
    {
      ShiftedIn(q, rt.trans, w);
      var i :| 0 <= i < |q| && w == Plus(q[i], rt.trans);
      assert plug[i] in s;
    }
  }

  /** What `try_find_rt` finding `rt` says about the two beacon sets: at
    * least 12 of the plug's beacons, moved by `rt`, are socket beacons. */
  lemma FoundOverlap(socket: set<V3>, plug: seq<V3>, s: set<V3>, rt: RotAndTrans)
    requires Distinct(plug) && (forall v :: v in plug <==> v in s) && rt.rot in AllRotations()
    ensures Fits(socket, Rotated(plug, rt.rot), rt.trans) <==> Overlaps(socket, s, rt)
  {
    AllRotationsProper();
    RotatedDistinct(plug, rt.rot);
    FitsMeans(socket, Rotated(plug, rt.rot), rt.trans);
    ImageIsShifted(plug, s, rt);
  }

  /** A rotation with no fitting translation brings no 12 beacons of `s`
    * onto the socket by any translation taking a beacon onto a socket
    * beacon. */
  lemma NoOverlap(socket: set<V3>, plug: seq<V3>, s: set<V3>, m: Rot, sv: V3, v: V3)
    requires Distinct(plug) && (forall w :: w in plug <==> w in s) && m in AllRotations()
    requires NoFit(socket, plug, m) && sv in socket && v in s
    ensures !Overlaps(socket, s, RotAndTrans(m, Minus(sv, ApplyRot(v, m))))
  {
    var j :| 0 <= j < |plug| && plug[j] == v;
    FoundOverlap(socket, plug, s, RotAndTrans(m, Minus(sv, ApplyRot(v, m))));
  }

  /** `attempt_place_by`: placed relative to `base` when some rotation and a
    * translation taking one of its beacons onto one of `base`'s bring at
    * least 12 of its beacons onto `base`'s; otherwise handed back. */
  method AttemptPlaceBy(self: FreeChunk, base: PlacedChunk) returns (r: Result<PlacedChunk, FreeChunk>)
    ensures r.Err? ==> r.err == self && forall m, sv, v :: m in AllRotations() && sv in base.beacons && v in self.beacons ==>
      !Overlaps(base.beacons, self.beacons, RotAndTrans(m, Minus(sv, ApplyRot(v, m))))
    ensures r.Ok? ==> r.value.beacons == self.beacons && r.value.id == self.id
    ensures r.Ok? ==>
      exists rt: RotAndTrans :: rt.rot in AllRotations() && r.value.rt == CombineRt(rt, base.rt) && Overlaps(base.beacons, self.beacons, rt)
  {
    var plug := Enumerate(self.beacons);
    var found := TryFindRt(base.beacons, plug);
    if found.Some? {
      var rt := found.value;
      var k :| 0 <= k < |AllRotations()| && rt.rot == AllRotations()[k] && NoFitBefore(base.beacons, plug, AllRotations(), k);
      FoundOverlap(base.beacons, plug, self.beacons, rt);
      r := Ok(PlacedChunk(self.beacons, CombineRt(rt, base.rt), self.id));
    } else {
      r := Err(self);
      forall m, sv, v | m in AllRotations() && sv in base.beacons && v in self.beacons
        ensures !Overlaps(base.beacons, self.beacons, RotAndTrans(m, Minus(sv, ApplyRot(v, m))))
      {
        var k :| 0 <= k < |AllRotations()| && AllRotations()[k] == m;
        NoOverlap(base.beacons, plug, self.beacons, m, sv, v);
      }
    }
  }

  /** A placed scanner's beacons, in the first scanner's frame, are its
    * beacons moved by the relative transform and then by the base's. */
  lemma PlacedWorld(v: V3, rt: RotAndTrans, base: PlacedChunk)
    ensures ApplyRt(v, CombineRt(rt, base.rt)) == ApplyRt(ApplyRt(v, rt), base.rt)
  {
    CombineApply(v, rt, base.rt);
  }

  // ---- try_remove ----------------------------------------------------------------

  /** `try_remove(ls, pos, blank, f)`: `ls[pos]` is swapped out for `blank` and
    * given to `f`; on `Ok` the slot is removed, on `Err` what `f` handed back
    * is swapped in again. The list is a value here: the result is the new
    * list with the outcome. */
  function TryRemove<A, B>(ls: seq<A>, pos: nat, blank: A, f: A -> Result<B, A>): (r: (seq<A>, Option<B>))
    requires pos < |ls|
    ensures f(ls[pos]).Ok? ==> r.1 == Some(f(ls[pos]).value) && |r.0| == |ls| - 1
    ensures f(ls[pos]).Ok? ==> forall i :: 0 <= i < |r.0| ==> r.0[i] == ls[if i < pos then i else i + 1]
    ensures f(ls[pos]).Err? ==> r.1 == None && |r.0| == |ls| && r.0[pos] == f(ls[pos]).err
    ensures f(ls[pos]).Err? ==> forall i :: 0 <= i < |ls| && i != pos ==> r.0[i] == ls[i]
  {
    var taken := ls[pos];
    var swapped := ls[pos := blank];
    match f(taken)
    case Ok(v) => (swapped[..pos] + swapped[pos + 1..], Some(v))
    case Err(back) => (swapped[pos := back], None)
  }

  /** When `f` hands back what it was given, as `attempt_place_by` does, a
    * failed `try_remove` leaves the list as it was; a successful one takes
    * out exactly that element. */
  lemma TryRemoveKeeps<A, B>(ls: seq<A>, pos: nat, blank: A, f: A -> Result<B, A>)
    requires pos < |ls|
    requires f(ls[pos]).Err? ==> f(ls[pos]).err == ls[pos]
    ensures f(ls[pos]).Err? ==> TryRemove(ls, pos, blank, f).0 == ls
    ensures f(ls[pos]).Ok? ==> multiset(TryRemove(ls, pos, blank, f).0) + multiset{ls[pos]} == multiset(ls)
  {
    var r := TryRemove(ls, pos, blank, f);
    if f(ls[pos]).Ok? {
      assert r.0 == ls[..pos] + ls[pos + 1..];
      assert ls == ls[..pos] + [ls[pos]] + ls[pos + 1..];
    } else {
      assert r.0 == ls;
    }
  }

  // ---- man_dist ------------------------------------------------------------------

  /** The Manhattan distance. */
  function ManhattanDistance(a: V3, b: V3): nat
  {
    Abs(a.x - b.x) + Abs(a.y - b.y) + Abs(a.z - b.z)
  }

  /** The sum of `|p[i] - q[i]|` for `i < n`. */
  function AbsDiffSum(p: seq<int>, q: seq<int>, n: nat): int
    requires n <= |p| && n <= |q|
  {
    if n == 0 then 0 else AbsDiffSum(p, q, n - 1) + Abs(p[n - 1] - q[n - 1])
  }

  /** `man_dist`: the loop over the three entries of the backing arrays. */
  method ManDist(a: V3, b: V3) returns (acc: int)
    ensures acc == ManhattanDistance(a, b)
  {
    var p, q := Col(a), Col(b);
    acc := 0;
    for i := 0 to 3
      invariant acc == AbsDiffSum(p, q, i)
    {
      acc := acc + Abs(p[i] - q[i]);
    }
    assert AbsDiffSum(p, q, 3) == Abs(a.x - b.x) + Abs(a.y - b.y) + Abs(a.z - b.z) by {
      assert AbsDiffSum(p, q, 1) == Abs(a.x - b.x);
    }
  }

  /** The Manhattan distance is a metric: symmetric, zero exactly on equal
    * points, and obeying the triangle inequality. */
  lemma ManhattanMetric(a: V3, b: V3, c: V3)
    ensures ManhattanDistance(a, b) == ManhattanDistance(b, a)
    ensures ManhattanDistance(a, b) == 0 <==> a == b
    ensures ManhattanDistance(a, c) <= ManhattanDistance(a, b) + ManhattanDistance(b, c)
  {
  }

  // ---- line_as_coords ------------------------------------------------------------

  /** `line_as_coords`: after trimming trailing white space, three `i32`
    * values separated by the first two commas. */
  function LineAsCoords(s: string): (r: Option<(int, int, int)>)
    ensures r.Some? ==> I32_MIN <= r.value.0 <= I32_MAX && I32_MIN <= r.value.1 <= I32_MAX && I32_MIN <= r.value.2 <= I32_MAX
    ensures r.Some? ==>
      exists a, b, c :: TrimEnd(s) == a + [','] + b + [','] + c && ParseInt(a, I32_MIN, I32_MAX) == Some(r.value.0) &&
        ParseInt(b, I32_MIN, I32_MAX) == Some(r.value.1) && ParseInt(c, I32_MIN, I32_MAX) == Some(r.value.2)
  {
    var t := TrimEnd(s);
    match SplitOnce(t, ',')
    case None => None
    case Some((a, bc)) =>
      match SplitOnce(bc, ',')
      case None => None
      case Some((b, c)) =>
        var pa, pb, pc := ParseInt(a, I32_MIN, I32_MAX), ParseInt(b, I32_MIN, I32_MAX), ParseInt(c, I32_MIN, I32_MAX);
        if pa.None? || pb.None? || pc.None? then None
        else
          Regroup(a, b, c, ',');
          Some((pa.value, pb.value, pc.value))
  }

  lemma Regroup(a: string, b: string, c: string, x: char)
    ensures a + [x] + (b + [x] + c) == a + [x] + b + [x] + c
  {
    var l, r := a + [x] + (b + [x] + c), a + [x] + b + [x] + c;
    assert |l| == |r|;
    forall i | 0 <= i < |l|
      ensures l[i] == r[i]
    {
      if i < |a| + 1 + |b| + 1 {
      }
    }
  }

  /** Three comma-free fields joined by commas, then white space: trimming
    * gives the three fields with their commas, and the two splits give the
    * fields back. */
  lemma LineParts(a: string, b: string, c: string, w: string)
    requires ',' !in a && ',' !in b && c != [] && !IsSpace(c[|c| - 1])
    requires forall i :: 0 <= i < |w| ==> IsSpace(w[i])
    ensures TrimEnd(a + "," + b + "," + c + w) == a + "," + b + "," + c
    ensures SplitOnce(a + "," + b + "," + c, ',') == Some((a, b + "," + c))
    ensures SplitOnce(b + "," + c, ',') == Some((b, c))
  {
    var t := a + "," + b + "," + c;
    assert t[|t| - 1] == c[|c| - 1];
    TrimEndAfter(t, w);
    Regroup(a, b, c, ',');
    SplitOnceAt(a, ',', b + [','] + c);
    SplitOnceAt(b, ',', c);
  }

  /** A line as the puzzle input writes it parses back to its three values,
    * whatever white space follows. */
  lemma LineRoundTrip(x: int, y: int, z: int, w: string)
    requires I32_MIN <= x <= I32_MAX && I32_MIN <= y <= I32_MAX && I32_MIN <= z <= I32_MAX
    requires forall i :: 0 <= i < |w| ==> IsSpace(w[i])
    ensures LineAsCoords(Signed(x) + "," + Signed(y) + "," + Signed(z) + w) == Some((x, y, z))
  {
    LineParts(Signed(x), Signed(y), Signed(z), w);
    ParseSigned(x, I32_MIN, I32_MAX);
    ParseSigned(y, I32_MIN, I32_MAX);
    ParseSigned(z, I32_MIN, I32_MAX);
  }

  /** A line with fewer than two commas (such as a blank line or a
    * `--- scanner N ---` header) gives `None`. */
  lemma LineWithoutComma(s: string)
    requires ',' !in s
    ensures LineAsCoords(s).None?
  {
    var t := TrimEnd(s);
    assert ',' !in t by {
      assert t == s[..|t|];
    }
  }

  // ---- read_data -----------------------------------------------------------------

  /** `read_data`'s loop state: the finished scanners, the beacons of the one
    * being read (if a coordinate line has been seen since the last break),
    * and the next id. */
  datatype ReadState = ReadState(ret: seq<FreeChunk>, cur: Option<set<V3>>, id: int)

  /** One line: coordinates go into the current set (started on demand);
    * anything else closes the current scanner, if there is one. */
  function ReadStep(st: ReadState, line: string): ReadState
  {
    match LineAsCoords(line)
    case Some(c) =>
      var hs := if st.cur.Some? then st.cur.value else {};
      st.(cur := Some(hs + {V3(c.0, c.1, c.2)}))
    case None =>
      if st.cur.Some? then ReadState(st.ret + [FreeChunk(st.cur.value, st.id)], None, st.id + 1) else st
  }

  function ReadLines(lines: seq<string>): ReadState
  {
    if lines == [] then ReadState([], None, 0) else ReadStep(ReadLines(lines[..|lines| - 1]), lines[|lines| - 1])
  }

  /** After the last line, a scanner still being read is closed too. */
  function ReadFinish(st: ReadState): seq<FreeChunk>
  {
    if st.cur.Some? then st.ret + [FreeChunk(st.cur.value, st.id)] else st.ret
  }

  lemma ReadLinesSnoc(lines: seq<string>, k: nat)
    requires k < |lines|
    ensures ReadLines(lines[..k + 1]) == ReadStep(ReadLines(lines[..k]), lines[k])
  {
    assert lines[..k + 1][..k] == lines[..k];
  }

  /** The body of `read_data`'s loop over the lines. */
  method ReadOne(ret: seq<FreeChunk>, cur: Option<set<V3>>, id: int, line: string)
      returns (ret': seq<FreeChunk>, cur': Option<set<V3>>, id': int)
    ensures ReadState(ret', cur', id') == ReadStep(ReadState(ret, cur, id), line)
  {
    ret', cur', id' := ret, cur, id;
    var parsed := LineAsCoords(line);
    match parsed {
      case Some(c) =>
        var hs := if cur.Some? then cur.value else {};
        cur' := Some(hs + {V3(c.0, c.1, c.2)});
      case None =>
        if cur.Some? {
          ret' := ret + [FreeChunk(cur.value, id)];
          cur' := None;
          id' := id + 1;
        }
    }
  }

  /** `read_data`, with the file's lines as a parameter. */
  method ReadData(lines: seq<string>) returns (ret: seq<FreeChunk>)
    ensures ret == ReadFinish(ReadLines(lines))
  {
    ret := [];
    var cur: Option<set<V3>> := None;
    var id := 0;
    for k := 0 to |lines|
      invariant ReadState(ret, cur, id) == ReadLines(lines[..k])
    {
      ReadLinesSnoc(lines, k);
      ret, cur, id := ReadOne(ret, cur, id, lines[k]);
    }
    assert lines[..|lines|] == lines;
    if cur.Some? {
      ret := ret + [FreeChunk(cur.value, id)];
    }
  }

  /** The scanners read so far are numbered 0, 1, 2, ... in order and none is
    * empty; neither is the one being read. */
  predicate WellRead(st: ReadState)
  {
    st.id == |st.ret| && (st.cur.Some? ==> st.cur.value != {})
      && forall i :: 0 <= i < |st.ret| ==> st.ret[i].id == i && st.ret[i].beacons != {}
  }

  lemma {:induction false} ReadLinesWell(lines: seq<string>)
    ensures WellRead(ReadLines(lines))
  {
    if lines != [] {
      ReadLinesWell(lines[..|lines| - 1]);
    }
  }

  /** `read_data` numbers the scanners by position and never yields one
    * without beacons. */
  lemma ReadDataIds(lines: seq<string>)
    ensures var r := ReadFinish(ReadLines(lines));
      forall i :: 0 <= i < |r| ==> r[i].id == i && r[i].beacons != {}
  {
    ReadLinesWell(lines);
  }
}
