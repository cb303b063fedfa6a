/** Matrices over the reals (aviate-core/src/math.rs): any dimensions, exact arithmetic. */
module Matrices {
  import opened Sums

  datatype RawMatrix = Matrix(rows: nat, cols: nat, data: seq<seq<real>>)

  predicate WellSized(m: RawMatrix) {
    |m.data| == m.rows && forall i :: 0 <= i < m.rows ==> |m.data[i]| == m.cols
  }

  type Matrix = m: RawMatrix | WellSized(m) witness Matrix(0, 0, [])

  /** Entry (i, j); zero outside the matrix. */
  function At(m: Matrix, i: int, j: int): real {
    if 0 <= i < m.rows && 0 <= j < m.cols then m.data[i][j] else 0.0
  }

  /** The matrix with entries f(i, j). */
  function Tabulate(r: nat, c: nat, f: (int, int) -> real): (m: Matrix)
    ensures m.rows == r && m.cols == c
    ensures forall i, j :: 0 <= i < r && 0 <= j < c ==> At(m, i, j) == f(i, j)
  {
    Matrix(r, c, seq(r, i requires 0 <= i < r => seq(c, j requires 0 <= j < c => f(i, j))))
  }

  lemma SameEntries(a: Matrix, b: Matrix)
    requires a.rows == b.rows && a.cols == b.cols
    requires forall i, j :: 0 <= i < a.rows && 0 <= j < a.cols ==> At(a, i, j) == At(b, i, j)
    ensures a == b
  {
    forall i | 0 <= i < a.rows ensures a.data[i] == b.data[i] {
      forall j | 0 <= j < a.cols ensures a.data[i][j] == b.data[i][j] {
        assert At(a, i, j) == At(b, i, j);
      }
    }
    assert a.data == b.data;
  }

  ghost function T(m: Matrix): Matrix { Tabulate(m.cols, m.rows, (i, j) => At(m, j, i)) }

  ghost function Add(a: Matrix, b: Matrix): Matrix
    requires a.rows == b.rows && a.cols == b.cols
  {
    Tabulate(a.rows, a.cols, (i, j) => At(a, i, j) + At(b, i, j))
  }

  /** Entry (i, j) of the product. */
  ghost function Dot(a: Matrix, b: Matrix, i: int, j: int): real {
    Sum(a.cols, k => At(a, i, k) * At(b, k, j))
  }

  ghost function Mul(a: Matrix, b: Matrix): Matrix
    requires a.cols == b.rows
  {
    Tabulate(a.rows, b.cols, (i, j) => Dot(a, b, i, j))
  }

  ghost function Identity(n: nat): Matrix { Tabulate(n, n, (i, j) => if i == j then 1.0 else 0.0) }

  // ---------- algebra ----------

  lemma TransposeTwice(m: Matrix)
    ensures T(T(m)) == m
  {
    SameEntries(T(T(m)), m);
  }

  /** mat_mul is associative, for all dimensions. */
  lemma MulAssociative(a: Matrix, b: Matrix, c: Matrix)
    requires a.cols == b.rows && b.cols == c.rows
    ensures Mul(Mul(a, b), c) == Mul(a, Mul(b, c))
  {
    forall i, j | 0 <= i < a.rows && 0 <= j < c.cols
      ensures At(Mul(Mul(a, b), c), i, j) == At(Mul(a, Mul(b, c)), i, j)
    {
      DotAssociative(a, b, c, i, j);
    }
    SameEntries(Mul(Mul(a, b), c), Mul(a, Mul(b, c)));
  }

  lemma Regroup(x: real, y: real, z: real)
    ensures z * (x * y) == x * y * z && x * (y * z) == x * y * z
  {
  }

  lemma DotAssociative(a: Matrix, b: Matrix, c: Matrix, i: nat, j: nat)
    requires a.cols == b.rows && b.cols == c.rows && i < a.rows && j < c.cols
    ensures Dot(Mul(a, b), c, i, j) == Dot(a, Mul(b, c), i, j)
  {
    LeftProduct(a, b, c, i, j);
    SumSwap(b.cols, a.cols, (k: int, l: int) => At(a, i, l) * At(b, l, k) * At(c, k, j));
    RightProduct(a, b, c, i, j);
  }

  lemma LeftProduct(a: Matrix, b: Matrix, c: Matrix, i: nat, j: nat)
    requires a.cols == b.rows && b.cols == c.rows && i < a.rows && j < c.cols
    ensures var term := (k: int, l: int) => At(a, i, l) * At(b, l, k) * At(c, k, j);
      Dot(Mul(a, b), c, i, j) == Sum(b.cols, k => Sum(a.cols, l => term(k, l)))
  {
    var term := (k: int, l: int) => At(a, i, l) * At(b, l, k) * At(c, k, j);
    var left := (k: int) => At(Mul(a, b), i, k) * At(c, k, j);
    forall k | 0 <= k < b.cols ensures left(k) == Sum(a.cols, l => term(k, l)) {
      PullRight(a, b, i, k, At(c, k, j));
      SumCong(a.cols, l => At(a, i, l) * At(b, l, k) * At(c, k, j), l => term(k, l));
    }
    SumCong(b.cols, left, k => Sum(a.cols, l => term(k, l)));
  }

  lemma RightProduct(a: Matrix, b: Matrix, c: Matrix, i: nat, j: nat)
    requires a.cols == b.rows && b.cols == c.rows && i < a.rows && j < c.cols
    ensures var term := (k: int, l: int) => At(a, i, l) * At(b, l, k) * At(c, k, j);
      Dot(a, Mul(b, c), i, j) == Sum(a.cols, l => Sum(b.cols, k => term(k, l)))
  {
    var term := (k: int, l: int) => At(a, i, l) * At(b, l, k) * At(c, k, j);
    var right := (l: int) => At(a, i, l) * At(Mul(b, c), l, j);
    forall l | 0 <= l < a.cols ensures right(l) == Sum(b.cols, k => term(k, l)) {
      PullLeft(b, c, l, j, At(a, i, l));
      SumCong(b.cols, k => At(a, i, l) * At(b, l, k) * At(c, k, j), k => term(k, l));
    }
    SumCong(a.cols, right, l => Sum(b.cols, k => term(k, l)));
  }

  lemma PullRight(a: Matrix, b: Matrix, i: int, j: int, s: real)
    ensures Dot(a, b, i, j) * s == Sum(a.cols, k => At(a, i, k) * At(b, k, j) * s)
  {
    var f := (k: int) => At(a, i, k) * At(b, k, j);
    SumScale(a.cols, s, f);
    forall k | 0 <= k < a.cols ensures s * f(k) == At(a, i, k) * At(b, k, j) * s {
      Regroup(At(a, i, k), At(b, k, j), s);
    }
    SumCong(a.cols, k => s * f(k), k => At(a, i, k) * At(b, k, j) * s);
  }

  lemma PullLeft(a: Matrix, b: Matrix, i: int, j: int, s: real)
    ensures s * Dot(a, b, i, j) == Sum(a.cols, k => s * At(a, i, k) * At(b, k, j))
  {
    var f := (k: int) => At(a, i, k) * At(b, k, j);
    SumScale(a.cols, s, f);
    forall k | 0 <= k < a.cols ensures s * f(k) == s * At(a, i, k) * At(b, k, j) {
      Regroup(s, At(a, i, k), At(b, k, j));
    }
    SumCong(a.cols, k => s * f(k), k => s * At(a, i, k) * At(b, k, j));
  }

  /** t(AB) = t(B) t(A). */
  lemma DotOfTransposes(a: Matrix, b: Matrix, i: nat, j: nat)
    requires a.cols == b.rows && i < b.cols && j < a.rows
    ensures Dot(a, b, j, i) == Dot(T(b), T(a), i, j)
  {
    SumCong(a.cols, k => At(a, j, k) * At(b, k, i), k => At(T(b), i, k) * At(T(a), k, j));
  }

  lemma TransposeOfProduct(a: Matrix, b: Matrix)
    requires a.cols == b.rows
    ensures T(Mul(a, b)) == Mul(T(b), T(a))
  {
    forall i, j | 0 <= i < b.cols && 0 <= j < a.rows
      ensures At(T(Mul(a, b)), i, j) == At(Mul(T(b), T(a)), i, j)
    {
      DotOfTransposes(a, b, i, j);
    }
    SameEntries(T(Mul(a, b)), Mul(T(b), T(a)));
  }

  lemma MulAddLeft(a: Matrix, b: Matrix, c: Matrix)
    requires a.rows == b.rows && a.cols == b.cols == c.rows
    ensures Mul(Add(a, b), c) == Add(Mul(a, c), Mul(b, c))
  {
    forall i, j | 0 <= i < a.rows && 0 <= j < c.cols
      ensures Dot(Add(a, b), c, i, j) == Dot(a, c, i, j) + Dot(b, c, i, j)
    {
      var f, g := (k: int) => At(a, i, k) * At(c, k, j), (k: int) => At(b, i, k) * At(c, k, j);
      SumAdd(a.cols, f, g);
      SumCong(a.cols, k => At(Add(a, b), i, k) * At(c, k, j), k => f(k) + g(k));
    }
    SameEntries(Mul(Add(a, b), c), Add(Mul(a, c), Mul(b, c)));
  }

  lemma MulAddRight(a: Matrix, b: Matrix, c: Matrix)
    requires b.rows == c.rows == a.cols && b.cols == c.cols
    ensures Mul(a, Add(b, c)) == Add(Mul(a, b), Mul(a, c))
  {
    forall i, j | 0 <= i < a.rows && 0 <= j < b.cols
      ensures Dot(a, Add(b, c), i, j) == Dot(a, b, i, j) + Dot(a, c, i, j)
    {
      var f, g := (k: int) => At(a, i, k) * At(b, k, j), (k: int) => At(a, i, k) * At(c, k, j);
      SumAdd(a.cols, f, g);
      SumCong(a.cols, k => At(a, i, k) * At(Add(b, c), k, j), k => f(k) + g(k));
    }
    SameEntries(Mul(a, Add(b, c)), Add(Mul(a, b), Mul(a, c)));
  }

  lemma TransposeOfSum(a: Matrix, b: Matrix)
    requires a.rows == b.rows && a.cols == b.cols
    ensures T(Add(a, b)) == Add(T(a), T(b))
  {
    SameEntries(T(Add(a, b)), Add(T(a), T(b)));
  }

  lemma MulIdentity(x: Matrix)
    ensures Mul(Identity(x.rows), x) == x
  {
    forall i, j | 0 <= i < x.rows && 0 <= j < x.cols ensures Dot(Identity(x.rows), x, i, j) == At(x, i, j) {
      SumSingle(x.rows, i, k => At(Identity(x.rows), i, k) * At(x, k, j));
    }
    SameEntries(Mul(Identity(x.rows), x), x);
  }

  // ---------- quadratic forms ----------

  predicate Square(m: Matrix) { m.rows == m.cols }

  predicate IsColumn(x: Matrix, n: nat) { x.rows == n && x.cols == 1 }

  ghost predicate Symmetric(m: Matrix) { T(m) == m }

  /** x' m x, a number. */
  ghost function Quad(m: Matrix, x: Matrix): real
    requires Square(m) && IsColumn(x, m.rows)
  {
    At(Mul(T(x), Mul(m, x)), 0, 0)
  }

  ghost predicate Psd(m: Matrix) {
    Square(m) && forall x: Matrix :: IsColumn(x, m.rows) ==> Quad(m, x) >= 0.0
  }

  lemma QuadTransposed(m: Matrix, x: Matrix)
    requires Square(m) && IsColumn(x, m.rows)
    ensures Quad(T(m), x) == Quad(m, x)
  {
    var v := Mul(T(x), Mul(m, x));
    TransposeOfProduct(T(x), Mul(m, x));
    TransposeOfProduct(m, x);
    TransposeTwice(x);
    MulAssociative(T(x), T(m), x);
    assert T(v) == Mul(T(x), Mul(T(m), x));
  }

  lemma QuadAdd(a: Matrix, b: Matrix, x: Matrix)
    requires Square(a) && Square(b) && a.rows == b.rows && IsColumn(x, a.rows)
    ensures Quad(Add(a, b), x) == Quad(a, x) + Quad(b, x)
  {
    MulAddLeft(a, b, x);
    MulAddRight(T(x), Mul(a, x), Mul(b, x));
  }

  /** x'(F P F')x = (F'x)' P (F'x). */
  lemma QuadCongruence(f: Matrix, p: Matrix, x: Matrix)
    requires Square(p) && f.cols == p.rows && IsColumn(x, f.rows)
    ensures Quad(Mul(Mul(f, p), T(f)), x) == Quad(p, Mul(T(f), x))
  {
    var y := Mul(T(f), x);
    MulAssociative(Mul(f, p), T(f), x);
    MulAssociative(f, p, y);
    MulAssociative(T(x), f, Mul(p, y));
    TransposeOfProduct(T(f), x);
    TransposeTwice(f);
  }

  lemma CongruenceSymmetric(f: Matrix, p: Matrix)
    requires Square(p) && f.cols == p.rows && Symmetric(p)
    ensures Symmetric(Mul(Mul(f, p), T(f)))
  {
    TransposeOfProduct(Mul(f, p), T(f));
    TransposeOfProduct(f, p);
    TransposeTwice(f);
    MulAssociative(f, p, T(f));
  }

  lemma CongruencePsd(f: Matrix, p: Matrix)
    requires Psd(p) && f.cols == p.rows
    ensures Psd(Mul(Mul(f, p), T(f)))
  {
    forall x: Matrix | IsColumn(x, f.rows) ensures Quad(Mul(Mul(f, p), T(f)), x) >= 0.0 {
      QuadCongruence(f, p, x);
    }
  }

  lemma SumPsd(a: Matrix, b: Matrix)
    requires Psd(a) && Psd(b) && a.rows == b.rows
    ensures Psd(Add(a, b))
  {
    forall x: Matrix | IsColumn(x, a.rows) ensures Quad(Add(a, b), x) >= 0.0 {
      QuadAdd(a, b, x);
    }
  }

  /** The covariance prediction F P F' + Q stays symmetric and positive semidefinite, whatever F is. */
  lemma PredictionKeepsCovariance(f: Matrix, p: Matrix, q: Matrix)
    requires Psd(p) && Psd(q) && Symmetric(p) && Symmetric(q)
    requires f.cols == p.rows && f.rows == q.rows
    ensures Symmetric(Add(Mul(Mul(f, p), T(f)), q)) && Psd(Add(Mul(Mul(f, p), T(f)), q))
  {
    var m := Mul(Mul(f, p), T(f));
    CongruenceSymmetric(f, p);
    CongruencePsd(f, p);
    SumPsd(m, q);
    TransposeOfSum(m, q);
  }

  // ---------- symmetrization and the diagonal floor ----------

  ghost function SymmetricPart(m: Matrix): Matrix
    requires Square(m)
  {
    Tabulate(m.rows, m.cols, (i, j) => (At(m, i, j) + At(m, j, i)) * 0.5)
  }

  /** Symmetrization gives a symmetric matrix with the same quadratic form. */
  lemma SymmetrizationKeepsForm(m: Matrix)
    requires Square(m)
    ensures Symmetric(SymmetricPart(m))
    ensures forall x: Matrix :: IsColumn(x, m.rows) ==> Quad(SymmetricPart(m), x) == Quad(m, x)
    ensures Psd(m) ==> Psd(SymmetricPart(m))
  {
    var s := SymmetricPart(m);
    SameEntries(T(s), s);
    SameEntries(Add(s, s), Add(m, T(m)));
    forall x: Matrix | IsColumn(x, m.rows) ensures Quad(s, x) == Quad(m, x) {
      QuadAdd(s, s, x);
      QuadAdd(m, T(m), x);
      QuadTransposed(m, x);
    }
  }

  /** Symmetrizing a symmetric matrix changes nothing. */
  lemma SymmetrizationIdempotent(m: Matrix)
    requires Square(m) && Symmetric(m)
    ensures SymmetricPart(m) == m
  {
    SameEntries(SymmetricPart(m), m);
  }

  ghost function Floored(m: Matrix, floor: real): Matrix
    requires Square(m)
  {
    Tabulate(m.rows, m.cols, (i, j) => if i == j && At(m, i, j) < floor then floor else At(m, i, j))
  }

  /** What the floor adds on the diagonal. */
  ghost function Lift(m: Matrix, floor: real): Matrix
    requires Square(m)
  {
    Tabulate(m.rows, m.cols, (i, j) => if i == j && At(m, i, j) < floor then floor - At(m, i, j) else 0.0)
  }

  predicate Diagonal(d: Matrix) {
    && Square(d)
    && forall i, j :: 0 <= i < d.rows && 0 <= j < d.rows ==> if i == j then At(d, i, j) >= 0.0 else At(d, i, j) == 0.0
  }

  lemma DiagonalTerm(d: Matrix, x: Matrix, i: nat)
    requires Diagonal(d) && IsColumn(x, d.rows) && i < d.rows
    ensures At(x, i, 0) * Dot(d, x, i, 0) >= 0.0
  {
    SumSingle(d.cols, i, k => At(d, i, k) * At(x, k, 0));
    SquareScaled(At(x, i, 0), At(d, i, i));
  }

  lemma QuadAsSum(m: Matrix, x: Matrix)
    requires Square(m) && IsColumn(x, m.rows)
    ensures Quad(m, x) == Sum(m.rows, k => At(x, k, 0) * Dot(m, x, k, 0))
  {
    SumCong(m.rows, k => At(T(x), 0, k) * At(Mul(m, x), k, 0), k => At(x, k, 0) * Dot(m, x, k, 0));
  }

  lemma DiagonalSum(d: Matrix, x: Matrix)
    requires Diagonal(d) && IsColumn(x, d.rows)
    ensures Sum(d.rows, k => At(x, k, 0) * Dot(d, x, k, 0)) >= 0.0
  {
    var term := (k: int) => At(x, k, 0) * Dot(d, x, k, 0);
    forall i | 0 <= i < d.rows ensures term(i) >= 0.0 {
      DiagonalTerm(d, x, i);
    }
    SumNonneg(d.rows, term);
  }

  lemma DiagonalPsd(d: Matrix)
    requires Diagonal(d)
    ensures Psd(d)
  {
    forall x: Matrix | IsColumn(x, d.rows) ensures Quad(d, x) >= 0.0 {
      QuadAsSum(d, x);
      DiagonalSum(d, x);
    }
  }

  lemma SquareScaled(x: real, c: real)
    requires c >= 0.0
    ensures x * (c * x) >= 0.0
  {
    assert x * x >= 0.0;
    assert x * (c * x) == c * (x * x);
  }

  /** The floor keeps symmetry and positive semidefiniteness, and every diagonal entry reaches it. */
  lemma FloorKeepsPsd(m: Matrix, floor: real)
    requires Square(m)
    ensures forall i :: 0 <= i < m.rows ==> At(Floored(m, floor), i, i) >= floor
    ensures Symmetric(m) ==> Symmetric(Floored(m, floor))
    ensures Psd(m) ==> Psd(Floored(m, floor))
    ensures forall x: Matrix :: IsColumn(x, m.rows) ==> Quad(Floored(m, floor), x) >= Quad(m, x)
  {
    var d := Lift(m, floor);
    DiagonalPsd(d);
    SameEntries(Floored(m, floor), Add(m, d));
    forall x: Matrix | IsColumn(x, m.rows) ensures Quad(Floored(m, floor), x) == Quad(m, x) + Quad(d, x) {
      QuadAdd(m, d, x);
    }
    if Symmetric(m) {
      forall i, j | 0 <= i < m.rows && 0 <= j < m.rows ensures At(m, i, j) == At(m, j, i) {
        assert At(T(m), i, j) == At(m, j, i);
      }
      SameEntries(T(Floored(m, floor)), Floored(m, floor));
    }
  }
}
