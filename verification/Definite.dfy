/** Positive definiteness of the estimator's covariance (aviate-core/src/ekf/scalar.rs, ekf/predict.rs): what the
    diagonal floor is for, and what it takes. */
module Definite {
  import opened Sums
  import opened Matrices
  import opened Covariance
  import opened Prediction
  import Q = Quaternions

  ghost predicate NonZero(x: Matrix) { exists i: nat :: i < x.rows && At(x, i, 0) != 0.0 }

  ghost predicate Pd(m: Matrix) {
    Square(m) && forall x: Matrix :: IsColumn(x, m.rows) && NonZero(x) ==> Quad(m, x) > 0.0
  }

  /** The number r as a matrix. */
  ghost function Number(r: real): (m: Matrix)
    ensures IsColumn(m, 1)
  {
    Tabulate(1, 1, (i, j) => r)
  }

  lemma QuadOfNumber(m: Matrix, y: Matrix)
    requires IsColumn(m, 1) && IsColumn(y, 1)
    ensures Quad(m, y) == At(y, 0, 0) * (At(m, 0, 0) * At(y, 0, 0))
  {
    SingleColumn(m, y, 0, 0);
    SingleColumn(T(y), Mul(m, y), 0, 0);
  }

  lemma ScaledSquarePositive(c: real, r: real)
    requires c != 0.0 && r > 0.0
    ensures c * (r * c) > 0.0
  {
    assert c * c > 0.0;
    assert c * (r * c) == r * (c * c);
  }

  lemma NumberPositive(m: Matrix, y: Matrix)
    requires IsColumn(m, 1) && IsColumn(y, 1) && At(m, 0, 0) > 0.0 && At(y, 0, 0) != 0.0
    ensures Quad(m, y) > 0.0
  {
    QuadOfNumber(m, y);
    ScaledSquarePositive(At(y, 0, 0), At(m, 0, 0));
  }

  lemma NumberPd(r: real)
    requires r > 0.0
    ensures Pd(Number(r))
  {
    forall y: Matrix | IsColumn(y, 1) && NonZero(y) ensures Quad(Number(r), y) > 0.0 {
      NumberPositive(Number(r), y);
    }
  }

  lemma ZeroForm(m: Matrix, y: Matrix)
    requires IsColumn(m, 1) && IsColumn(y, 1) && !NonZero(y)
    ensures Quad(m, y) == 0.0
  {
    QuadOfNumber(m, y);
    assert At(y, 0, 0) == 0.0;
  }

  /** The form of K r K' at x is that of r at k'x. */
  lemma QuadOfOuter(k: Matrix, r: real, x: Matrix)
    requires IsColumn(k, k.rows) && IsColumn(x, k.rows)
    ensures Quad(Outer(k, r), x) == Quad(Number(r), Mul(T(k), x))
  {
    OuterIsProduct(k, Number(r));
    QuadCongruence(k, Number(r), x);
  }

  lemma SeenTerm(k: real, x: real, same: bool)
    ensures ((if same then 1.0 else 0.0) - k) * x + k * x == if same then x else 0.0
  {
  }

  lemma SeenTermAt(k: Matrix, h: nat, x: Matrix, l: nat)
    requires IsColumn(k, k.rows) && IsColumn(x, k.rows) && h < k.rows && l < k.rows
    ensures At(T(Residual(k, h)), h, l) * At(x, l, 0) + At(T(k), 0, l) * At(x, l, 0)
            == if l == h then At(x, h, 0) else 0.0
  {
    SeenTerm(At(k, l, 0), At(x, l, 0), l == h);
  }

  lemma SumsToOneTerm(n: nat, f: int -> real, g: int -> real, h: nat, v: real)
    requires h < n && forall l :: 0 <= l < n ==> f(l) + g(l) == if l == h then v else 0.0
    ensures Sum(n, f) + Sum(n, g) == v
  {
    SumAdd(n, f, g);
    SumSingle(n, h, l => f(l) + g(l));
  }

  lemma TransposedResidualAtH(k: Matrix, h: nat, x: Matrix)
    requires IsColumn(k, k.rows) && IsColumn(x, k.rows) && h < k.rows
    ensures Dot(T(Residual(k, h)), x, h, 0) + Dot(T(k), x, 0, 0) == At(x, h, 0)
  {
    var a := T(Residual(k, h));
    var left, gain := (l: int) => At(a, h, l) * At(x, l, 0), (l: int) => At(T(k), 0, l) * At(x, l, 0);
    forall l | 0 <= l < k.rows ensures left(l) + gain(l) == if l == h then At(x, h, 0) else 0.0 {
      SeenTermAt(k, h, x, l);
    }
    SumsToOneTerm(k.rows, left, gain, h, At(x, h, 0));
  }

  lemma TransposedResidualAt(k: Matrix, h: nat, x: Matrix, j: nat)
    requires IsColumn(k, k.rows) && IsColumn(x, k.rows) && j < k.rows && j != h
    ensures Dot(T(Residual(k, h)), x, j, 0) == At(x, j, 0)
  {
    SumSingle(k.rows, j, l => At(T(Residual(k, h)), j, l) * At(x, l, 0));
  }

  // ---------- directions that I - K H takes to zero ----------

  /** `x` has no entry but at h. */
  ghost predicate OnlyAt(x: Matrix, h: nat) {
    x.cols == 1 && h < x.rows && forall j :: 0 <= j < x.rows && j != h ==> At(x, j, 0) == 0.0
  }

  lemma DotOnlyAt(m: Matrix, h: nat, x: Matrix, i: nat)
    requires m.cols == x.rows && OnlyAt(x, h) && i < m.rows
    ensures Dot(m, x, i, 0) == At(m, i, h) * At(x, h, 0)
  {
    SumSingle(m.cols, h, l => At(m, i, l) * At(x, l, 0));
  }

  lemma AxisSum(m: Matrix, h: nat, x: Matrix)
    requires Square(m) && IsColumn(x, m.rows) && OnlyAt(x, h)
    ensures Sum(m.rows, i => At(x, i, 0) * Dot(m, x, i, 0)) == At(x, h, 0) * Dot(m, x, h, 0)
  {
    SumSingle(m.rows, h, i => At(x, i, 0) * Dot(m, x, i, 0));
  }

  lemma AxisQuad(m: Matrix, h: nat, x: Matrix)
    requires Square(m) && IsColumn(x, m.rows) && OnlyAt(x, h)
    ensures Quad(m, x) == At(x, h, 0) * Dot(m, x, h, 0)
  {
    QuadAsSum(m, x);
    AxisSum(m, h, x);
  }

  lemma NumberForm(q: real, x: real, d: real, a: real)
    requires q == x * d && d == a * x
    ensures q == Quad(Number(a), Number(x))
  {
    QuadOfNumber(Number(a), Number(x));
  }

  /** The form of a matrix at such a direction reads one diagonal entry. */
  lemma AxisForm(m: Matrix, h: nat, x: Matrix)
    requires Square(m) && IsColumn(x, m.rows) && OnlyAt(x, h)
    ensures Quad(m, x) == Quad(Number(At(m, h, h)), Number(At(x, h, 0)))
  {
    AxisQuad(m, h, x);
    DotOnlyAt(m, h, x, h);
    NumberForm(Quad(m, x), At(x, h, 0), Dot(m, x, h, 0), At(m, h, h));
  }

  lemma AxisPositive(m: Matrix, h: nat, x: Matrix)
    requires Square(m) && IsColumn(x, m.rows) && OnlyAt(x, h) && At(x, h, 0) != 0.0 && At(m, h, h) > 0.0
    ensures Quad(m, x) > 0.0
  {
    AxisForm(m, h, x);
    NumberPositive(Number(At(m, h, h)), Number(At(x, h, 0)));
  }

  lemma NoDirection(m: Matrix, x: Matrix)
    requires Square(m) && IsColumn(x, m.rows) && m.rows > 0 && !NonZero(x)
    ensures Quad(m, x) == 0.0
  {
    forall j: nat | j < x.rows ensures At(x, j, 0) == 0.0 {
    }
    AxisForm(m, 0, x);
    ZeroForm(Number(At(m, 0, 0)), Number(At(x, 0, 0)));
  }

  /** Such a direction has no entry but at h, and the gain sees that entry in full. */
  lemma LostDirection(k: Matrix, h: nat, x: Matrix)
    requires IsColumn(k, k.rows) && IsColumn(x, k.rows) && h < k.rows
    requires NonZero(x) && !NonZero(Mul(T(Residual(k, h)), x))
    ensures OnlyAt(x, h) && At(x, h, 0) != 0.0 && Dot(T(k), x, 0, 0) == At(x, h, 0)
  {
    var y := Mul(T(Residual(k, h)), x);
    forall j | 0 <= j < x.rows && j != h ensures At(x, j, 0) == 0.0 {
      var i: nat := j;
      assert At(y, i, 0) == 0.0;
      TransposedResidualAt(k, h, x, i);
    }
    assert At(y, h, 0) == 0.0;
    TransposedResidualAtH(k, h, x);
  }

  lemma QuadOfPrediction(f: Matrix, p: Matrix, q: Matrix, x: Matrix)
    requires Square(p) && Square(q) && f.cols == p.rows && f.rows == q.rows && IsColumn(x, q.rows)
    ensures Quad(Add(Mul(Mul(f, p), T(f)), q), x) == Quad(p, Mul(T(f), x)) + Quad(q, x)
  {
    QuadAdd(Mul(Mul(f, p), T(f)), q, x);
    QuadCongruence(f, p, x);
  }

  lemma FormPositive(p: Matrix, x: Matrix)
    requires Pd(p) && IsColumn(x, p.rows) && NonZero(x)
    ensures Quad(p, x) > 0.0
  {
  }

  lemma FormNonNegative(p: Matrix, x: Matrix)
    requires Psd(p) && IsColumn(x, p.rows)
    ensures Quad(p, x) >= 0.0
  {
  }

  lemma OuterPositive(k: Matrix, r: real, x: Matrix)
    requires IsColumn(k, k.rows) && IsColumn(x, k.rows) && r > 0.0 && NonZero(Mul(T(k), x))
    ensures Quad(Outer(k, r), x) > 0.0
  {
    QuadOfOuter(k, r, x);
    NumberPd(r);
    FormPositive(Number(r), Mul(T(k), x));
  }

  /** A direction that I - K H keeps stays positive, for any gain and any noise. */
  lemma KeptDirection(p: Matrix, k: Matrix, h: nat, r: real, x: Matrix)
    requires Sound(p) && Pd(p) && IsColumn(k, p.rows) && h < p.rows && r >= 0.0
    requires IsColumn(x, p.rows) && NonZero(Mul(T(Residual(k, h)), x))
    ensures Quad(Joseph(p, k, h, r), x) > 0.0
  {
    QuadOfPrediction(Residual(k, h), p, Outer(k, r), x);
    FormPositive(p, Mul(T(Residual(k, h)), x));
    OuterSound(k, r);
    FormNonNegative(Outer(k, r), x);
  }

  // ---------- the fusion ----------

  /** What is no narrower than a positive definite matrix is positive definite. */
  lemma NoNarrowerPd(q: Matrix, p: Matrix)
    requires Pd(p) && NoNarrower(q, p)
    ensures Pd(q)
  {
  }

  lemma SymmetrizationNarrowsNothing(m: Matrix)
    requires Square(m)
    ensures NoNarrower(SymmetricPart(m), m)
  {
    SymmetrizationKeepsForm(m);
  }

  lemma FloorNarrowsNothing(m: Matrix)
    requires Square(m)
    ensures NoNarrower(Floored(m, COV_VAR_FLOOR), m)
  {
    FloorKeepsPsd(m, COV_VAR_FLOOR);
  }

  lemma FusedNarrowsNothing(p: Matrix, k: Matrix, h: nat, r: real)
    requires Square(p) && IsColumn(k, p.rows)
    ensures NoNarrower(Fused(p, k, h, r), Joseph(p, k, h, r))
  {
    var j := Joseph(p, k, h, r);
    SymmetrizationNarrowsNothing(j);
    FloorNarrowsNothing(SymmetricPart(j));
    NoNarrowerChain(Fused(p, k, h, r), SymmetricPart(j), j);
  }

  lemma FusedPositive(p: Matrix, k: Matrix, h: nat, r: real, x: Matrix)
    requires Sound(p) && Pd(p) && IsColumn(k, p.rows) && h < p.rows && r >= 0.0
    requires IsColumn(x, p.rows) && NonZero(x)
    ensures Quad(Fused(p, k, h, r), x) > 0.0
  {
    if NonZero(Mul(T(Residual(k, h)), x)) {
      KeptDirection(p, k, h, r, x);
      FusedNarrowsNothing(p, k, h, r);
    } else {
      LostDirection(k, h, x);
      FusedSound(p, k, h, r);
      AxisPositive(Fused(p, k, h, r), h, x);
    }
  }

  /** The floored update keeps a positive definite covariance so, for any gain and any noise, zero included: the
      only direction that I - K H can lose is the measured one, and there the floor stands. */
  lemma FusedPd(p: Matrix, k: Matrix, h: nat, r: real)
    requires Sound(p) && Pd(p) && IsColumn(k, p.rows) && h < p.rows && r >= 0.0
    ensures Pd(Fused(p, k, h, r))
  {
    forall x: Matrix | IsColumn(x, p.rows) && NonZero(x) ensures Quad(Fused(p, k, h, r), x) > 0.0 {
      FusedPositive(p, k, h, r, x);
    }
  }

  /** The direction h. */
  ghost function Axis(n: nat, h: nat): (x: Matrix)
    requires h < n
    ensures IsColumn(x, n) && OnlyAt(x, h) && At(x, h, 0) == 1.0 && NonZero(x)
  {
    var x := Tabulate(n, 1, (i, j) => if i == h then 1.0 else 0.0);
    assert At(x, h, 0) == 1.0;
    x
  }

  lemma JosephPositive(p: Matrix, k: Matrix, h: nat, r: real, x: Matrix)
    requires Sound(p) && Pd(p) && IsColumn(k, p.rows) && h < p.rows && r >= 0.0
    requires r > 0.0 || At(k, h, 0) != 1.0
    requires IsColumn(x, p.rows) && NonZero(x)
    ensures Quad(Joseph(p, k, h, r), x) > 0.0
  {
    if NonZero(Mul(T(Residual(k, h)), x)) {
      KeptDirection(p, k, h, r, x);
    } else {
      LostDirection(k, h, x);
      SeenInFull(k, h, x);
      QuadOfPrediction(Residual(k, h), p, Outer(k, r), x);
      FormNonNegative(p, Mul(T(Residual(k, h)), x));
      OuterPositive(k, r, x);
    }
  }

  lemma Cancels(a: real, x: real)
    requires x != 0.0 && a * x == x
    ensures a == 1.0
  {
    assert (a - 1.0) * x == 0.0;
  }

  lemma SeenInFull(k: Matrix, h: nat, x: Matrix)
    requires IsColumn(k, k.rows) && OnlyAt(x, h) && x.rows == k.rows
    requires At(x, h, 0) != 0.0 && Dot(T(k), x, 0, 0) == At(x, h, 0)
    ensures At(k, h, 0) == 1.0 && NonZero(Mul(T(k), x))
  {
    DotOnlyAt(T(k), h, x, 0);
    Cancels(At(k, h, 0), At(x, h, 0));
    assert At(Mul(T(k), x), 0, 0) != 0.0;
  }

  lemma AxisIsLost(k: Matrix, h: nat)
    requires IsColumn(k, k.rows) && h < k.rows && At(k, h, 0) == 1.0
    ensures !NonZero(Mul(T(Residual(k, h)), Axis(k.rows, h)))
  {
    var x := Axis(k.rows, h);
    forall j: nat | j < k.rows ensures At(Mul(T(Residual(k, h)), x), j, 0) == 0.0 {
      if j == h {
        DotOnlyAt(T(k), h, x, 0);
        TransposedResidualAtH(k, h, x);
      } else {
        TransposedResidualAt(k, h, x, j);
      }
    }
  }

  lemma ZeroNumber(m: Matrix, y: Matrix)
    requires IsColumn(m, 1) && IsColumn(y, 1) && At(m, 0, 0) == 0.0
    ensures Quad(m, y) == 0.0
  {
    QuadOfNumber(m, y);
  }

  lemma NothingAdded(k: Matrix, r: real, x: Matrix)
    requires IsColumn(k, k.rows) && IsColumn(x, k.rows) && r == 0.0
    ensures Quad(Outer(k, r), x) == 0.0
  {
    QuadOfOuter(k, r, x);
    ZeroNumber(Number(r), Mul(T(k), x));
  }

  lemma AxisVanishes(p: Matrix, k: Matrix, h: nat, r: real)
    requires Square(p) && IsColumn(k, p.rows) && h < p.rows && r == 0.0 && At(k, h, 0) == 1.0
    ensures Quad(Joseph(p, k, h, r), Axis(p.rows, h)) == 0.0
  {
    var x := Axis(p.rows, h);
    QuadOfPrediction(Residual(k, h), p, Outer(k, r), x);
    AxisIsLost(k, h);
    NoDirection(p, Mul(T(Residual(k, h)), x));
    NothingAdded(k, r, x);
  }

  lemma NotPdAt(m: Matrix, x: Matrix)
    requires Square(m) && IsColumn(x, m.rows) && NonZero(x) && Quad(m, x) == 0.0
    ensures !Pd(m)
  {
  }

  lemma JosephPd(p: Matrix, k: Matrix, h: nat, r: real)
    requires Sound(p) && Pd(p) && IsColumn(k, p.rows) && h < p.rows && r >= 0.0
    requires r > 0.0 || At(k, h, 0) != 1.0
    ensures Pd(Joseph(p, k, h, r))
  {
    forall x: Matrix | IsColumn(x, p.rows) && NonZero(x) ensures Quad(Joseph(p, k, h, r), x) > 0.0 {
      JosephPositive(p, k, h, r, x);
    }
  }

  lemma JosephNotPd(p: Matrix, k: Matrix, h: nat, r: real)
    requires Square(p) && IsColumn(k, p.rows) && h < p.rows && r == 0.0 && At(k, h, 0) == 1.0
    ensures !Pd(Joseph(p, k, h, r))
  {
    AxisVanishes(p, k, h, r);
    NotPdAt(Joseph(p, k, h, r), Axis(p.rows, h));
  }

  /** Without the floor it is kept exactly when the noise is positive or the gain's entry at h is not one. */
  lemma JosephPdExactly(p: Matrix, k: Matrix, h: nat, r: real)
    requires Sound(p) && Pd(p) && IsColumn(k, p.rows) && h < p.rows && r >= 0.0
    ensures Pd(Joseph(p, k, h, r)) <==> r > 0.0 || At(k, h, 0) != 1.0
  {
    if r > 0.0 || At(k, h, 0) != 1.0 {
      JosephPd(p, k, h, r);
    } else {
      JosephNotPd(p, k, h, r);
    }
  }

  lemma OneTimes(m: Matrix, y: Matrix)
    requires IsColumn(m, 1) && IsColumn(y, 1) && At(y, 0, 0) == 1.0
    ensures Quad(m, y) == At(m, 0, 0)
  {
    QuadOfNumber(m, y);
  }

  lemma DiagonalPositive(p: Matrix, h: nat)
    requires Pd(p) && h < p.rows
    ensures At(p, h, h) > 0.0
  {
    FormPositive(p, Axis(p.rows, h));
    AxisForm(p, h, Axis(p.rows, h));
    OneTimes(Number(At(p, h, h)), Number(1.0));
  }

  lemma ShareIsWhole(v: real, r: real)
    requires v > 0.0 && r >= 0.0
    ensures v / (v + r) == 1.0 <==> r == 0.0
  {
    assert v / (v + r) * (v + r) == v;
  }

  /** With the filter's own gain that is exactly when the noise is positive: at zero noise the plain update always
      loses the measured direction, and the floor is what keeps it. */
  lemma FilterNeedsItsFloorExactly(p: Matrix, h: nat, r: real)
    requires Sound(p) && Pd(p) && h < p.rows && r >= 0.0
    ensures At(p, h, h) + r > 0.0
    ensures Pd(Joseph(p, Gain(p, h, r), h, r)) <==> r > 0.0
    ensures Pd(Fused(p, Gain(p, h, r), h, r))
  {
    DiagonalPositive(p, h);
    ShareIsWhole(At(p, h, h), r);
    JosephPdExactly(p, Gain(p, h, r), h, r);
    FusedPd(p, Gain(p, h, r), h, r);
  }

  // ---------- the prediction ----------

  lemma FirstNonZero(x: Matrix, n: nat) returns (i: nat)
    requires n < x.rows && At(x, n, 0) != 0.0
    ensures i < x.rows && At(x, i, 0) != 0.0 && forall l :: 0 <= l < i ==> At(x, l, 0) == 0.0
  {
    i := 0;
    while At(x, i, 0) == 0.0
      invariant i <= n && forall l :: 0 <= l < i ==> At(x, l, 0) == 0.0
      decreases n - i
    {
      i := i + 1;
    }
  }

  /** The transpose of a unit upper triangular matrix takes no direction to zero. */
  lemma UnitUpperKeepsNonZero(f: Matrix, x: Matrix)
    requires UnitUpper(f) && IsColumn(x, f.rows) && NonZero(x)
    ensures NonZero(Mul(T(f), x))
  {
    var n: nat :| n < x.rows && At(x, n, 0) != 0.0;
    var i := FirstNonZero(x, n);
    SumSingle(f.rows, i, l => At(T(f), i, l) * At(x, l, 0));
    assert At(Mul(T(f), x), i, 0) == At(x, i, 0);
  }

  lemma PredictionPositive(p: Matrix, f: Matrix, q: Matrix, x: Matrix)
    requires Sound(p) && Pd(p) && Sound(q) && Square(f) && p.rows == f.rows == q.rows
    requires (UnitUpper(f) || Pd(q)) && IsColumn(x, p.rows) && NonZero(x)
    ensures Quad(Add(Mul(Mul(f, p), T(f)), q), x) > 0.0
  {
    QuadOfPrediction(f, p, q, x);
    if UnitUpper(f) {
      UnitUpperKeepsNonZero(f, x);
      FormPositive(p, Mul(T(f), x));
      FormNonNegative(q, x);
    } else {
      FormNonNegative(p, Mul(T(f), x));
      FormPositive(q, x);
    }
  }

  lemma PredictionPd(p: Matrix, f: Matrix, q: Matrix)
    requires Sound(p) && Pd(p) && Sound(q) && Square(f) && p.rows == f.rows == q.rows
    requires UnitUpper(f) || Pd(q)
    ensures Pd(Add(Mul(Mul(f, p), T(f)), q))
  {
    forall x: Matrix | IsColumn(x, p.rows) && NonZero(x) ensures Quad(Add(Mul(Mul(f, p), T(f)), q), x) > 0.0 {
      PredictionPositive(p, f, q, x);
    }
  }

  /** The prediction keeps positive definiteness whatever the process noise, because no direction is lost by its
      Jacobian, and with a positive definite noise whatever the Jacobian. */
  lemma PredictedPd(p: Matrix, f: Matrix, q: Matrix)
    requires Sound(p) && Pd(p) && Sound(q) && Square(f) && p.rows == f.rows == q.rows
    requires UnitUpper(f) || Pd(q)
    ensures Pd(Predicted(p, f, q))
  {
    PredictionPd(p, f, q);
    SymmetrizationNarrowsNothing(Add(Mul(Mul(f, p), T(f)), q));
    NoNarrowerPd(Predicted(p, f, q), Add(Mul(Mul(f, p), T(f)), q));
  }

  /** The prediction as coded keeps a positive definite covariance so, whatever the motion and however little the
      process noise. */
  lemma CodedPredictionPd(p: Matrix, accel: Q.Vector3, q: Q.Quaternion, noise: Noise, dt: real)
    requires Sound(p) && Pd(p) && p.rows == STATE_DIM && NonNegativeNoise(noise) && dt > 0.0
    ensures var next := Predicted(p, Jacobian(accel, q, dt), ProcessNoise(noise, dt));
      Sound(next) && Pd(next)
  {
    var f, n := Jacobian(accel, q, dt), ProcessNoise(noise, dt);
    JacobianIsUnitUpper(accel, q, dt);
    NoiseIsSound(noise, dt);
    PredictedPd(p, f, n);
    PredictedSound(p, f, n);
  }

  // ---------- runs ----------

  ghost predicate PdFilter(s: Filter) { SoundFilter(s) && Pd(s.p) }

  /** A prediction whose Jacobian is unit upper triangular, as the code builds it, or whose noise is positive
      definite. Nothing is asked of a fusion. */
  ghost predicate KeepsDirections(step: Step) {
    match step
    case Predict(f, q, _, _) => UnitUpper(f) || Pd(q)
    case _ => true
  }

  ghost predicate AllKeepDirections(steps: seq<Step>) {
    forall i :: 0 <= i < |steps| ==> KeepsDirections(steps[i])
  }

  /** The prediction step that the code takes. */
  ghost function CodedStep(accel: Q.Vector3, q: Q.Quaternion, noise: Noise, clipped: bool, dt: real): Step {
    Predict(Jacobian(accel, q, dt), ProcessNoise(noise, dt), clipped, dt)
  }

  lemma CodedStepKeepsDirections(
    accel: Q.Vector3, q: Q.Quaternion, noise: Noise, clipped: bool, dt: real)
    requires dt > 0.0 && NonNegativeNoise(noise)
    ensures Admissible(STATE_DIM, CodedStep(accel, q, noise, clipped, dt))
    ensures KeepsDirections(CodedStep(accel, q, noise, clipped, dt))
  {
    JacobianIsUnitUpper(accel, q, dt);
    NoiseIsSound(noise, dt);
  }

  lemma PropagatedPd(s: Filter, f: Matrix, q: Matrix, clipped: bool, dt: real)
    requires PdFilter(s) && Sound(q) && Square(f) && s.p.rows == f.rows == q.rows && dt > 0.0
    requires UnitUpper(f) || Pd(q)
    ensures Pd(Propagated(s, f, q, clipped, dt).p)
  {
    var p := GapWidened(s.p, s.imuAge, dt);
    GapWideningIsSound(s.p, s.imuAge, dt);
    ClipWideningIsSound(p, s.clipRun, clipped, dt);
    NoNarrowerPd(p, s.p);
    NoNarrowerPd(ClipWidened(p, s.clipRun, clipped, dt), p);
    PredictedPd(ClipWidened(p, s.clipRun, clipped, dt), f, q);
  }

  lemma FusedStepPd(s: Filter, h: nat, r: real, accepted: bool)
    requires PdFilter(s) && h < s.p.rows && r >= 0.0
    ensures Pd(FusedStep(s, h, r, accepted).p)
  {
    if At(s.p, h, h) + r >= 0.000000001 && accepted {
      FusedPd(s.p, Gain(s.p, h, r), h, r);
    }
  }

  lemma NextPd(s: Filter, step: Step)
    requires PdFilter(s) && Admissible(s.p.rows, step) && KeepsDirections(step)
    ensures Pd(Next(s, step).p)
  {
    match step
    case Tick(_) =>
    case Predict(f, q, clipped, dt) => PropagatedPd(s, f, q, clipped, dt);
    case Fuse(h, r, accepted) => FusedStepPd(s, h, r, accepted);
  }

  /** From a positive definite covariance every such run ends in one. */
  lemma {:induction false} FilterKeepsPositiveDefinite(s: Filter, steps: seq<Step>, end: Filter)
    requires PdFilter(s) && Leads(s, steps, end) && AllKeepDirections(steps)
    ensures PdFilter(end) && end.p.rows == s.p.rows
    decreases |steps|
  {
    if steps == [] {
    } else {
      assert KeepsDirections(steps[0]);
      NextSound(s, steps[0]);
      NextPd(s, steps[0]);
      FilterKeepsPositiveDefinite(Next(s, steps[0]), steps[1..], end);
    }
  }

  // ---------- from the initial covariance ----------

  lemma DiagonalTermPositive(d: Matrix, x: Matrix, i: nat)
    requires Diagonal(d) && IsColumn(x, d.rows) && i < d.rows && At(d, i, i) > 0.0 && At(x, i, 0) != 0.0
    ensures At(x, i, 0) * Dot(d, x, i, 0) > 0.0
  {
    SumSingle(d.cols, i, k => At(d, i, k) * At(x, k, 0));
    ScaledSquarePositive(At(x, i, 0), At(d, i, i));
  }

  lemma DiagonalSumPositive(d: Matrix, x: Matrix, i: nat)
    requires Diagonal(d) && IsColumn(x, d.rows) && i < d.rows && At(d, i, i) > 0.0 && At(x, i, 0) != 0.0
    ensures Sum(d.rows, k => At(x, k, 0) * Dot(d, x, k, 0)) > 0.0
  {
    var term := (k: int) => At(x, k, 0) * Dot(d, x, k, 0);
    forall k | 0 <= k < d.rows ensures term(k) >= 0.0 {
      DiagonalTerm(d, x, k);
    }
    DiagonalTermPositive(d, x, i);
    SumPositive(d.rows, i, term);
  }

  lemma DiagonalPd(d: Matrix)
    requires Diagonal(d) && forall i :: 0 <= i < d.rows ==> At(d, i, i) > 0.0
    ensures Pd(d)
  {
    forall x: Matrix | IsColumn(x, d.rows) && NonZero(x) ensures Quad(d, x) > 0.0 {
      var i: nat :| i < x.rows && At(x, i, 0) != 0.0;
      QuadAsSum(d, x);
      DiagonalSumPositive(d, x, i);
    }
  }

  /** So a filter that starts as the code does is positive definite for ever. */
  lemma FilterIsPositiveDefinite(imuAge: real, steps: seq<Step>, end: Filter)
    requires Leads(Filter(InitialCovariance(), imuAge, 0.0), steps, end) && AllKeepDirections(steps)
    ensures Sound(end.p) && Pd(end.p)
  {
    var p := InitialCovariance();
    VariancesAreSound(0.1, 0.1, 0.1, 0.0004, 0.04);
    DiagonalPd(p);
    FilterKeepsPositiveDefinite(Filter(p, imuAge, 0.0), steps, end);
  }
}
