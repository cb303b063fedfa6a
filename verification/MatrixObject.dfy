/** The matrix kernel as loops over arrays (aviate-core/src/math.rs), and the in-place covariance updates
    built from it (aviate-core/src/ekf/scalar.rs, aviate-core/src/ekf/predict.rs). */
module MatrixObject {
  import opened Sums
  import opened Matrices
  import opened Covariance
  import opened Prediction
  import Q = Quaternions
  import F = Floats

  type Data = array2<real>

  /** The matrix an array holds. */
  ghost function View(a: Data): (m: Matrix)
    reads a
    ensures m.rows == a.Length0 && m.cols == a.Length1
    ensures forall i, j :: 0 <= i < a.Length0 && 0 <= j < a.Length1 ==> At(m, i, j) == a[i, j]
  {
    Matrix(a.Length0, a.Length1,
           seq(a.Length0, i requires 0 <= i < a.Length0 reads a =>
             seq(a.Length1, j requires 0 <= j < a.Length1 reads a => a[i, j])))
  }

  method Transpose(a: Data) returns (res: Data)
    ensures fresh(res) && View(res) == T(View(a))
  {
    res := new real[a.Length1, a.Length0]((i, j) => 0.0);
    for r := 0 to a.Length0
      invariant forall i, j :: 0 <= i < r && 0 <= j < a.Length1 ==> res[j, i] == a[i, j]
    {
      for c := 0 to a.Length1
        invariant forall i, j :: 0 <= i < r && 0 <= j < a.Length1 ==> res[j, i] == a[i, j]
        invariant forall j :: 0 <= j < c ==> res[j, r] == a[r, j]
      {
        res[c, r] := a[r, c];
      }
    }
    SameEntries(View(res), T(View(a)));
  }

  method AddMatrix(a: Data, b: Data) returns (res: Data)
    requires a.Length0 == b.Length0 && a.Length1 == b.Length1
    ensures fresh(res) && View(res) == Add(View(a), View(b))
  {
    res := new real[a.Length0, a.Length1]((i, j) => 0.0);
    for r := 0 to a.Length0
      invariant forall i, j :: 0 <= i < r && 0 <= j < a.Length1 ==> res[i, j] == a[i, j] + b[i, j]
    {
      for c := 0 to a.Length1
        invariant forall i, j :: 0 <= i < r && 0 <= j < a.Length1 ==> res[i, j] == a[i, j] + b[i, j]
        invariant forall j :: 0 <= j < c ==> res[r, j] == a[r, j] + b[r, j]
      {
        res[r, c] := a[r, c] + b[r, c];
      }
    }
    SameEntries(View(res), Add(View(a), View(b)));
  }

  method MatMul(a: Data, b: Data) returns (res: Data)
    requires a.Length1 == b.Length0
    ensures fresh(res) && View(res) == Mul(View(a), View(b))
  {
    res := new real[a.Length0, b.Length1]((i, j) => 0.0);
    ghost var x, y := View(a), View(b);
    for r := 0 to a.Length0
      invariant forall i, j :: 0 <= i < r && 0 <= j < b.Length1 ==> res[i, j] == Dot(x, y, i, j)
    {
      for c := 0 to b.Length1
        invariant forall i, j :: 0 <= i < r && 0 <= j < b.Length1 ==> res[i, j] == Dot(x, y, i, j)
        invariant forall j :: 0 <= j < c ==> res[r, j] == Dot(x, y, r, j)
      {
        var sum := Row(a, b, r, c);
        res[r, c] := sum;
      }
    }
    SameEntries(View(res), Mul(x, y));
  }

  /** The innermost loop of `mat_mul`. */
  method Row(a: Data, b: Data, r: nat, c: nat) returns (sum: real)
    requires a.Length1 == b.Length0 && r < a.Length0 && c < b.Length1
    ensures sum == Dot(View(a), View(b), r, c)
  {
    sum := 0.0;
    ghost var x, y := View(a), View(b);
    ghost var f := (k: int) => At(x, r, k) * At(y, k, c);
    for k := 0 to a.Length1
      invariant sum == Sum(k, f)
    {
      sum := sum + a[r, k] * b[k, c];
    }
  }

  /** In place: every pair of mirrored entries becomes its average. */
  method MakeSymmetric(p: Data)
    requires p.Length0 == p.Length1
    modifies p
    ensures View(p) == SymmetricPart(old(View(p)))
  {
    ghost var m := View(p);
    var n := p.Length0;
    for r := 0 to n
      invariant forall i, j :: 0 <= i < n && 0 <= j < n ==>
        p[i, j] == if i < r && j < r then (At(m, i, j) + At(m, j, i)) * 0.5 else At(m, i, j)
    {
      for c := 0 to r
        invariant forall i, j :: 0 <= i < n && 0 <= j < n ==>
          p[i, j] == if (i < r && j < r) || (i == r && j < c) || (j == r && i < c)
                     then (At(m, i, j) + At(m, j, i)) * 0.5 else At(m, i, j)
      {
        var avg := (p[r, c] + p[c, r]) * 0.5;
        p[r, c] := avg;
        p[c, r] := avg;
      }
    }
    SameEntries(View(p), SymmetricPart(m));
  }

  /** In place: every diagonal entry is raised to the floor. */
  method FloorDiagonal(p: Data, floor: real)
    requires p.Length0 == p.Length1
    modifies p
    ensures View(p) == Floored(old(View(p)), floor)
  {
    ghost var m := View(p);
    var n := p.Length0;
    for k := 0 to n
      invariant forall i, j :: 0 <= i < n && 0 <= j < n ==>
        p[i, j] == if i == j && i < k && At(m, i, j) < floor then floor else At(m, i, j)
    {
      if p[k, k] < floor {
        p[k, k] := floor;
      }
    }
    SameEntries(View(p), Floored(m, floor));
  }

  /** What the floor makes of one float: a non-finite value goes to the floor too. */
  function FlooredFloat(d: F.Float, floor: real): (r: F.Float)
    ensures r.Finite? && r.r >= floor
  {
    if !d.Finite? || d.r < floor then F.Finite(floor) else d
  }

  /** `floor_diagonal` on floats, infinities and NaN included: every diagonal entry ends finite and at or above
      the floor, a healthy one is kept, and nothing else changes. On finite entries this is `FloorDiagonal`. */
  method FloorDiagonalOfFloats(p: array2<F.Float>, floor: real)
    requires p.Length0 == p.Length1
    modifies p
    ensures forall i, j :: 0 <= i < p.Length0 && 0 <= j < p.Length1 ==>
              p[i, j] == if i == j then FlooredFloat(old(p[i, j]), floor) else old(p[i, j])
    ensures forall m: Matrix :: Holds(old(Entries(p)), m) ==> Holds(Entries(p), Floored(m, floor))
  {
    var n := p.Length0;
    ghost var before := Entries(p);
    for k := 0 to n
      invariant forall i, j :: 0 <= i < n && 0 <= j < n ==>
        p[i, j] == if i == j && i < k then FlooredFloat(before[i][j], floor) else before[i][j]
    {
      if !p[k, k].Finite? || p[k, k].r < floor {
        p[k, k] := F.Finite(floor);
      }
    }
  }

  ghost function Entries(p: array2<F.Float>): (rows: seq<seq<F.Float>>)
    reads p
    ensures |rows| == p.Length0 && forall i :: 0 <= i < |rows| ==> |rows[i]| == p.Length1
    ensures forall i, j :: 0 <= i < p.Length0 && 0 <= j < p.Length1 ==> rows[i][j] == p[i, j]
  {
    seq(p.Length0, i requires 0 <= i < p.Length0 reads p =>
      seq(p.Length1, j requires 0 <= j < p.Length1 reads p => p[i, j]))
  }

  /** The floats are the entries of the square matrix `m`, all finite. */
  ghost predicate Holds(rows: seq<seq<F.Float>>, m: Matrix) {
    && Square(m) && |rows| == m.rows && (forall i :: 0 <= i < |rows| ==> |rows[i]| == m.cols)
    && forall i, j :: 0 <= i < |rows| && 0 <= j < |rows[i]| ==> rows[i][j] == F.Finite(At(m, i, j))
  }

  /** The gain as a column. */
  ghost function Column(k: seq<real>): (m: Matrix)
    ensures IsColumn(m, |k|)
  {
    Tabulate(|k|, 1, (i, j) => if 0 <= i < |k| then k[i] else 0.0)
  }

  /** A = I - K H: the identity, then column h. */
  method ResidualMatrix(k: seq<real>, h: nat) returns (a: Data)
    requires h < |k|
    ensures fresh(a) && View(a) == Residual(Column(k), h)
  {
    var n := |k|;
    a := new real[n, n]((i, j) => if i == j then 1.0 else 0.0);
    for r := 0 to n
      invariant forall i, j :: 0 <= i < n && 0 <= j < n ==>
        a[i, j] == if j == h && i < r then (if i == h then 1.0 else 0.0) - k[i] else if i == j then 1.0 else 0.0
    {
      var delta := if r == h then 1.0 else 0.0;
      a[r, h] := delta - k[r];
    }
    SameEntries(View(a), Residual(Column(k), h));
  }

  /** The inner loop of the addition below: row `r`. */
  method AddOuterRow(p: Data, k: seq<real>, noise: real, r: nat)
    requires p.Length0 == p.Length1 == |k| && r < |k|
    modifies p
    ensures forall i, j :: 0 <= i < |k| && 0 <= j < |k| ==>
      p[i, j] == if i == r then old(p[i, j]) + k[r] * noise * k[j] else old(p[i, j])
  {
    for c := 0 to |k|
      invariant forall i, j :: 0 <= i < |k| && 0 <= j < |k| ==>
        p[i, j] == if i == r && j < c then old(p[i, j]) + k[r] * noise * k[j] else old(p[i, j])
    {
      p[r, c] := p[r, c] + k[r] * noise * k[c];
    }
  }

  /** Adds k_r * r_noise * k_c to every entry. */
  method AddOuter(p: Data, k: seq<real>, noise: real)
    requires p.Length0 == p.Length1 == |k|
    modifies p
    ensures View(p) == Add(old(View(p)), Outer(Column(k), noise))
  {
    ghost var m, o := View(p), Outer(Column(k), noise);
    var n := |k|;
    for r := 0 to n
      invariant forall i, j :: 0 <= i < n && 0 <= j < n ==>
        p[i, j] == if i < r then At(m, i, j) + At(o, i, j) else At(m, i, j)
    {
      forall j | 0 <= j < n ensures At(o, r, j) == k[r] * noise * k[j] {
        OuterOfColumn(k, noise, r, j);
      }
      AddOuterRow(p, k, noise, r);
    }
    SameEntries(View(p), Add(m, o));
  }

  lemma OuterOfColumn(k: seq<real>, noise: real, i: nat, j: nat)
    requires i < |k| && j < |k|
    ensures At(Outer(Column(k), noise), i, j) == k[i] * noise * k[j]
  {
  }

  method CopyInto(dst: Data, src: Data)
    requires dst.Length0 == src.Length0 && dst.Length1 == src.Length1 && dst != src
    modifies dst
    ensures View(dst) == View(src)
  {
    forall i, j | 0 <= i < dst.Length0 && 0 <= j < dst.Length1 {
      dst[i, j] := src[i, j];
    }
    SameEntries(View(dst), View(src));
  }

  /** A P A' + K r K', in fresh storage. */
  method JosephForm(p: Data, k: seq<real>, h: nat, noise: real) returns (next: Data)
    requires p.Length0 == p.Length1 == |k| && h < |k|
    ensures fresh(next) && View(next) == Joseph(View(p), Column(k), h, noise)
  {
    var a := ResidualMatrix(k, h);
    var ap := MatMul(a, p);
    var at := Transpose(a);
    next := MatMul(ap, at);
    AddOuter(next, k, noise);
  }

  /** `joseph_scalar_cov_update`, in place; `FusedSound` says what it keeps, whatever the gain. */
  method JosephScalarCovUpdate(p: Data, k: seq<real>, h: nat, noise: real)
    requires p.Length0 == p.Length1 == |k| && h < |k|
    modifies p
    ensures View(p) == Fused(old(View(p)), Column(k), h, noise)
  {
    var next := JosephForm(p, k, h, noise);
    CopyInto(p, next);
    MakeSymmetric(p);
    FloorDiagonal(p, COV_VAR_FLOOR);
  }

  /** The covariance part of `predict`, in place; `PredictionKeepsCovariance` says what it keeps. */
  method PredictCovariance(p: Data, f: Data, q: Data)
    requires p.Length0 == p.Length1 == f.Length0 == f.Length1 == q.Length0 == q.Length1
    requires p != f && p != q
    modifies p
    ensures View(p) == Predicted(old(View(p)), View(f), View(q))
  {
    var fp := MatMul(f, p);
    var ft := Transpose(f);
    var fpft := MatMul(fp, ft);
    var sum := AddMatrix(fpft, q);
    CopyInto(p, sum);
    MakeSymmetric(p);
  }

  /** One block of a widening: `added` on three diagonal entries. */
  method WidenBlock(p: Data, base: nat, added: real)
    requires p.Length0 == p.Length1 && base + 3 <= p.Length0
    modifies p
    ensures View(p) == Widened(old(View(p)), Block(p.Length0, base, added))
  {
    ghost var m := View(p);
    var n := p.Length0;
    for k := base to base + 3
      invariant forall i, j :: 0 <= i < n && 0 <= j < n ==>
        p[i, j] == if i == j && base <= i < k then At(m, i, j) + added else At(m, i, j)
    {
      p[k, k] := p[k, k] + added;
    }
    SameEntries(View(p), Widened(m, Block(n, base, added)));
  }

  /** `widen_for_imu_gap`; the caller restarts the clock. */
  method WidenForImuGap(p: Data, age: real, dt: real)
    requires p.Length0 == p.Length1 && IDX_ATT + 3 <= p.Length0
    modifies p
    ensures View(p) == GapWidened(old(View(p)), age, dt)
  {
    var gap := Capped(age - dt, IMU_GAP_CEILING_S);
    if gap <= 0.0 {
      return;
    }
    WidenBlock(p, IDX_ATT, GapAttVar(gap));
    WidenBlock(p, IDX_VEL, GapVelVar(gap));
    WidenBlock(p, IDX_POS, GapPosVar(gap));
  }

  /** `widen_for_accel_clip`: also the length of the run after this sample. */
  method WidenForAccelClip(p: Data, run: real, clipped: bool, dt: real) returns (after: real)
    requires p.Length0 == p.Length1 && IDX_ATT + 3 <= p.Length0
    modifies p
    ensures View(p) == ClipWidened(old(View(p)), run, clipped, dt)
    ensures after == ClipRun(run, clipped, dt)
  {
    if !clipped {
      return 0.0;
    }
    after := Capped(run + dt, ACCEL_CLIP_CEILING_S);
    WidenBlock(p, IDX_VEL, ClipVelVar(after) - ClipVelVar(run));
    WidenBlock(p, IDX_POS, ClipPosVar(after) - ClipPosVar(run));
  }

  /** The covariance part of a whole prediction, in place. */
  method Propagate(p: Data, f: Data, q: Data, imuAge: real, clipRun: real, clipped: bool, dt: real)
    returns (age: real, run: real)
    requires p.Length0 == p.Length1 == f.Length0 == f.Length1 == q.Length0 == q.Length1
    requires IDX_ATT + 3 <= p.Length0 && p != f && p != q
    modifies p
    ensures Filter(View(p), age, run)
            == Propagated(Filter(old(View(p)), imuAge, clipRun), View(f), View(q), clipped, dt)
  {
    WidenForImuGap(p, imuAge, dt);
    run := WidenForAccelClip(p, clipRun, clipped, dt);
    PredictCovariance(p, f, q);
    age := 0.0;
  }

  /** Three entries: `dt` on the diagonal of the block at (row, col). */
  method SetShift(f: Data, row: nat, col: nat, dt: real)
    requires row + 3 <= f.Length0 && col + 3 <= f.Length1
    modifies f
    ensures View(f) == WithShift(old(View(f)), row, col, dt)
  {
    ghost var m := View(f);
    for k := 0 to 3
      invariant forall i, j :: 0 <= i < f.Length0 && 0 <= j < f.Length1 ==>
        f[i, j] == if row <= i < row + k && i - row == j - col then dt else At(m, i, j)
    {
      f[row + k, col + k] := dt;
    }
    SameEntries(View(f), WithShift(m, row, col, dt));
  }

  /** One row of a block. */
  method SetBlockRow(f: Data, row: nat, col: nat, m: Matrix, dt: real, r: nat)
    requires row + 3 <= f.Length0 && col + 3 <= f.Length1 && r < 3
    modifies f
    ensures forall i, j :: 0 <= i < f.Length0 && 0 <= j < f.Length1 ==>
              f[i, j] == if i == row + r && col <= j < col + 3 then Turned(m, r, j - col, dt) else old(f[i, j])
  {
    for c := 0 to 3
      invariant forall i, j :: 0 <= i < f.Length0 && 0 <= j < f.Length1 ==>
        f[i, j] == if i == row + r && col <= j < col + c then Turned(m, r, j - col, dt) else old(f[i, j])
    {
      f[row + r, col + c] := Turned(m, r, c, dt);
    }
  }

  /** The block at (row, col) becomes -m dt. */
  method SetBlock(f: Data, row: nat, col: nat, m: Matrix, dt: real)
    requires row + 3 <= f.Length0 && col + 3 <= f.Length1
    modifies f
    ensures View(f) == WithBlock(old(View(f)), row, col, m, dt)
  {
    ghost var before := View(f);
    for r := 0 to 3
      invariant forall i, j :: 0 <= i < f.Length0 && 0 <= j < f.Length1 ==>
        f[i, j] == if InBlock(i, j, row, col) && i < row + r then Turned(m, i - row, j - col, dt) else At(before, i, j)
    {
      SetBlockRow(f, row, col, m, dt, r);
    }
    SameEntries(View(f), WithBlock(before, row, col, m, dt));
  }

  method NewIdentity(n: nat) returns (f: Data)
    ensures fresh(f) && View(f) == Identity(n)
  {
    f := new real[n, n]((i, j) => if i == j then 1.0 else 0.0);
    SameEntries(View(f), Identity(n));
  }

  /** F: the identity, then block by block. */
  method BuildJacobian(accel: Q.Vector3, q: Q.Quaternion, dt: real) returns (f: Data)
    ensures fresh(f) && View(f) == Jacobian(accel, q, dt)
  {
    f := NewIdentity(STATE_DIM);
    SetShift(f, IDX_POS, IDX_VEL, dt);
    SetBlock(f, IDX_VEL, IDX_ATT, Skew(accel), dt);
    SetBlock(f, IDX_VEL, IDX_AB, Q.ToRotationMatrix(q), dt);
    SetBlock(f, IDX_ATT, IDX_GB, Q.ToRotationMatrix(q), dt);
    JacobianIsBuilt(accel, q, dt);
  }

  /** Three diagonal entries from `base` on become `v`. */
  method SetDiagonal(q: Data, base: nat, v: real)
    requires base + 3 <= q.Length0 == q.Length1
    modifies q
    ensures View(q) == WithDiagonal(old(View(q)), base, v)
  {
    ghost var m := View(q);
    for k := 0 to 3
      invariant forall i, j :: 0 <= i < q.Length0 && 0 <= j < q.Length1 ==>
        q[i, j] == if i == j && base <= i < base + k then v else At(m, i, j)
    {
      q[base + k, base + k] := v;
    }
    SameEntries(View(q), WithDiagonal(m, base, v));
  }

  /** Q. */
  method BuildNoise(noise: Noise, dt: real) returns (q: Data)
    ensures fresh(q) && View(q) == ProcessNoise(noise, dt)
  {
    q := new real[STATE_DIM, STATE_DIM]((i, j) => 0.0);
    VariancesAreBuilt(View(q), 0.001, OverTwice(noise.accel, dt), OverTwice(noise.gyro, dt),
                      Over(noise.gyroBias, dt), Over(noise.accelBias, dt));
    SetDiagonal(q, IDX_POS, 0.001);
    SetDiagonal(q, IDX_VEL, OverTwice(noise.accel, dt));
    SetDiagonal(q, IDX_ATT, OverTwice(noise.gyro, dt));
    SetDiagonal(q, IDX_GB, Over(noise.gyroBias, dt));
    SetDiagonal(q, IDX_AB, Over(noise.accelBias, dt));
  }

  /** The whole prediction with its own Jacobian and noise: `accel` in the earth frame, `q` the attitude after the
      step. */
  method PropagateAsCoded(p: Data, accel: Q.Vector3, q: Q.Quaternion, noise: Noise,
                          imuAge: real, clipRun: real, clipped: bool, dt: real)
    returns (age: real, run: real)
    requires p.Length0 == p.Length1 == STATE_DIM
    modifies p
    ensures Filter(View(p), age, run)
            == Propagated(Filter(old(View(p)), imuAge, clipRun),
                          Jacobian(accel, q, dt), ProcessNoise(noise, dt), clipped, dt)
  {
    var f := BuildJacobian(accel, q, dt);
    var n := BuildNoise(noise, dt);
    age, run := Propagate(p, f, n, imuAge, clipRun, clipped, dt);
  }
}
