/** The Jacobian and the process noise of the estimator's prediction (aviate-core/src/ekf/predict.rs), as built block
    by block. */
module Prediction {
  import opened Sums
  import opened Matrices
  import opened Covariance
  import Q = Quaternions

  /** `skew_symmetric`. */
  function Skew(v: Q.Vector3): (m: Matrix)
    ensures m.rows == m.cols == 3
  {
    Matrix(3, 3, [[0.0, -v.z, v.y], [v.z, 0.0, -v.x], [-v.y, v.x, 0.0]])
  }

  /** Entry (i, j) lies in the 3 x 3 block whose corner is at (row, col). */
  predicate InBlock(i: int, j: int, row: nat, col: nat) { row <= i < row + 3 && col <= j < col + 3 }

  /** An entry of -m dt. */
  function Turned(m: Matrix, i: int, j: int, dt: real): real { -At(m, i, j) * dt }

  function JacobianEntry(skew: Matrix, rot: Matrix, dt: real, i: int, j: int): real {
    if InBlock(i, j, IDX_POS, IDX_VEL) && j == i + 3 then dt
    else if InBlock(i, j, IDX_VEL, IDX_ATT) then Turned(skew, i - IDX_VEL, j - IDX_ATT, dt)
    else if InBlock(i, j, IDX_VEL, IDX_AB) then Turned(rot, i - IDX_VEL, j - IDX_AB, dt)
    else if InBlock(i, j, IDX_ATT, IDX_GB) then Turned(rot, i - IDX_ATT, j - IDX_GB, dt)
    else if i == j then 1.0
    else 0.0
  }

  ghost function JacobianOf(skew: Matrix, rot: Matrix, dt: real): (f: Matrix)
    ensures f.rows == f.cols == STATE_DIM
  {
    Tabulate(STATE_DIM, STATE_DIM, (i, j) => JacobianEntry(skew, rot, dt, i, j))
  }

  /** F, for the acceleration in the earth frame and the attitude after the step. */
  ghost function Jacobian(accel: Q.Vector3, q: Q.Quaternion, dt: real): (f: Matrix)
    ensures f.rows == f.cols == STATE_DIM
  {
    JacobianOf(Skew(accel), Q.ToRotationMatrix(q), dt)
  }

  /** `dt` on the diagonal of the block at (row, col). */
  ghost function WithShift(f: Matrix, row: nat, col: nat, dt: real): Matrix {
    Tabulate(f.rows, f.cols, (i, j) => if InBlock(i, j, row, col) && i - row == j - col then dt else At(f, i, j))
  }

  /** -m dt in the block at (row, col). */
  ghost function WithBlock(f: Matrix, row: nat, col: nat, m: Matrix, dt: real): Matrix {
    Tabulate(f.rows, f.cols, (i, j) => if InBlock(i, j, row, col) then Turned(m, i - row, j - col, dt) else At(f, i, j))
  }

  /** What the loops build: the identity, then one block after the other. */
  ghost function Built(skew: Matrix, rot: Matrix, dt: real): (f: Matrix)
    ensures f.rows == f.cols == STATE_DIM
  {
    WithBlock(
      WithBlock(
        WithBlock(WithShift(Identity(STATE_DIM), IDX_POS, IDX_VEL, dt), IDX_VEL, IDX_ATT, skew, dt),
        IDX_VEL, IDX_AB, rot, dt),
      IDX_ATT, IDX_GB, rot, dt)
  }

  lemma FirstBlocks(skew: Matrix, dt: real, i: int, j: int)
    requires 0 <= i < STATE_DIM && 0 <= j < STATE_DIM
    ensures At(WithBlock(WithShift(Identity(STATE_DIM), IDX_POS, IDX_VEL, dt), IDX_VEL, IDX_ATT, skew, dt), i, j)
            == if InBlock(i, j, IDX_VEL, IDX_ATT) then Turned(skew, i - IDX_VEL, j - IDX_ATT, dt)
               else if InBlock(i, j, IDX_POS, IDX_VEL) && j == i + 3 then dt
               else if i == j then 1.0
               else 0.0
  {
  }

  lemma LastBlocks(f: Matrix, rot: Matrix, dt: real, i: int, j: int)
    requires 0 <= i < f.rows && 0 <= j < f.cols
    ensures At(WithBlock(WithBlock(f, IDX_VEL, IDX_AB, rot, dt), IDX_ATT, IDX_GB, rot, dt), i, j)
            == if InBlock(i, j, IDX_ATT, IDX_GB) then Turned(rot, i - IDX_ATT, j - IDX_GB, dt)
               else if InBlock(i, j, IDX_VEL, IDX_AB) then Turned(rot, i - IDX_VEL, j - IDX_AB, dt)
               else At(f, i, j)
  {
  }

  lemma EntryBuilt(skew: Matrix, rot: Matrix, dt: real, i: int, j: int)
    requires 0 <= i < STATE_DIM && 0 <= j < STATE_DIM
    ensures At(Built(skew, rot, dt), i, j) == JacobianEntry(skew, rot, dt, i, j)
  {
    FirstBlocks(skew, dt, i, j);
    LastBlocks(WithBlock(WithShift(Identity(STATE_DIM), IDX_POS, IDX_VEL, dt), IDX_VEL, IDX_ATT, skew, dt),
               rot, dt, i, j);
  }

  lemma JacobianIsBuilt(accel: Q.Vector3, q: Q.Quaternion, dt: real)
    ensures Built(Skew(accel), Q.ToRotationMatrix(q), dt) == Jacobian(accel, q, dt)
  {
    var f := Built(Skew(accel), Q.ToRotationMatrix(q), dt);
    forall i, j | 0 <= i < STATE_DIM && 0 <= j < STATE_DIM ensures At(f, i, j) == At(Jacobian(accel, q, dt), i, j) {
      EntryBuilt(Skew(accel), Q.ToRotationMatrix(q), dt, i, j);
    }
    SameEntries(f, Jacobian(accel, q, dt));
  }

  /** Ones on the diagonal and nothing below it. */
  ghost predicate UnitUpper(f: Matrix) {
    && Square(f)
    && forall i, j :: 0 <= j <= i < f.rows ==> At(f, i, j) == if i == j then 1.0 else 0.0
  }

  /** Every block lies above the diagonal. */
  lemma JacobianIsUnitUpper(accel: Q.Vector3, q: Q.Quaternion, dt: real)
    ensures UnitUpper(Jacobian(accel, q, dt))
  {
    var f := Jacobian(accel, q, dt);
    forall i, j | 0 <= j <= i < f.rows ensures At(f, i, j) == if i == j then 1.0 else 0.0 {
      EntryBelow(Skew(accel), Q.ToRotationMatrix(q), dt, i, j);
    }
  }

  lemma EntryBelow(skew: Matrix, rot: Matrix, dt: real, i: int, j: int)
    requires 0 <= j <= i < STATE_DIM
    ensures JacobianEntry(skew, rot, dt, i, j) == if i == j then 1.0 else 0.0
  {
  }

  /** The configured spectral densities. */
  datatype Noise = Noise(accel: real, gyro: real, gyroBias: real, accelBias: real)

  predicate NonNegativeNoise(n: Noise) {
    n.accel >= 0.0 && n.gyro >= 0.0 && n.gyroBias >= 0.0 && n.accelBias >= 0.0
  }

  /** Five variances, each on three diagonal entries. */
  function Variance(a: real, b: real, c: real, d: real, e: real, i: nat): real {
    if i < IDX_VEL then a else if i < IDX_ATT then b else if i < IDX_GB then c else if i < IDX_AB then d else e
  }

  ghost function Variances(a: real, b: real, c: real, d: real, e: real): (q: Matrix)
    ensures q.rows == q.cols == STATE_DIM
  {
    OnDiagonal(seq(STATE_DIM, i requires 0 <= i < STATE_DIM => Variance(a, b, c, d, e, i)))
  }

  function Over(density: real, dt: real): real { density * dt }

  function OverTwice(density: real, dt: real): real { density * dt * dt }

  /** Q. */
  ghost function ProcessNoise(n: Noise, dt: real): (q: Matrix)
    ensures q.rows == q.cols == STATE_DIM
  {
    Variances(0.001, OverTwice(n.accel, dt), OverTwice(n.gyro, dt), Over(n.gyroBias, dt), Over(n.accelBias, dt))
  }

  /** `v` on the three diagonal entries from `base` on. */
  ghost function WithDiagonal(q: Matrix, base: nat, v: real): Matrix {
    Tabulate(q.rows, q.cols, (i, j) => if i == j && base <= i < base + 3 then v else At(q, i, j))
  }

  lemma VariancesAreBuilt(zero: Matrix, a: real, b: real, c: real, d: real, e: real)
    requires zero.rows == zero.cols == STATE_DIM
    requires forall i, j :: 0 <= i < STATE_DIM && 0 <= j < STATE_DIM ==> At(zero, i, j) == 0.0
    ensures WithDiagonal(
              WithDiagonal(
                WithDiagonal(WithDiagonal(WithDiagonal(zero, IDX_POS, a), IDX_VEL, b), IDX_ATT, c),
                IDX_GB, d),
              IDX_AB, e)
            == Variances(a, b, c, d, e)
  {
    var q := WithDiagonal(
      WithDiagonal(WithDiagonal(WithDiagonal(WithDiagonal(zero, IDX_POS, a), IDX_VEL, b), IDX_ATT, c), IDX_GB, d),
      IDX_AB, e);
    SameEntries(q, Variances(a, b, c, d, e));
  }

  lemma NonNegativeOver(density: real, dt: real)
    requires density >= 0.0 && dt >= 0.0
    ensures Over(density, dt) >= 0.0 && OverTwice(density, dt) >= 0.0
  {
    assert density * dt >= 0.0;
  }

  lemma VariancesAreSound(a: real, b: real, c: real, d: real, e: real)
    requires a >= 0.0 && b >= 0.0 && c >= 0.0 && d >= 0.0 && e >= 0.0
    ensures Sound(Variances(a, b, c, d, e))
  {
    var q := Variances(a, b, c, d, e);
    DiagonalPsd(q);
    SameEntries(T(q), q);
  }

  lemma NoiseIsSound(n: Noise, dt: real)
    requires NonNegativeNoise(n) && dt >= 0.0
    ensures Sound(ProcessNoise(n, dt))
  {
    NonNegativeOver(n.accel, dt);
    NonNegativeOver(n.gyro, dt);
    NonNegativeOver(n.gyroBias, dt);
    NonNegativeOver(n.accelBias, dt);
    VariancesAreSound(
      0.001, OverTwice(n.accel, dt), OverTwice(n.gyro, dt), Over(n.gyroBias, dt), Over(n.accelBias, dt));
  }

  /** `initial_covariance`. */
  ghost function InitialCovariance(): (p: Matrix)
    ensures p.rows == p.cols == STATE_DIM
  {
    Variances(0.1, 0.1, 0.1, 0.0004, 0.04)
  }

  /** Which state each density disturbs: velocity and attitude by the square of the step, the biases by the step, the
      position by a constant, and no two states together. */
  lemma NoiseExactly(n: Noise, dt: real, i: nat, j: nat)
    requires i < STATE_DIM && j < STATE_DIM
    ensures At(ProcessNoise(n, dt), i, j)
            == if i != j then 0.0
               else if i < 3 then 0.001
               else if i < 6 then n.accel * dt * dt
               else if i < 9 then n.gyro * dt * dt
               else if i < 12 then n.gyroBias * dt
               else n.accelBias * dt
  {
  }

  /** The filter starts out uncorrelated: position, velocity and attitude loose, the gyro biases known to 0.02 rad/s and
      the accelerometer biases to 0.2 m/s^2. */
  lemma InitialExactly(i: nat, j: nat)
    requires i < STATE_DIM && j < STATE_DIM
    ensures At(InitialCovariance(), i, j)
            == if i != j then 0.0 else if i < 9 then 0.1 else if i < 12 then Squared(0.02) else Squared(0.2)
  {
  }

  // ---------- what the Jacobian does to an error ----------

  function Masked(base: nat, g: int -> real): int -> real { l => if base <= l < base + 3 then g(l) else 0.0 }

  lemma MaskedSum(base: nat, g: int -> real)
    requires base + 3 <= STATE_DIM
    ensures Sum(STATE_DIM, Masked(base, g)) == g(base) + g(base + 1) + g(base + 2)
  {
    SumThree(STATE_DIM, base, Masked(base, g));
  }

  /** The part of row `i` of a product that the block at (row, col) contributes. */
  function BlockEntry(m: Matrix, dt: real, row: nat, col: nat, x: Matrix, i: int): int -> real {
    l => Turned(m, i - row, l - col, dt) * At(x, l, 0)
  }

  function BlockTerm(m: Matrix, dt: real, row: nat, col: nat, x: Matrix, i: int): int -> real {
    Masked(col, BlockEntry(m, dt, row, col, x, i))
  }

  /** Component `k` of -m dt times the three entries of `x` from `base` on. */
  function Through(m: Matrix, dt: real, k: int, x: Matrix, base: nat): real {
    Turned(m, k, 0, dt) * At(x, base, 0) + Turned(m, k, 1, dt) * At(x, base + 1, 0)
    + Turned(m, k, 2, dt) * At(x, base + 2, 0)
  }

  /** Factor `l` of that component. */
  function Factor(m: Matrix, dt: real, k: int, x: Matrix, base: nat, l: nat): real {
    Turned(m, k, l, dt) * At(x, base + l, 0)
  }

  lemma BlockEntryAt(m: Matrix, dt: real, row: nat, col: nat, x: Matrix, i: nat, l: nat)
    ensures BlockEntry(m, dt, row, col, x, i)(col + l) == Factor(m, dt, i - row, x, col, l)
  {
    assert col + l - col == l;
  }

  lemma ThroughFactors(m: Matrix, dt: real, k: int, x: Matrix, base: nat)
    ensures Through(m, dt, k, x, base)
            == Factor(m, dt, k, x, base, 0) + Factor(m, dt, k, x, base, 1) + Factor(m, dt, k, x, base, 2)
  {
  }

  lemma MaskedSumIs(base: nat, g: int -> real, a: real, b: real, c: real)
    requires base + 3 <= STATE_DIM && g(base + 0) == a && g(base + 1) == b && g(base + 2) == c
    ensures Sum(STATE_DIM, Masked(base, g)) == a + b + c
  {
    MaskedSum(base, g);
  }

  lemma BlockContributes(m: Matrix, dt: real, row: nat, col: nat, x: Matrix, i: nat)
    requires col + 3 <= STATE_DIM && row <= i < row + 3
    ensures Sum(STATE_DIM, BlockTerm(m, dt, row, col, x, i)) == Through(m, dt, i - row, x, col)
  {
    var k := i - row;
    BlockEntryAt(m, dt, row, col, x, i, 0);
    BlockEntryAt(m, dt, row, col, x, i, 1);
    BlockEntryAt(m, dt, row, col, x, i, 2);
    MaskedSumIs(col, BlockEntry(m, dt, row, col, x, i), Factor(m, dt, k, x, col, 0), Factor(m, dt, k, x, col, 1),
                Factor(m, dt, k, x, col, 2));
    ThroughFactors(m, dt, k, x, col);
  }

  /** Term `l` of row `i` of F x. */
  ghost function RowTerm(skew: Matrix, rot: Matrix, dt: real, x: Matrix, i: int): int -> real {
    l => At(JacobianOf(skew, rot, dt), i, l) * At(x, l, 0)
  }

  function UnitTerm(x: Matrix, i: int): int -> real { l => if l == i then At(x, i, 0) else 0.0 }

  function ShiftTerm(x: Matrix, dt: real, i: int): int -> real { l => if l == i + 3 then dt * At(x, i + 3, 0) else 0.0 }

  lemma PositionTerm(skew: Matrix, rot: Matrix, dt: real, x: Matrix, i: nat, l: int)
    requires i < IDX_VEL && 0 <= l < STATE_DIM
    ensures RowTerm(skew, rot, dt, x, i)(l) == UnitTerm(x, i)(l) + ShiftTerm(x, dt, i)(l)
  {
  }

  lemma UnitSum(x: Matrix, i: nat)
    requires i < STATE_DIM
    ensures Sum(STATE_DIM, UnitTerm(x, i)) == At(x, i, 0)
  {
    SumSingle(STATE_DIM, i, UnitTerm(x, i));
  }

  lemma ShiftSum(x: Matrix, dt: real, i: nat)
    requires i + 3 < STATE_DIM
    ensures Sum(STATE_DIM, ShiftTerm(x, dt, i)) == dt * At(x, i + 3, 0)
  {
    SumSingle(STATE_DIM, i + 3, ShiftTerm(x, dt, i));
  }

  lemma PositionParts(skew: Matrix, rot: Matrix, dt: real, x: Matrix, i: nat)
    requires i < IDX_VEL
    ensures Sum(STATE_DIM, RowTerm(skew, rot, dt, x, i))
            == Sum(STATE_DIM, UnitTerm(x, i)) + Sum(STATE_DIM, ShiftTerm(x, dt, i))
  {
    var row, unit, shift := RowTerm(skew, rot, dt, x, i), UnitTerm(x, i), ShiftTerm(x, dt, i);
    forall l | 0 <= l < STATE_DIM ensures row(l) == unit(l) + shift(l) {
      PositionTerm(skew, rot, dt, x, i, l);
    }
    TwoParts(row, unit, shift);
  }

  lemma PositionRow(skew: Matrix, rot: Matrix, dt: real, x: Matrix, i: nat)
    requires i < IDX_VEL
    ensures Sum(STATE_DIM, RowTerm(skew, rot, dt, x, i)) == At(x, i, 0) + dt * At(x, i + 3, 0)
  {
    PositionParts(skew, rot, dt, x, i);
    UnitSum(x, i);
    ShiftSum(x, dt, i);
  }

  lemma TwoParts(f: int -> real, g: int -> real, h: int -> real)
    requires forall l :: 0 <= l < STATE_DIM ==> f(l) == g(l) + h(l)
    ensures Sum(STATE_DIM, f) == Sum(STATE_DIM, g) + Sum(STATE_DIM, h)
  {
    SumAdd(STATE_DIM, g, h);
    SumCong(STATE_DIM, f, l => g(l) + h(l));
  }

  lemma ThreeParts(f: int -> real, g: int -> real, h: int -> real, k: int -> real)
    requires forall l :: 0 <= l < STATE_DIM ==> f(l) == g(l) + h(l) + k(l)
    ensures Sum(STATE_DIM, f) == Sum(STATE_DIM, g) + Sum(STATE_DIM, h) + Sum(STATE_DIM, k)
  {
    TwoParts(l => g(l) + h(l), g, h);
    TwoParts(f, l => g(l) + h(l), k);
  }

  lemma VelocityTerm(skew: Matrix, rot: Matrix, dt: real, x: Matrix, i: nat, l: int)
    requires IDX_VEL <= i < IDX_ATT && 0 <= l < STATE_DIM
    ensures RowTerm(skew, rot, dt, x, i)(l)
            == UnitTerm(x, i)(l) + BlockTerm(skew, dt, IDX_VEL, IDX_ATT, x, i)(l)
               + BlockTerm(rot, dt, IDX_VEL, IDX_AB, x, i)(l)
  {
  }

  lemma VelocityParts(skew: Matrix, rot: Matrix, dt: real, x: Matrix, i: nat)
    requires IDX_VEL <= i < IDX_ATT
    ensures Sum(STATE_DIM, RowTerm(skew, rot, dt, x, i))
            == Sum(STATE_DIM, UnitTerm(x, i)) + Sum(STATE_DIM, BlockTerm(skew, dt, IDX_VEL, IDX_ATT, x, i))
               + Sum(STATE_DIM, BlockTerm(rot, dt, IDX_VEL, IDX_AB, x, i))
  {
    var row, unit := RowTerm(skew, rot, dt, x, i), UnitTerm(x, i);
    var tilt := BlockTerm(skew, dt, IDX_VEL, IDX_ATT, x, i);
    var bias := BlockTerm(rot, dt, IDX_VEL, IDX_AB, x, i);
    forall l | 0 <= l < STATE_DIM ensures row(l) == unit(l) + tilt(l) + bias(l) {
      VelocityTerm(skew, rot, dt, x, i, l);
    }
    ThreeParts(row, unit, tilt, bias);
  }

  lemma VelocityRow(skew: Matrix, rot: Matrix, dt: real, x: Matrix, i: nat)
    requires IDX_VEL <= i < IDX_ATT
    ensures Sum(STATE_DIM, RowTerm(skew, rot, dt, x, i))
            == At(x, i, 0) + Through(skew, dt, i - IDX_VEL, x, IDX_ATT)
               + Through(rot, dt, i - IDX_VEL, x, IDX_AB)
  {
    VelocityParts(skew, rot, dt, x, i);
    UnitSum(x, i);
    BlockContributes(skew, dt, IDX_VEL, IDX_ATT, x, i);
    BlockContributes(rot, dt, IDX_VEL, IDX_AB, x, i);
  }

  lemma AttitudeTerm(skew: Matrix, rot: Matrix, dt: real, x: Matrix, i: nat, l: int)
    requires IDX_ATT <= i < IDX_GB && 0 <= l < STATE_DIM
    ensures RowTerm(skew, rot, dt, x, i)(l)
            == UnitTerm(x, i)(l) + BlockTerm(rot, dt, IDX_ATT, IDX_GB, x, i)(l)
  {
  }

  lemma AttitudeParts(skew: Matrix, rot: Matrix, dt: real, x: Matrix, i: nat)
    requires IDX_ATT <= i < IDX_GB
    ensures Sum(STATE_DIM, RowTerm(skew, rot, dt, x, i))
            == Sum(STATE_DIM, UnitTerm(x, i))
               + Sum(STATE_DIM, BlockTerm(rot, dt, IDX_ATT, IDX_GB, x, i))
  {
    var row, unit := RowTerm(skew, rot, dt, x, i), UnitTerm(x, i);
    var bias := BlockTerm(rot, dt, IDX_ATT, IDX_GB, x, i);
    forall l | 0 <= l < STATE_DIM ensures row(l) == unit(l) + bias(l) {
      AttitudeTerm(skew, rot, dt, x, i, l);
    }
    TwoParts(row, unit, bias);
  }

  lemma AttitudeRow(skew: Matrix, rot: Matrix, dt: real, x: Matrix, i: nat)
    requires IDX_ATT <= i < IDX_GB
    ensures Sum(STATE_DIM, RowTerm(skew, rot, dt, x, i))
            == At(x, i, 0) + Through(rot, dt, i - IDX_ATT, x, IDX_GB)
  {
    AttitudeParts(skew, rot, dt, x, i);
    UnitSum(x, i);
    BlockContributes(rot, dt, IDX_ATT, IDX_GB, x, i);
  }

  lemma BiasRow(skew: Matrix, rot: Matrix, dt: real, x: Matrix, i: nat)
    requires IDX_GB <= i < STATE_DIM
    ensures Sum(STATE_DIM, RowTerm(skew, rot, dt, x, i)) == At(x, i, 0)
  {
    SumCong(STATE_DIM, RowTerm(skew, rot, dt, x, i), UnitTerm(x, i));
    SumSingle(STATE_DIM, i, UnitTerm(x, i));
  }

  lemma RowAt(skew: Matrix, rot: Matrix, dt: real, x: Matrix, i: nat)
    requires IsColumn(x, STATE_DIM) && i < STATE_DIM
    ensures At(Mul(JacobianOf(skew, rot, dt), x), i, 0) == Sum(STATE_DIM, RowTerm(skew, rot, dt, x, i))
  {
    SumCong(STATE_DIM, l => At(JacobianOf(skew, rot, dt), i, l) * At(x, l, 0), RowTerm(skew, rot, dt, x, i));
  }

  /** How an error moves in one prediction: the position error by dt times the velocity error, the velocity error by
      minus dt times the skewed acceleration on the attitude error and minus dt times the rotated accelerometer bias,
      the attitude error by minus dt times the rotated gyro bias, and the biases not at all. */
  lemma ErrorMoves(accel: Q.Vector3, q: Q.Quaternion, dt: real, x: Matrix, i: nat)
    requires IsColumn(x, STATE_DIM) && i < STATE_DIM
    ensures At(Mul(Jacobian(accel, q, dt), x), i, 0)
            == At(x, i, 0)
               + if i < 3 then dt * At(x, i + 3, 0)
                 else if i < 6 then
                   Through(Skew(accel), dt, i - 3, x, 6) + Through(Q.ToRotationMatrix(q), dt, i - 3, x, 12)
                 else if i < 9 then Through(Q.ToRotationMatrix(q), dt, i - 6, x, 9)
                 else 0.0
  {
    RowMoves(Skew(accel), Q.ToRotationMatrix(q), dt, x, i);
  }

  lemma RowMoves(skew: Matrix, rot: Matrix, dt: real, x: Matrix, i: nat)
    requires IsColumn(x, STATE_DIM) && i < STATE_DIM
    ensures At(Mul(JacobianOf(skew, rot, dt), x), i, 0)
            == At(x, i, 0)
               + if i < 3 then dt * At(x, i + 3, 0)
                 else if i < 6 then Through(skew, dt, i - 3, x, 6) + Through(rot, dt, i - 3, x, 12)
                 else if i < 9 then Through(rot, dt, i - 6, x, 9)
                 else 0.0
  {
    RowAt(skew, rot, dt, x, i);
    if i < IDX_VEL {
      PositionRow(skew, rot, dt, x, i);
    } else if i < IDX_ATT {
      VelocityRow(skew, rot, dt, x, i);
    } else if i < IDX_GB {
      AttitudeRow(skew, rot, dt, x, i);
    } else {
      BiasRow(skew, rot, dt, x, i);
    }
  }

  /** Through the skewed acceleration an error is seen as its cross product with the acceleration. */
  lemma TiltIsCross(u: Q.Vector3, dt: real, x: Matrix, base: nat)
    ensures var a, b, c := At(x, base, 0), At(x, base + 1, 0), At(x, base + 2, 0);
      && Through(Skew(u), dt, 0, x, base) == -dt * (u.y * c - u.z * b)
      && Through(Skew(u), dt, 1, x, base) == -dt * (u.z * a - u.x * c)
      && Through(Skew(u), dt, 2, x, base) == -dt * (u.x * b - u.y * a)
  {
    var a, b, c := At(x, base, 0), At(x, base + 1, 0), At(x, base + 2, 0);
    CrossTerm(u.y, u.z, b, c, dt);
    CrossTerm(u.z, u.x, c, a, dt);
    CrossTerm(u.x, u.y, a, b, dt);
  }

  lemma CrossTerm(y: real, z: real, b: real, c: real, dt: real)
    ensures z * dt * b + -y * dt * c == -dt * (y * c - z * b)
  {
  }
}
