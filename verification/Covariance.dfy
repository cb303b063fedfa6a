/** The estimator's covariance steps: prediction (aviate-core/src/ekf/predict.rs) with its two widenings
    (ekf/imu_gap.rs, ekf/accel_clip.rs) and the Joseph-stabilized scalar fusion (ekf/scalar.rs), over exact
    reals. */
module Covariance {
  import opened Sums
  import opened Matrices

  const COV_VAR_FLOOR: real := 0.000000001

  ghost predicate Sound(p: Matrix) { Symmetric(p) && Psd(p) }

  /** I - K H for the unit measurement row H' = e_h: the identity with column h reduced by the gain. */
  ghost function Residual(k: Matrix, h: nat): Matrix
    requires IsColumn(k, k.rows)
  {
    Tabulate(k.rows, k.rows, (i, j) => if j == h then (if i == h then 1.0 else 0.0) - At(k, i, 0)
                                       else if i == j then 1.0 else 0.0)
  }

  /** K r K'. */
  ghost function Outer(k: Matrix, r: real): Matrix
    requires IsColumn(k, k.rows)
  {
    Tabulate(k.rows, k.rows, (i, j) => At(k, i, 0) * r * At(k, j, 0))
  }

  ghost function Joseph(p: Matrix, k: Matrix, h: nat, r: real): Matrix
    requires Square(p) && IsColumn(k, p.rows)
  {
    Add(Mul(Mul(Residual(k, h), p), T(Residual(k, h))), Outer(k, r))
  }

  ghost function Fused(p: Matrix, k: Matrix, h: nat, r: real): Matrix
    requires Square(p) && IsColumn(k, p.rows)
  {
    Floored(SymmetricPart(Joseph(p, k, h, r)), COV_VAR_FLOOR)
  }

  // ---------- soundness ----------

  lemma SingleColumn(a: Matrix, b: Matrix, i: nat, j: nat)
    requires a.cols == b.rows == 1 && i < a.rows && j < b.cols
    ensures At(Mul(a, b), i, j) == At(a, i, 0) * At(b, 0, j)
  {
    SumSingle(1, 0, l => At(a, i, l) * At(b, l, j));
  }

  ghost predicate OuterAt(x: Matrix, k: Matrix, r: real, i: int, j: int) {
    At(x, i, j) == At(k, i, 0) * r * At(k, j, 0)
  }

  lemma OuterEntry(k: Matrix, m: Matrix, i: nat, j: nat)
    requires IsColumn(k, k.rows) && IsColumn(m, 1) && i < k.rows && j < k.rows
    ensures OuterAt(Mul(Mul(k, m), T(k)), k, At(m, 0, 0), i, j)
  {
    SingleColumn(k, m, i, 0);
    SingleColumn(Mul(k, m), T(k), i, j);
  }

  lemma IsOuter(x: Matrix, k: Matrix, r: real)
    requires IsColumn(k, k.rows) && x.rows == x.cols == k.rows
    requires forall i, j :: 0 <= i < k.rows && 0 <= j < k.rows ==> OuterAt(x, k, r, i, j)
    ensures x == Outer(k, r)
  {
    forall i, j | 0 <= i < k.rows && 0 <= j < k.rows ensures At(x, i, j) == At(Outer(k, r), i, j) {
      assert OuterAt(x, k, r, i, j);
    }
    SameEntries(x, Outer(k, r));
  }

  lemma OuterIsProduct(k: Matrix, m: Matrix)
    requires IsColumn(k, k.rows) && IsColumn(m, 1)
    ensures Outer(k, At(m, 0, 0)) == Mul(Mul(k, m), T(k))
  {
    var product := Mul(Mul(k, m), T(k));
    forall i, j | 0 <= i < k.rows && 0 <= j < k.rows ensures OuterAt(product, k, At(m, 0, 0), i, j) {
      OuterEntry(k, m, i, j);
    }
    IsOuter(product, k, At(m, 0, 0));
  }

  lemma OuterSound(k: Matrix, r: real)
    requires IsColumn(k, k.rows) && r >= 0.0
    ensures Sound(Outer(k, r))
  {
    var m := Tabulate(1, 1, (i, j) => r);
    OuterIsProduct(k, m);
    DiagonalPsd(m);
    SameEntries(T(m), m);
    CongruencePsd(k, m);
    CongruenceSymmetric(k, m);
  }

  /** The Joseph form keeps a sound covariance sound for every gain, optimal or not. */
  lemma JosephSound(p: Matrix, k: Matrix, h: nat, r: real)
    requires Sound(p) && IsColumn(k, p.rows) && r >= 0.0
    ensures Sound(Joseph(p, k, h, r))
  {
    OuterSound(k, r);
    PredictionKeepsCovariance(Residual(k, h), p, Outer(k, r));
  }

  lemma FusedSound(p: Matrix, k: Matrix, h: nat, r: real)
    requires Sound(p) && IsColumn(k, p.rows) && r >= 0.0
    ensures Sound(Fused(p, k, h, r))
    ensures forall i :: 0 <= i < p.rows ==> At(Fused(p, k, h, r), i, i) >= COV_VAR_FLOOR
  {
    var j := Joseph(p, k, h, r);
    JosephSound(p, k, h, r);
    SymmetrizationKeepsForm(j);
    FloorKeepsPsd(SymmetricPart(j), COV_VAR_FLOOR);
  }

  // ---------- the optimal gain ----------

  /** The gain the filter uses: column h of P over the innovation variance. */
  ghost function Gain(p: Matrix, h: nat, r: real): (k: Matrix)
    requires Square(p) && h < p.rows && At(p, h, h) + r > 0.0
    ensures IsColumn(k, p.rows)
  {
    Tabulate(p.rows, 1, (i, j) => At(p, i, h) / (At(p, h, h) + r))
  }

  /** `m'` is (I - K H) M: row h of `m`, times the gain, is taken off every row. */
  ghost predicate Reduced(m': Matrix, m: Matrix, k: Matrix, h: nat) {
    && IsColumn(k, m.rows) && h < m.rows && m'.rows == m.rows && m'.cols == m.cols
    && forall i, j :: 0 <= i < m.rows && 0 <= j < m.cols ==> ReducedAt(m', m, k, h, i, j)
  }

  ghost predicate ReducedAt(m': Matrix, m: Matrix, k: Matrix, h: int, i: int, j: int) {
    At(m', i, j) == At(m, i, j) - At(k, i, 0) * At(m, h, j)
  }

  lemma ResidualReduces(k: Matrix, h: nat, m: Matrix)
    requires IsColumn(k, m.rows) && h < m.rows
    ensures Reduced(Mul(Residual(k, h), m), m, k, h)
  {
    forall i, j | 0 <= i < m.rows && 0 <= j < m.cols
      ensures ReducedAt(Mul(Residual(k, h), m), m, k, h, i, j)
    {
      ResidualDot(k, h, m, i, j);
    }
  }

  lemma ResidualDot(k: Matrix, h: nat, m: Matrix, i: nat, j: nat)
    requires IsColumn(k, m.rows) && h < m.rows && i < m.rows && j < m.cols
    ensures Dot(Residual(k, h), m, i, j) == At(m, i, j) - At(k, i, 0) * At(m, h, j)
  {
    var n, a := m.rows, Residual(k, h);
    var whole := (l: int) => At(a, i, l) * At(m, l, j);
    var unit := (l: int) => if l == i then At(m, i, j) else 0.0;
    var column := (l: int) => if l == h then -(At(k, i, 0) * At(m, h, j)) else 0.0;
    forall l | 0 <= l < n ensures whole(l) == unit(l) + column(l) {
      ResidualTerm(At(k, i, 0), At(m, l, j), i == l, l == h);
    }
    SumCong(n, whole, l => unit(l) + column(l));
    SumAdd(n, unit, column);
    SumSingle(n, i, unit);
    SumSingle(n, h, column);
  }

  lemma ResidualTerm(k: real, m: real, same: bool, atH: bool)
    ensures (if atH then (if same then 1.0 else 0.0) - k else if same then 1.0 else 0.0) * m
            == (if same then m else 0.0) + (if atH then -(k * m) else 0.0)
  {
  }

  /** `m` is `m'` with K c K' added back. */
  ghost predicate Removed(m': Matrix, m: Matrix, k: Matrix, c: real) {
    && Square(m) && Square(m') && m.rows == m'.rows && IsColumn(k, m.rows)
    && Add(m', Outer(k, c)) == m
  }

  /** Row h of `m`, or by symmetry column h, is c times the gain. */
  ghost predicate RowIs(m: Matrix, h: nat, c: real, k: Matrix) {
    forall j :: 0 <= j < m.rows ==> RowAt(m, h, c, k, j)
  }

  ghost predicate RowAt(m: Matrix, h: int, c: real, k: Matrix, j: int) { At(m, h, j) == c * At(k, j, 0) }

  lemma RemovedEntry(x: real, y: real, ki: real, kj: real, mh: real, c: real)
    requires x == y - ki * mh && mh == c * kj
    ensures x + ki * c * kj == y
  {
    assert ki * (c * kj) == ki * c * kj;
  }

  lemma ReducingRemovesAt(m': Matrix, m: Matrix, k: Matrix, h: nat, c: real, i: nat, j: nat)
    requires ReducedAt(m', m, k, h, i, j) && RowAt(m, h, c, k, j)
    ensures At(m', i, j) + At(k, i, 0) * c * At(k, j, 0) == At(m, i, j)
  {
    RemovedEntry(At(m', i, j), At(m, i, j), At(k, i, 0), At(k, j, 0), At(m, h, j), c);
  }

  /** When row h of `m` is c times the gain, reducing removes K c K'. */
  lemma ReducingRemoves(m': Matrix, m: Matrix, k: Matrix, h: nat, c: real)
    requires Square(m) && Reduced(m', m, k, h) && RowIs(m, h, c, k)
    ensures Removed(m', m, k, c)
  {
    var sum := Add(m', Outer(k, c));
    forall i, j | 0 <= i < m.rows && 0 <= j < m.rows ensures At(sum, i, j) == At(m, i, j) {
      assert ReducedAt(m', m, k, h, i, j) && RowAt(m, h, c, k, j);
      ReducingRemovesAt(m', m, k, h, c, i, j);
    }
    SameEntries(sum, m);
  }

  lemma RemovedSymmetric(m': Matrix, m: Matrix, k: Matrix, c: real)
    requires Removed(m', m, k, c) && Symmetric(m)
    ensures Symmetric(m')
  {
    forall i, j | 0 <= i < m.rows && 0 <= j < m.rows ensures At(m', i, j) == At(m', j, i) {
      assert At(T(m), i, j) == At(m, j, i);
      assert At(m, i, j) == At(m', i, j) + At(Outer(k, c), i, j);
      assert At(m, j, i) == At(m', j, i) + At(Outer(k, c), j, i);
      OuterEntrySymmetric(At(k, i, 0), At(k, j, 0), c);
    }
    SameEntries(T(m'), m');
  }

  lemma OuterEntrySymmetric(ki: real, kj: real, c: real)
    ensures ki * c * kj == kj * c * ki
  {
  }

  lemma GainIsOptimal(p: Matrix, h: nat, r: real)
    requires Square(p) && Symmetric(p) && h < p.rows && At(p, h, h) + r > 0.0
    ensures RowIs(p, h, At(p, h, h) + r, Gain(p, h, r))
  {
    var k, s := Gain(p, h, r), At(p, h, h) + r;
    forall j | 0 <= j < p.rows ensures RowAt(p, h, s, k, j) {
      SymmetricEntries(p, h, j);
      Quotient(At(p, j, h), s);
    }
  }

  lemma Quotient(x: real, s: real)
    requires s > 0.0
    ensures x == s * (x / s)
  {
  }

  lemma SymmetricEntries(p: Matrix, i: nat, j: nat)
    requires Symmetric(p) && i < p.rows && j < p.cols
    ensures At(p, i, j) == At(p, j, i)
  {
    assert At(T(p), i, j) == At(p, j, i);
  }

  /** Row h of (I - K H) P is r times the gain. */
  lemma LeftOverRow(ap: Matrix, p: Matrix, k: Matrix, h: nat, r: real, s: real)
    requires Square(p) && Reduced(ap, p, k, h)
    requires s == At(p, h, h) + r && RowIs(p, h, s, k)
    ensures RowIs(ap, h, r, k)
  {
    forall j | 0 <= j < p.rows ensures RowAt(ap, h, r, k, j) {
      assert ReducedAt(ap, p, k, h, h, j) && RowAt(p, h, s, k, j) && RowAt(p, h, s, k, h);
      LeftOver(At(ap, h, j), At(p, h, j), At(p, h, h), At(k, h, 0), At(k, j, 0), r, s);
    }
  }

  lemma LeftOver(x: real, phj: real, phh: real, kh: real, kj: real, r: real, s: real)
    requires x == phj - kh * phj && phj == s * kj && phh == s * kh && s == phh + r
    ensures x == r * kj
  {
    assert kh * (s * kj) == phh * kj;
    assert (phh + r) * kj == phh * kj + r * kj;
  }

  lemma RightFactor(m: Matrix, a: Matrix)
    requires m.cols == a.cols
    ensures Mul(m, T(a)) == T(Mul(a, T(m)))
  {
    TransposeOfProduct(a, T(m));
    TransposeTwice(m);
  }

  /** With an optimal gain the stabilized form equals the plain (I - K H) P, and what the fusion removes from
      the covariance is exactly the sound matrix K s K'. */
  lemma JosephIsPlainForm(p: Matrix, k: Matrix, h: nat, r: real, s: real)
    requires Square(p) && Symmetric(p) && h < p.rows
    requires s == At(p, h, h) + r && IsColumn(k, p.rows) && RowIs(p, h, s, k)
    ensures Joseph(p, k, h, r) == Mul(Residual(k, h), p)
    ensures Add(Joseph(p, k, h, r), Outer(k, s)) == p
  {
    var a := Residual(k, h);
    var ap := Mul(a, p);
    ResidualReduces(k, h, p);
    ReducingRemoves(ap, p, k, h, s);
    LeftOverRow(ap, p, k, h, r, s);
    RemovedSymmetric(ap, p, k, s);
    ResidualReduces(k, h, ap);
    ReducingRemoves(Mul(a, ap), ap, k, h, r);
    RemovedSymmetric(Mul(a, ap), ap, k, r);
    RightFactor(ap, a);
  }

  /** Before the floor, a fusion with the filter's gain widens no direction of the covariance. */
  lemma FusionNeverWidens(p: Matrix, h: nat, r: real, x: Matrix)
    requires Sound(p) && h < p.rows && At(p, h, h) + r > 0.0 && IsColumn(x, p.rows)
    ensures Quad(Joseph(p, Gain(p, h, r), h, r), x) <= Quad(p, x)
  {
    var k, s := Gain(p, h, r), At(p, h, h) + r;
    GainIsOptimal(p, h, r);
    JosephIsPlainForm(p, k, h, r, s);
    OuterSound(k, s);
    QuadAdd(Joseph(p, k, h, r), Outer(k, s), x);
  }

  // ---------- widening the diagonal ----------

  /** `v` on the three entries from `base` on. */
  function Block(n: nat, base: nat, v: real): (b: seq<real>)
    ensures |b| == n
  {
    seq(n, i => if base <= i < base + 3 then v else 0.0)
  }

  ghost function Widened(p: Matrix, added: seq<real>): Matrix
    requires Square(p) && |added| == p.rows
  {
    Tabulate(p.rows, p.cols, (i, j) => if i == j && 0 <= i < |added| then At(p, i, j) + added[i] else At(p, i, j))
  }

  ghost function OnDiagonal(added: seq<real>): Matrix {
    Tabulate(|added|, |added|, (i, j) => if i == j && 0 <= i < |added| then added[i] else 0.0)
  }

  predicate NonNegative(added: seq<real>) { forall i :: 0 <= i < |added| ==> added[i] >= 0.0 }

  lemma AddedSymmetric(p: Matrix, d: Matrix)
    requires p.rows == p.cols == d.rows == d.cols && Symmetric(p) && Symmetric(d)
    ensures Symmetric(Add(p, d))
  {
    TransposeOfSum(p, d);
  }

  /** No direction of `p` is narrowed in `q`. */
  ghost predicate NoNarrower(q: Matrix, p: Matrix) {
    && Square(p) && Square(q) && q.rows == p.rows
    && forall x: Matrix :: IsColumn(x, p.rows) ==> Quad(q, x) >= Quad(p, x)
  }

  /** Adding to the diagonal keeps a covariance sound and narrows no direction. */
  lemma WideningIsSound(p: Matrix, added: seq<real>)
    requires Sound(p) && |added| == p.rows && NonNegative(added)
    ensures Sound(Widened(p, added)) && NoNarrower(Widened(p, added), p)
  {
    var d := OnDiagonal(added);
    DiagonalPsd(d);
    SameEntries(T(d), d);
    SameEntries(Widened(p, added), Add(p, d));
    SumPsd(p, d);
    AddedSymmetric(p, d);
    forall x: Matrix | IsColumn(x, p.rows) ensures Quad(Widened(p, added), x) >= Quad(p, x) {
      QuadAdd(p, d, x);
    }
  }

  const STATE_DIM: nat := 15
  const IDX_POS: nat := 0
  const IDX_VEL: nat := 3
  const IDX_ATT: nat := 6
  const IDX_GB: nat := 9
  const IDX_AB: nat := 12

  function Capped(x: real, ceiling: real): real { if x < ceiling then x else ceiling }

  function Squared(x: real): (y: real)
    ensures y >= 0.0
  {
    x * x
  }

  const IMU_GAP_RATE_SIGMA: real := 0.5
  const IMU_GAP_ACCEL_SIGMA: real := 5.0
  const IMU_GAP_CEILING_S: real := 10.0

  function GapOf(age: real, dt: real): real { Capped(age - dt, IMU_GAP_CEILING_S) }

  function GapAttVar(gap: real): real { Squared(IMU_GAP_RATE_SIGMA * gap) }

  function GapVelVar(gap: real): real { Squared(IMU_GAP_ACCEL_SIGMA * gap) }

  function GapPosVar(gap: real): real { Squared(0.5 * IMU_GAP_ACCEL_SIGMA * gap * gap) }

  /** `widen_for_imu_gap`: nothing unless time went by beyond the coming step. */
  ghost function GapWidened(p: Matrix, age: real, dt: real): Matrix
    requires Square(p)
  {
    var gap := GapOf(age, dt);
    if gap <= 0.0 then p
    else
      Widened(Widened(Widened(p, Block(p.rows, IDX_ATT, GapAttVar(gap))),
                      Block(p.rows, IDX_VEL, GapVelVar(gap))),
              Block(p.rows, IDX_POS, GapPosVar(gap)))
  }

  const ACCEL_CLIP_EXCESS_SIGMA: real := 500.0
  const ACCEL_CLIP_CEILING_S: real := 1.0

  /** The variances a run of clipped samples of length `t` stands for. */
  function ClipVelVar(t: real): real { Squared(ACCEL_CLIP_EXCESS_SIGMA * t) }

  function ClipPosVar(t: real): real { ClipVelVar(t) * (0.5 * t) * (0.5 * t) }

  /** The run's length after one more sample. */
  function ClipRun(run: real, clipped: bool, dt: real): real {
    if clipped then Capped(run + dt, ACCEL_CLIP_CEILING_S) else 0.0
  }

  ghost function ClipWidened(p: Matrix, run: real, clipped: bool, dt: real): Matrix
    requires Square(p)
  {
    var after := ClipRun(run, clipped, dt);
    if !clipped then p
    else
      Widened(Widened(p, Block(p.rows, IDX_VEL, ClipVelVar(after) - ClipVelVar(run))),
              Block(p.rows, IDX_POS, ClipPosVar(after) - ClipPosVar(run)))
  }

  lemma NoNarrowerChain(r: Matrix, q: Matrix, p: Matrix)
    requires NoNarrower(r, q) && NoNarrower(q, p)
    ensures NoNarrower(r, p)
  {
    forall x: Matrix | IsColumn(x, p.rows) ensures Quad(r, x) >= Quad(p, x) {
      assert Quad(r, x) >= Quad(q, x) >= Quad(p, x);
    }
  }

  lemma BlockIsSound(p: Matrix, base: nat, v: real)
    requires Sound(p) && v >= 0.0
    ensures Sound(Widened(p, Block(p.rows, base, v))) && NoNarrower(Widened(p, Block(p.rows, base, v)), p)
  {
    WideningIsSound(p, Block(p.rows, base, v));
  }

  lemma TwoBlocksAreSound(p: Matrix, i: nat, v: real, j: nat, w: real)
    requires Sound(p) && v >= 0.0 && w >= 0.0
    ensures var q := Widened(Widened(p, Block(p.rows, i, v)), Block(p.rows, j, w)); Sound(q) && NoNarrower(q, p)
  {
    var q := Widened(p, Block(p.rows, i, v));
    BlockIsSound(p, i, v);
    BlockIsSound(q, j, w);
    NoNarrowerChain(Widened(q, Block(p.rows, j, w)), q, p);
  }

  lemma GapWideningIsSound(p: Matrix, age: real, dt: real)
    requires Sound(p)
    ensures Sound(GapWidened(p, age, dt)) && NoNarrower(GapWidened(p, age, dt), p)
  {
    var gap, n := GapOf(age, dt), p.rows;
    if gap > 0.0 {
      var q := Widened(Widened(p, Block(n, IDX_ATT, GapAttVar(gap))), Block(n, IDX_VEL, GapVelVar(gap)));
      TwoBlocksAreSound(p, IDX_ATT, GapAttVar(gap), IDX_VEL, GapVelVar(gap));
      BlockIsSound(q, IDX_POS, GapPosVar(gap));
      NoNarrowerChain(Widened(q, Block(n, IDX_POS, GapPosVar(gap))), q, p);
    }
  }

  lemma SquaresGrow(x: real, y: real)
    requires 0.0 <= x <= y
    ensures x * x <= y * y
  {
    assert y * y - x * x == (y - x) * (y + x);
  }

  /** Clipping only ever adds: the variances grow with the run, and the run with each sample. */
  lemma ClipVariancesGrow(s: real, t: real)
    requires 0.0 <= s <= t
    ensures ClipVelVar(s) <= ClipVelVar(t) && ClipPosVar(s) <= ClipPosVar(t)
  {
    SquaresGrow(ACCEL_CLIP_EXCESS_SIGMA * s, ACCEL_CLIP_EXCESS_SIGMA * t);
    var u, v := ACCEL_CLIP_EXCESS_SIGMA * s * (0.5 * s), ACCEL_CLIP_EXCESS_SIGMA * t * (0.5 * t);
    SquaresGrow(s, t);
    assert u == 250.0 * (s * s) && v == 250.0 * (t * t);
    SquaresGrow(u, v);
    ClipPosIsSquare(s);
    ClipPosIsSquare(t);
  }

  lemma ClipPosIsSquare(t: real)
    ensures ClipPosVar(t) == (ACCEL_CLIP_EXCESS_SIGMA * t * (0.5 * t)) * (ACCEL_CLIP_EXCESS_SIGMA * t * (0.5 * t))
  {
  }

  /** What a clipped sample adds, as two amounts that are not negative. */
  lemma ClipAmounts(p: Matrix, run: real, dt: real) returns (v: real, w: real)
    requires Square(p) && 0.0 <= run <= ACCEL_CLIP_CEILING_S && dt > 0.0
    ensures v >= 0.0 && w >= 0.0
    ensures ClipWidened(p, run, true, dt) == Widened(Widened(p, Block(p.rows, IDX_VEL, v)), Block(p.rows, IDX_POS, w))
  {
    var after := ClipRun(run, true, dt);
    ClipVariancesGrow(run, after);
    v, w := ClipVelVar(after) - ClipVelVar(run), ClipPosVar(after) - ClipPosVar(run);
  }

  lemma TwoBlocksAs(p: Matrix, v: real, w: real, q: Matrix)
    requires Sound(p) && v >= 0.0 && w >= 0.0
    requires q == Widened(Widened(p, Block(p.rows, IDX_VEL, v)), Block(p.rows, IDX_POS, w))
    ensures Sound(q) && NoNarrower(q, p)
  {
    TwoBlocksAreSound(p, IDX_VEL, v, IDX_POS, w);
  }

  lemma NoNarrowerThanItself(p: Matrix)
    requires Square(p)
    ensures NoNarrower(p, p)
  {
  }

  lemma ClipWideningIsSound(p: Matrix, run: real, clipped: bool, dt: real)
    requires Sound(p) && 0.0 <= run <= ACCEL_CLIP_CEILING_S && dt > 0.0
    ensures Sound(ClipWidened(p, run, clipped, dt)) && NoNarrower(ClipWidened(p, run, clipped, dt), p)
    ensures 0.0 <= ClipRun(run, clipped, dt) <= ACCEL_CLIP_CEILING_S
  {
    if clipped {
      var v, w := ClipAmounts(p, run, dt);
      TwoBlocksAs(p, v, w, ClipWidened(p, run, clipped, dt));
    } else {
      NoNarrowerThanItself(p);
    }
  }

  function Total(dts: seq<real>, k: nat): real
    requires k <= |dts|
  {
    if k == 0 then 0.0 else Total(dts, k - 1) + dts[k - 1]
  }

  /** The run's length after `k` clipped samples in a row. */
  function RunAfter(run: real, dts: seq<real>, k: nat): real
    requires k <= |dts|
  {
    if k == 0 then run else ClipRun(RunAfter(run, dts, k - 1), true, dts[k - 1])
  }

  /** What they add together to the entries whose variance over a run is `variance`. */
  function Added(variance: real -> real, run: real, dts: seq<real>, k: nat): real
    requires k <= |dts|
  {
    if k == 0 then 0.0
    else
      Added(variance, run, dts, k - 1)
      + (variance(RunAfter(run, dts, k)) - variance(RunAfter(run, dts, k - 1)))
  }

  lemma {:induction false} AddedInAll(variance: real -> real, run: real, dts: seq<real>, k: nat)
    requires k <= |dts|
    ensures Added(variance, run, dts, k) == variance(RunAfter(run, dts, k)) - variance(run)
  {
    if k == 0 {
    } else {
      AddedInAll(variance, run, dts, k - 1);
    }
  }

  lemma {:induction false} RunIsTotal(dts: seq<real>, k: nat)
    requires k <= |dts| && forall i :: 0 <= i < |dts| ==> dts[i] > 0.0
    ensures RunAfter(0.0, dts, k) == Capped(Total(dts, k), ACCEL_CLIP_CEILING_S)
  {
    if k == 0 {
    } else {
      RunIsTotal(dts, k - 1);
    }
  }

  /** The totals, of velocity and of position variance, do not depend on the sample rate: they are functions of the
      run's whole length. */
  lemma ClippingIgnoresSampleRate(dts: seq<real>, k: nat)
    requires k <= |dts| && forall i :: 0 <= i < |dts| ==> dts[i] > 0.0
    ensures Added(ClipVelVar, 0.0, dts, k) == ClipVelVar(Capped(Total(dts, k), ACCEL_CLIP_CEILING_S))
    ensures Added(ClipPosVar, 0.0, dts, k) == ClipPosVar(Capped(Total(dts, k), ACCEL_CLIP_CEILING_S))
  {
    RunIsTotal(dts, k);
    AddedInAll(ClipVelVar, 0.0, dts, k);
    AddedInAll(ClipPosVar, 0.0, dts, k);
  }

  // ---------- runs of the filter ----------

  /** The covariance, the seconds since the last propagated sample and the length of the clipping run. */
  datatype Filter = Filter(p: Matrix, imuAge: real, clipRun: real)

  /** One step: time passing, a prediction with any Jacobian from a sample that was clipped or not, or a scalar
      fusion that the innovation gate let through or not. */
  datatype Step =
    | Tick(dt: real) | Predict(f: Matrix, q: Matrix, clipped: bool, dt: real) | Fuse(h: nat, r: real, accepted: bool)

  const AGE_SATURATION_S: real := 10000.0

  ghost predicate Admissible(n: nat, s: Step) {
    match s
    case Tick(dt) => dt > 0.0
    case Predict(f, q, _, dt) => f.rows == n && f.cols == n && q.rows == n && Sound(q) && dt > 0.0
    case Fuse(h, r, _) => h < n && r >= 0.0
  }

  /** F P F' + Q, symmetrized. */
  ghost function Predicted(p: Matrix, f: Matrix, q: Matrix): Matrix
    requires Square(p) && Square(f) && Square(q) && p.rows == f.rows == q.rows
  {
    SymmetricPart(Add(Mul(Mul(f, p), T(f)), q))
  }

  ghost function Propagated(s: Filter, f: Matrix, q: Matrix, clipped: bool, dt: real): Filter
    requires Square(s.p) && Square(f) && Square(q) && s.p.rows == f.rows == q.rows
  {
    var widened := ClipWidened(GapWidened(s.p, s.imuAge, dt), s.clipRun, clipped, dt);
    Filter(Predicted(widened, f, q), 0.0, ClipRun(s.clipRun, clipped, dt))
  }

  ghost function FusedStep(s: Filter, h: nat, r: real, accepted: bool): Filter
    requires Square(s.p) && h < s.p.rows
  {
    if At(s.p, h, h) + r < 0.000000001 || !accepted then s else s.(p := Fused(s.p, Gain(s.p, h, r), h, r))
  }

  ghost function Next(s: Filter, step: Step): Filter
    requires Square(s.p) && Admissible(s.p.rows, step)
  {
    match step
    case Tick(dt) => s.(imuAge := Capped(s.imuAge + dt, AGE_SATURATION_S))
    case Predict(f, q, clipped, dt) => Propagated(s, f, q, clipped, dt)
    case Fuse(h, r, accepted) => FusedStep(s, h, r, accepted)
  }

  ghost predicate SoundFilter(s: Filter) { Sound(s.p) && 0.0 <= s.clipRun <= ACCEL_CLIP_CEILING_S }

  lemma PredictedSound(p: Matrix, f: Matrix, q: Matrix)
    requires Sound(p) && Sound(q) && Square(f) && p.rows == f.rows == q.rows
    ensures Sound(Predicted(p, f, q))
  {
    PredictionKeepsCovariance(f, p, q);
    SymmetrizationKeepsForm(Add(Mul(Mul(f, p), T(f)), q));
  }

  lemma PropagatedSound(s: Filter, f: Matrix, q: Matrix, clipped: bool, dt: real)
    requires SoundFilter(s) && Sound(q) && Square(f) && s.p.rows == f.rows == q.rows && dt > 0.0
    ensures SoundFilter(Propagated(s, f, q, clipped, dt)) && Propagated(s, f, q, clipped, dt).p.rows == s.p.rows
  {
    var p := GapWidened(s.p, s.imuAge, dt);
    GapWideningIsSound(s.p, s.imuAge, dt);
    ClipWideningIsSound(p, s.clipRun, clipped, dt);
    PredictedSound(ClipWidened(p, s.clipRun, clipped, dt), f, q);
  }

  lemma FusedStepSound(s: Filter, h: nat, r: real, accepted: bool)
    requires SoundFilter(s) && h < s.p.rows && r >= 0.0
    ensures SoundFilter(FusedStep(s, h, r, accepted)) && FusedStep(s, h, r, accepted).p.rows == s.p.rows
  {
    if At(s.p, h, h) + r >= 0.000000001 && accepted {
      FusedSound(s.p, Gain(s.p, h, r), h, r);
    }
  }

  lemma NextSound(s: Filter, step: Step)
    requires SoundFilter(s) && Admissible(s.p.rows, step)
    ensures SoundFilter(Next(s, step)) && Next(s, step).p.rows == s.p.rows
  {
    match step
    case Tick(_) =>
    case Predict(f, q, clipped, dt) => PropagatedSound(s, f, q, clipped, dt);
    case Fuse(h, r, accepted) => FusedStepSound(s, h, r, accepted);
  }

  /** The filter after a sequence of steps. */
  ghost predicate Leads(s: Filter, steps: seq<Step>, end: Filter)
    decreases |steps|
  {
    if steps == [] then end == s
    else Square(s.p) && Admissible(s.p.rows, steps[0]) && Leads(Next(s, steps[0]), steps[1..], end)
  }

  /** From a sound covariance every run of predictions with their widenings and of fusions, in any order and
      whatever is gated out or clipped, ends in a symmetric positive semidefinite covariance. */
  lemma {:induction false} FilterKeepsCovarianceSound(s: Filter, steps: seq<Step>, end: Filter)
    requires SoundFilter(s) && Leads(s, steps, end)
    ensures SoundFilter(end) && end.p.rows == s.p.rows
    decreases |steps|
  {
    if steps == [] {
    } else {
      NextSound(s, steps[0]);
      FilterKeepsCovarianceSound(Next(s, steps[0]), steps[1..], end);
    }
  }

  /** In exact arithmetic the two symmetrizations change nothing: they are there for rounding alone. */
  lemma SymmetrizationIsForRounding(p: Matrix, f: Matrix, q: Matrix, k: Matrix, h: nat, r: real)
    requires Sound(p) && Sound(q) && Square(f) && p.rows == f.rows == q.rows && IsColumn(k, p.rows) && r >= 0.0
    ensures Predicted(p, f, q) == Add(Mul(Mul(f, p), T(f)), q)
    ensures Fused(p, k, h, r) == Floored(Joseph(p, k, h, r), COV_VAR_FLOOR)
  {
    PredictionKeepsCovariance(f, p, q);
    SymmetrizationIdempotent(Add(Mul(Mul(f, p), T(f)), q));
    JosephSound(p, k, h, r);
    SymmetrizationIdempotent(Joseph(p, k, h, r));
  }
}
