/** What the covariance steps do, entry by entry (aviate-core/src/ekf/scalar.rs, ekf/imu_gap.rs,
    ekf/accel_clip.rs, ekf/predict.rs): what a fusion takes off, for the filter's gain and for any other, why that gain
    is the best one, and what time that went by unseen adds. */
module FilterEffects {
  import opened Sums
  import opened Matrices
  import opened Covariance

  // ---------- what a fusion takes off ----------

  /** P_ij after measuring entry h with variance r and the gain k. */
  function MeasuredEntry(pij: real, phj: real, pih: real, phh: real, ki: real, kj: real, r: real): real {
    pij - ki * phj - kj * (pih - ki * phh) + ki * r * kj
  }

  lemma TwiceReduced(ap: Matrix, m: Matrix, p: Matrix, k: Matrix, h: nat, i: nat, j: nat)
    requires Square(ap) && h < ap.rows && i < ap.rows && j < ap.rows
    requires ReducedAt(ap, p, k, h, i, j) && ReducedAt(ap, p, k, h, i, h) && ReducedAt(m, T(ap), k, h, j, i)
    ensures At(m, j, i) == ReducedTwice(At(p, i, j), At(p, h, j), At(p, i, h), At(p, h, h), At(k, i, 0), At(k, j, 0))
  {
    assert At(T(ap), j, i) == At(ap, i, j) && At(T(ap), h, i) == At(ap, i, h);
  }

  /** The Joseph form is the transpose of a matrix reduced twice, and the outer product. */
  lemma JosephReduced(p: Matrix, k: Matrix, h: nat, r: real) returns (ap: Matrix, m: Matrix)
    requires Square(p) && IsColumn(k, p.rows) && h < p.rows
    ensures Square(ap) && ap.rows == p.rows && Reduced(ap, p, k, h) && Reduced(m, T(ap), k, h)
    ensures m.rows == m.cols == p.rows && Joseph(p, k, h, r) == Add(T(m), Outer(k, r))
  {
    var a := Residual(k, h);
    ap := Mul(a, p);
    m := Mul(a, T(ap));
    ResidualReduces(k, h, p);
    ResidualReduces(k, h, T(ap));
    RightFactor(ap, a);
  }

  lemma OuterEntryAt(k: Matrix, r: real, i: nat, j: nat)
    requires IsColumn(k, k.rows) && i < k.rows && j < k.rows
    ensures At(Outer(k, r), i, j) == At(k, i, 0) * r * At(k, j, 0)
  {
  }

  lemma AddedTo(m: Matrix, o: Matrix, i: nat, j: nat)
    requires Square(m) && Square(o) && o.rows == m.rows && i < m.rows && j < m.rows
    ensures At(Add(T(m), o), i, j) == At(m, j, i) + At(o, i, j)
  {
  }

  /** The part of an entry that the two reductions leave. */
  function ReducedTwice(pij: real, phj: real, pih: real, phh: real, ki: real, kj: real): real {
    pij - ki * phj - kj * (pih - ki * phh)
  }

  lemma JosephParts(p: Matrix, k: Matrix, h: nat, r: real, i: nat, j: nat)
    requires Square(p) && IsColumn(k, p.rows) && h < p.rows && i < p.rows && j < p.rows
    ensures At(Joseph(p, k, h, r), i, j)
            == ReducedTwice(At(p, i, j), At(p, h, j), At(p, i, h), At(p, h, h), At(k, i, 0), At(k, j, 0))
               + At(Outer(k, r), i, j)
  {
    var ap, m := JosephReduced(p, k, h, r);
    assert ReducedAt(ap, p, k, h, i, j) && ReducedAt(ap, p, k, h, i, h) && ReducedAt(m, T(ap), k, h, j, i);
    TwiceReduced(ap, m, p, k, h, i, j);
    AddedTo(m, Outer(k, r), i, j);
  }

  lemma PartsAreMeasured(p: Matrix, k: Matrix, h: nat, r: real, i: nat, j: nat, a: real, o: real)
    requires IsColumn(k, k.rows) && i < k.rows && j < k.rows && o == At(Outer(k, r), i, j)
    requires a == ReducedTwice(At(p, i, j), At(p, h, j), At(p, i, h), At(p, h, h), At(k, i, 0), At(k, j, 0)) + o
    ensures a == MeasuredEntry(At(p, i, j), At(p, h, j), At(p, i, h), At(p, h, h), At(k, i, 0), At(k, j, 0), r)
  {
    OuterEntryAt(k, r, i, j);
  }

  lemma JosephEntry(p: Matrix, k: Matrix, h: nat, r: real, i: nat, j: nat)
    requires Square(p) && IsColumn(k, p.rows) && h < p.rows && i < p.rows && j < p.rows
    ensures At(Joseph(p, k, h, r), i, j)
            == MeasuredEntry(At(p, i, j), At(p, h, j), At(p, i, h), At(p, h, h), At(k, i, 0), At(k, j, 0), r)
  {
    JosephParts(p, k, h, r, i, j);
    PartsAreMeasured(p, k, h, r, i, j, At(Joseph(p, k, h, r), i, j), At(Outer(k, r), i, j));
  }

  /** With the filter's gain this is the plain form. */
  lemma GainReduces(p: Matrix, h: nat, r: real)
    requires Square(p) && Symmetric(p) && h < p.rows && At(p, h, h) + r > 0.0
    ensures Reduced(Joseph(p, Gain(p, h, r), h, r), p, Gain(p, h, r), h)
  {
    GainIsOptimal(p, h, r);
    JosephIsPlainForm(p, Gain(p, h, r), h, r, At(p, h, h) + r);
    ResidualReduces(Gain(p, h, r), h, p);
  }

  lemma ReducedEntry(m': Matrix, m: Matrix, k: Matrix, h: nat, i: nat, j: nat)
    requires Reduced(m', m, k, h) && i < m.rows && j < m.cols
    ensures At(m', i, j) == At(m, i, j) - At(k, i, 0) * At(m, h, j)
  {
    assert ReducedAt(m', m, k, h, i, j);
  }

  // ---------- the gain is the best one ----------

  ghost function Minus(k: Matrix, g: Matrix): (d: Matrix)
    requires IsColumn(k, k.rows) && IsColumn(g, k.rows)
    ensures IsColumn(d, k.rows)
  {
    Tabulate(k.rows, 1, (i, j) => At(k, i, 0) - At(g, i, 0))
  }

  /** The entry in terms of the gain used and of the filter's. */
  function Expanded(pij: real, ki: real, kj: real, gi: real, gj: real, s: real): real {
    pij - ki * (s * gj) - kj * (s * gi) + ki * s * kj
  }

  lemma MeasuredExpands(
    pij: real, phj: real, pih: real, phh: real, ki: real, kj: real, gi: real, gj: real, r: real, s: real, a: real)
    requires s == phh + r && phj == s * gj && pih == s * gi
    requires a == MeasuredEntry(pij, phj, pih, phh, ki, kj, r)
    ensures a == Expanded(pij, ki, kj, gi, gj, s)
  {
    assert ki * r * kj + kj * (ki * phh) == ki * s * kj;
  }

  lemma DifferenceExpands(
    pij: real, phj: real, ki: real, kj: real, gi: real, gj: real, s: real, b: real, o: real)
    requires phj == s * gj && b == pij - gi * phj && o == (ki - gi) * s * (kj - gj)
    ensures b + o == Expanded(pij, ki, kj, gi, gj, s)
  {
  }

  lemma OuterOfDifference(k: Matrix, g: Matrix, s: real, i: nat, j: nat)
    requires IsColumn(k, k.rows) && IsColumn(g, k.rows) && i < k.rows && j < k.rows
    ensures At(Outer(Minus(k, g), s), i, j) == (At(k, i, 0) - At(g, i, 0)) * s * (At(k, j, 0) - At(g, j, 0))
  {
  }

  lemma GainTimes(p: Matrix, g: Matrix, h: nat, s: real, i: nat)
    requires Square(p) && Symmetric(p) && h < p.rows && i < p.rows && RowIs(p, h, s, g)
    ensures At(p, h, i) == s * At(g, i, 0) && At(p, i, h) == s * At(g, i, 0)
  {
    assert RowAt(p, h, s, g, i);
    SymmetricEntries(p, h, i);
  }

  lemma EntryExpands(p: Matrix, k: Matrix, g: Matrix, h: nat, r: real, s: real, i: nat, j: nat, a: real)
    requires s == At(p, h, h) + r && At(p, h, j) == s * At(g, j, 0) && At(p, i, h) == s * At(g, i, 0)
    requires a == MeasuredEntry(At(p, i, j), At(p, h, j), At(p, i, h), At(p, h, h), At(k, i, 0), At(k, j, 0), r)
    ensures a == Expanded(At(p, i, j), At(k, i, 0), At(k, j, 0), At(g, i, 0), At(g, j, 0), s)
  {
    MeasuredExpands(At(p, i, j), At(p, h, j), At(p, i, h), At(p, h, h), At(k, i, 0), At(k, j, 0),
                    At(g, i, 0), At(g, j, 0), r, s, a);
  }

  lemma OtherGainExpands(p: Matrix, k: Matrix, g: Matrix, h: nat, r: real, s: real, i: nat, j: nat)
    requires Square(p) && IsColumn(k, p.rows) && h < p.rows && i < p.rows && j < p.rows
    requires s == At(p, h, h) + r && At(p, h, j) == s * At(g, j, 0) && At(p, i, h) == s * At(g, i, 0)
    ensures At(Joseph(p, k, h, r), i, j)
            == Expanded(At(p, i, j), At(k, i, 0), At(k, j, 0), At(g, i, 0), At(g, j, 0), s)
  {
    JosephEntry(p, k, h, r, i, j);
    EntryExpands(p, k, g, h, r, s, i, j, At(Joseph(p, k, h, r), i, j));
  }

  lemma GainAndDifferenceExpand(
    p: Matrix, k: Matrix, g: Matrix, h: nat, s: real, i: nat, j: nat, b: Matrix, o: Matrix)
    requires Square(p) && IsColumn(k, p.rows) && h < p.rows && i < p.rows && j < p.rows
    requires Reduced(b, p, g, h) && At(p, h, j) == s * At(g, j, 0)
    requires At(o, i, j) == (At(k, i, 0) - At(g, i, 0)) * s * (At(k, j, 0) - At(g, j, 0))
    ensures At(b, i, j) + At(o, i, j) == Expanded(At(p, i, j), At(k, i, 0), At(k, j, 0), At(g, i, 0), At(g, j, 0), s)
  {
    ReducedEntry(b, p, g, h, i, j);
    DifferenceExpands(At(p, i, j), At(p, h, j), At(k, i, 0), At(k, j, 0), At(g, i, 0), At(g, j, 0), s,
                      At(b, i, j), At(o, i, j));
  }

  lemma SumOf(a: Matrix, b: Matrix, c: Matrix)
    requires a.rows == b.rows == c.rows && a.cols == b.cols == c.cols
    requires forall i, j :: 0 <= i < a.rows && 0 <= j < a.cols ==> At(a, i, j) == At(b, i, j) + At(c, i, j)
    ensures a == Add(b, c)
  {
    SameEntries(a, Add(b, c));
  }

  lemma OtherGainEntry(
    p: Matrix, k: Matrix, g: Matrix, h: nat, r: real, s: real, i: nat, j: nat, b: Matrix, o: Matrix)
    requires Square(p) && Symmetric(p) && IsColumn(k, p.rows) && IsColumn(g, p.rows) && h < p.rows
    requires s == At(p, h, h) + r && RowIs(p, h, s, g) && Reduced(b, p, g, h) && i < p.rows && j < p.rows
    requires At(o, i, j) == (At(k, i, 0) - At(g, i, 0)) * s * (At(k, j, 0) - At(g, j, 0))
    ensures At(Joseph(p, k, h, r), i, j) == At(b, i, j) + At(o, i, j)
  {
    GainTimes(p, g, h, s, i);
    GainTimes(p, g, h, s, j);
    OtherGainExpands(p, k, g, h, r, s, i, j);
    GainAndDifferenceExpand(p, k, g, h, s, i, j, b, o);
  }

  /** Whatever gain is used instead, the covariance after the fusion is that of the filter's gain and the square of the
      difference, weighed by the innovation variance, on top. */
  lemma OtherGainAdds(p: Matrix, k: Matrix, h: nat, r: real)
    requires Square(p) && Symmetric(p) && IsColumn(k, p.rows) && h < p.rows && At(p, h, h) + r > 0.0
    ensures var g := Gain(p, h, r);
      Joseph(p, k, h, r) == Add(Joseph(p, g, h, r), Outer(Minus(k, g), At(p, h, h) + r))
  {
    var g, s := Gain(p, h, r), At(p, h, h) + r;
    GainReduces(p, h, r);
    GainIsOptimal(p, h, r);
    OtherGainAddsTo(p, k, g, h, r, s, Joseph(p, g, h, r));
  }

  lemma OtherGainAddsTo(p: Matrix, k: Matrix, g: Matrix, h: nat, r: real, s: real, b: Matrix)
    requires Square(p) && Symmetric(p) && IsColumn(k, p.rows) && IsColumn(g, p.rows) && h < p.rows
    requires s == At(p, h, h) + r && RowIs(p, h, s, g) && Reduced(b, p, g, h)
    ensures Joseph(p, k, h, r) == Add(b, Outer(Minus(k, g), s))
  {
    var a, o := Joseph(p, k, h, r), Outer(Minus(k, g), s);
    forall i, j | 0 <= i < a.rows && 0 <= j < a.cols ensures At(a, i, j) == At(b, i, j) + At(o, i, j) {
      OuterOfDifference(k, g, s, i, j);
      OtherGainEntry(p, k, g, h, r, s, i, j, b, o);
    }
    SumOf(a, b, o);
  }

  /** So in no direction does any gain leave less variance than the filter's. */
  lemma GainIsBest(p: Matrix, k: Matrix, h: nat, r: real, x: Matrix)
    requires Sound(p) && IsColumn(k, p.rows) && h < p.rows && At(p, h, h) + r > 0.0 && IsColumn(x, p.rows)
    ensures Quad(Joseph(p, Gain(p, h, r), h, r), x) <= Quad(Joseph(p, k, h, r), x)
  {
    var g, s := Gain(p, h, r), At(p, h, h) + r;
    OtherGainAdds(p, k, h, r);
    OuterSound(Minus(k, g), s);
    QuadAdd(Joseph(p, g, h, r), Outer(Minus(k, g), s), x);
  }

  // ---------- the whole fusion step ----------

  function AtLeast(v: real, floor: real): real { if v < floor then floor else v }

  lemma FlooredEntry(m: Matrix, floor: real, i: nat, j: nat)
    requires Square(m) && i < m.rows && j < m.rows
    ensures At(Floored(m, floor), i, j) == if i == j then AtLeast(At(m, i, j), floor) else At(m, i, j)
  {
  }

  lemma FusedAsJoseph(p: Matrix, h: nat, r: real)
    requires Sound(p) && h < p.rows && r >= 0.0 && At(p, h, h) + r > 0.0
    ensures Fused(p, Gain(p, h, r), h, r) == Floored(Joseph(p, Gain(p, h, r), h, r), COV_VAR_FLOOR)
  {
    var k := Gain(p, h, r);
    JosephSound(p, k, h, r);
    SymmetrizationIdempotent(Joseph(p, k, h, r));
  }

  /** What an accepted fusion of entry h leaves of entry (i, j). */
  ghost function Left(p: Matrix, h: int, r: real, i: int, j: int): real
    requires At(p, h, h) + r > 0.0
  {
    At(p, i, j) - At(p, i, h) / (At(p, h, h) + r) * At(p, h, j)
  }

  lemma GainAt(p: Matrix, h: nat, r: real, i: nat)
    requires Square(p) && h < p.rows && At(p, h, h) + r > 0.0 && i < p.rows
    ensures At(Gain(p, h, r), i, 0) == At(p, i, h) / (At(p, h, h) + r)
  {
  }

  lemma LeftByGain(p: Matrix, h: nat, r: real, i: nat, j: nat, m: Matrix)
    requires Square(p) && h < p.rows && At(p, h, h) + r > 0.0 && i < p.rows && j < p.rows
    requires Reduced(m, p, Gain(p, h, r), h)
    ensures At(m, i, j) == Left(p, h, r, i, j)
  {
    ReducedEntry(m, p, Gain(p, h, r), h, i, j);
    GainAt(p, h, r, i);
  }

  lemma FusedEntry(p: Matrix, h: nat, r: real, i: nat, j: nat)
    requires Sound(p) && h < p.rows && r >= 0.0 && At(p, h, h) + r > 0.0 && i < p.rows && j < p.rows
    ensures At(Fused(p, Gain(p, h, r), h, r), i, j)
            == if i == j then AtLeast(Left(p, h, r, i, j), COV_VAR_FLOOR) else Left(p, h, r, i, j)
  {
    var m := Joseph(p, Gain(p, h, r), h, r);
    FusedAsJoseph(p, h, r);
    GainReduces(p, h, r);
    LeftByGain(p, h, r, i, j, m);
    FlooredEntry(m, COV_VAR_FLOOR, i, j);
  }

  /** An accepted fusion whose innovation variance is not vanishing takes off every entry what the measured one shares
      with it, and keeps the variances at their floor. Any other changes nothing. */
  lemma FusionExactly(s: Filter, h: nat, r: real, accepted: bool, i: nat, j: nat)
    requires Sound(s.p) && h < s.p.rows && r >= 0.0 && i < s.p.rows && j < s.p.rows
    ensures var t := FusedStep(s, h, r, accepted);
      if At(s.p, h, h) + r < 0.000000001 || !accepted then t == s
      else
        && t.imuAge == s.imuAge && t.clipRun == s.clipRun
        && At(t.p, i, j)
           == if i == j then AtLeast(Left(s.p, h, r, i, j), 0.000000001) else Left(s.p, h, r, i, j)
  {
    if At(s.p, h, h) + r >= 0.000000001 && accepted {
      FusedEntry(s.p, h, r, i, j);
    }
  }

  lemma Share(v: real, r: real)
    requires v + r > 0.0
    ensures v - v / (v + r) * v == r * (v / (v + r))
  {
    var k := v / (v + r);
    assert k * (v + r) == v;
  }

  /** The measured variance itself becomes the parallel sum of what it was and the noise. */
  lemma MeasuredVariance(p: Matrix, h: nat, r: real)
    requires At(p, h, h) + r > 0.0
    ensures Left(p, h, r, h, h) == r * (At(p, h, h) / (At(p, h, h) + r))
  {
    Share(At(p, h, h), r);
  }

  // ---------- what time that went by unseen adds ----------

  lemma WidenedEntry(p: Matrix, base: nat, v: real, i: nat, j: nat)
    requires Square(p) && i < p.rows && j < p.rows
    ensures At(Widened(p, Block(p.rows, base, v)), i, j)
            == At(p, i, j) + if i == j && base <= i < base + 3 then v else 0.0
  {
  }

  /** Onto the diagonal: `pos`, `vel` and `att` on three entries each. */
  function OnVariances(pos: real, vel: real, att: real, i: int, j: int): real {
    if i != j || i < 0 then 0.0 else if i < 3 then pos else if i < 6 then vel else if i < 9 then att else 0.0
  }

  lemma ThreeBlocks(p: Matrix, pos: real, vel: real, att: real, i: nat, j: nat)
    requires Square(p) && i < p.rows && j < p.rows
    ensures var q := Widened(Widened(Widened(p, Block(p.rows, IDX_ATT, att)), Block(p.rows, IDX_VEL, vel)),
                             Block(p.rows, IDX_POS, pos));
      At(q, i, j) == At(p, i, j) + OnVariances(pos, vel, att, i, j)
  {
    var a := Widened(p, Block(p.rows, IDX_ATT, att));
    var b := Widened(a, Block(p.rows, IDX_VEL, vel));
    WidenedEntry(p, IDX_ATT, att, i, j);
    WidenedEntry(a, IDX_VEL, vel, i, j);
    WidenedEntry(b, IDX_POS, pos, i, j);
  }

  /** A gap of `g` seconds adds the squares of 2.5 g g metres, 5 g metres a second and 0.5 g radians to the variances of
      position, velocity and attitude; it is the time since the last prediction without the coming step, ten seconds at
      most, and without a gap nothing is added. */
  lemma GapExactly(p: Matrix, age: real, dt: real, i: nat, j: nat)
    requires Square(p) && i < p.rows && j < p.rows
    ensures var g := if age - dt < 10.0 then age - dt else 10.0;
      At(GapWidened(p, age, dt), i, j)
      == At(p, i, j) + if g <= 0.0 then 0.0
                       else OnVariances(Squared(2.5 * g * g), Squared(5.0 * g), Squared(0.5 * g), i, j)
  {
    var g := GapOf(age, dt);
    if g > 0.0 {
      ThreeBlocks(p, GapPosVar(g), GapVelVar(g), GapAttVar(g), i, j);
      assert 0.5 * IMU_GAP_ACCEL_SIGMA * g * g == 2.5 * g * g;
    }
  }

  // ---------- what a run of clipped samples adds ----------

  lemma TwoBlocks(p: Matrix, pos: real, vel: real, i: nat, j: nat)
    requires Square(p) && i < p.rows && j < p.rows
    ensures At(Widened(Widened(p, Block(p.rows, IDX_VEL, vel)), Block(p.rows, IDX_POS, pos)), i, j)
            == At(p, i, j) + OnVariances(pos, vel, 0.0, i, j)
  {
    WidenedEntry(p, IDX_VEL, vel, i, j);
    WidenedEntry(Widened(p, Block(p.rows, IDX_VEL, vel)), IDX_POS, pos, i, j);
  }

  lemma ClipEntry(p: Matrix, run: real, dt: real, i: nat, j: nat)
    requires Square(p) && i < p.rows && j < p.rows
    ensures var after := ClipRun(run, true, dt);
      At(ClipWidened(p, run, true, dt), i, j)
      == At(p, i, j) + OnVariances(ClipPosVar(after) - ClipPosVar(run), ClipVelVar(after) - ClipVelVar(run), 0.0, i, j)
  {
    var after := ClipRun(run, true, dt);
    TwoBlocks(p, ClipPosVar(after) - ClipPosVar(run), ClipVelVar(after) - ClipVelVar(run), i, j);
  }

  /** A covariance widened by `k` clipped samples in a row, the first of a run. */
  ghost function ClippedInARow(p: Matrix, dts: seq<real>, k: nat): (q: Matrix)
    requires Square(p) && k <= |dts|
    ensures Square(q) && q.rows == p.rows
  {
    if k == 0 then p else ClipWidened(ClippedInARow(p, dts, k - 1), RunAfter(0.0, dts, k - 1), true, dts[k - 1])
  }

  lemma OntoVariances(a: real, x: real, y: real, pos: real, vel: real, pos': real, vel': real, i: nat, j: nat)
    requires x == a + OnVariances(pos, vel, 0.0, i, j)
    requires y == x + OnVariances(pos' - pos, vel' - vel, 0.0, i, j)
    ensures y == a + OnVariances(pos', vel', 0.0, i, j)
  {
  }

  lemma ClippedStep(p: Matrix, q: Matrix, run: real, dt: real, i: nat, j: nat)
    requires Square(p) && Square(q) && q.rows == p.rows && i < p.rows && j < p.rows
    requires At(q, i, j) == At(p, i, j) + OnVariances(ClipPosVar(run), ClipVelVar(run), 0.0, i, j)
    ensures var t := ClipRun(run, true, dt);
      At(ClipWidened(q, run, true, dt), i, j)
      == At(p, i, j) + OnVariances(ClipPosVar(t), ClipVelVar(t), 0.0, i, j)
  {
    var t := ClipRun(run, true, dt);
    ClipEntry(q, run, dt, i, j);
    OntoVariances(At(p, i, j), At(q, i, j), At(ClipWidened(q, run, true, dt), i, j),
                  ClipPosVar(run), ClipVelVar(run), ClipPosVar(t), ClipVelVar(t), i, j);
  }

  lemma NothingClipped(p: Matrix, i: nat, j: nat)
    ensures At(p, i, j) == At(p, i, j) + OnVariances(ClipPosVar(0.0), ClipVelVar(0.0), 0.0, i, j)
  {
    assert ClipVelVar(0.0) == 0.0;
    assert ClipPosVar(0.0) == 0.0;
  }

  /** The entry is widened by the variances of a run of length `t`. */
  ghost predicate WidenedFor(q: Matrix, p: Matrix, t: real, i: int, j: int) {
    At(q, i, j) == At(p, i, j) + OnVariances(ClipPosVar(t), ClipVelVar(t), 0.0, i, j)
  }

  lemma OneMoreClipped(p: Matrix, q: Matrix, r: Matrix, run: real, t: real, dt: real, i: nat, j: nat)
    requires Square(p) && Square(q) && q.rows == p.rows && i < p.rows && j < p.rows
    requires r == ClipWidened(q, run, true, dt) && t == ClipRun(run, true, dt)
    requires WidenedFor(q, p, run, i, j)
    ensures WidenedFor(r, p, t, i, j)
  {
    ClippedStep(p, q, run, dt, i, j);
  }

  lemma {:induction false} ClippedEntry(p: Matrix, dts: seq<real>, k: nat, i: nat, j: nat)
    requires Square(p) && k <= |dts| && i < p.rows && j < p.rows
    ensures WidenedFor(ClippedInARow(p, dts, k), p, RunAfter(0.0, dts, k), i, j)
  {
    if k == 0 {
      NothingClipped(p, i, j);
    } else {
      ClippedEntry(p, dts, k - 1, i, j);
      OneMoreClipped(p, ClippedInARow(p, dts, k - 1), ClippedInARow(p, dts, k),
                     RunAfter(0.0, dts, k - 1), RunAfter(0.0, dts, k), dts[k - 1], i, j);
    }
  }

  lemma ClipPosInMetres(t: real)
    ensures ClipPosVar(t) == Squared(250.0 * t * t)
  {
    ClipPosIsSquare(t);
    assert ACCEL_CLIP_EXCESS_SIGMA * t * (0.5 * t) == 250.0 * t * t;
  }

  /** What clipping for `t` seconds adds in all: the squares of 500 t metres a second and of 250 t t metres. */
  ghost predicate WidenedByClipping(q: Matrix, p: Matrix, t: real, i: int, j: int) {
    At(q, i, j) == At(p, i, j) + OnVariances(Squared(250.0 * t * t), Squared(500.0 * t), 0.0, i, j)
  }

  lemma WidenedInMetres(q: Matrix, p: Matrix, t: real, i: int, j: int)
    requires WidenedFor(q, p, t, i, j)
    ensures WidenedByClipping(q, p, t, i, j)
  {
    ClipPosInMetres(t);
  }

  /** Clipped samples in a row widen the covariance for the time they take, one second at most, however many samples it
      is divided into. */
  lemma ClippingExactly(p: Matrix, dts: seq<real>, i: nat, j: nat)
    requires Square(p) && i < p.rows && j < p.rows && forall l :: 0 <= l < |dts| ==> dts[l] > 0.0
    ensures var t := if Total(dts, |dts|) < 1.0 then Total(dts, |dts|) else 1.0;
      WidenedByClipping(ClippedInARow(p, dts, |dts|), p, t, i, j)
  {
    RunIsTotal(dts, |dts|);
    ClippedEntry(p, dts, |dts|, i, j);
    WidenedInMetres(ClippedInARow(p, dts, |dts|), p, RunAfter(0.0, dts, |dts|), i, j);
  }

  // ---------- the whole prediction ----------

  /** `pos`, `vel` and `att` added to the variances. */
  ghost function WithVariances(p: Matrix, pos: real, vel: real, att: real): (q: Matrix)
    ensures q.rows == p.rows && q.cols == p.cols
  {
    Tabulate(p.rows, p.cols, (i, j) => At(p, i, j) + OnVariances(pos, vel, att, i, j))
  }

  lemma IsWithVariances(q: Matrix, p: Matrix, pos: real, vel: real, att: real)
    requires q.rows == p.rows && q.cols == p.cols
    requires forall i, j :: 0 <= i < p.rows && 0 <= j < p.cols ==>
               At(q, i, j) == At(p, i, j) + OnVariances(pos, vel, att, i, j)
    ensures q == WithVariances(p, pos, vel, att)
  {
    SameEntries(q, WithVariances(p, pos, vel, att));
  }

  lemma ThreeBlocksAdd(p: Matrix, pos: real, vel: real, att: real)
    requires Square(p)
    ensures Widened(Widened(Widened(p, Block(p.rows, IDX_ATT, att)), Block(p.rows, IDX_VEL, vel)),
                    Block(p.rows, IDX_POS, pos))
            == WithVariances(p, pos, vel, att)
  {
    var q := Widened(Widened(Widened(p, Block(p.rows, IDX_ATT, att)), Block(p.rows, IDX_VEL, vel)),
                     Block(p.rows, IDX_POS, pos));
    forall i, j | 0 <= i < p.rows && 0 <= j < p.cols
      ensures At(q, i, j) == At(p, i, j) + OnVariances(pos, vel, att, i, j)
    {
      ThreeBlocks(p, pos, vel, att, i, j);
    }
    IsWithVariances(q, p, pos, vel, att);
  }

  lemma TwoBlocksAdd(p: Matrix, pos: real, vel: real)
    requires Square(p)
    ensures Widened(Widened(p, Block(p.rows, IDX_VEL, vel)), Block(p.rows, IDX_POS, pos))
            == WithVariances(p, pos, vel, 0.0)
  {
    var q := Widened(Widened(p, Block(p.rows, IDX_VEL, vel)), Block(p.rows, IDX_POS, pos));
    forall i, j | 0 <= i < p.rows && 0 <= j < p.cols
      ensures At(q, i, j) == At(p, i, j) + OnVariances(pos, vel, 0.0, i, j)
    {
      TwoBlocks(p, pos, vel, i, j);
    }
    IsWithVariances(q, p, pos, vel, 0.0);
  }

  lemma NothingAdded(p: Matrix)
    ensures WithVariances(p, 0.0, 0.0, 0.0) == p
  {
    SameEntries(WithVariances(p, 0.0, 0.0, 0.0), p);
  }

  lemma AddedTwice(p: Matrix, pos: real, vel: real, att: real, pos': real, vel': real, att': real)
    ensures WithVariances(WithVariances(p, pos, vel, att), pos', vel', att')
            == WithVariances(p, pos + pos', vel + vel', att + att')
  {
    SameEntries(WithVariances(WithVariances(p, pos, vel, att), pos', vel', att'),
                WithVariances(p, pos + pos', vel + vel', att + att'));
  }

  /** What is added for a gap of `g` seconds, and for a run of clipped samples that grows from `run` to `after`. */
  function ForGap(g: real, v: real): real { if g <= 0.0 then 0.0 else v }

  function ForClip(clipped: bool, before: real, after: real): real { if clipped then after - before else 0.0 }

  lemma GapAdds(p: Matrix, age: real, dt: real)
    requires Square(p)
    ensures var g := GapOf(age, dt);
      GapWidened(p, age, dt)
      == WithVariances(p, ForGap(g, GapPosVar(g)), ForGap(g, GapVelVar(g)), ForGap(g, GapAttVar(g)))
  {
    var g := GapOf(age, dt);
    if g > 0.0 {
      ThreeBlocksAdd(p, GapPosVar(g), GapVelVar(g), GapAttVar(g));
    } else {
      NothingAdded(p);
    }
  }

  lemma ClipAdds(p: Matrix, run: real, clipped: bool, dt: real)
    requires Square(p)
    ensures var t := ClipRun(run, clipped, dt);
      ClipWidened(p, run, clipped, dt)
      == WithVariances(p, ForClip(clipped, ClipPosVar(run), ClipPosVar(t)),
                       ForClip(clipped, ClipVelVar(run), ClipVelVar(t)), 0.0)
  {
    var t := ClipRun(run, clipped, dt);
    if clipped {
      TwoBlocksAdd(p, ClipPosVar(t) - ClipPosVar(run), ClipVelVar(t) - ClipVelVar(run));
    } else {
      NothingAdded(p);
    }
  }

  lemma BothAdd(p: Matrix, q: Matrix, r: Matrix, pos: real, vel: real, att: real, pos': real, vel': real)
    requires q == WithVariances(p, pos, vel, att) && r == WithVariances(q, pos', vel', 0.0)
    ensures r == WithVariances(p, pos + pos', vel + vel', att)
  {
    AddedTwice(p, pos, vel, att, pos', vel', 0.0);
  }

  lemma BothWidened(p: Matrix, age: real, run: real, clipped: bool, dt: real)
    requires Square(p)
    ensures var g, t := GapOf(age, dt), ClipRun(run, clipped, dt);
      ClipWidened(GapWidened(p, age, dt), run, clipped, dt)
      == WithVariances(
           p,
           ForGap(g, GapPosVar(g)) + ForClip(clipped, ClipPosVar(run), ClipPosVar(t)),
           ForGap(g, GapVelVar(g)) + ForClip(clipped, ClipVelVar(run), ClipVelVar(t)),
           ForGap(g, GapAttVar(g)))
  {
    var g, t := GapOf(age, dt), ClipRun(run, clipped, dt);
    var w := GapWidened(p, age, dt);
    GapAdds(p, age, dt);
    ClipAdds(w, run, clipped, dt);
    BothAdd(p, w, ClipWidened(w, run, clipped, dt),
            ForGap(g, GapPosVar(g)), ForGap(g, GapVelVar(g)), ForGap(g, GapAttVar(g)),
            ForClip(clipped, ClipPosVar(run), ClipPosVar(t)), ForClip(clipped, ClipVelVar(run), ClipVelVar(t)));
  }

  lemma PredictedExactly(p: Matrix, f: Matrix, q: Matrix)
    requires Sound(p) && Sound(q) && Square(f) && p.rows == f.rows == q.rows
    ensures Predicted(p, f, q) == Add(Mul(Mul(f, p), T(f)), q)
  {
    PredictionKeepsCovariance(f, p, q);
    SymmetrizationIdempotent(Add(Mul(Mul(f, p), T(f)), q));
  }

  lemma PropagatesWidened(s: Filter, f: Matrix, q: Matrix, clipped: bool, dt: real)
    requires SoundFilter(s) && Sound(q) && Square(f) && s.p.rows == f.rows == q.rows && dt > 0.0
    ensures var w := ClipWidened(GapWidened(s.p, s.imuAge, dt), s.clipRun, clipped, dt);
      && w.rows == w.cols == f.rows
      && Propagated(s, f, q, clipped, dt).p == Add(Mul(Mul(f, w), T(f)), q)
      && Propagated(s, f, q, clipped, dt).imuAge == 0.0
  {
    var w := GapWidened(s.p, s.imuAge, dt);
    GapWideningIsSound(s.p, s.imuAge, dt);
    ClipWideningIsSound(w, s.clipRun, clipped, dt);
    PredictedExactly(ClipWidened(w, s.clipRun, clipped, dt), f, q);
  }

  /** A prediction moves, by F and with Q on top, the covariance to whose variances the gap and the clipping have both
      been added, and restarts the clock of the gap. */
  lemma PropagationExactly(s: Filter, f: Matrix, q: Matrix, clipped: bool, dt: real)
    requires SoundFilter(s) && Sound(q) && Square(f) && s.p.rows == f.rows == q.rows && dt > 0.0
    ensures var g, t := GapOf(s.imuAge, dt), ClipRun(s.clipRun, clipped, dt);
      var widened := WithVariances(
        s.p,
        ForGap(g, GapPosVar(g)) + ForClip(clipped, ClipPosVar(s.clipRun), ClipPosVar(t)),
        ForGap(g, GapVelVar(g)) + ForClip(clipped, ClipVelVar(s.clipRun), ClipVelVar(t)),
        ForGap(g, GapAttVar(g)));
      && Propagated(s, f, q, clipped, dt).p == Add(Mul(Mul(f, widened), T(f)), q)
      && Propagated(s, f, q, clipped, dt).imuAge == 0.0
  {
    PropagatesWidened(s, f, q, clipped, dt);
    BothWidened(s.p, s.imuAge, s.clipRun, clipped, dt);
  }

  // ---------- both counts by history ----------

  /** The seconds that went by since the last prediction, `age` before the steps. */
  function Elapsed(age: real, steps: seq<Step>): real
    decreases |steps|
  {
    if steps == [] then age
    else
      match steps[0]
      case Tick(dt) => Elapsed(age + dt, steps[1..])
      case Predict(_, _, _, _) => Elapsed(0.0, steps[1..])
      case Fuse(_, _, _) => Elapsed(age, steps[1..])
  }

  /** The seconds of clipped samples since the last one in range, `run` before the steps. */
  function ClippedFor(run: real, steps: seq<Step>): real
    decreases |steps|
  {
    if steps == [] then run
    else if !steps[0].Predict? then ClippedFor(run, steps[1..])
    else ClippedFor(if steps[0].clipped then run + steps[0].dt else 0.0, steps[1..])
  }

  lemma CountsStep(s: Filter, step: Step, age: real, run: real)
    requires Square(s.p) && Admissible(s.p.rows, step)
    requires s.imuAge == Capped(age, AGE_SATURATION_S) && s.clipRun == Capped(run, ACCEL_CLIP_CEILING_S)
    ensures Next(s, step).imuAge == Capped(Elapsed(age, [step]), AGE_SATURATION_S)
    ensures Next(s, step).clipRun == Capped(ClippedFor(run, [step]), ACCEL_CLIP_CEILING_S)
  {
  }

  lemma OneStepOfCounts(age: real, run: real, steps: seq<Step>)
    requires steps != []
    ensures Elapsed(age, steps) == Elapsed(Elapsed(age, [steps[0]]), steps[1..])
    ensures ClippedFor(run, steps) == ClippedFor(ClippedFor(run, [steps[0]]), steps[1..])
  {
    assert [steps[0]][1..] == [];
  }

  /** Over any run of the filter its clocks show the time since the last prediction and the length of the clipping, each
      only saturating: no fusion, let through or not, touches them. */
  lemma {:induction false} CountsByHistory(s: Filter, steps: seq<Step>, end: Filter, age: real, run: real)
    requires Leads(s, steps, end)
    requires s.imuAge == Capped(age, AGE_SATURATION_S) && s.clipRun == Capped(run, ACCEL_CLIP_CEILING_S)
    ensures end.imuAge == Capped(Elapsed(age, steps), 10000.0)
    ensures end.clipRun == Capped(ClippedFor(run, steps), 1.0)
    decreases |steps|
  {
    if steps == [] {
    } else {
      CountsStep(s, steps[0], age, run);
      OneStepOfCounts(age, run, steps);
      CountsByHistory(Next(s, steps[0]), steps[1..], end, Elapsed(age, [steps[0]]), ClippedFor(run, [steps[0]]));
    }
  }
}
