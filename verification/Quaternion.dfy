/** Quaternion kernel over reals (aviate-core/src/math.rs) and the simulator's attitude conversion
    (aviate-apps/sitl-gazebo-x500/src/synthesize.rs). */
module Quaternions {
  import Sums
  import Matrices

  datatype Vector3 = Vector3(x: real, y: real, z: real)

  datatype Quaternion = Quaternion(w: real, x: real, y: real, z: real)

  function NormSq(q: Quaternion): real { q.w * q.w + q.x * q.x + q.y * q.y + q.z * q.z }

  function Inner(u: Vector3, v: Vector3): real { u.x * v.x + u.y * v.y + u.z * v.z }

  function Mul(a: Quaternion, b: Quaternion): Quaternion {
    Quaternion(
      a.w * b.w - a.x * b.x - a.y * b.y - a.z * b.z,
      a.w * b.x + a.x * b.w + a.y * b.z - a.z * b.y,
      a.w * b.y - a.x * b.z + a.y * b.w + a.z * b.x,
      a.w * b.z + a.x * b.y - a.y * b.x + a.z * b.w)
  }

  /** As the source computes it: first q v, then (q v) q*. */
  function RotateVector(q: Quaternion, v: Vector3): Vector3 {
    var ix := q.w * v.x + q.y * v.z - q.z * v.y;
    var iy := q.w * v.y + q.z * v.x - q.x * v.z;
    var iz := q.w * v.z + q.x * v.y - q.y * v.x;
    var iw := -q.x * v.x - q.y * v.y - q.z * v.z;
    Vector3(
      ix * q.w + iw * -q.x + iy * -q.z - iz * -q.y,
      iy * q.w + iw * -q.y + iz * -q.x - ix * -q.z,
      iz * q.w + iw * -q.z + ix * -q.y - iy * -q.x)
  }

  /** The rotation matrix, entry for entry. */
  function ToRotationMatrix(q: Quaternion): (m: Matrices.Matrix)
    ensures m.rows == 3 && m.cols == 3
  {
    var x2, y2, z2 := q.x + q.x, q.y + q.y, q.z + q.z;
    var xx, xy, xz := q.x * x2, q.x * y2, q.x * z2;
    var yy, yz, zz := q.y * y2, q.y * z2, q.z * z2;
    var wx, wy, wz := q.w * x2, q.w * y2, q.w * z2;
    Matrices.Matrix(3, 3, [[1.0 - (yy + zz), xy - wz, xz + wy],
                           [xy + wz, 1.0 - (xx + zz), yz - wx],
                           [xz - wy, yz + wx, 1.0 - (xx + yy)]])
  }

  // ---------- algebra ----------

  function Conjugate(q: Quaternion): Quaternion { Quaternion(q.w, -q.x, -q.y, -q.z) }

  function Pure(v: Vector3): Quaternion { Quaternion(0.0, v.x, v.y, v.z) }

  function Add(p: Quaternion, q: Quaternion): Quaternion { Quaternion(p.w + q.w, p.x + q.x, p.y + q.y, p.z + q.z) }

  function Times(s: real, x: real): real { s * x }

  function Scale(s: real, q: Quaternion): Quaternion {
    Quaternion(Times(s, q.w), Times(s, q.x), Times(s, q.y), Times(s, q.z))
  }

  const I: Quaternion := Quaternion(0.0, 1.0, 0.0, 0.0)
  const J: Quaternion := Quaternion(0.0, 0.0, 1.0, 0.0)
  const K: Quaternion := Quaternion(0.0, 0.0, 0.0, 1.0)

  /** c.w p + c.x q + c.y r + c.z s. */
  function Combination(c: Quaternion, p: Quaternion, q: Quaternion, r: Quaternion, s: Quaternion): Quaternion {
    Add(Add(Scale(c.w, p), Scale(c.x, q)), Add(Scale(c.y, r), Scale(c.z, s)))
  }

  function Dot(p: Quaternion, q: Quaternion): real { p.w * q.w + p.x * q.x + p.y * q.y + p.z * q.z }

  /** The four columns whose dot products with the left factor make up a product. */
  function Column(p: Quaternion, i: nat): Quaternion {
    if i == 0 then Quaternion(p.w, -p.x, -p.y, -p.z)
    else if i == 1 then Quaternion(p.x, p.w, p.z, -p.y)
    else if i == 2 then Quaternion(p.y, -p.z, p.w, p.x)
    else Quaternion(p.z, p.y, -p.x, p.w)
  }

  lemma ColumnOfW(a: Quaternion, p: Quaternion)
    ensures Mul(a, p).w == Dot(a, Column(p, 0))
  {
  }

  lemma ColumnOfX(a: Quaternion, p: Quaternion)
    ensures Mul(a, p).x == Dot(a, Column(p, 1))
  {
  }

  lemma ColumnOfY(a: Quaternion, p: Quaternion)
    ensures Mul(a, p).y == Dot(a, Column(p, 2))
  {
  }

  lemma ColumnOfZ(a: Quaternion, p: Quaternion)
    ensures Mul(a, p).z == Dot(a, Column(p, 3))
  {
  }

  lemma MulByColumns(a: Quaternion, p: Quaternion)
    ensures Mul(a, p) == Quaternion(Dot(a, Column(p, 0)), Dot(a, Column(p, 1)),
                                    Dot(a, Column(p, 2)), Dot(a, Column(p, 3)))
  {
    ColumnOfW(a, p);
    ColumnOfX(a, p);
    ColumnOfY(a, p);
    ColumnOfZ(a, p);
  }

  lemma DotAdds(a: Quaternion, p: Quaternion, q: Quaternion)
    ensures Dot(a, Add(p, q)) == Dot(a, p) + Dot(a, q)
    ensures Dot(Add(p, q), a) == Dot(p, a) + Dot(q, a)
  {
  }

  lemma ColumnAdds(p: Quaternion, q: Quaternion, i: nat)
    ensures Column(Add(p, q), i) == Add(Column(p, i), Column(q, i))
  {
  }

  lemma MulAdds(a: Quaternion, p: Quaternion, q: Quaternion)
    ensures Mul(a, Add(p, q)) == Add(Mul(a, p), Mul(a, q))
  {
    MulByColumns(a, Add(p, q));
    MulByColumns(a, p);
    MulByColumns(a, q);
    forall i: nat | i < 4
      ensures Dot(a, Column(Add(p, q), i)) == Dot(a, Column(p, i)) + Dot(a, Column(q, i))
    {
      ColumnAdds(p, q, i);
      DotAdds(a, Column(p, i), Column(q, i));
    }
  }

  lemma AddsMul(p: Quaternion, q: Quaternion, c: Quaternion)
    ensures Mul(Add(p, q), c) == Add(Mul(p, c), Mul(q, c))
  {
    MulByColumns(Add(p, q), c);
    MulByColumns(p, c);
    MulByColumns(q, c);
    forall i: nat | i < 4
      ensures Dot(Add(p, q), Column(c, i)) == Dot(p, Column(c, i)) + Dot(q, Column(c, i))
    {
      DotAdds(Column(c, i), p, q);
    }
  }

  lemma DotScales(s: real, p: Quaternion, q: Quaternion)
    ensures Dot(p, Scale(s, q)) == Times(s, Dot(p, q)) == Dot(Scale(s, p), q)
  {
    var d, e := Scale(s, q), Scale(s, p);
    assert p.w * d.w == s * (p.w * q.w) == e.w * q.w;
    assert p.x * d.x == s * (p.x * q.x) == e.x * q.x;
    assert p.y * d.y == s * (p.y * q.y) == e.y * q.y;
    assert p.z * d.z == s * (p.z * q.z) == e.z * q.z;
    Spread(s, p.w * q.w, p.x * q.x, p.y * q.y, p.z * q.z);
  }

  lemma Spread(s: real, a: real, b: real, c: real, d: real)
    ensures s * (a + b + c + d) == s * a + s * b + s * c + s * d
  {
  }

  lemma ColumnScales(s: real, p: Quaternion, i: nat)
    ensures Column(Scale(s, p), i) == Scale(s, Column(p, i))
  {
    TimesNegates(s, p.x);
    TimesNegates(s, p.y);
    TimesNegates(s, p.z);
  }

  lemma TimesNegates(s: real, x: real)
    ensures Times(s, -x) == -Times(s, x)
  {
  }

  lemma MulScales(a: Quaternion, s: real, p: Quaternion)
    ensures Mul(a, Scale(s, p)) == Scale(s, Mul(a, p))
    ensures Mul(Scale(s, a), p) == Scale(s, Mul(a, p))
  {
    MulByColumns(a, p);
    MulByColumns(a, Scale(s, p));
    MulByColumns(Scale(s, a), p);
    forall i: nat | i < 4
      ensures Dot(a, Column(Scale(s, p), i)) == Times(s, Dot(a, Column(p, i))) == Dot(Scale(s, a), Column(p, i))
    {
      ColumnScales(s, p, i);
      DotScales(s, a, Column(p, i));
    }
  }

  lemma MulUnits(p: Quaternion)
    ensures Mul(p, I) == Quaternion(-p.x, p.w, p.z, -p.y)
    ensures Mul(p, J) == Quaternion(-p.y, -p.z, p.w, p.x)
    ensures Mul(p, K) == Quaternion(-p.z, p.y, -p.x, p.w)
  {
  }

  lemma MulExpands(p: Quaternion, c: Quaternion)
    ensures Mul(p, c) == Combination(c, p, Mul(p, I), Mul(p, J), Mul(p, K))
  {
    MulUnits(p);
    Expansion(p, c, Mul(p, I), Mul(p, J), Mul(p, K));
  }

  /** One component of the expansion. */
  lemma ExpandsAt(c: Quaternion, w: real, x: real, y: real, z: real)
    ensures Times(c.w, w) + Times(c.x, x) + (Times(c.y, y) + Times(c.z, z)) == Dot(Quaternion(w, x, y, z), c)
  {
  }

  lemma MulByRows(p: Quaternion, c: Quaternion)
    ensures Mul(p, c).w == Dot(Quaternion(p.w, -p.x, -p.y, -p.z), c)
    ensures Mul(p, c).x == Dot(Quaternion(p.x, p.w, -p.z, p.y), c)
    ensures Mul(p, c).y == Dot(Quaternion(p.y, p.z, p.w, -p.x), c)
    ensures Mul(p, c).z == Dot(Quaternion(p.z, -p.y, p.x, p.w), c)
  {
  }

  lemma Expansion(p: Quaternion, c: Quaternion, i: Quaternion, j: Quaternion, k: Quaternion)
    requires i == Quaternion(-p.x, p.w, p.z, -p.y)
    requires j == Quaternion(-p.y, -p.z, p.w, p.x)
    requires k == Quaternion(-p.z, p.y, -p.x, p.w)
    ensures Mul(p, c) == Combination(c, p, i, j, k)
  {
    MulByRows(p, c);
    ExpandsAt(c, p.w, i.w, j.w, k.w);
    ExpandsAt(c, p.x, i.x, j.x, k.x);
    ExpandsAt(c, p.y, i.y, j.y, k.y);
    ExpandsAt(c, p.z, i.z, j.z, k.z);
  }

  lemma IAssociates(a: Quaternion, b: Quaternion)
    ensures Mul(Mul(a, b), I) == Mul(a, Mul(b, I))
  {
    MulUnits(b);
    MulUnits(Mul(a, b));
    MulByColumns(a, b);
    MulByColumns(a, Mul(b, I));
  }

  lemma JAssociates(a: Quaternion, b: Quaternion)
    ensures Mul(Mul(a, b), J) == Mul(a, Mul(b, J))
  {
    MulUnits(b);
    MulUnits(Mul(a, b));
    MulByColumns(a, b);
    MulByColumns(a, Mul(b, J));
  }

  lemma KAssociates(a: Quaternion, b: Quaternion)
    ensures Mul(Mul(a, b), K) == Mul(a, Mul(b, K))
  {
    MulUnits(b);
    MulUnits(Mul(a, b));
    MulByColumns(a, b);
    MulByColumns(a, Mul(b, K));
  }

  /** Both sides are linear in c, and they agree on the three units. */
  lemma MulAssociative(a: Quaternion, b: Quaternion, c: Quaternion)
    ensures Mul(Mul(a, b), c) == Mul(a, Mul(b, c))
  {
    var p, q, r := Mul(b, I), Mul(b, J), Mul(b, K);
    MulExpands(Mul(a, b), c);
    MulExpands(b, c);
    IAssociates(a, b);
    JAssociates(a, b);
    KAssociates(a, b);
    MulAdds(a, Add(Scale(c.w, b), Scale(c.x, p)), Add(Scale(c.y, q), Scale(c.z, r)));
    MulAdds(a, Scale(c.w, b), Scale(c.x, p));
    MulAdds(a, Scale(c.y, q), Scale(c.z, r));
    MulScales(a, c.w, b);
    MulScales(a, c.x, p);
    MulScales(a, c.y, q);
    MulScales(a, c.z, r);
  }

  lemma ConjugateW(a: Quaternion, b: Quaternion)
    ensures Dot(a, Column(b, 0)) == Dot(Conjugate(b), Column(Conjugate(a), 0))
  {
  }

  lemma ConjugateX(a: Quaternion, b: Quaternion)
    ensures -Dot(a, Column(b, 1)) == Dot(Conjugate(b), Column(Conjugate(a), 1))
  {
  }

  lemma ConjugateY(a: Quaternion, b: Quaternion)
    ensures -Dot(a, Column(b, 2)) == Dot(Conjugate(b), Column(Conjugate(a), 2))
  {
  }

  lemma ConjugateZ(a: Quaternion, b: Quaternion)
    ensures -Dot(a, Column(b, 3)) == Dot(Conjugate(b), Column(Conjugate(a), 3))
  {
  }

  lemma ConjugateOfProduct(a: Quaternion, b: Quaternion)
    ensures Conjugate(Mul(a, b)) == Mul(Conjugate(b), Conjugate(a))
  {
    MulByColumns(a, b);
    MulByColumns(Conjugate(b), Conjugate(a));
    ConjugateW(a, b);
    ConjugateX(a, b);
    ConjugateY(a, b);
    ConjugateZ(a, b);
  }

  lemma SandwichW(q: Quaternion, v: Vector3)
    ensures Mul(Mul(q, Pure(v)), Conjugate(q)).w == 0.0
  {
  }

  lemma SandwichX(q: Quaternion, v: Vector3)
    ensures Mul(Mul(q, Pure(v)), Conjugate(q)).x == RotateVector(q, v).x
  {
  }

  lemma SandwichY(q: Quaternion, v: Vector3)
    ensures Mul(Mul(q, Pure(v)), Conjugate(q)).y == RotateVector(q, v).y
  {
  }

  lemma SandwichZ(q: Quaternion, v: Vector3)
    ensures Mul(Mul(q, Pure(v)), Conjugate(q)).z == RotateVector(q, v).z
  {
  }

  /** The expanded code computes the sandwich q v q*. */
  lemma RotationIsSandwich(q: Quaternion, v: Vector3)
    ensures Pure(RotateVector(q, v)) == Mul(Mul(q, Pure(v)), Conjugate(q))
  {
    SandwichW(q, v);
    SandwichX(q, v);
    SandwichY(q, v);
    SandwichZ(q, v);
  }

  lemma Regroup(a: Quaternion, b: Quaternion, x: Quaternion, c: Quaternion, d: Quaternion)
    ensures Mul(Mul(Mul(a, b), x), Mul(c, d)) == Mul(Mul(a, Mul(Mul(b, x), c)), d)
  {
    MulAssociative(a, b, x);
    MulAssociative(Mul(a, Mul(b, x)), c, d);
    MulAssociative(a, Mul(b, x), c);
  }

  /** Rotating by a product is rotating by the right factor, then by the left one. */
  lemma RotationComposes(a: Quaternion, b: Quaternion, v: Vector3)
    ensures RotateVector(Mul(a, b), v) == RotateVector(a, RotateVector(b, v))
  {
    var u, x := RotateVector(b, v), Pure(v);
    RotationIsSandwich(Mul(a, b), v);
    RotationIsSandwich(b, v);
    RotationIsSandwich(a, u);
    ConjugateOfProduct(a, b);
    Regroup(a, b, x, Conjugate(b), Conjugate(a));
    assert Pure(RotateVector(Mul(a, b), v)) == Pure(RotateVector(a, u));
  }

  function Real(n: real): Quaternion { Quaternion(n, 0.0, 0.0, 0.0) }

  lemma MulConjugate(q: Quaternion)
    ensures Mul(q, Conjugate(q)) == Real(NormSq(q))
  {
  }

  lemma RealScales(n: real, q: Quaternion)
    ensures Mul(Real(n), q) == Scale(n, q)
  {
  }

  /** a b b* a* regroups as a |b|^2 a*. */
  lemma NormMultiplicative(a: Quaternion, b: Quaternion)
    ensures NormSq(Mul(a, b)) == NormSq(a) * NormSq(b)
  {
    var c, d := Conjugate(b), Conjugate(a);
    ConjugateOfProduct(a, b);
    MulConjugate(Mul(a, b));
    MulConjugate(b);
    MulConjugate(a);
    MulAssociative(Mul(a, b), c, d);
    MulAssociative(a, b, c);
    MulAssociative(a, Real(NormSq(b)), d);
    RealScales(NormSq(b), d);
    MulScales(a, NormSq(b), d);
    assert Real(NormSq(Mul(a, b))) == Scale(NormSq(b), Real(NormSq(a)));
  }

  /** Squared lengths scale by the squared norm: unit quaternions keep lengths. */
  lemma RotationScalesLength(q: Quaternion, v: Vector3)
    ensures Inner(RotateVector(q, v), RotateVector(q, v)) == NormSq(q) * NormSq(q) * Inner(v, v)
  {
    RotationIsSandwich(q, v);
    NormMultiplicative(Mul(q, Pure(v)), Conjugate(q));
    NormMultiplicative(q, Pure(v));
    Sandwiched(NormSq(q), Inner(v, v));
  }

  lemma Sandwiched(n: real, l: real)
    ensures n * l * n == n * n * l
  {
  }

  function AddV(u: Vector3, v: Vector3): Vector3 { Vector3(u.x + v.x, u.y + v.y, u.z + v.z) }

  lemma RotationLinear(q: Quaternion, u: Vector3, v: Vector3)
    ensures RotateVector(q, AddV(u, v)) == AddV(RotateVector(q, u), RotateVector(q, v))
  {
    RotationIsSandwich(q, u);
    RotationIsSandwich(q, v);
    RotationIsSandwich(q, AddV(u, v));
    assert Pure(AddV(u, v)) == Add(Pure(u), Pure(v));
    MulAdds(q, Pure(u), Pure(v));
    AddsMul(Mul(q, Pure(u)), Mul(q, Pure(v)), Conjugate(q));
    assert Pure(RotateVector(q, AddV(u, v))) == Pure(AddV(RotateVector(q, u), RotateVector(q, v)));
  }

  lemma Polarization(u: Vector3, v: Vector3)
    ensures Inner(AddV(u, v), AddV(u, v)) == Inner(u, u) + 2.0 * Inner(u, v) + Inner(v, v)
  {
  }

  /** Angles are kept too. */
  lemma RotationScalesInner(q: Quaternion, u: Vector3, v: Vector3)
    ensures Inner(RotateVector(q, u), RotateVector(q, v)) == NormSq(q) * NormSq(q) * Inner(u, v)
  {
    RotationLinear(q, u, v);
    RotationScalesLength(q, u);
    RotationScalesLength(q, v);
    RotationScalesLength(q, AddV(u, v));
    Polarization(u, v);
    Polarization(RotateVector(q, u), RotateVector(q, v));
    Halves(NormSq(q) * NormSq(q), Inner(u, u), Inner(u, v), Inner(v, v),
           Inner(RotateVector(q, u), RotateVector(q, v)));
  }

  lemma Halves(m: real, a: real, b: real, c: real, x: real)
    requires m * a + 2.0 * x + m * c == m * (a + 2.0 * b + c)
    ensures x == m * b
  {
    assert m * (a + 2.0 * b + c) == m * a + 2.0 * (m * b) + m * c;
  }

  // ---------- the rotation matrix ----------

  function Apply(m: Matrices.Matrix, v: Vector3): Vector3
    requires m.rows == 3 && m.cols == 3
  {
    Vector3(Matrices.At(m, 0, 0) * v.x + Matrices.At(m, 0, 1) * v.y + Matrices.At(m, 0, 2) * v.z,
            Matrices.At(m, 1, 0) * v.x + Matrices.At(m, 1, 1) * v.y + Matrices.At(m, 1, 2) * v.z,
            Matrices.At(m, 2, 0) * v.x + Matrices.At(m, 2, 1) * v.y + Matrices.At(m, 2, 2) * v.z)
  }

  function ScaleV(s: real, v: Vector3): Vector3 { Vector3(s * v.x, s * v.y, s * v.z) }

  lemma Doubled(x: real, y: real)
    ensures x * (y + y) == y * (x + x) == 2.0 * (x * y)
  {
  }

  /** One axis: the expanded rotation against a row of the matrix; the other axes follow by turning x, y and z. */
  lemma AxisAgainstRow(w: real, x: real, y: real, z: real, a: real, b: real, c: real)
    ensures (w * a + y * c - z * b) * w + (-x * a - y * b - z * c) * -x
            + (w * b + z * a - x * c) * -z - (w * c + x * b - y * a) * -y
            == (1.0 - (y * (y + y) + z * (z + z))) * a + (x * (y + y) - w * (z + z)) * b
               + (x * (z + z) + w * (y + y)) * c + (w * w + x * x + y * y + z * z - 1.0) * a
  {
  }

  lemma MatrixAgainstX(q: Quaternion, v: Vector3)
    ensures RotateVector(q, v).x == Apply(ToRotationMatrix(q), v).x + (NormSq(q) - 1.0) * v.x
  {
    AxisAgainstRow(q.w, q.x, q.y, q.z, v.x, v.y, v.z);
  }

  lemma MatrixAgainstY(q: Quaternion, v: Vector3)
    ensures RotateVector(q, v).y == Apply(ToRotationMatrix(q), v).y + (NormSq(q) - 1.0) * v.y
  {
    AxisAgainstRow(q.w, q.y, q.z, q.x, v.y, v.z, v.x);
    Doubled(q.x, q.y);
  }

  lemma MatrixAgainstZ(q: Quaternion, v: Vector3)
    ensures RotateVector(q, v).z == Apply(ToRotationMatrix(q), v).z + (NormSq(q) - 1.0) * v.z
  {
    AxisAgainstRow(q.w, q.z, q.x, q.y, v.z, v.x, v.y);
    Doubled(q.x, q.z);
    Doubled(q.y, q.z);
  }

  /** How far the two agree, for every quaternion: the difference is (|q|^2 - 1) v. */
  lemma MatrixAgainstRotation(q: Quaternion, v: Vector3)
    ensures RotateVector(q, v) == AddV(Apply(ToRotationMatrix(q), v), ScaleV(NormSq(q) - 1.0, v))
  {
    MatrixAgainstX(q, v);
    MatrixAgainstY(q, v);
    MatrixAgainstZ(q, v);
  }

  /** The matrix rotates as `rotate_vector` does exactly when the quaternion is a unit or the vector is zero. */
  lemma MatrixAgreesExactly(q: Quaternion, v: Vector3)
    ensures Apply(ToRotationMatrix(q), v) == RotateVector(q, v)
            <==> NormSq(q) == 1.0 || v == Vector3(0.0, 0.0, 0.0)
  {
    MatrixAgainstRotation(q, v);
    var d := NormSq(q) - 1.0;
    if d != 0.0 {
      NoZeroDivisor(d, v.x);
      NoZeroDivisor(d, v.y);
      NoZeroDivisor(d, v.z);
    }
  }

  lemma NoZeroDivisor(d: real, x: real)
    requires d != 0.0
    ensures d * x == 0.0 ==> x == 0.0
  {
    if d * x == 0.0 {
      assert x == d * x / d;
    }
  }

  const X_AXIS: Vector3 := Vector3(1.0, 0.0, 0.0)
  const Y_AXIS: Vector3 := Vector3(0.0, 1.0, 0.0)
  const Z_AXIS: Vector3 := Vector3(0.0, 0.0, 1.0)

  function ColumnOf(m: Matrices.Matrix, j: nat): Vector3 {
    Vector3(Matrices.At(m, 0, j), Matrices.At(m, 1, j), Matrices.At(m, 2, j))
  }

  lemma ColumnsAreRotatedAxes(q: Quaternion)
    requires NormSq(q) == 1.0
    ensures ColumnOf(ToRotationMatrix(q), 0) == RotateVector(q, X_AXIS)
    ensures ColumnOf(ToRotationMatrix(q), 1) == RotateVector(q, Y_AXIS)
    ensures ColumnOf(ToRotationMatrix(q), 2) == RotateVector(q, Z_AXIS)
  {
    MatrixAgainstRotation(q, X_AXIS);
    MatrixAgainstRotation(q, Y_AXIS);
    MatrixAgainstRotation(q, Z_AXIS);
  }

  lemma UnitKeepsInner(q: Quaternion, u: Vector3, v: Vector3)
    requires NormSq(q) == 1.0
    ensures Inner(RotateVector(q, u), RotateVector(q, v)) == Inner(u, v)
  {
    RotationScalesInner(q, u, v);
    assert NormSq(q) * NormSq(q) == 1.0;
    TimesOne(NormSq(q) * NormSq(q), Inner(u, v));
  }

  lemma TimesOne(m: real, x: real)
    requires m == 1.0
    ensures m * x == x
  {
  }

  /** The inner product of a rotated axis with a rotated vector is that vector's component. */
  lemma RotatedAxis(q: Quaternion, axis: Vector3, v: Vector3)
    requires NormSq(q) == 1.0
    ensures axis == X_AXIS ==> Inner(RotateVector(q, axis), RotateVector(q, v)) == v.x
    ensures axis == Y_AXIS ==> Inner(RotateVector(q, axis), RotateVector(q, v)) == v.y
    ensures axis == Z_AXIS ==> Inner(RotateVector(q, axis), RotateVector(q, v)) == v.z
  {
    UnitKeepsInner(q, axis, v);
  }

  lemma GramEntry(m: Matrices.Matrix, i: nat, j: nat)
    requires m.rows == 3 && m.cols == 3 && i < 3 && j < 3
    ensures Matrices.At(Matrices.Mul(Matrices.T(m), m), i, j) == Inner(ColumnOf(m, i), ColumnOf(m, j))
  {
    var f := (k: int) => Matrices.At(Matrices.T(m), i, k) * Matrices.At(m, k, j);
    assert Sums.Sum(3, f) == Sums.Sum(2, f) + f(2);
    assert Sums.Sum(2, f) == Sums.Sum(1, f) + f(1);
    assert Sums.Sum(1, f) == Sums.Sum(0, f) + f(0);
  }

  lemma OrthonormalColumns(m: Matrices.Matrix)
    requires m.rows == 3 && m.cols == 3
    requires forall i, j :: 0 <= i < 3 && 0 <= j < 3 ==>
      Inner(ColumnOf(m, i), ColumnOf(m, j)) == if i == j then 1.0 else 0.0
    ensures Matrices.Mul(Matrices.T(m), m) == Matrices.Identity(3)
  {
    forall i, j | 0 <= i < 3 && 0 <= j < 3
      ensures Matrices.At(Matrices.Mul(Matrices.T(m), m), i, j) == if i == j then 1.0 else 0.0
    {
      GramEntry(m, i, j);
    }
    Matrices.SameEntries(Matrices.Mul(Matrices.T(m), m), Matrices.Identity(3));
  }

  function Axis(j: nat): Vector3 { if j == 0 then X_AXIS else if j == 1 then Y_AXIS else Z_AXIS }

  /** On unit quaternions the matrix is orthogonal. */
  lemma UnitMatrixOrthogonal(q: Quaternion)
    requires NormSq(q) == 1.0
    ensures Matrices.Mul(Matrices.T(ToRotationMatrix(q)), ToRotationMatrix(q)) == Matrices.Identity(3)
  {
    var m := ToRotationMatrix(q);
    ColumnsAreRotatedAxes(q);
    forall i, j | 0 <= i < 3 && 0 <= j < 3
      ensures Inner(ColumnOf(m, i), ColumnOf(m, j)) == if i == j then 1.0 else 0.0
    {
      RotatedAxis(q, Axis(i), Axis(j));
    }
    OrthonormalColumns(m);
  }

  /** So on unit quaternions the transpose undoes the rotation, of any number of columns at once. */
  lemma TransposeUndoesRotation(q: Quaternion, x: Matrices.Matrix)
    requires NormSq(q) == 1.0 && x.rows == 3
    ensures Matrices.Mul(Matrices.T(ToRotationMatrix(q)), Matrices.Mul(ToRotationMatrix(q), x)) == x
  {
    var m := ToRotationMatrix(q);
    Matrices.MulAssociative(Matrices.T(m), m, x);
    UnitMatrixOrthogonal(q);
    Matrices.MulIdentity(x);
  }

  // ---------- the simulator's attitude conversion ----------

  /** `enu_quat_to_ned`, with `s` for the source's 1/sqrt(2). */
  function EnuQuatToNed(s: real, q: Quaternion): Quaternion {
    Quaternion(s * (q.w + q.z), s * (q.x + q.y), s * (q.x - q.y), s * (q.w - q.z))
  }

  function Negated(q: Quaternion): Quaternion { Quaternion(-q.w, -q.x, -q.y, -q.z) }

  /** The documented rotors: ENU to NED, and FRD to FLU. */
  function EnuToNedRotor(s: real): Quaternion { Quaternion(0.0, s, s, 0.0) }

  const FRD_TO_FLU_ROTOR: Quaternion := Quaternion(0.0, 1.0, 0.0, 0.0)

  /** The code is minus the documented two-sided product, for every s. */
  lemma ConversionIsNegatedProduct(s: real, q: Quaternion)
    ensures EnuQuatToNed(s, q) == Negated(Mul(Mul(EnuToNedRotor(s), q), FRD_TO_FLU_ROTOR))
  {
    var l, r := EnuQuatToNed(s, q), Negated(Mul(Mul(EnuToNedRotor(s), q), FRD_TO_FLU_ROTOR));
    assert l.w == r.w;
    assert l.x == r.x;
    assert l.y == r.y;
    assert l.z == r.z;
  }

  lemma NegationRotatesAlike(q: Quaternion, v: Vector3)
    ensures RotateVector(Negated(q), v) == RotateVector(q, v)
  {
    var n := Negated(q);
    assert n == Scale(-1.0, q) && Conjugate(n) == Scale(-1.0, Conjugate(q));
    MulScales(q, -1.0, Pure(v));
    MulScales(Mul(q, Pure(v)), -1.0, Conjugate(q));
    MulScales(Mul(q, Pure(v)), -1.0, Conjugate(n));
    RotationIsSandwich(q, v);
    RotationIsSandwich(n, v);
  }

  /** World axes, ENU to NED. */
  function EnuToNed(v: Vector3): Vector3 { Vector3(v.y, v.x, -v.z) }

  /** Body axes, FRD to FLU. */
  function FrdToFlu(v: Vector3): Vector3 { Vector3(v.x, -v.y, -v.z) }

  lemma RotorsAreTheAxisSwaps(s: real, v: Vector3)
    ensures RotateVector(FRD_TO_FLU_ROTOR, v) == FrdToFlu(v)
    ensures RotateVector(EnuToNedRotor(s), v) == ScaleV(2.0 * s * s, EnuToNed(v))
  {
  }

  /** What the conversion is for: rotating an FRD body vector by the converted attitude is taking it to FLU,
      rotating it by the simulator's attitude, and reading the result in NED; scaled by 2 s^2, which is 1
      for s = 1/sqrt(2). */
  lemma ConversionCommutes(s: real, q: Quaternion, v: Vector3)
    ensures RotateVector(EnuQuatToNed(s, q), v)
            == ScaleV(2.0 * s * s, EnuToNed(RotateVector(q, FrdToFlu(v))))
    ensures NormSq(EnuQuatToNed(s, q)) == 2.0 * s * s * NormSq(q)
  {
    var a, b := EnuToNedRotor(s), FRD_TO_FLU_ROTOR;
    ConversionIsNegatedProduct(s, q);
    NegationRotatesAlike(Mul(Mul(a, q), b), v);
    RotationComposes(Mul(a, q), b, v);
    RotationComposes(a, q, RotateVector(b, v));
    RotorsAreTheAxisSwaps(s, v);
    RotorsAreTheAxisSwaps(s, RotateVector(q, FrdToFlu(v)));
    ConvertedNorm(s, q);
  }

  lemma ConvertedNorm(s: real, q: Quaternion)
    ensures NormSq(EnuQuatToNed(s, q)) == 2.0 * s * s * NormSq(q)
  {
  }
}
