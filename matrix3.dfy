/** Real 3-vectors and 3x3 real matrices, with hand-written products and
    transposes, standing in for the numpy arrays of the statistics module.
    A matrix is stored by rows. */
module Matrix3 {

  datatype Vec3 = Vec3(x: real, y: real, z: real)

  /** Rows r0, r1, r2 of a 3x3 matrix. */
  datatype Mat3 = Mat3(r0: Vec3, r1: Vec3, r2: Vec3)

  type Index = i: int | 0 <= i < 3

  function Comp(v: Vec3, i: Index): real {
    if i == 0 then v.x else if i == 1 then v.y else v.z
  }

  function Row(m: Mat3, i: Index): Vec3 {
    if i == 0 then m.r0 else if i == 1 then m.r1 else m.r2
  }

  function Col(m: Mat3, j: Index): Vec3 {
    Vec3(Comp(m.r0, j), Comp(m.r1, j), Comp(m.r2, j))
  }

  /** The entry in row i, column j. */
  function At(m: Mat3, i: Index, j: Index): real {
    Comp(Row(m, i), j)
  }

  function Dot(u: Vec3, v: Vec3): real {
    u.x * v.x + u.y * v.y + u.z * v.z
  }

  function Transpose(m: Mat3): Mat3 {
    Mat3(Col(m, 0), Col(m, 1), Col(m, 2))
  }

  /** The matrix product a * b: entry (i, j) is row i of a dotted with column j of b. */
  function Mul(a: Mat3, b: Mat3): Mat3 {
    Mat3(Vec3(Dot(a.r0, Col(b, 0)), Dot(a.r0, Col(b, 1)), Dot(a.r0, Col(b, 2))),
         Vec3(Dot(a.r1, Col(b, 0)), Dot(a.r1, Col(b, 1)), Dot(a.r1, Col(b, 2))),
         Vec3(Dot(a.r2, Col(b, 0)), Dot(a.r2, Col(b, 1)), Dot(a.r2, Col(b, 2))))
  }

  /** The matrix-vector product m * v. */
  function Apply(m: Mat3, v: Vec3): Vec3 {
    Vec3(Dot(m.r0, v), Dot(m.r1, v), Dot(m.r2, v))
  }

  function Diagonal(d0: real, d1: real, d2: real): Mat3 {
    Mat3(Vec3(d0, 0.0, 0.0), Vec3(0.0, d1, 0.0), Vec3(0.0, 0.0, d2))
  }

  const Identity: Mat3 := Diagonal(1.0, 1.0, 1.0)

  function Cross(u: Vec3, v: Vec3): Vec3 {
    Vec3(u.y * v.z - u.z * v.y, u.z * v.x - u.x * v.z, u.x * v.y - u.y * v.x)
  }

  /** The determinant, as the scalar triple product of the rows. */
  function Determinant(m: Mat3): real {
    Dot(m.r0, Cross(m.r1, m.r2))
  }

  predicate IsSymmetric(m: Mat3) {
    Transpose(m) == m
  }

  /** The quadratic form v' * m * v. */
  function Quadratic(m: Mat3, v: Vec3): real {
    Dot(v, Apply(m, v))
  }

  /** Every quadratic form of m is non-negative, as for a variance-covariance matrix. */
  ghost predicate IsPositiveSemidefinite(m: Mat3) {
    forall v: Vec3 :: Quadratic(m, v) >= 0.0
  }

  /** The congruence m' * v * m, which carries a VCV from one frame to another. */
  function Congruence(m: Mat3, v: Mat3): Mat3 {
    Mul(Mul(Transpose(m), v), m)
  }

  lemma TransposeInvolutive(m: Mat3)
    ensures Transpose(Transpose(m)) == m
  {}

  lemma TransposeOfProduct(a: Mat3, b: Mat3)
    ensures Transpose(Mul(a, b)) == Mul(Transpose(b), Transpose(a))
  {}

  lemma MulIdentity(m: Mat3)
    ensures Mul(Identity, m) == m && Mul(m, Identity) == m
  {}

  /** One entry of the associativity law: (u' * b) * w == u' * (b * w). */
  lemma DotRegrouped(u: Vec3, b: Mat3, w: Vec3)
    ensures Dot(Vec3(Dot(u, Col(b, 0)), Dot(u, Col(b, 1)), Dot(u, Col(b, 2))), w)
         == Dot(u, Apply(b, w))
  {}

  lemma MulAssociative(a: Mat3, b: Mat3, c: Mat3)
    ensures Mul(Mul(a, b), c) == Mul(a, Mul(b, c))
  {
    DotRegrouped(a.r0, b, Col(c, 0)); DotRegrouped(a.r0, b, Col(c, 1)); DotRegrouped(a.r0, b, Col(c, 2));
    DotRegrouped(a.r1, b, Col(c, 0)); DotRegrouped(a.r1, b, Col(c, 1)); DotRegrouped(a.r1, b, Col(c, 2));
    DotRegrouped(a.r2, b, Col(c, 0)); DotRegrouped(a.r2, b, Col(c, 1)); DotRegrouped(a.r2, b, Col(c, 2));
  }

  lemma ApplyProduct(a: Mat3, b: Mat3, v: Vec3)
    ensures Apply(Mul(a, b), v) == Apply(a, Apply(b, v))
  {}

  lemma DotTranspose(m: Mat3, u: Vec3, v: Vec3)
    ensures Dot(u, Apply(Transpose(m), v)) == Dot(Apply(m, u), v)
  {}

  /** The quadratic form of a congruence is the form of v at the mapped vector. */
  lemma QuadraticOfCongruence(m: Mat3, v: Mat3, u: Vec3)
    ensures Quadratic(Congruence(m, v), u) == Quadratic(v, Apply(m, u))
  {
    ApplyProduct(Mul(Transpose(m), v), m, u);
    ApplyProduct(Transpose(m), v, Apply(m, u));
    DotTranspose(m, u, Apply(v, Apply(m, u)));
  }

  /** A congruence of a symmetric matrix, by any matrix, is symmetric. */
  lemma CongruenceSymmetric(m: Mat3, v: Mat3)
    requires IsSymmetric(v)
    ensures IsSymmetric(Congruence(m, v))
  {
    TransposeOfProduct(Mul(Transpose(m), v), m);
    TransposeOfProduct(Transpose(m), v);
    TransposeInvolutive(m);
    MulAssociative(Transpose(m), v, m);
  }

  /** A congruence of a positive semidefinite matrix, by any matrix, is positive semidefinite. */
  lemma CongruencePositiveSemidefinite(m: Mat3, v: Mat3)
    requires IsPositiveSemidefinite(v)
    ensures IsPositiveSemidefinite(Congruence(m, v))
  {
    forall u: Vec3 ensures Quadratic(Congruence(m, v), u) >= 0.0 {
      QuadraticOfCongruence(m, v, u);
    }
  }

  /** The diagonal of a positive semidefinite matrix (the variances) is non-negative. */
  lemma PositiveSemidefiniteDiagonal(m: Mat3, i: Index)
    requires IsPositiveSemidefinite(m)
    ensures At(m, i, i) >= 0.0
  {
    var e := Vec3(if i == 0 then 1.0 else 0.0, if i == 1 then 1.0 else 0.0, if i == 2 then 1.0 else 0.0);
    assert Quadratic(m, e) >= 0.0;
  }

  /** A diagonal matrix of non-negative variances is positive semidefinite. */
  lemma DiagonalPositiveSemidefinite(d0: real, d1: real, d2: real)
    requires d0 >= 0.0 && d1 >= 0.0 && d2 >= 0.0
    ensures IsPositiveSemidefinite(Diagonal(d0, d1, d2))
  {
    forall u: Vec3 ensures Quadratic(Diagonal(d0, d1, d2), u) >= 0.0 {
      assert Quadratic(Diagonal(d0, d1, d2), u) == d0 * (u.x * u.x) + d1 * (u.y * u.y) + d2 * (u.z * u.z);
    }
  }
}
