/** Uncertainty statistics for geodetic survey networks: the rotation between
    the Cartesian (geocentric) frame and the local east/north/up frame, the
    transformation of variance-covariance matrices (VCVs) between the two,
    the circularised horizontal positional uncertainty of an error ellipse,
    and the 95% coverage factor of Student's t distribution.

    Numbers are exact reals. The sines and cosines of latitude and longitude
    are supplied by the caller, because the model has no trigonometry. */
module Statistics {
  import opened Matrix3

  /** Why a call ends without a result. */
  datatype Error =
    | InvalidShape    // the VCV is neither 3x1 nor 3x3
    | DivisionByZero  // circ_hz_pu with a semi-major axis of 0
    | NotAnInteger    // k_val95 with a degrees-of-freedom value that is not an int

  datatype Result<T> = Ok(value: T) | Err(error: Error)

  // ---------------------------------------------------------------------------
  // rotation_matrix

  /** The sine and cosine of one angle. */
  datatype SinCos = SinCos(sin: real, cos: real)

  /** The pair comes from a real angle: sin^2 + cos^2 = 1. */
  predicate OnUnitCircle(t: SinCos) {
    t.sin * t.sin + t.cos * t.cos == 1.0
  }

  /** The matrix whose columns are the local east, north and up directions at
      (lat, lon), written in Cartesian coordinates. */
  function RotationMatrix(lat: SinCos, lon: SinCos): Mat3 {
    Mat3(Vec3(-lon.sin, -lat.sin * lon.cos, lat.cos * lon.cos),
         Vec3(lon.cos, -lat.sin * lon.sin, lat.cos * lon.sin),
         Vec3(0.0, lat.cos, lat.sin))
  }

  /** The rotation matrix is orthonormal: its transpose is its inverse on both sides. */
  lemma RotationOrthonormal(lat: SinCos, lon: SinCos)
    requires OnUnitCircle(lat) && OnUnitCircle(lon)
    ensures Mul(Transpose(RotationMatrix(lat, lon)), RotationMatrix(lat, lon)) == Identity
    ensures Mul(RotationMatrix(lat, lon), Transpose(RotationMatrix(lat, lon))) == Identity
  {
    var (sp, cp, sl, cl) := (lat.sin, lat.cos, lon.sin, lon.cos);
    var rot := RotationMatrix(lat, lon);
    var (e, n, u) := (Col(rot, 0), Col(rot, 1), Col(rot, 2));
    assert cp * cp == 1.0 - sp * sp && cl * cl == 1.0 - sl * sl;
    // The columns (east, north, up) are orthonormal.
    assert Dot(e, e) == sl * sl + cl * cl == 1.0;
    assert Dot(e, n) == sl * sp * cl - cl * sp * sl == 0.0;
    assert Dot(e, u) == cl * cp * sl - sl * cp * cl == 0.0;
    assert Dot(n, n) == sp * sp * (cl * cl + sl * sl) + cp * cp == 1.0;
    assert Dot(n, u) == cp * sp - sp * cp * (cl * cl + sl * sl) == 0.0;
    assert Dot(u, u) == cp * cp * (cl * cl + sl * sl) + sp * sp == 1.0;
    assert Mul(Transpose(rot), rot) == Mat3(Vec3(Dot(e, e), Dot(e, n), Dot(e, u)),
                                             Vec3(Dot(n, e), Dot(n, n), Dot(n, u)),
                                             Vec3(Dot(u, e), Dot(u, n), Dot(u, u)));
    // So are the rows.
    var (r0, r1, r2) := (rot.r0, rot.r1, rot.r2);
    assert Dot(r0, r0) == sl * sl + cl * cl * (sp * sp + cp * cp) == 1.0;
    assert Dot(r0, r1) == sl * cl * (sp * sp + cp * cp) - sl * cl == 0.0;
    assert Dot(r0, r2) == cp * cl * sp - sp * cl * cp == 0.0;
    assert Dot(r1, r1) == cl * cl + sl * sl * (sp * sp + cp * cp) == 1.0;
    assert Dot(r1, r2) == cp * sl * sp - sp * sl * cp == 0.0;
    assert Dot(r2, r2) == cp * cp + sp * sp == 1.0;
    assert Mul(rot, Transpose(rot)) == Mat3(Vec3(Dot(r0, r0), Dot(r0, r1), Dot(r0, r2)),
                                             Vec3(Dot(r1, r0), Dot(r1, r1), Dot(r1, r2)),
                                             Vec3(Dot(r2, r0), Dot(r2, r1), Dot(r2, r2)));
  }

  /** The rotation matrix is a proper rotation: its determinant is 1. */
  lemma RotationDeterminant(lat: SinCos, lon: SinCos)
    requires OnUnitCircle(lat) && OnUnitCircle(lon)
    ensures Determinant(RotationMatrix(lat, lon)) == 1.0
  {
    var (sp, cp, sl, cl) := (lat.sin, lat.cos, lon.sin, lon.cos);
    // Expanded along the bottom row (0, cos lat, sin lat).
    assert Determinant(RotationMatrix(lat, lon)) == cp * cp * (sl * sl + cl * cl) + sp * sp * (sl * sl + cl * cl);
  }

  // ---------------------------------------------------------------------------
  // The VCV argument: a two-dimensional numpy array

  /** A two-dimensional array: its shape (rows, cols) and its rows of entries. */
  datatype NdArray = NdArray(rows: nat, cols: nat, cells: seq<seq<real>>)

  predicate Rectangular(a: NdArray) {
    |a.cells| == a.rows && forall i :: 0 <= i < |a.cells| ==> |a.cells[i]| == a.cols
  }

  /** Arrays are always rectangular. */
  type Array2 = a: NdArray | Rectangular(a) witness NdArray(0, 0, [])

  /** The 3x3 array holding m. */
  function FromMat3(m: Mat3): (a: Array2)
    ensures a.rows == 3 && a.cols == 3
    ensures forall i: Index, j: Index :: a.cells[i][j] == At(m, i, j)
  {
    NdArray(3, 3, [[m.r0.x, m.r0.y, m.r0.z], [m.r1.x, m.r1.y, m.r1.z], [m.r2.x, m.r2.y, m.r2.z]])
  }

  /** The 3x1 array holding a column of variances. */
  function Column(v0: real, v1: real, v2: real): (a: Array2)
    ensures a.rows == 3 && a.cols == 1
  {
    NdArray(3, 1, [[v0], [v1], [v2]])
  }

  /** The shapes the conversions accept: 3x1 or 3x3. */
  predicate AcceptedShape(a: Array2) {
    a.rows == 3 && (a.cols == 1 || a.cols == 3)
  }

  /** The full 3x3 VCV an argument stands for: a 3x3 array as it is, a 3x1
      column of variances as the diagonal matrix with zero covariances. */
  function FullVcv(vcv: Array2): (r: Result<Mat3>)
    ensures r.Err? <==> !AcceptedShape(vcv)
    ensures r.Err? ==> r.error == InvalidShape
    ensures r.Ok? && vcv.cols == 1 ==>
      forall i: Index, j: Index :: At(r.value, i, j) == if i == j then vcv.cells[i][0] else 0.0
    ensures r.Ok? && vcv.cols == 3 ==>
      forall i: Index, j: Index :: At(r.value, i, j) == vcv.cells[i][j]
  {
    if vcv.rows == 3 && vcv.cols == 1 then
      Ok(Diagonal(vcv.cells[0][0], vcv.cells[1][0], vcv.cells[2][0]))
    else if vcv.rows == 3 && vcv.cols == 3 then
      var c := vcv.cells;
      Ok(Mat3(Vec3(c[0][0], c[0][1], c[0][2]), Vec3(c[1][0], c[1][1], c[1][2]), Vec3(c[2][0], c[2][1], c[2][2])))
    else
      Err(InvalidShape)
  }

  // ---------------------------------------------------------------------------
  // vcv_cart2local and vcv_local2cart

  /** R' * V * R: a Cartesian VCV seen in the local frame. */
  function VcvCart2Local(vcvCart: Array2, lat: SinCos, lon: SinCos): (r: Result<Mat3>)
    ensures r.Err? <==> !AcceptedShape(vcvCart)
    ensures r.Err? ==> r.error == InvalidShape
    ensures r.Ok? && IsSymmetric(FullVcv(vcvCart).value) ==> IsSymmetric(r.value)
  {
    match FullVcv(vcvCart)
    case Err(e) => Err(e)
    case Ok(v) =>
      var rot := RotationMatrix(lat, lon);
      CongruenceSymmetricIf(rot, v);
      Ok(Mul(Mul(Transpose(rot), v), rot))
  }

  /** R * V * R': a local VCV seen in the Cartesian frame. */
  function VcvLocal2Cart(vcvLocal: Array2, lat: SinCos, lon: SinCos): (r: Result<Mat3>)
    ensures r.Err? <==> !AcceptedShape(vcvLocal)
    ensures r.Err? ==> r.error == InvalidShape
    ensures r.Ok? && IsSymmetric(FullVcv(vcvLocal).value) ==> IsSymmetric(r.value)
  {
    match FullVcv(vcvLocal)
    case Err(e) => Err(e)
    case Ok(v) =>
      var rot := RotationMatrix(lat, lon);
      TransposeInvolutive(rot);
      CongruenceSymmetricIf(Transpose(rot), v);
      Ok(Mul(Mul(rot, v), Transpose(rot)))
  }

  /** CongruenceSymmetric, in a form a function body can call unconditionally. */
  lemma CongruenceSymmetricIf(m: Mat3, v: Mat3)
    ensures IsSymmetric(v) ==> IsSymmetric(Congruence(m, v))
  {
    if IsSymmetric(v) {
      CongruenceSymmetric(m, v);
    }
  }

  /** Both conversions are Congruence: by R' one way and by R the other. */
  lemma ConversionsAreCongruences(vcv: Array2, lat: SinCos, lon: SinCos)
    requires AcceptedShape(vcv)
    ensures VcvCart2Local(vcv, lat, lon) == Ok(Congruence(RotationMatrix(lat, lon), FullVcv(vcv).value))
    ensures VcvLocal2Cart(vcv, lat, lon) == Ok(Congruence(Transpose(RotationMatrix(lat, lon)), FullVcv(vcv).value))
  {
    TransposeInvolutive(RotationMatrix(lat, lon));
  }

  /** A 3x1 column of variances is converted exactly as the diagonal 3x3
      matrix that holds them, and the result is that full 3x3 matrix. */
  lemma ColumnExpansion(v0: real, v1: real, v2: real, lat: SinCos, lon: SinCos)
    ensures VcvCart2Local(Column(v0, v1, v2), lat, lon) == VcvCart2Local(FromMat3(Diagonal(v0, v1, v2)), lat, lon)
    ensures VcvLocal2Cart(Column(v0, v1, v2), lat, lon) == VcvLocal2Cart(FromMat3(Diagonal(v0, v1, v2)), lat, lon)
    ensures VcvCart2Local(Column(v0, v1, v2), lat, lon).Ok?
    ensures VcvLocal2Cart(Column(v0, v1, v2), lat, lon).Ok?
  {}

  /** Any full 3x3 matrix passes through FullVcv unchanged. */
  lemma FullVcvOfMatrix(m: Mat3)
    ensures FullVcv(FromMat3(m)) == Ok(m)
  {}

  /** Cartesian -> local -> Cartesian gives the original VCV back. */
  lemma CartLocalCartRoundTrip(v: Mat3, lat: SinCos, lon: SinCos)
    requires OnUnitCircle(lat) && OnUnitCircle(lon)
    ensures VcvCart2Local(FromMat3(v), lat, lon).Ok?
    ensures VcvLocal2Cart(FromMat3(VcvCart2Local(FromMat3(v), lat, lon).value), lat, lon) == Ok(v)
  {
    var rot := RotationMatrix(lat, lon);
    var local := Mul(Mul(Transpose(rot), v), rot);
    FullVcvOfMatrix(v);
    FullVcvOfMatrix(local);
    RotationOrthonormal(lat, lon);
    calc {
      Mul(Mul(rot, local), Transpose(rot));
      { MulAssociative(rot, Mul(Transpose(rot), v), rot); }
      Mul(Mul(Mul(rot, Mul(Transpose(rot), v)), rot), Transpose(rot));
      { MulAssociative(rot, Transpose(rot), v); }
      Mul(Mul(Mul(Mul(rot, Transpose(rot)), v), rot), Transpose(rot));
      { MulIdentity(v); }
      Mul(Mul(v, rot), Transpose(rot));
      { MulAssociative(v, rot, Transpose(rot)); }
      Mul(v, Mul(rot, Transpose(rot)));
      { MulIdentity(v); }
      v;
    }
  }

  /** Local -> Cartesian -> local gives the original VCV back. */
  lemma LocalCartLocalRoundTrip(v: Mat3, lat: SinCos, lon: SinCos)
    requires OnUnitCircle(lat) && OnUnitCircle(lon)
    ensures VcvLocal2Cart(FromMat3(v), lat, lon).Ok?
    ensures VcvCart2Local(FromMat3(VcvLocal2Cart(FromMat3(v), lat, lon).value), lat, lon) == Ok(v)
  {
    var rot := RotationMatrix(lat, lon);
    var cart := Mul(Mul(rot, v), Transpose(rot));
    FullVcvOfMatrix(v);
    FullVcvOfMatrix(cart);
    RotationOrthonormal(lat, lon);
    calc {
      Mul(Mul(Transpose(rot), cart), rot);
      { MulAssociative(Transpose(rot), Mul(rot, v), Transpose(rot)); }
      Mul(Mul(Mul(Transpose(rot), Mul(rot, v)), Transpose(rot)), rot);
      { MulAssociative(Transpose(rot), rot, v); }
      Mul(Mul(Mul(Mul(Transpose(rot), rot), v), Transpose(rot)), rot);
      { MulIdentity(v); }
      Mul(Mul(v, Transpose(rot)), rot);
      { MulAssociative(v, Transpose(rot), rot); }
      Mul(v, Mul(Transpose(rot), rot));
      { MulIdentity(v); }
      v;
    }
  }

  /** A 3x1 column survives a round trip only as its diagonal 3x3 matrix:
      the expansion is never collapsed back to a column. */
  lemma ColumnRoundTrip(v0: real, v1: real, v2: real, lat: SinCos, lon: SinCos)
    requires OnUnitCircle(lat) && OnUnitCircle(lon)
    ensures VcvCart2Local(Column(v0, v1, v2), lat, lon).Ok?
    ensures VcvLocal2Cart(FromMat3(VcvCart2Local(Column(v0, v1, v2), lat, lon).value), lat, lon)
         == Ok(Diagonal(v0, v1, v2))
  {
    ColumnExpansion(v0, v1, v2, lat, lon);
    CartLocalCartRoundTrip(Diagonal(v0, v1, v2), lat, lon);
  }

  /** A valid VCV: symmetric, with every quadratic form (and so every variance) non-negative. */
  ghost predicate IsValidVcv(v: Mat3) {
    IsSymmetric(v) && IsPositiveSemidefinite(v)
  }

  /** Both conversions, at any latitude and longitude, turn a valid VCV into a
      valid VCV whose variances are non-negative. */
  lemma ConversionsKeepValidVcv(vcv: Array2, lat: SinCos, lon: SinCos)
    requires AcceptedShape(vcv) && IsValidVcv(FullVcv(vcv).value)
    ensures IsValidVcv(VcvCart2Local(vcv, lat, lon).value)
    ensures IsValidVcv(VcvLocal2Cart(vcv, lat, lon).value)
    ensures forall i: Index :: At(VcvCart2Local(vcv, lat, lon).value, i, i) >= 0.0
    ensures forall i: Index :: At(VcvLocal2Cart(vcv, lat, lon).value, i, i) >= 0.0
  {
    var rot, v := RotationMatrix(lat, lon), FullVcv(vcv).value;
    ConversionsAreCongruences(vcv, lat, lon);
    CongruencePositiveSemidefinite(rot, v);
    CongruencePositiveSemidefinite(Transpose(rot), v);
    forall i: Index ensures At(Congruence(rot, v), i, i) >= 0.0 && At(Congruence(Transpose(rot), v), i, i) >= 0.0 {
      PositiveSemidefiniteDiagonal(Congruence(rot, v), i);
      PositiveSemidefiniteDiagonal(Congruence(Transpose(rot), v), i);
    }
  }

  /** A column of non-negative variances converts to a valid VCV. */
  lemma ColumnGivesValidVcv(v0: real, v1: real, v2: real, lat: SinCos, lon: SinCos)
    requires v0 >= 0.0 && v1 >= 0.0 && v2 >= 0.0
    ensures IsValidVcv(VcvCart2Local(Column(v0, v1, v2), lat, lon).value)
    ensures IsValidVcv(VcvLocal2Cart(Column(v0, v1, v2), lat, lon).value)
  {
    DiagonalPositiveSemidefinite(v0, v1, v2);
    ConversionsKeepValidVcv(Column(v0, v1, v2), lat, lon);
  }

  // ---------------------------------------------------------------------------
  // circ_hz_pu

  const Q0: real := 1.960790
  const Q1: real := 0.004071
  const Q2: real := 0.114276
  const Q3: real := 0.371625

  /** Q0 + Q1 + Q2 + Q3: the factor for a circular ellipse. */
  const CircularFactor: real := 2.450762

  /** The empirical cubic in the axis ratio c = b / a. */
  function CircFactor(c: real): real {
    Q0 + Q1 * c + Q2 * (c * c) + Q3 * (c * c * c)
  }

  /** The circularised horizontal positional uncertainty of an ellipse with
      semi-major axis a and semi-minor axis b. */
  function CircHzPu(a: real, b: real): (r: Result<real>)
    ensures r.Err? <==> a == 0.0
    ensures r.Err? ==> r.error == DivisionByZero
  {
    if a == 0.0 then Err(DivisionByZero)
    else
      var c := b / a;
      Ok(a * CircFactor(c))
  }

  /** On [0, 1] the cubic rises strictly from Q0 to CircularFactor. */
  lemma CircFactorIncreasing(c1: real, c2: real)
    requires 0.0 <= c1 <= c2
    ensures CircFactor(c1) <= CircFactor(c2)
    ensures c1 < c2 ==> CircFactor(c1) < CircFactor(c2)
  {
    assert c1 * c1 <= c2 * c2 by {
      assert c2 * c2 - c1 * c1 == (c2 - c1) * (c2 + c1);
    }
    assert c1 * c1 * c1 <= c2 * c2 * c2 by {
      assert c2 * c2 * c2 - c1 * c1 * c1 == (c2 - c1) * (c2 * c2 + c2 * c1 + c1 * c1);
    }
  }

  /** For a > 0 and 0 <= b <= a the radius lies between Q0 * a and
      CircularFactor * a, and reaches the upper bound exactly when b == a. */
  lemma CircHzPuBounds(a: real, b: real)
    requires 0.0 < a && 0.0 <= b <= a
    ensures CircHzPu(a, b).Ok?
    ensures Q0 * a <= CircHzPu(a, b).value <= CircularFactor * a
    ensures CircHzPu(a, b).value == CircularFactor * a <==> b == a
  {
    var c := b / a;
    assert 0.0 <= c <= 1.0;
    assert c == 1.0 <==> b == a;
    CircFactorIncreasing(0.0, c);
    CircFactorIncreasing(c, 1.0);
    assert CircFactor(1.0) == CircularFactor;
  }

  /** The radius grows with the semi-minor axis. */
  lemma CircHzPuMonotone(a: real, b1: real, b2: real)
    requires 0.0 < a && 0.0 <= b1 <= b2
    ensures CircHzPu(a, b1).Ok? && CircHzPu(a, b2).Ok?
    ensures CircHzPu(a, b1).value <= CircHzPu(a, b2).value
    ensures b1 < b2 ==> CircHzPu(a, b1).value < CircHzPu(a, b2).value
  {
    RatioMonotone(a, b1, b2);
    CircFactorIncreasing(b1 / a, b2 / a);
    ScaleMonotone(a, CircFactor(b1 / a), CircFactor(b2 / a));
  }

  /** Dividing by a positive a keeps the order of b1 and b2. */
  lemma RatioMonotone(a: real, b1: real, b2: real)
    requires 0.0 < a && 0.0 <= b1 <= b2
    ensures 0.0 <= b1 / a <= b2 / a
    ensures b1 < b2 ==> b1 / a < b2 / a
  {
    assert b2 / a - b1 / a == (b2 - b1) / a;
  }

  /** Multiplying by a positive a keeps the order of x and y. */
  lemma ScaleMonotone(a: real, x: real, y: real)
    requires 0.0 < a && x <= y
    ensures a * x <= a * y
    ensures x < y ==> a * x < a * y
  {
    assert a * y - a * x == a * (y - x);
  }

  /** Scaling both axes by t scales the radius by t. */
  lemma CircHzPuScale(a: real, b: real, t: real)
    requires a != 0.0 && t != 0.0
    ensures CircHzPu(t * a, t * b).Ok? && CircHzPu(a, b).Ok?
    ensures CircHzPu(t * a, t * b).value == t * CircHzPu(a, b).value
  {
    assert (t * b) / (t * a) == b / a;
  }

  // ---------------------------------------------------------------------------
  // k_val95 and ttable_p95

  /** The degrees-of-freedom argument as Python receives it: an int, or a
      value of any other type (a float such as 2.0 among them). */
  datatype Dof = IntValue(n: int) | OtherValue

  /** ttable_p95, written as twenty rows of six entries. */
  const TTableP95Lines: seq<seq<real>> := [
    [12.7062, 4.30265, 3.18245, 2.77645, 2.57058, 2.44691],
    [2.36462, 2.30600, 2.26216, 2.22814, 2.20099, 2.17881],
    [2.16037, 2.14479, 2.13145, 2.11991, 2.10982, 2.10092],
    [2.09302, 2.08596, 2.07961, 2.07387, 2.06866, 2.06390],
    [2.05954, 2.05553, 2.05183, 2.04841, 2.04523, 2.04227],
    [2.03951, 2.03693, 2.03452, 2.03224, 2.03011, 2.02809],
    [2.02619, 2.02439, 2.02269, 2.02108, 2.01954, 2.01808],
    [2.01669, 2.01537, 2.01410, 2.01290, 2.01174, 2.01063],
    [2.00958, 2.00856, 2.00758, 2.00665, 2.00575, 2.00488],
    [2.00404, 2.00324, 2.00247, 2.00172, 2.00100, 2.00030],
    [1.99962, 1.99897, 1.99834, 1.99773, 1.99714, 1.99656],
    [1.99601, 1.99547, 1.99495, 1.99444, 1.99394, 1.99346],
    [1.99300, 1.99254, 1.99210, 1.99167, 1.99125, 1.99085],
    [1.99045, 1.99006, 1.98969, 1.98932, 1.98896, 1.98861],
    [1.98827, 1.98793, 1.98761, 1.98729, 1.98698, 1.98667],
    [1.98638, 1.98609, 1.98580, 1.98552, 1.98525, 1.98498],
    [1.98472, 1.98447, 1.98422, 1.98397, 1.98373, 1.98350],
    [1.98326, 1.98304, 1.98282, 1.98260, 1.98238, 1.98217],
    [1.98197, 1.98177, 1.98157, 1.98137, 1.98118, 1.98099],
    [1.98081, 1.98063, 1.98045, 1.98027, 1.98010, 1.97993]
  ]

  /** The 120 coverage factors for 1..120 degrees of freedom. */
  const TTableP95: seq<real> := Concat(TTableP95Lines, 0)

  /** Lines from..|lines|-1, one after the other. */
  function Concat(lines: seq<seq<real>>, from: nat): seq<real>
    decreases |lines| - from
  {
    if from >= |lines| then [] else lines[from] + Concat(lines, from + 1)
  }

  predicate StrictlyDecreasing(s: seq<real>) {
    forall i, j :: 0 <= i < j < |s| ==> s[i] > s[j]
  }

  predicate UniformWidth(lines: seq<seq<real>>, w: nat) {
    forall k :: 0 <= k < |lines| ==> |lines[k]| == w
  }

  /** Every line decreases, and each line ends above where the next begins. */
  predicate LinesDescend(lines: seq<seq<real>>) {
    && (forall k :: 0 <= k < |lines| ==> |lines[k]| > 0 && StrictlyDecreasing(lines[k]))
    && (forall k :: 0 <= k < |lines| - 1 ==> lines[k][|lines[k]| - 1] > lines[k + 1][0])
  }

  lemma {:induction false} ConcatLength(lines: seq<seq<real>>, w: nat, from: nat)
    requires UniformWidth(lines, w) && from <= |lines|
    ensures |Concat(lines, from)| == (|lines| - from) * w
    decreases |lines| - from
  {
    if from < |lines| {
      ConcatLength(lines, w, from + 1);
    }
  }

  /** Entry i of six-wide lines, concatenated from line `from`, is entry
      i % 6 of line from + i / 6. */
  lemma {:induction false} ConcatAt(lines: seq<seq<real>>, from: nat, i: nat)
    requires UniformWidth(lines, 6) && from <= |lines| && i < (|lines| - from) * 6
    ensures |Concat(lines, from)| == (|lines| - from) * 6
    ensures Concat(lines, from)[i] == lines[from + i / 6][i % 6]
    decreases |lines| - from
  {
    ConcatLength(lines, 6, from);
    if i >= 6 {
      ConcatAt(lines, from + 1, i - 6);
    }
  }

  lemma {:induction false} ConcatDecreasing(lines: seq<seq<real>>, from: nat)
    requires LinesDescend(lines) && from <= |lines|
    ensures StrictlyDecreasing(Concat(lines, from))
    ensures from < |lines| ==> |Concat(lines, from)| > 0 && Concat(lines, from)[0] == lines[from][0]
    decreases |lines| - from
  {
    if from < |lines| {
      ConcatDecreasing(lines, from + 1);
      var head, tail := lines[from], Concat(lines, from + 1);
      assert tail != [] ==> head[|head| - 1] > tail[0];
    }
  }

  lemma TableLinesShape()
    ensures |TTableP95Lines| == 20 && UniformWidth(TTableP95Lines, 6)
  {}

  /** Six entries each below the one before it. */
  predicate SixDescending(line: seq<real>) {
    |line| == 6 && line[0] > line[1] && line[1] > line[2] && line[2] > line[3] && line[3] > line[4] && line[4] > line[5]
  }

  lemma SixDescendingIsDecreasing(line: seq<real>)
    requires SixDescending(line)
    ensures StrictlyDecreasing(line)
  {}

  lemma TableLinesDescend()
    ensures LinesDescend(TTableP95Lines)
  {
    var lines := TTableP95Lines;
    assert forall k :: 0 <= k < |lines| ==> SixDescending(lines[k]);
    forall k | 0 <= k < |lines| ensures |lines[k]| > 0 && StrictlyDecreasing(lines[k]) {
      SixDescendingIsDecreasing(lines[k]);
    }
    assert forall k :: 0 <= k < |lines| - 1 ==> lines[k][|lines[k]| - 1] > lines[k + 1][0];
  }

  /** The table has exactly 120 entries, strictly decreasing from 12.7062 to 1.97993. */
  lemma TTableP95Shape()
    ensures |TTableP95| == 120
    ensures StrictlyDecreasing(TTableP95)
    ensures TTableP95[0] == 12.7062 && TTableP95[119] == 1.97993
  {
    TableLinesShape();
    TableLinesDescend();
    ConcatAt(TTableP95Lines, 0, 0);
    ConcatAt(TTableP95Lines, 0, 119);
    ConcatDecreasing(TTableP95Lines, 0);
  }

  /** Every entry of the table lies between 1.97993 and 12.7062. */
  lemma TTableP95Range(i: int)
    requires 0 <= i < 120
    ensures |TTableP95| == 120 && 1.97993 <= TTableP95[i] <= 12.7062
  {
    TTableP95Shape();
    if 0 < i {
      assert TTableP95[0] > TTableP95[i];
    }
    if i < 119 {
      assert TTableP95[i] > TTableP95[119];
    }
  }

  /** The coverage factor k for dof degrees of freedom. */
  function KVal95(dof: Dof): (r: Result<real>)
    ensures r.Err? <==> dof.OtherValue?
    ensures r.Err? ==> r.error == NotAnInteger
    ensures r.Ok? ==> 1.96 <= r.value <= 12.7062
  {
    match dof
    case OtherValue => Err(NotAnInteger)
    case IntValue(n) =>
      TTableP95Shape();
      if n < 1 then Ok(TTableP95[0])
      else if n > 120 then Ok(1.96)
      else
        TTableP95Range(n - 1);
        Ok(TTableP95[n - 1])
  }

  /** Below one degree of freedom k stays at its value for one; above 120 it
      is the normal distribution's 1.96. */
  lemma KVal95Clamped(n: int)
    ensures n < 1 ==> KVal95(IntValue(n)) == Ok(12.7062)
    ensures n > 120 ==> KVal95(IntValue(n)) == Ok(1.96)
  {
    TTableP95Shape();
  }

  /** For 1..120 degrees of freedom k is read from the table at dof - 1. */
  lemma KVal95Lookup(n: int)
    requires 1 <= n <= 120
    ensures |TTableP95| == 120 && KVal95(IntValue(n)) == Ok(TTableP95[n - 1])
  {
    TTableP95Shape();
  }

  lemma KVal95Examples()
    ensures KVal95(IntValue(1)) == Ok(12.7062)
    ensures KVal95(IntValue(120)) == Ok(1.97993)
    ensures KVal95(IntValue(121)) == Ok(1.96)
    ensures KVal95(IntValue(0)) == Ok(12.7062)
    ensures KVal95(OtherValue) == Err(NotAnInteger)
  {
    TTableP95Shape();
  }

  /** k never increases with the degrees of freedom, and strictly decreases
      from 1 to 121. */
  lemma KVal95NonIncreasing(n: int, m: int)
    requires n <= m
    ensures KVal95(IntValue(m)).value <= KVal95(IntValue(n)).value
    ensures 1 <= n < m <= 121 ==> KVal95(IntValue(m)).value < KVal95(IntValue(n)).value
  {
    TTableP95Shape();
    var (kn, km) := (KVal95(IntValue(n)).value, KVal95(IntValue(m)).value);
    if m < 1 {
      KVal95Clamped(n);
      KVal95Clamped(m);
    } else if n > 120 {
      KVal95Clamped(n);
      KVal95Clamped(m);
    } else if n < 1 {
      KVal95Clamped(n);
      // kn is the first entry; km is a table entry or 1.96.
      if m <= 120 {
        KVal95Lookup(m);
        TTableP95Range(m - 1);
      } else {
        KVal95Clamped(m);
      }
    } else if m <= 120 {
      KVal95Lookup(n);
      KVal95Lookup(m);
      if n < m {
        assert TTableP95[n - 1] > TTableP95[m - 1];
      }
    } else {
      KVal95Lookup(n);
      KVal95Clamped(m);
      TTableP95Range(n - 1);
    }
  }
}
