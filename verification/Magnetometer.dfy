// common/magnetometer.go: quaternions, rotation matrices and the calibration of a sample.
module Magnetometer {
  import opened Options
  import opened Reals

  const QUAT_EPS := 0.000001
  const EPS := 0.000000000001
  const ROTATION_TOLERANCE := 0.01

  datatype Vec3 = Vec3(x: real, y: real, z: real)

  datatype Quat = Quat(w: real, x: real, y: real, z: real)

  datatype Mat3 = Mat3(x: Vec3, y: Vec3, z: Vec3) // rows

  function Dot3(u: Vec3, v: Vec3): real {
    Times(u.x, v.x) + Times(u.y, v.y) + Times(u.z, v.z)
  }

  function Cross(u: Vec3, v: Vec3): Vec3 {
    Vec3(u.y * v.z - u.z * v.y, u.z * v.x - u.x * v.z, u.x * v.y - u.y * v.x)
  }

  function Det(r: Mat3): real {
    r.x.x * (r.y.y * r.z.z - r.y.z * r.z.y)
    - r.x.y * (r.y.x * r.z.z - r.y.z * r.z.x)
    + r.x.z * (r.y.x * r.z.y - r.y.y * r.z.x)
  }

  function Columns(r: Mat3): Mat3 {
    Mat3(Vec3(r.x.x, r.y.x, r.z.x), Vec3(r.x.y, r.y.y, r.z.y), Vec3(r.x.z, r.y.z, r.z.z))
  }

  function MatTimes(a: Mat3, b: Mat3): Mat3 {
    var c := Columns(b);
    Mat3(Vec3(Dot3(a.x, c.x), Dot3(a.x, c.y), Dot3(a.x, c.z)),
         Vec3(Dot3(a.y, c.x), Dot3(a.y, c.y), Dot3(a.y, c.z)),
         Vec3(Dot3(a.z, c.x), Dot3(a.z, c.y), Dot3(a.z, c.z)))
  }

  // ---- Quaternions ----

  function Norm2(q: Quat): real {
    q.w * q.w + q.x * q.x + q.y * q.y + q.z * q.z
  }

  function QuaternionUnit(q: Quat, sqrt: real -> real): Quat {
    var n := sqrt(Norm2(q));
    if n < QUAT_EPS then Quat(1.0, 0.0, 0.0, 0.0) else Quat(q.w / n, q.x / n, q.y / n, q.z / n)
  }

  function QuaternionProduct(a: Quat, b: Quat): Quat {
    Quat(a.w * b.w - a.x * b.x - a.y * b.y - a.z * b.z,
         a.w * b.x + a.x * b.w + a.y * b.z - a.z * b.y,
         a.w * b.y - a.x * b.z + a.y * b.w + a.z * b.x,
         a.w * b.z + a.x * b.y - a.y * b.x + a.z * b.w)
  }

  function QuaternionToRotationMatrix(q: Quat): Mat3 {
    Mat3(RowX(q), RowY(q), RowZ(q))
  }

  function RowX(q: Quat): Vec3 {
    Vec3(q.w * q.w + q.x * q.x - q.y * q.y - q.z * q.z, 2.0 * (-q.w * q.z + q.x * q.y), 2.0 * (q.w * q.y + q.x * q.z))
  }

  function RowY(q: Quat): Vec3 {
    Vec3(2.0 * (q.w * q.z + q.x * q.y), q.w * q.w - q.x * q.x + q.y * q.y - q.z * q.z, 2.0 * (-q.w * q.x + q.y * q.z))
  }

  function RowZ(q: Quat): Vec3 {
    Vec3(2.0 * (-q.w * q.y + q.x * q.z), 2.0 * (q.w * q.x + q.y * q.z), q.w * q.w - q.x * q.x - q.y * q.y + q.z * q.z)
  }

  // ---- The product of quaternions is the product of rotations ----

  // The first row of the rotation matrix; the other rows are its cyclic images.
  function First(w: real, x: real, y: real, z: real): real { w * w + x * x - y * y - z * z }

  function Second(w: real, x: real, y: real, z: real): real { 2.0 * (-w * z + x * y) }

  function Third(w: real, x: real, y: real, z: real): real { 2.0 * (w * y + x * z) }

  function ProductW(w: real, x: real, y: real, z: real, s: real, t: real, u: real, v: real): real {
    w * s - x * t - y * u - z * v
  }

  function ProductX(w: real, x: real, y: real, z: real, s: real, t: real, u: real, v: real): real {
    w * t + x * s + y * v - z * u
  }

  lemma ProductFirst(w: real, x: real, y: real, z: real, s: real, t: real, u: real, v: real)
    ensures First(ProductW(w, x, y, z, s, t, u, v), ProductX(w, x, y, z, s, t, u, v),
              ProductX(w, y, z, x, s, u, v, t), ProductX(w, z, x, y, s, v, t, u))
         == Times(First(w, x, y, z), First(s, t, u, v)) + Times(Second(w, x, y, z), Third(s, u, v, t))
         + Times(Third(w, x, y, z), Second(s, v, t, u))
  {
    assert First(w * s - x * t - y * u - z * v, w * t + x * s + y * v - z * u,
              w * u - x * v + y * s + z * t, w * v + x * u - y * t + z * s)
        == Times(w * w + x * x - y * y - z * z, s * s + t * t - u * u - v * v)
           + Times(2.0 * (-w * z + x * y), 2.0 * (s * v + u * t))
           + Times(2.0 * (w * y + x * z), 2.0 * (-s * u + v * t));
    assert ProductX(w, y, z, x, s, u, v, t) == w * u - x * v + y * s + z * t;
    assert ProductX(w, z, x, y, s, v, t, u) == w * v + x * u - y * t + z * s;
  }

  lemma ProductSecond(w: real, x: real, y: real, z: real, s: real, t: real, u: real, v: real)
    ensures Second(ProductW(w, x, y, z, s, t, u, v), ProductX(w, x, y, z, s, t, u, v),
              ProductX(w, y, z, x, s, u, v, t), ProductX(w, z, x, y, s, v, t, u))
         == Times(First(w, x, y, z), Second(s, t, u, v)) + Times(Second(w, x, y, z), First(s, u, v, t))
         + Times(Third(w, x, y, z), Third(s, v, t, u))
  {
    assert Second(w * s - x * t - y * u - z * v, w * t + x * s + y * v - z * u,
              w * u - x * v + y * s + z * t, w * v + x * u - y * t + z * s)
        == Times(w * w + x * x - y * y - z * z, 2.0 * (-s * v + t * u))
           + Times(2.0 * (-w * z + x * y), s * s + u * u - v * v - t * t)
           + Times(2.0 * (w * y + x * z), 2.0 * (s * t + v * u));
    assert ProductX(w, y, z, x, s, u, v, t) == w * u - x * v + y * s + z * t;
    assert ProductX(w, z, x, y, s, v, t, u) == w * v + x * u - y * t + z * s;
  }

  lemma ProductThird(w: real, x: real, y: real, z: real, s: real, t: real, u: real, v: real)
    ensures Third(ProductW(w, x, y, z, s, t, u, v), ProductX(w, x, y, z, s, t, u, v),
              ProductX(w, y, z, x, s, u, v, t), ProductX(w, z, x, y, s, v, t, u))
         == Times(First(w, x, y, z), Third(s, t, u, v)) + Times(Second(w, x, y, z), Second(s, u, v, t))
         + Times(Third(w, x, y, z), First(s, v, t, u))
  {
    assert Third(w * s - x * t - y * u - z * v, w * t + x * s + y * v - z * u,
              w * u - x * v + y * s + z * t, w * v + x * u - y * t + z * s)
        == Times(w * w + x * x - y * y - z * z, 2.0 * (s * u + t * v))
           + Times(2.0 * (-w * z + x * y), 2.0 * (-s * t + u * v))
           + Times(2.0 * (w * y + x * z), s * s + v * v - t * t - u * u);
    assert ProductX(w, y, z, x, s, u, v, t) == w * u - x * v + y * s + z * t;
    assert ProductX(w, z, x, y, s, v, t, u) == w * v + x * u - y * t + z * s;
  }

  lemma RotationEntries(q: Quat)
    ensures var r := QuaternionToRotationMatrix(q);
            && r.x == Vec3(First(q.w, q.x, q.y, q.z), Second(q.w, q.x, q.y, q.z), Third(q.w, q.x, q.y, q.z))
            && r.y == Vec3(Third(q.w, q.y, q.z, q.x), First(q.w, q.y, q.z, q.x), Second(q.w, q.y, q.z, q.x))
            && r.z == Vec3(Second(q.w, q.z, q.x, q.y), Third(q.w, q.z, q.x, q.y), First(q.w, q.z, q.x, q.y))
  {
    hide First, Second, Third, RowX, RowY, RowZ;
    RowXEntries(q);
    RowYEntries(q);
    RowZEntries(q);
  }

  lemma RowXEntries(q: Quat)
    ensures RowX(q) == Vec3(First(q.w, q.x, q.y, q.z), Second(q.w, q.x, q.y, q.z), Third(q.w, q.x, q.y, q.z))
  {
  }

  lemma RowYEntries(q: Quat)
    ensures RowY(q) == Vec3(Third(q.w, q.y, q.z, q.x), First(q.w, q.y, q.z, q.x), Second(q.w, q.y, q.z, q.x))
  {
  }

  lemma RowZEntries(q: Quat)
    ensures RowZ(q) == Vec3(Second(q.w, q.z, q.x, q.y), Third(q.w, q.z, q.x, q.y), First(q.w, q.z, q.x, q.y))
  {
  }

  lemma ProductEntries(a: Quat, b: Quat)
    ensures QuaternionProduct(a, b)
         == Quat(ProductW(a.w, a.x, a.y, a.z, b.w, b.x, b.y, b.z), ProductX(a.w, a.x, a.y, a.z, b.w, b.x, b.y, b.z),
                 ProductX(a.w, a.y, a.z, a.x, b.w, b.y, b.z, b.x), ProductX(a.w, a.z, a.x, a.y, b.w, b.z, b.x, b.y))
    ensures ProductW(a.w, a.x, a.y, a.z, b.w, b.x, b.y, b.z) == ProductW(a.w, a.y, a.z, a.x, b.w, b.y, b.z, b.x)
         == ProductW(a.w, a.z, a.x, a.y, b.w, b.z, b.x, b.y)
  {
  }

  // Rotating by the product of two quaternions is rotating by the second, then by the first.
  lemma RotationOfProduct(a: Quat, b: Quat)
    ensures QuaternionToRotationMatrix(QuaternionProduct(a, b))
         == MatTimes(QuaternionToRotationMatrix(a), QuaternionToRotationMatrix(b))
  {
    hide QuaternionToRotationMatrix, QuaternionProduct, First, Second, Third, ProductW, ProductX, Times;
    RotationEntries(a);
    RotationEntries(b);
    RotationEntries(QuaternionProduct(a, b));
    ProductEntries(a, b);
    RowOfProduct(a.w, a.x, a.y, a.z, b.w, b.x, b.y, b.z);
    RowOfProduct(a.w, a.y, a.z, a.x, b.w, b.y, b.z, b.x);
    RowOfProduct(a.w, a.z, a.x, a.y, b.w, b.z, b.x, b.y);
  }

  lemma RowOfProduct(w: real, x: real, y: real, z: real, s: real, t: real, u: real, v: real)
    ensures var pw, px, py, pz := ProductW(w, x, y, z, s, t, u, v), ProductX(w, x, y, z, s, t, u, v),
                                  ProductX(w, y, z, x, s, u, v, t), ProductX(w, z, x, y, s, v, t, u);
            && First(pw, px, py, pz)
               == Times(First(w, x, y, z), First(s, t, u, v)) + Times(Second(w, x, y, z), Third(s, u, v, t))
               + Times(Third(w, x, y, z), Second(s, v, t, u))
            && Second(pw, px, py, pz)
               == Times(First(w, x, y, z), Second(s, t, u, v)) + Times(Second(w, x, y, z), First(s, u, v, t))
               + Times(Third(w, x, y, z), Third(s, v, t, u))
            && Third(pw, px, py, pz)
               == Times(First(w, x, y, z), Third(s, t, u, v)) + Times(Second(w, x, y, z), Second(s, u, v, t))
               + Times(Third(w, x, y, z), First(s, v, t, u))
  {
    ProductFirst(w, x, y, z, s, t, u, v);
    ProductSecond(w, x, y, z, s, t, u, v);
    ProductThird(w, x, y, z, s, t, u, v);
  }

  // ---- From a rotation matrix to its quaternion ----

  // Four times the squares and products of the components of the quaternion of r.
  datatype Products = Products(
    ww: real, xx: real, yy: real, zz: real,
    wx: real, wy: real, wz: real,
    xy: real, xz: real, yz: real)

  function ProductsOf(r: Mat3): Products {
    Products(
      1.0 + r.x.x + r.y.y + r.z.z, 1.0 + r.x.x - r.y.y - r.z.z,
      1.0 + r.y.y - r.x.x - r.z.z, 1.0 + r.z.z - r.x.x - r.y.y,
      r.z.y - r.y.z, r.x.z - r.z.x, r.y.x - r.x.y,
      r.x.y + r.y.x, r.x.z + r.z.x, r.y.z + r.z.y)
  }

  // In the branch the source takes, the argument of the square root is at least 1, for any matrix.
  function Divisor(n: real, sqrt: real -> real): (s: real)
    requires n >= 1.0 && IsSqrt(sqrt)
    ensures s > 0.0 && Times(s, s) == 4.0 * n
  {
    DivisorSquare(n, sqrt);
    sqrt(n) * 2.0
  }

  lemma DivisorSquare(n: real, sqrt: real -> real)
    requires n >= 1.0 && IsSqrt(sqrt)
    ensures sqrt(n) * 2.0 > 0.0 && Times(sqrt(n) * 2.0, sqrt(n) * 2.0) == 4.0 * n
  {
    RootPositive(sqrt, n);
    assert Times(sqrt(n) * 2.0, sqrt(n) * 2.0) == 4.0 * Times(sqrt(n), sqrt(n));
  }

  function RotationMatrixToQuaternion(r: Mat3, sqrt: real -> real): Quat
    requires IsSqrt(sqrt)
  {
    QuaternionUnit(UnscaledQuaternion(r, sqrt), sqrt)
  }

  // The four branches, on the trace and then on the largest diagonal entry.
  function UnscaledQuaternion(r: Mat3, sqrt: real -> real): Quat
    requires IsSqrt(sqrt)
  {
    var trace := r.x.x + r.y.y + r.z.z;
    if trace > 0.0 then
      var s := Divisor(1.0 + trace, sqrt);
      Quat(s / 4.0, (r.z.y - r.y.z) / s, (r.x.z - r.z.x) / s, (r.y.x - r.x.y) / s)
    else if r.x.x > r.y.y && r.x.x > r.z.z then
      var s := Divisor(1.0 + r.x.x - r.y.y - r.z.z, sqrt);
      Quat((r.z.y - r.y.z) / s, s / 4.0, (r.x.y + r.y.x) / s, (r.x.z + r.z.x) / s)
    else if r.y.y > r.z.z then
      var s := Divisor(1.0 + r.y.y - r.x.x - r.z.z, sqrt);
      Quat((r.x.z - r.z.x) / s, (r.x.y + r.y.x) / s, s / 4.0, (r.y.z + r.z.y) / s)
    else
      var s := Divisor(1.0 + r.z.z - r.x.x - r.y.y, sqrt);
      Quat((r.y.x - r.x.y) / s, (r.x.z + r.z.x) / s, (r.y.z + r.z.y) / s, s / 4.0)
  }

  // A proper rotation: orthonormal rows and determinant 1
  ghost predicate Rotation(r: Mat3) {
    && Dot3(r.x, r.x) == 1.0 && Dot3(r.y, r.y) == 1.0 && Dot3(r.z, r.z) == 1.0
    && Dot3(r.x, r.y) == 0.0 && Dot3(r.x, r.z) == 0.0 && Dot3(r.y, r.z) == 0.0
    && Det(r) == 1.0
  }

  lemma SumOfSquares(p: real, q: real, r: real)
    requires Times(p, p) + Times(q, q) + Times(r, r) == 0.0
    ensures p == 0.0 && q == 0.0 && r == 0.0
  {
    hide Times;
    TimesSign(p, p);
    TimesSign(q, q);
    TimesSign(r, r);
  }

  // The square of the distance of a row from the cross product of the other two.
  lemma CrossDistance(a: real, b: real, c: real, d: real, e: real, f: real, g: real, h: real, i: real)
    ensures Times(a - (e * i - f * h), a - (e * i - f * h)) + Times(b - (f * g - d * i), b - (f * g - d * i))
            + Times(c - (d * h - e * g), c - (d * h - e * g))
         == a * a + b * b + c * c - 2.0 * (a * (e * i - f * h) - b * (d * i - f * g) + c * (d * h - e * g))
            + Times(d * d + e * e + f * f, g * g + h * h + i * i) - Times(d * g + e * h + f * i, d * g + e * h + f * i)
  {
  }

  lemma RowIsCross(a: real, b: real, c: real, d: real, e: real, f: real, g: real, h: real, i: real)
    requires a * a + b * b + c * c == 1.0 && d * d + e * e + f * f == 1.0 && g * g + h * h + i * i == 1.0
    requires d * g + e * h + f * i == 0.0
    requires a * (e * i - f * h) - b * (d * i - f * g) + c * (d * h - e * g) == 1.0
    ensures a == e * i - f * h && b == f * g - d * i && c == d * h - e * g
  {
    CrossDistance(a, b, c, d, e, f, g, h, i);
    assert Times(d * d + e * e + f * f, g * g + h * h + i * i) == 1.0;
    assert Times(d * g + e * h + f * i, d * g + e * h + f * i) == 0.0;
    SumOfSquares(a - (e * i - f * h), b - (f * g - d * i), c - (d * h - e * g));
  }

  // Every row is the cross product of the other two, and rows and columns are orthonormal.
  ghost predicate Facts(a: real, b: real, c: real, d: real, e: real, f: real, g: real, h: real, i: real) {
    && a == e * i - f * h && b == f * g - d * i && c == d * h - e * g
    && d == h * c - i * b && e == i * a - g * c && f == g * b - h * a
    && g == b * f - c * e && h == c * d - a * f && i == a * e - b * d
    && a * a + b * b + c * c == 1.0 && d * d + e * e + f * f == 1.0 && g * g + h * h + i * i == 1.0
    && a * d + b * e + c * f == 0.0 && a * g + b * h + c * i == 0.0 && d * g + e * h + f * i == 0.0
    && a * a + d * d + g * g == 1.0 && b * b + e * e + h * h == 1.0 && c * c + f * f + i * i == 1.0
    && a * b + d * e + g * h == 0.0 && a * c + d * f + g * i == 0.0 && b * c + e * f + h * i == 0.0
  }

  ghost predicate FactsOf(r: Mat3) {
    Facts(r.x.x, r.x.y, r.x.z, r.y.x, r.y.y, r.y.z, r.z.x, r.z.y, r.z.z)
  }

  lemma RotationFacts(a: real, b: real, c: real, d: real, e: real, f: real, g: real, h: real, i: real)
    requires a * a + b * b + c * c == 1.0 && d * d + e * e + f * f == 1.0 && g * g + h * h + i * i == 1.0
    requires a * d + b * e + c * f == 0.0 && a * g + b * h + c * i == 0.0 && d * g + e * h + f * i == 0.0
    requires a * (e * i - f * h) - b * (d * i - f * g) + c * (d * h - e * g) == 1.0
    ensures Facts(a, b, c, d, e, f, g, h, i)
  {
    RowIsCross(a, b, c, d, e, f, g, h, i);
    RowIsCross(d, e, f, g, h, i, a, b, c);
    RowIsCross(g, h, i, a, b, c, d, e, f);
    ColumnNorm(a, b, c, d, e, f, g, h, i);
    ColumnProduct(a, b, c, d, e, f, g, h, i);
  }

  lemma ColumnNorm(a: real, b: real, c: real, d: real, e: real, f: real, g: real, h: real, i: real)
    requires a == e * i - f * h && b == f * g - d * i && c == d * h - e * g
    requires d == h * c - i * b && e == i * a - g * c && f == g * b - h * a
    requires g == b * f - c * e && h == c * d - a * f && i == a * e - b * d
    requires a * (e * i - f * h) - b * (d * i - f * g) + c * (d * h - e * g) == 1.0
    ensures a * a + d * d + g * g == 1.0 && b * b + e * e + h * h == 1.0 && c * c + f * f + i * i == 1.0
  {
  }

  lemma ColumnProduct(a: real, b: real, c: real, d: real, e: real, f: real, g: real, h: real, i: real)
    requires a == e * i - f * h && b == f * g - d * i && c == d * h - e * g
    requires d == h * c - i * b && e == i * a - g * c && f == g * b - h * a
    requires g == b * f - c * e && h == c * d - a * f && i == a * e - b * d
    ensures a * b + d * e + g * h == 0.0 && a * c + d * f + g * i == 0.0 && b * c + e * f + h * i == 0.0
  {
  }

  // ---- The products are those of one quaternion: the minors vanish ----

  lemma WMinors(a: real, b: real, c: real, d: real, e: real, f: real, g: real, h: real, i: real)
    requires Facts(a, b, c, d, e, f, g, h, i)
    ensures Times(h - f, h - f) == Times(1.0 + a + e + i, 1.0 + a - e - i)
    ensures Times(h - f, c - g) == Times(1.0 + a + e + i, b + d)
  {
  }

  lemma XMinors(a: real, b: real, c: real, d: real, e: real, f: real, g: real, h: real, i: real)
    requires Facts(a, b, c, d, e, f, g, h, i)
    ensures Times(h - f, b + d) == Times(1.0 + a - e - i, c - g)
    ensures Times(h - f, c + g) == Times(1.0 + a - e - i, d - b)
    ensures Times(b + d, b + d) == Times(1.0 + a - e - i, 1.0 + e - a - i)
    ensures Times(c + g, c + g) == Times(1.0 + a - e - i, 1.0 + i - a - e)
    ensures Times(b + d, c + g) == Times(1.0 + a - e - i, f + h)
  {
  }

  lemma FactsTurn(a: real, b: real, c: real, d: real, e: real, f: real, g: real, h: real, i: real)
    requires Facts(a, b, c, d, e, f, g, h, i)
    ensures Facts(e, f, d, h, i, g, b, c, a)
  {
  }

  // The products along one pivot: w and the three others, or x and the three others.
  ghost predicate PivotW(p: Products) {
    && Times(p.wx, p.wx) == Times(p.ww, p.xx) && Times(p.wy, p.wy) == Times(p.ww, p.yy)
    && Times(p.wz, p.wz) == Times(p.ww, p.zz)
    && Times(p.wx, p.wy) == Times(p.ww, p.xy) && Times(p.wx, p.wz) == Times(p.ww, p.xz)
    && Times(p.wy, p.wz) == Times(p.ww, p.yz)
  }

  ghost predicate PivotX(p: Products) {
    && Times(p.wx, p.wx) == Times(p.xx, p.ww) && Times(p.xy, p.xy) == Times(p.xx, p.yy)
    && Times(p.xz, p.xz) == Times(p.xx, p.zz)
    && Times(p.wx, p.xy) == Times(p.xx, p.wy) && Times(p.wx, p.xz) == Times(p.xx, p.wz)
    && Times(p.xy, p.xz) == Times(p.xx, p.yz)
  }

  function CycledProducts(p: Products): Products {
    Products(p.ww, p.yy, p.zz, p.xx, p.wy, p.wz, p.wx, p.yz, p.xy, p.xz)
  }

  function Cycled(r: Mat3): Mat3 {
    Mat3(Vec3(r.y.y, r.y.z, r.y.x), Vec3(r.z.y, r.z.z, r.z.x), Vec3(r.x.y, r.x.z, r.x.x))
  }

  lemma CycleFacts(r: Mat3)
    requires FactsOf(r)
    ensures FactsOf(Cycled(r)) && ProductsOf(Cycled(r)) == CycledProducts(ProductsOf(r))
  {
    FactsTurn(r.x.x, r.x.y, r.x.z, r.y.x, r.y.y, r.y.z, r.z.x, r.z.y, r.z.z);
  }

  lemma PivotXHolds(r: Mat3)
    requires FactsOf(r)
    ensures PivotX(ProductsOf(r))
  {
    XMinors(r.x.x, r.x.y, r.x.z, r.y.x, r.y.y, r.y.z, r.z.x, r.z.y, r.z.z);
    WMinors(r.x.x, r.x.y, r.x.z, r.y.x, r.y.y, r.y.z, r.z.x, r.z.y, r.z.z);
    var p := ProductsOf(r);
    TimesSwap(p.ww, p.xx);
  }

  lemma TimesSwap(a: real, b: real)
    ensures Times(a, b) == Times(b, a)
  {
  }

  lemma PivotWPart(r: Mat3)
    requires FactsOf(r)
    ensures var p := ProductsOf(r); Times(p.wx, p.wx) == Times(p.ww, p.xx) && Times(p.wx, p.wy) == Times(p.ww, p.xy)
  {
    WMinors(r.x.x, r.x.y, r.x.z, r.y.x, r.y.y, r.y.z, r.z.x, r.z.y, r.z.z);
  }

  lemma PivotWHolds(r: Mat3)
    requires FactsOf(r)
    ensures PivotW(ProductsOf(r))
  {
    hide FactsOf, ProductsOf, Times;
    var p, t := ProductsOf(r), Cycled(r);
    CycleFacts(r);
    CycleFacts(t);
    PivotWPart(r);
    PivotWPart(t);
    PivotWPart(Cycled(t));
    TimesSwap(p.wx, p.wz);
  }

  // A quaternion built from the pivot n = 4 u^2 as the source does has the products m of its row.
  lemma QuotientProduct(s: real, n: real, m: real, k: real, mk: real)
    requires s > 0.0 && Times(s, s) == 4.0 * n && Times(m, k) == Times(n, mk)
    ensures 4.0 * Times(m / s, k / s) == mk
  {
    var x, y := m / s, k / s;
    assert x * s == m && y * s == k;
    assert m * k == (x * y) * (s * s);
    assert (4.0 * (x * y) - mk) * n == 0.0;
    if 4.0 * (x * y) != mk {
      TimesSign(s, s);
    }
  }

  lemma PivotProduct(s: real, n: real, m: real)
    requires s > 0.0 && Times(s, s) == 4.0 * n
    ensures 4.0 * Times(s / 4.0, s / 4.0) == n && 4.0 * Times(s / 4.0, m / s) == m
  {
    assert m / s * s == m;
    assert 4.0 * ((s / 4.0) * (m / s)) == s * (m / s);
    assert 16.0 * ((s / 4.0) * (s / 4.0)) == s * s;
  }

  // q has the products of r.
  ghost predicate HasProducts(q: Quat, p: Products) {
    && 4.0 * Times(q.w, q.w) == p.ww && 4.0 * Times(q.x, q.x) == p.xx
    && 4.0 * Times(q.y, q.y) == p.yy && 4.0 * Times(q.z, q.z) == p.zz
    && 4.0 * Times(q.w, q.x) == p.wx && 4.0 * Times(q.w, q.y) == p.wy && 4.0 * Times(q.w, q.z) == p.wz
    && 4.0 * Times(q.x, q.y) == p.xy && 4.0 * Times(q.x, q.z) == p.xz && 4.0 * Times(q.y, q.z) == p.yz
  }

  lemma BranchW(p: Products, s: real)
    requires PivotW(p) && s > 0.0 && Times(s, s) == 4.0 * p.ww
    ensures HasProducts(Quat(s / 4.0, p.wx / s, p.wy / s, p.wz / s), p)
  {
    hide Times;
    PivotProduct(s, p.ww, p.wx);
    PivotProduct(s, p.ww, p.wy);
    PivotProduct(s, p.ww, p.wz);
    QuotientProduct(s, p.ww, p.wx, p.wx, p.xx);
    QuotientProduct(s, p.ww, p.wy, p.wy, p.yy);
    QuotientProduct(s, p.ww, p.wz, p.wz, p.zz);
    QuotientProduct(s, p.ww, p.wx, p.wy, p.xy);
    QuotientProduct(s, p.ww, p.wx, p.wz, p.xz);
    QuotientProduct(s, p.ww, p.wy, p.wz, p.yz);
  }

  lemma BranchX(p: Products, s: real)
    requires PivotX(p) && s > 0.0 && Times(s, s) == 4.0 * p.xx
    ensures HasProducts(Quat(p.wx / s, s / 4.0, p.xy / s, p.xz / s), p)
  {
    hide Times;
    PivotProduct(s, p.xx, p.wx);
    PivotProduct(s, p.xx, p.xy);
    PivotProduct(s, p.xx, p.xz);
    TimesSwap(s / 4.0, p.wx / s);
    QuotientProduct(s, p.xx, p.wx, p.wx, p.ww);
    QuotientProduct(s, p.xx, p.xy, p.xy, p.yy);
    QuotientProduct(s, p.xx, p.xz, p.xz, p.zz);
    QuotientProduct(s, p.xx, p.wx, p.xy, p.wy);
    QuotientProduct(s, p.xx, p.wx, p.xz, p.wz);
    QuotientProduct(s, p.xx, p.xy, p.xz, p.yz);
  }

  lemma HasCycled(q: Quat, p: Products)
    requires HasProducts(Quat(q.w, q.y, q.z, q.x), CycledProducts(p))
    ensures HasProducts(q, p)
  {
    hide Times;
    TimesSwap(q.x, q.y);
    TimesSwap(q.x, q.z);
    TimesSwap(q.y, q.z);
  }

  lemma UnscaledHasProducts(r: Mat3, sqrt: real -> real)
    requires Rotation(r) && IsSqrt(sqrt)
    ensures HasProducts(UnscaledQuaternion(r, sqrt), ProductsOf(r))
  {
    hide *;
    RotationHasFacts(r);
    if r.x.x + r.y.y + r.z.z > 0.0 {
      UnscaledW(r, sqrt);
    } else if r.x.x > r.y.y && r.x.x > r.z.z {
      UnscaledX(r, sqrt);
    } else if r.y.y > r.z.z {
      UnscaledY(r, sqrt);
    } else {
      UnscaledZ(r, sqrt);
    }
  }

  lemma UnscaledW(r: Mat3, sqrt: real -> real)
    requires FactsOf(r) && IsSqrt(sqrt) && r.x.x + r.y.y + r.z.z > 0.0
    ensures HasProducts(UnscaledQuaternion(r, sqrt), ProductsOf(r))
  {
    hide Times, FactsOf, HasProducts, PivotW, Divisor;
    PivotWHolds(r);
    BranchW(ProductsOf(r), Divisor(ProductsOf(r).ww, sqrt));
  }

  lemma UnscaledX(r: Mat3, sqrt: real -> real)
    requires FactsOf(r) && IsSqrt(sqrt) && r.x.x + r.y.y + r.z.z <= 0.0 && r.x.x > r.y.y && r.x.x > r.z.z
    ensures HasProducts(UnscaledQuaternion(r, sqrt), ProductsOf(r))
  {
    hide Times, FactsOf, HasProducts, PivotX, Divisor, UnscaledQuaternion;
    var p := ProductsOf(r);
    PivotXHolds(r);
    BranchX(p, Divisor(p.xx, sqrt));
    TakesX(r, sqrt);
  }

  lemma TakesX(r: Mat3, sqrt: real -> real)
    requires IsSqrt(sqrt) && r.x.x + r.y.y + r.z.z <= 0.0 && r.x.x > r.y.y && r.x.x > r.z.z
    ensures var p := ProductsOf(r);
            var s := Divisor(p.xx, sqrt);
            UnscaledQuaternion(r, sqrt) == Quat(p.wx / s, s / 4.0, p.xy / s, p.xz / s)
  {
    hide Divisor;
  }

  lemma UnscaledY(r: Mat3, sqrt: real -> real)
    requires FactsOf(r) && IsSqrt(sqrt) && r.x.x + r.y.y + r.z.z <= 0.0
    requires !(r.x.x > r.y.y && r.x.x > r.z.z) && r.y.y > r.z.z
    ensures HasProducts(UnscaledQuaternion(r, sqrt), ProductsOf(r))
  {
    hide Times, FactsOf, HasProducts, PivotX, Divisor;
    var p := ProductsOf(r);
    CycleFacts(r);
    PivotXHolds(Cycled(r));
    BranchX(CycledProducts(p), Divisor(p.yy, sqrt));
    HasCycled(UnscaledQuaternion(r, sqrt), p);
  }

  lemma UnscaledZ(r: Mat3, sqrt: real -> real)
    requires FactsOf(r) && IsSqrt(sqrt) && r.x.x + r.y.y + r.z.z <= 0.0
    requires !(r.x.x > r.y.y && r.x.x > r.z.z) && r.y.y <= r.z.z
    ensures HasProducts(UnscaledQuaternion(r, sqrt), ProductsOf(r))
  {
    hide Times, FactsOf, HasProducts, PivotX, Divisor;
    var p, q := ProductsOf(r), UnscaledQuaternion(r, sqrt);
    CycleFacts(r);
    CycleFacts(Cycled(r));
    PivotXHolds(Cycled(Cycled(r)));
    BranchX(CycledProducts(CycledProducts(p)), Divisor(p.zz, sqrt));
    HasCycled(Quat(q.w, q.y, q.z, q.x), CycledProducts(p));
    HasCycled(q, p);
  }

  lemma RotationHasFacts(r: Mat3)
    requires Rotation(r)
    ensures FactsOf(r)
  {
    RotationFacts(r.x.x, r.x.y, r.x.z, r.y.x, r.y.y, r.y.z, r.z.x, r.z.y, r.z.z);
  }

  lemma EntriesByProducts(w: real, x: real, y: real, z: real)
    ensures First(w, x, y, z) == Times(w, w) + Times(x, x) - Times(y, y) - Times(z, z)
    ensures Second(w, x, y, z) == 2.0 * (Times(x, y) - Times(w, z))
    ensures Third(w, x, y, z) == 2.0 * (Times(w, y) + Times(x, z))
  {
  }

  lemma NormByProducts(q: Quat)
    ensures Norm2(q) == Times(q.w, q.w) + Times(q.x, q.x) + Times(q.y, q.y) + Times(q.z, q.z)
  {
  }

  // A quaternion with the products of r is a unit quaternion, and r is its rotation matrix.
  lemma ProductsGiveRotation(q: Quat, r: Mat3)
    requires HasProducts(q, ProductsOf(r))
    ensures Norm2(q) == 1.0 && QuaternionToRotationMatrix(q) == r
  {
    hide First, Second, Third, Times, QuaternionToRotationMatrix, Norm2;
    RotationEntries(q);
    NormByProducts(q);
    EntriesByProducts(q.w, q.x, q.y, q.z);
    EntriesByProducts(q.w, q.y, q.z, q.x);
    EntriesByProducts(q.w, q.z, q.x, q.y);
    TimesSwap(q.x, q.y);
    TimesSwap(q.x, q.z);
    TimesSwap(q.y, q.z);
  }

  lemma UnitStays(q: Quat, sqrt: real -> real)
    requires Norm2(q) == 1.0 && IsSqrt(sqrt)
    ensures QuaternionUnit(q, sqrt) == q
  {
    assert Times(1.0, 1.0) == 1.0;
    RootOf(sqrt, 1.0);
  }

  // The product is the one of Hamilton: of two vectors it is their cross product less their dot product.
  lemma VectorProduct(u: Vec3, v: Vec3)
    ensures var p := QuaternionProduct(Quat(0.0, u.x, u.y, u.z), Quat(0.0, v.x, v.y, v.z));
            p.w == -Dot3(u, v) && Vec3(p.x, p.y, p.z) == Cross(u, v)
  {
  }

  // A quaternion turns about its axis in the sense of the right hand.
  lemma TurnSense(q: Quat)
    ensures var r := QuaternionToRotationMatrix(q);
            && r.z.y - r.y.z == 4.0 * Times(q.w, q.x) && r.x.z - r.z.x == 4.0 * Times(q.w, q.y)
            && r.y.x - r.x.y == 4.0 * Times(q.w, q.z)
  {
    RotationEntries(q);
    hide QuaternionToRotationMatrix;
    SenseOf(q.w, q.x, q.y, q.z);
    SenseOf(q.w, q.y, q.z, q.x);
    SenseOf(q.w, q.z, q.x, q.y);
    hide First, Second, Third, Times;
  }

  lemma SenseOf(w: real, x: real, y: real, z: real)
    ensures Third(w, z, x, y) - Second(w, y, z, x) == 4.0 * Times(w, x)
  {
  }

  // The matrix turns a vector as the quaternion does: q (0, v) q* is (0, R(q) v).
  lemma TurnsVectors(q: Quat, v: Vec3)
    ensures var r := QuaternionToRotationMatrix(q);
            QuaternionProduct(QuaternionProduct(q, Quat(0.0, v.x, v.y, v.z)), QuaternionConjugate(q))
            == Quat(0.0, Dot3(r.x, v), Dot3(r.y, v), Dot3(r.z, v))
  {
    hide *;
    TurnedOnce(q, v);
    TurnedRows(q, v);
    var t := QuaternionProduct(q, Quat(0.0, v.x, v.y, v.z));
    ConjugateProduct(t, q);
  }

  lemma TurnedRows(q: Quat, v: Vec3)
    ensures var r := QuaternionToRotationMatrix(q);
            var tw, tx := TurnW(q.x, q.y, q.z, v.x, v.y, v.z), TurnX(q.w, q.x, q.y, q.z, v.x, v.y, v.z);
            var ty, tz := TurnX(q.w, q.y, q.z, q.x, v.y, v.z, v.x), TurnX(q.w, q.z, q.x, q.y, v.z, v.x, v.y);
            && tw * q.w + tx * q.x + ty * q.y + tz * q.z == 0.0
            && -(tw * q.x) + tx * q.w - ty * q.z + tz * q.y == Dot3(r.x, v)
            && -(tw * q.y) + ty * q.w - tz * q.x + tx * q.z == Dot3(r.y, v)
            && -(tw * q.z) + tz * q.w - tx * q.y + ty * q.x == Dot3(r.z, v)
  {
    RotationEntries(q);
    hide QuaternionToRotationMatrix;
    TurnedScalar(q.w, q.x, q.y, q.z, v.x, v.y, v.z);
    TurnedPart(q.w, q.x, q.y, q.z, v.x, v.y, v.z);
    TurnedPart(q.w, q.y, q.z, q.x, v.y, v.z, v.x);
    TurnedPart(q.w, q.z, q.x, q.y, v.z, v.x, v.y);
    TurnWCycles(q.x, q.y, q.z, v.x, v.y, v.z);
    hide First, Second, Third, Times, TurnX, TurnW;
  }

  function TurnW(x: real, y: real, z: real, a: real, b: real, c: real): real {
    -(x * a + y * b + z * c)
  }

  function TurnX(w: real, x: real, y: real, z: real, a: real, b: real, c: real): real {
    w * a + y * c - z * b
  }

  lemma TurnWCycles(x: real, y: real, z: real, a: real, b: real, c: real)
    ensures TurnW(x, y, z, a, b, c) == TurnW(y, z, x, b, c, a) == TurnW(z, x, y, c, a, b)
  {
  }

  lemma TurnedOnce(q: Quat, v: Vec3)
    ensures QuaternionProduct(q, Quat(0.0, v.x, v.y, v.z))
         == Quat(TurnW(q.x, q.y, q.z, v.x, v.y, v.z), TurnX(q.w, q.x, q.y, q.z, v.x, v.y, v.z),
                 TurnX(q.w, q.y, q.z, q.x, v.y, v.z, v.x), TurnX(q.w, q.z, q.x, q.y, v.z, v.x, v.y))
  {
  }

  lemma ConjugateProduct(t: Quat, q: Quat)
    ensures QuaternionProduct(t, QuaternionConjugate(q))
         == Quat(t.w * q.w + t.x * q.x + t.y * q.y + t.z * q.z, -(t.w * q.x) + t.x * q.w - t.y * q.z + t.z * q.y,
                 -(t.w * q.y) + t.y * q.w - t.z * q.x + t.x * q.z, -(t.w * q.z) + t.z * q.w - t.x * q.y + t.y * q.x)
  {
  }

  lemma TurnedScalar(w: real, x: real, y: real, z: real, a: real, b: real, c: real)
    ensures TurnW(x, y, z, a, b, c) * w + TurnX(w, x, y, z, a, b, c) * x + TurnX(w, y, z, x, b, c, a) * y
            + TurnX(w, z, x, y, c, a, b) * z == 0.0
  {
  }

  lemma TurnedPart(w: real, x: real, y: real, z: real, a: real, b: real, c: real)
    ensures -(TurnW(x, y, z, a, b, c) * x) + TurnX(w, x, y, z, a, b, c) * w - TurnX(w, y, z, x, b, c, a) * z
            + TurnX(w, z, x, y, c, a, b) * y
         == Times(First(w, x, y, z), a) + Times(Second(w, x, y, z), b) + Times(Third(w, x, y, z), c)
  {
  }

  // Re-scaling gives the unit quaternion along q, or the identity when q is shorter than a millionth.
  lemma UnitExactly(q: Quat, sqrt: real -> real) returns (n: real)
    requires IsSqrt(sqrt)
    ensures n >= 0.0 && Times(n, n) == Norm2(q)
    ensures var u := QuaternionUnit(q, sqrt);
            if n < 0.000001 then u == Quat(1.0, 0.0, 0.0, 0.0)
            else Norm2(u) == 1.0 && q == Quat(n * u.w, n * u.x, n * u.y, n * u.z)
  {
    assert Norm2(q) >= 0.0;
    n := sqrt(Norm2(q));
    if n >= 0.000001 {
      var u := QuaternionUnit(q, sqrt);
      assert q == Quat(n * u.w, n * u.x, n * u.y, n * u.z);
      NormOfMultiple(n, u);
      assert n * n * (Norm2(u) - 1.0) == 0.0;
      ZeroFactor(n * n, Norm2(u) - 1.0);
    }
  }

  lemma NormOfMultiple(n: real, u: Quat)
    ensures Norm2(Quat(n * u.w, n * u.x, n * u.y, n * u.z)) == n * n * Norm2(u)
  {
  }

  // For every proper rotation the quaternion is a unit one and gives exactly that rotation back.
  lemma QuaternionOfRotation(r: Mat3, sqrt: real -> real)
    requires Rotation(r) && IsSqrt(sqrt)
    ensures Norm2(RotationMatrixToQuaternion(r, sqrt)) == 1.0
    ensures QuaternionToRotationMatrix(RotationMatrixToQuaternion(r, sqrt)) == r
  {
    hide Norm2, QuaternionToRotationMatrix, QuaternionUnit, UnscaledQuaternion, HasProducts, Rotation;
    UnscaledHasProducts(r, sqrt);
    ProductsGiveRotation(UnscaledQuaternion(r, sqrt), r);
    UnitStays(UnscaledQuaternion(r, sqrt), sqrt);
  }

  // ---- Axis mappings ----

  predicate Near(a: real, want: real) {
    Abs(a - want) <= ROTATION_TOLERANCE
  }

  predicate IsRotationMatrix(r: Mat3) {
    && Near(Dot3(r.x, r.x), 1.0) && Near(Dot3(r.x, r.y), 0.0) && Near(Dot3(r.x, r.z), 0.0)
    && Near(Dot3(r.y, r.y), 1.0) && Near(Dot3(r.y, r.z), 0.0)
    && Near(Dot3(r.z, r.z), 1.0)
    && Near(Det(r), 1.0)
  }

  function Unit(v: Vec3, sqrt: real -> real): Vec3
    requires Dot3(v, v) > 0.0 && IsSqrt(sqrt)
  {
    RootPositive(sqrt, Dot3(v, v));
    var n := sqrt(Dot3(v, v));
    Vec3(v.x / n, v.y / n, v.z / n)
  }

  // v without its part along the unit vector x
  function Across(v: Vec3, x: Vec3): Vec3 {
    var d := Dot3(v, x);
    Vec3(v.x - d * x.x, v.y - d * x.y, v.z - d * x.z)
  }

  lemma QuotientNorm(a: real, b: real, c: real, n: real)
    requires n > 0.0 && Times(n, n) == Times(a, a) + Times(b, b) + Times(c, c)
    ensures Times(a / n, a / n) + Times(b / n, b / n) + Times(c / n, c / n) == 1.0
  {
    hide Times;
    var x, y, z := a / n, b / n, c / n;
    assert x * n == a && y * n == b && z * n == c;
    var t, nn := Times(x, x) + Times(y, y) + Times(z, z), Times(n, n);
    SquaredQuotient(x, n, a);
    SquaredQuotient(y, n, b);
    SquaredQuotient(z, n, c);
    TimesSign(n, n);
    assert t * nn == Times(x, x) * nn + Times(y, y) * nn + Times(z, z) * nn;
  }

  lemma SquaredQuotient(x: real, n: real, a: real)
    requires x * n == a
    ensures Times(x, x) * Times(n, n) == Times(a, a)
  {
    assert (x * x) * (n * n) == (x * n) * (x * n);
  }

  lemma UnitNorm(v: Vec3, sqrt: real -> real)
    requires Dot3(v, v) > 0.0 && IsSqrt(sqrt)
    ensures Dot3(Unit(v, sqrt), Unit(v, sqrt)) == 1.0
  {
    hide Times;
    RootPositive(sqrt, Dot3(v, v));
    QuotientNorm(v.x, v.y, v.z, sqrt(Dot3(v, v)));
  }

  lemma UnitDot(v: Vec3, w: Vec3, sqrt: real -> real)
    requires Dot3(v, v) > 0.0 && IsSqrt(sqrt)
    ensures var n := sqrt(Dot3(v, v)); n > 0.0 && Dot3(Unit(v, sqrt), w) * n == Dot3(v, w)
  {
    RootPositive(sqrt, Dot3(v, v));
    var n := sqrt(Dot3(v, v));
    hide Times;
    QuotientDot(v.x, v.y, v.z, w.x, w.y, w.z, n);
  }

  lemma QuotientDot(a: real, b: real, c: real, d: real, e: real, f: real, n: real)
    requires n > 0.0
    ensures (Times(a / n, d) + Times(b / n, e) + Times(c / n, f)) * n == Times(a, d) + Times(b, e) + Times(c, f)
  {
    var x, y, z := a / n, b / n, c / n;
    assert x * n == a && y * n == b && z * n == c;
    assert (x * d + y * e + z * f) * n == (x * n) * d + (y * n) * e + (z * n) * f;
  }

  lemma AcrossDots(v: Vec3, x: Vec3)
    requires Dot3(x, x) == 1.0
    ensures Dot3(Across(v, x), x) == 0.0
    ensures Dot3(Across(v, x), Across(v, x)) == Dot3(v, v) - Times(Dot3(v, x), Dot3(v, x))
  {
    hide Times;
    var d, a := Dot3(v, x), Across(v, x);
    AcrossIdentity(v.x, v.y, v.z, x.x, x.y, x.z, d, a.x, a.y, a.z);
  }

  lemma AcrossIdentity(
    a: real, b: real, c: real, x: real, y: real, z: real, d: real, p: real, q: real, r: real)
    requires d == Times(a, x) + Times(b, y) + Times(c, z)
    requires Times(x, x) + Times(y, y) + Times(z, z) == 1.0
    requires p == a - d * x && q == b - d * y && r == c - d * z
    ensures Times(p, x) + Times(q, y) + Times(r, z) == 0.0
    ensures Times(p, p) + Times(q, q) + Times(r, r) == Times(a, a) + Times(b, b) + Times(c, c) - Times(d, d)
  {
    assert d * (x * x + y * y + z * z) == d;
    assert d * d * (x * x + y * y + z * z) == d * d;
    assert d * d == d * (a * x + b * y + c * z);
  }

  // What makes the Gram-Schmidt steps of the source defined.
  ghost predicate CanOrthonormalize(r: Mat3, sqrt: real -> real) {
    && IsSqrt(sqrt) && Dot3(r.x, r.x) > 0.0
    && var y := Across(r.y, Unit(r.x, sqrt)); Dot3(y, y) > 0.0
  }

  function Orthonormalize(r: Mat3, sqrt: real -> real): Mat3
    requires CanOrthonormalize(r, sqrt)
  {
    var x := Unit(r.x, sqrt);
    var y := Unit(Across(r.y, x), sqrt);
    Mat3(x, y, Cross(x, y))
  }

  lemma SmallPart(d: real, n: real, nn: real, e: real)
    requires n > 0.0 && Times(n, n) == nn && nn >= 0.99 && d * n == e && -0.01 <= e <= 0.01
    ensures Times(d, d) <= 0.01
  {
    SquaredQuotient(d, n, e);
    assert Times(e, e) <= 0.0001 by {
      TimesSign(0.01 - e, 0.01 + e);
      assert Times(0.01 - e, 0.01 + e) == 0.0001 - Times(e, e);
    }
    var dd := Times(d, d);
    if dd > 0.01 {
      TimesLess(nn, 0.01, dd);
    }
  }

  // Every mapping the source accepts can be orthonormalized: no division by zero.
  lemma AcceptedCanOrthonormalize(r: Mat3, sqrt: real -> real)
    requires IsRotationMatrix(r) && IsSqrt(sqrt)
    ensures CanOrthonormalize(r, sqrt)
  {
    hide Times, Dot3, Unit, Across, Det;
    RootPositive(sqrt, Dot3(r.x, r.x));
    var x, n := Unit(r.x, sqrt), sqrt(Dot3(r.x, r.x));
    UnitNorm(r.x, sqrt);
    UnitDot(r.x, r.y, sqrt);
    DotSwap(r.y, x);
    SmallPart(Dot3(r.y, x), n, Dot3(r.x, r.x), Dot3(r.x, r.y));
    AcrossDots(r.y, x);
  }

  lemma DotSwap(u: Vec3, v: Vec3)
    ensures Dot3(u, v) == Dot3(v, u)
  {
  }

  lemma CrossOfUnits(a: real, b: real, c: real, d: real, e: real, f: real)
    requires a * a + b * b + c * c == 1.0 && d * d + e * e + f * f == 1.0 && a * d + b * e + c * f == 0.0
    ensures var g, h, i := b * f - c * e, c * d - a * f, a * e - b * d;
            && g * g + h * h + i * i == 1.0 && a * g + b * h + c * i == 0.0 && d * g + e * h + f * i == 0.0
            && a * (e * i - f * h) - b * (d * i - f * g) + c * (d * h - e * g) == 1.0
  {
    CrossSquare(a, b, c, d, e, f);
    assert Times(a * a + b * b + c * c, d * d + e * e + f * f) == 1.0;
    assert Times(a * d + b * e + c * f, a * d + b * e + c * f) == 0.0;
    var g, h, i := b * f - c * e, c * d - a * f, a * e - b * d;
    assert a * (e * i - f * h) - b * (d * i - f * g) + c * (d * h - e * g) == g * g + h * h + i * i;
  }

  lemma CrossSquare(a: real, b: real, c: real, d: real, e: real, f: real)
    ensures (b * f - c * e) * (b * f - c * e) + (c * d - a * f) * (c * d - a * f) + (a * e - b * d) * (a * e - b * d)
         == Times(a * a + b * b + c * c, d * d + e * e + f * f) - Times(a * d + b * e + c * f, a * d + b * e + c * f)
  {
  }

  lemma CrossCompletes(x: Vec3, y: Vec3)
    requires Dot3(x, x) == 1.0 && Dot3(y, y) == 1.0 && Dot3(x, y) == 0.0
    ensures Rotation(Mat3(x, y, Cross(x, y)))
  {
    CrossOfUnits(x.x, x.y, x.z, y.x, y.y, y.z);
  }

  // The result is an exact proper rotation.
  lemma OrthonormalizeIsRotation(r: Mat3, sqrt: real -> real)
    requires CanOrthonormalize(r, sqrt)
    ensures Rotation(Orthonormalize(r, sqrt))
  {
    hide Times, Dot3, Unit, Across, Cross, Rotation;
    var x := Unit(r.x, sqrt);
    var a := Across(r.y, x);
    UnitNorm(r.x, sqrt);
    UnitNorm(a, sqrt);
    AcrossDots(r.y, x);
    UnitDot(a, x, sqrt);
    var y := Unit(a, sqrt);
    DotSwap(x, y);
    ZeroFactor(sqrt(Dot3(a, a)), Dot3(y, x));
    CrossCompletes(x, y);
  }

  function MagAxisMappingToQuaternion(mx: Vec3, my: Vec3, mz: Vec3, sqrt: real -> real): (q: Option<Quat>)
    requires IsSqrt(sqrt)
  {
    var r := Mat3(mx, my, mz);
    if !IsRotationMatrix(r) then None
    else
      AcceptedCanOrthonormalize(r, sqrt);
      Some(RotationMatrixToQuaternion(Orthonormalize(r, sqrt), sqrt))
  }

  // Every accepted mapping becomes a unit quaternion that rotates exactly by the orthonormalized rows.
  lemma MappingQuaternion(mx: Vec3, my: Vec3, mz: Vec3, sqrt: real -> real)
    requires IsSqrt(sqrt) && MagAxisMappingToQuaternion(mx, my, mz, sqrt).Some?
    ensures var r, q := Mat3(mx, my, mz), MagAxisMappingToQuaternion(mx, my, mz, sqrt).value;
            && CanOrthonormalize(r, sqrt)
            && Norm2(q) == 1.0
            && QuaternionToRotationMatrix(q) == Orthonormalize(r, sqrt)
            && Rotation(Orthonormalize(r, sqrt))
  {
    hide CanOrthonormalize, Orthonormalize, IsRotationMatrix,
         RotationMatrixToQuaternion, QuaternionToRotationMatrix, Norm2, Rotation;
    var r := Mat3(mx, my, mz);
    AcceptedCanOrthonormalize(r, sqrt);
    OrthonormalizeIsRotation(r, sqrt);
    QuaternionOfRotation(Orthonormalize(r, sqrt), sqrt);
  }

  // An exact rotation is accepted and kept as it is, a mounting turned by 180 degrees included.
  lemma ExactMapping(r: Mat3, sqrt: real -> real)
    requires Rotation(r) && IsSqrt(sqrt)
    ensures var q := MagAxisMappingToQuaternion(r.x, r.y, r.z, sqrt);
            q.Some? && QuaternionToRotationMatrix(q.value) == r
  {
    hide Times, Det, QuaternionToRotationMatrix, RotationMatrixToQuaternion;
    AcceptedCanOrthonormalize(r, sqrt);
    assert Orthonormalize(r, sqrt) == r by {
      OrthonormalStays(r, sqrt);
    }
    QuaternionOfRotation(r, sqrt);
  }

  // A mapping is accepted exactly when its rows are orthonormal and its determinant is 1 to within 0.01.
  lemma AcceptedExactly(mx: Vec3, my: Vec3, mz: Vec3, sqrt: real -> real)
    requires IsSqrt(sqrt)
    ensures MagAxisMappingToQuaternion(mx, my, mz, sqrt).Some? <==>
            && -0.01 <= Dot3(mx, mx) - 1.0 <= 0.01 && -0.01 <= Dot3(my, my) - 1.0 <= 0.01
            && -0.01 <= Dot3(mz, mz) - 1.0 <= 0.01
            && -0.01 <= Dot3(mx, my) <= 0.01 && -0.01 <= Dot3(mx, mz) <= 0.01 && -0.01 <= Dot3(my, mz) <= 0.01
            && -0.01 <= Det(Mat3(mx, my, mz)) - 1.0 <= 0.01
  {
    hide Dot3, Det, RotationMatrixToQuaternion, Orthonormalize;
  }

  function Multiple(n: real, u: Vec3): Vec3 {
    Vec3(n * u.x, n * u.y, n * u.z)
  }

  function Combined(n: real, u: Vec3, m: real, v: Vec3): Vec3 {
    Vec3(n * u.x + m * v.x, n * u.y + m * v.y, n * u.z + m * v.z)
  }

  // s is a rotation that turns the first axis along the first row of r, and the second one into the plane
  // of the first two rows, on the side of the second.
  ghost predicate Frames(r: Mat3, s: Mat3) {
    && Rotation(s)
    && (exists n :: n > 0.0 && r.x == Multiple(n, s.x))
    && (exists d, m :: m > 0.0 && r.y == Combined(d, s.x, m, s.y))
  }

  // The orthonormalized rows are the only such rotation.
  lemma OrthonormalizeExactly(r: Mat3, s: Mat3, sqrt: real -> real)
    requires CanOrthonormalize(r, sqrt)
    ensures s == Orthonormalize(r, sqrt) <==> Frames(r, s)
  {
    hide Rotation, Dot3, Unit, Across, Cross, Combined, Multiple;
    if s == Orthonormalize(r, sqrt) {
      OrthonormalizeIsRotation(r, sqrt);
      var a := Across(r.y, s.x);
      UnitTimes(r.x, sqrt);
      UnitTimes(a, sqrt);
      AcrossParts(r.y, s.x, sqrt(Dot3(a, a)), s.y);
    }
    if Frames(r, s) {
      var n :| n > 0.0 && r.x == Multiple(n, s.x);
      var d, m :| m > 0.0 && r.y == Combined(d, s.x, m, s.y);
      FramesBack(r, s, n, d, m, sqrt);
    }
  }

  lemma UnitTimes(v: Vec3, sqrt: real -> real)
    requires Dot3(v, v) > 0.0 && IsSqrt(sqrt)
    ensures var n, u := sqrt(Dot3(v, v)), Unit(v, sqrt);
            n > 0.0 && v == Multiple(n, u)
  {
    hide Dot3;
    RootPositive(sqrt, Dot3(v, v));
  }

  lemma AcrossParts(v: Vec3, x: Vec3, m: real, y: Vec3)
    requires Across(v, x) == Multiple(m, y)
    ensures v == Combined(Dot3(v, x), x, m, y)
  {
    hide Dot3;
  }

  lemma FramesBack(r: Mat3, s: Mat3, n: real, d: real, m: real, sqrt: real -> real)
    requires CanOrthonormalize(r, sqrt) && Rotation(s) && n > 0.0 && m > 0.0
    requires r.x == Multiple(n, s.x) && r.y == Combined(d, s.x, m, s.y)
    ensures s == Orthonormalize(r, sqrt)
  {
    hide Dot3, Unit, Across, Cross, Combined, Multiple;
    UnitOfMultiple(s.x, n, sqrt);
    CombinedDot(d, s.x, m, s.y);
    AcrossCombined(d, s.x, m, s.y);
    UnitOfMultiple(s.y, m, sqrt);
    CrossOfRotation(s);
  }

  lemma CrossOfRotation(s: Mat3)
    requires Rotation(s)
    ensures Cross(s.x, s.y) == s.z
  {
    RotationHasFacts(s);
    hide Rotation, Facts;
    LastRow(s.x.x, s.x.y, s.x.z, s.y.x, s.y.y, s.y.z, s.z.x, s.z.y, s.z.z);
    var c := Cross(s.x, s.y);
    assert c.x == s.z.x && c.y == s.z.y && c.z == s.z.z;
  }

  lemma LastRow(a: real, b: real, c: real, d: real, e: real, f: real, g: real, h: real, i: real)
    requires Facts(a, b, c, d, e, f, g, h, i)
    ensures b * f - c * e == g && c * d - a * f == h && a * e - b * d == i
  {
  }

  lemma CombinedDot(d: real, u: Vec3, m: real, v: Vec3)
    requires Dot3(u, u) == 1.0 && Dot3(u, v) == 0.0
    ensures Dot3(Combined(d, u, m, v), u) == d
  {
    assert (d * u.x + m * v.x) * u.x + (d * u.y + m * v.y) * u.y + (d * u.z + m * v.z) * u.z
        == d * (u.x * u.x + u.y * u.y + u.z * u.z) + m * (u.x * v.x + u.y * v.y + u.z * v.z);
  }

  lemma AcrossCombined(d: real, u: Vec3, m: real, v: Vec3)
    requires Dot3(Combined(d, u, m, v), u) == d
    ensures Across(Combined(d, u, m, v), u) == Multiple(m, v)
  {
    hide Dot3;
  }

  lemma UnitOfMultiple(u: Vec3, n: real, sqrt: real -> real)
    requires Dot3(u, u) == 1.0 && n > 0.0 && IsSqrt(sqrt)
    ensures Dot3(Multiple(n, u), Multiple(n, u)) > 0.0 && Unit(Multiple(n, u), sqrt) == u
  {
    DotOfMultiple(n, u);
    RootOf(sqrt, n);
    TimesSign(n, n);
    hide Times, Dot3;
    OnlyMultiple(n, u.x);
    OnlyMultiple(n, u.y);
    OnlyMultiple(n, u.z);
  }

  lemma DotOfMultiple(n: real, u: Vec3)
    requires Dot3(u, u) == 1.0
    ensures Dot3(Multiple(n, u), Multiple(n, u)) == Times(n, n)
  {
    hide Times;
    var v := Multiple(n, u);
    MultipleNorm(n, u.x, u.y, u.z);
    SameDot(v, n * u.x, n * u.y, n * u.z);
  }

  lemma SameDot(v: Vec3, a: real, b: real, c: real)
    requires v.x == a && v.y == b && v.z == c
    ensures Dot3(v, v) == Times(a, a) + Times(b, b) + Times(c, c)
  {
  }

  lemma MultipleNorm(n: real, a: real, b: real, c: real)
    requires Times(a, a) + Times(b, b) + Times(c, c) == 1.0
    ensures Times(n * a, n * a) + Times(n * b, n * b) + Times(n * c, n * c) == Times(n, n)
  {
    assert n * a * (n * a) + n * b * (n * b) + n * c * (n * c) == n * n * (a * a + b * b + c * c);
  }

  lemma OnlyMultiple(n: real, x: real)
    requires n > 0.0
    ensures n * x / n == x
  {
  }

  lemma UnitKeeps(v: Vec3, sqrt: real -> real)
    requires Dot3(v, v) == 1.0 && IsSqrt(sqrt)
    ensures Unit(v, sqrt) == v
  {
    assert Times(1.0, 1.0) == 1.0;
    RootOf(sqrt, 1.0);
  }

  lemma OrthonormalStays(r: Mat3, sqrt: real -> real)
    requires Rotation(r) && CanOrthonormalize(r, sqrt)
    ensures Orthonormalize(r, sqrt) == r
  {
    hide Times, Dot3, Unit;
    UnitKeeps(r.x, sqrt);
    DotSwap(r.y, r.x);
    assert Across(r.y, r.x) == r.y;
    UnitKeeps(r.y, sqrt);
    assert Cross(r.x, r.y) == r.z by {
      RotationHasFacts(r);
    }
  }

  // ---- Only proper rotations have a quaternion, and it is unique up to its sign ----

  function QuaternionConjugate(q: Quat): Quat {
    Quat(q.w, -q.x, -q.y, -q.z)
  }

  lemma ConjugateTurnsBack(q: Quat)
    ensures QuaternionProduct(q, QuaternionConjugate(q)) == Quat(Norm2(q), 0.0, 0.0, 0.0)
  {
  }

  lemma ConjugateEntries(w: real, x: real, y: real, z: real)
    ensures First(w, -x, -y, -z) == First(w, x, y, z)
    ensures Second(w, -x, -y, -z) == Third(w, y, z, x)
    ensures Third(w, -x, -y, -z) == Second(w, z, x, y)
  {
  }

  lemma ConjugateIsTransposed(q: Quat)
    ensures QuaternionToRotationMatrix(QuaternionConjugate(q)) == Columns(QuaternionToRotationMatrix(q))
  {
    hide QuaternionToRotationMatrix, First, Second, Third;
    RotationEntries(q);
    RotationEntries(QuaternionConjugate(q));
    ConjugateEntries(q.w, q.x, q.y, q.z);
    ConjugateEntries(q.w, q.y, q.z, q.x);
    ConjugateEntries(q.w, q.z, q.x, q.y);
  }

  lemma CrossOfRows(w: real, x: real, y: real, z: real)
    ensures var n := w * w + x * x + y * y + z * z;
            && Times(Second(w, x, y, z), Second(w, y, z, x)) - Times(Third(w, x, y, z), First(w, y, z, x))
               == Times(n, Second(w, z, x, y))
            && Times(Third(w, x, y, z), Third(w, y, z, x)) - Times(First(w, x, y, z), Second(w, y, z, x))
               == Times(n, Third(w, z, x, y))
            && Times(First(w, x, y, z), First(w, y, z, x)) - Times(Second(w, x, y, z), Third(w, y, z, x))
               == Times(n, First(w, z, x, y))
  {
    assert Times(2.0 * (-w * z + x * y), 2.0 * (-w * x + y * z))
           - Times(2.0 * (w * y + x * z), w * w + y * y - z * z - x * x)
        == Times(w * w + x * x + y * y + z * z, 2.0 * (-w * y + z * x));
    assert Times(2.0 * (w * y + x * z), 2.0 * (w * z + y * x))
           - Times(w * w + x * x - y * y - z * z, 2.0 * (-w * x + y * z))
        == Times(w * w + x * x + y * y + z * z, 2.0 * (w * x + z * y));
    assert Times(w * w + x * x - y * y - z * z, w * w + y * y - z * z - x * x)
           - Times(2.0 * (-w * z + x * y), 2.0 * (w * z + y * x))
        == Times(w * w + x * x + y * y + z * z, w * w + z * z - x * x - y * y);
  }

  // The rotation matrix of a unit quaternion is a proper rotation.
  lemma UnitQuaternionRotates(q: Quat)
    requires Norm2(q) == 1.0
    ensures Rotation(QuaternionToRotationMatrix(q))
  {
    hide QuaternionToRotationMatrix, QuaternionProduct, QuaternionConjugate, Norm2, Times, Det, Columns;
    var r := QuaternionToRotationMatrix(q);
    RotationOfProduct(q, QuaternionConjugate(q));
    ConjugateTurnsBack(q);
    ConjugateIsTransposed(q);
    IdentityQuaternion();
    RowProducts(r);
    assert Cross(r.x, r.y) == r.z by {
      ThirdRow(q);
    }
    DetByCross(r);
  }

  lemma IdentityQuaternion()
    ensures QuaternionToRotationMatrix(Quat(1.0, 0.0, 0.0, 0.0))
         == Mat3(Vec3(1.0, 0.0, 0.0), Vec3(0.0, 1.0, 0.0), Vec3(0.0, 0.0, 1.0))
  {
  }

  lemma RowProducts(r: Mat3)
    ensures MatTimes(r, Columns(r))
         == Mat3(Vec3(Dot3(r.x, r.x), Dot3(r.x, r.y), Dot3(r.x, r.z)),
                 Vec3(Dot3(r.y, r.x), Dot3(r.y, r.y), Dot3(r.y, r.z)),
                 Vec3(Dot3(r.z, r.x), Dot3(r.z, r.y), Dot3(r.z, r.z)))
  {
  }

  lemma ThirdRow(q: Quat)
    requires Norm2(q) == 1.0
    ensures var r := QuaternionToRotationMatrix(q); Cross(r.x, r.y) == r.z
  {
    hide QuaternionToRotationMatrix, First, Second, Third;
    RotationEntries(q);
    CrossOfRows(q.w, q.x, q.y, q.z);
  }

  lemma DetByCross(r: Mat3)
    ensures Det(r) == Dot3(r.z, Cross(r.x, r.y))
  {
  }

  // A reflection has no quaternion, and the source reports it.
  lemma ReflectionRejected(r: Mat3, q: Quat, sqrt: real -> real)
    requires Det(r) == -1.0 && Norm2(q) == 1.0 && IsSqrt(sqrt)
    ensures QuaternionToRotationMatrix(q) != r
    ensures MagAxisMappingToQuaternion(r.x, r.y, r.z, sqrt) == None
  {
    hide QuaternionToRotationMatrix, Norm2, Dot3, Det, Orthonormalize;
    UnitQuaternionRotates(q);
  }

  function Negated(q: Quat): Quat {
    Quat(-q.w, -q.x, -q.y, -q.z)
  }

  lemma UnitHasProducts(q: Quat)
    requires Norm2(q) == 1.0
    ensures HasProducts(q, ProductsOf(QuaternionToRotationMatrix(q)))
  {
    hide First, Second, Third, Times, QuaternionToRotationMatrix, Norm2;
    RotationEntries(q);
    NormByProducts(q);
    EntriesByProducts(q.w, q.x, q.y, q.z);
    EntriesByProducts(q.w, q.y, q.z, q.x);
    EntriesByProducts(q.w, q.z, q.x, q.y);
    TimesSwap(q.x, q.y);
    TimesSwap(q.x, q.z);
    TimesSwap(q.y, q.z);
  }

  lemma SameSquare(a: real, b: real)
    requires Times(a, a) == Times(b, b)
    ensures a == b || a == -b
  {
    if 0.0 <= a {
      if 0.0 <= b {
        EqualSquares(a, b);
      } else {
        assert Times(-b, -b) == Times(b, b);
        EqualSquares(a, -b);
      }
    } else {
      assert Times(-a, -a) == Times(a, a);
      if 0.0 <= b {
        EqualSquares(-a, b);
      } else {
        assert Times(-b, -b) == Times(b, b);
        EqualSquares(-a, -b);
      }
    }
  }

  lemma EqualSquares(a: real, b: real)
    requires 0.0 <= a && 0.0 <= b && Times(a, a) == Times(b, b)
    ensures a == b
  {
    if a < b {
      LargerSquare(a, b);
    } else if b < a {
      LargerSquare(b, a);
    }
  }

  lemma SameFactor(a: real, b: real, c: real)
    requires a != 0.0
    ensures Times(a, b) == Times(a, c) ==> b == c
    ensures Times(a, b) == Times(-a, c) ==> b == -c
  {
    if Times(a, b) == Times(a, c) {
      assert a * (b - c) == 0.0;
    }
    if Times(a, b) == Times(-a, c) {
      assert a * (b + c) == 0.0;
    }
  }

  // Two unit quaternions of one rotation differ at most in sign.
  lemma SameRotation(q: Quat, p: Quat)
    requires Norm2(q) == 1.0 && Norm2(p) == 1.0
    requires QuaternionToRotationMatrix(q) == QuaternionToRotationMatrix(p)
    ensures p == q || p == Negated(q)
  {
    hide QuaternionToRotationMatrix, Times, ProductsOf;
    UnitHasProducts(q);
    UnitHasProducts(p);
    NonZeroComponent(q);
    if q.w != 0.0 {
      SameSquare(p.w, q.w);
      SameFactor(q.w, q.x, p.x);
      SameFactor(q.w, q.y, p.y);
      SameFactor(q.w, q.z, p.z);
    } else if q.x != 0.0 {
      SameSquare(p.x, q.x);
      SwapProducts(q.x, q.w, p.x, p.w);
      SameFactor(q.x, q.w, p.w);
      SameFactor(q.x, q.y, p.y);
      SameFactor(q.x, q.z, p.z);
    } else if q.y != 0.0 {
      SameSquare(p.y, q.y);
      SwapProducts(q.y, q.w, p.y, p.w);
      SwapProducts(q.y, q.x, p.y, p.x);
      SameFactor(q.y, q.w, p.w);
      SameFactor(q.y, q.x, p.x);
      SameFactor(q.y, q.z, p.z);
    } else {
      SameSquare(p.z, q.z);
      SwapProducts(q.z, q.w, p.z, p.w);
      SwapProducts(q.z, q.x, p.z, p.x);
      SwapProducts(q.z, q.y, p.z, p.y);
      SameFactor(q.z, q.w, p.w);
      SameFactor(q.z, q.x, p.x);
      SameFactor(q.z, q.y, p.y);
    }
  }

  lemma NonZeroComponent(q: Quat)
    requires Norm2(q) == 1.0
    ensures q.w != 0.0 || q.x != 0.0 || q.y != 0.0 || q.z != 0.0
  {
  }

  lemma SwapProducts(a: real, b: real, c: real, d: real)
    ensures Times(a, b) == Times(b, a) && Times(c, d) == Times(d, c)
  {
  }

  // Converting a unit quaternion to a matrix and back gives it or its negative, the same rotation.
  lemma RoundTrip(q: Quat, sqrt: real -> real)
    requires Norm2(q) == 1.0 && IsSqrt(sqrt)
    ensures RotationMatrixToQuaternion(QuaternionToRotationMatrix(q), sqrt) in {q, Negated(q)}
  {
    hide QuaternionToRotationMatrix, RotationMatrixToQuaternion, Norm2, Rotation;
    UnitQuaternionRotates(q);
    QuaternionOfRotation(QuaternionToRotationMatrix(q), sqrt);
    SameRotation(q, RotationMatrixToQuaternion(QuaternionToRotationMatrix(q), sqrt));
  }

  // ---- The calibration of a sample ----

  datatype Envelope = Envelope(minX: real, maxX: real, minY: real, maxY: real, minZ: real, maxZ: real)

  // One axis: a range that never moved is replaced by 1.
  function Calibrated(v: real, lo: real, hi: real): real {
    var off, rng := (hi + lo) * 0.5, (hi - lo) * 0.5;
    if Abs(rng) < EPS then (v - off) / 1.0 else (v - off) / rng
  }

  // CalibrateFromMag without normalisation
  function CalibrateFromMag(v: Vec3, e: Envelope): Vec3 {
    Vec3(Calibrated(v.x, e.minX, e.maxX), Calibrated(v.y, e.minY, e.maxY), Calibrated(v.z, e.minZ, e.maxZ))
  }
}
