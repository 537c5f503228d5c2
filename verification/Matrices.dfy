/**
  4x4 matrices as the test library stores them: sixteen numbers, column after column.  Over exact
  real numbers, the product, the transpose and the cofactor inverse satisfy the laws of matrices.
 */
module Matrices {

  datatype Vec = Vec(x: real, y: real, z: real, w: real)

  /** The columns; row `r` of column `c` is stored at `4 * c + r`. */
  datatype Mat = Mat(p: Vec, q: Vec, r: Vec, t: Vec)

  /** The constructor takes its arguments row by row. */
  function FromRows(a: Vec, b: Vec, c: Vec, d: Vec): Mat {
    Mat(Vec(a.x, b.x, c.x, d.x), Vec(a.y, b.y, c.y, d.y), Vec(a.z, b.z, c.z, d.z), Vec(a.w, b.w, c.w, d.w))
  }

  const IDENTITY :=
    FromRows(Vec(1.0, 0.0, 0.0, 0.0), Vec(0.0, 1.0, 0.0, 0.0), Vec(0.0, 0.0, 1.0, 0.0), Vec(0.0, 0.0, 0.0, 1.0))

  function Transpose(m: Mat): Mat {
    FromRows(m.p, m.q, m.r, m.t)
  }

  function Scaled(x: real, s: real): real {
    x * s
  }

  function Times(u: Vec, s: real): Vec {
    Vec(Scaled(u.x, s), Scaled(u.y, s), Scaled(u.z, s), Scaled(u.w, s))
  }

  function Scale(m: Mat, s: real): Mat {
    Mat(Times(m.p, s), Times(m.q, s), Times(m.r, s), Times(m.t, s))
  }

  /** A matrix times a vector. */
  function Apply(a: Mat, v: Vec): Vec {
    Vec(a.p.x * v.x + a.q.x * v.y + a.r.x * v.z + a.t.x * v.w,
        a.p.y * v.x + a.q.y * v.y + a.r.y * v.z + a.t.y * v.w,
        a.p.z * v.x + a.q.z * v.y + a.r.z * v.z + a.t.z * v.w,
        a.p.w * v.x + a.q.w * v.y + a.r.w * v.z + a.t.w * v.w)
  }

  function Mul(a: Mat, b: Mat): Mat {
    Mat(Apply(a, b.p), Apply(a, b.q), Apply(a, b.r), Apply(a, b.t))
  }

  function CofactorRow0(m: Mat): Vec {
    Vec(m.q.y * m.r.z * m.t.w - m.q.y * m.r.w * m.t.z - m.r.y * m.q.z * m.t.w
          + m.r.y * m.q.w * m.t.z + m.t.y * m.q.z * m.r.w - m.t.y * m.q.w * m.r.z,
        -m.q.x * m.r.z * m.t.w + m.q.x * m.r.w * m.t.z + m.r.x * m.q.z * m.t.w
          - m.r.x * m.q.w * m.t.z - m.t.x * m.q.z * m.r.w + m.t.x * m.q.w * m.r.z,
        m.q.x * m.r.y * m.t.w - m.q.x * m.r.w * m.t.y - m.r.x * m.q.y * m.t.w
          + m.r.x * m.q.w * m.t.y + m.t.x * m.q.y * m.r.w - m.t.x * m.q.w * m.r.y,
        -m.q.x * m.r.y * m.t.z + m.q.x * m.r.z * m.t.y + m.r.x * m.q.y * m.t.z
          - m.r.x * m.q.z * m.t.y - m.t.x * m.q.y * m.r.z + m.t.x * m.q.z * m.r.y)
  }

  function CofactorRow1(m: Mat): Vec {
    Vec(-m.p.y * m.r.z * m.t.w + m.p.y * m.r.w * m.t.z + m.r.y * m.p.z * m.t.w
          - m.r.y * m.p.w * m.t.z - m.t.y * m.p.z * m.r.w + m.t.y * m.p.w * m.r.z,
        m.p.x * m.r.z * m.t.w - m.p.x * m.r.w * m.t.z - m.r.x * m.p.z * m.t.w
          + m.r.x * m.p.w * m.t.z + m.t.x * m.p.z * m.r.w - m.t.x * m.p.w * m.r.z,
        -m.p.x * m.r.y * m.t.w + m.p.x * m.r.w * m.t.y + m.r.x * m.p.y * m.t.w
          - m.r.x * m.p.w * m.t.y - m.t.x * m.p.y * m.r.w + m.t.x * m.p.w * m.r.y,
        m.p.x * m.r.y * m.t.z - m.p.x * m.r.z * m.t.y - m.r.x * m.p.y * m.t.z
          + m.r.x * m.p.z * m.t.y + m.t.x * m.p.y * m.r.z - m.t.x * m.p.z * m.r.y)
  }

  function CofactorRow2(m: Mat): Vec {
    Vec(m.p.y * m.q.z * m.t.w - m.p.y * m.q.w * m.t.z - m.q.y * m.p.z * m.t.w
          + m.q.y * m.p.w * m.t.z + m.t.y * m.p.z * m.q.w - m.t.y * m.p.w * m.q.z,
        -m.p.x * m.q.z * m.t.w + m.p.x * m.q.w * m.t.z + m.q.x * m.p.z * m.t.w
          - m.q.x * m.p.w * m.t.z - m.t.x * m.p.z * m.q.w + m.t.x * m.p.w * m.q.z,
        m.p.x * m.q.y * m.t.w - m.p.x * m.q.w * m.t.y - m.q.x * m.p.y * m.t.w
          + m.q.x * m.p.w * m.t.y + m.t.x * m.p.y * m.q.w - m.t.x * m.p.w * m.q.y,
        -m.p.x * m.q.y * m.t.z + m.p.x * m.q.z * m.t.y + m.q.x * m.p.y * m.t.z
          - m.q.x * m.p.z * m.t.y - m.t.x * m.p.y * m.q.z + m.t.x * m.p.z * m.q.y)
  }

  function CofactorRow3(m: Mat): Vec {
    Vec(-m.p.y * m.q.z * m.r.w + m.p.y * m.q.w * m.r.z + m.q.y * m.p.z * m.r.w
          - m.q.y * m.p.w * m.r.z - m.r.y * m.p.z * m.q.w + m.r.y * m.p.w * m.q.z,
        m.p.x * m.q.z * m.r.w - m.p.x * m.q.w * m.r.z - m.q.x * m.p.z * m.r.w
          + m.q.x * m.p.w * m.r.z + m.r.x * m.p.z * m.q.w - m.r.x * m.p.w * m.q.z,
        -m.p.x * m.q.y * m.r.w + m.p.x * m.q.w * m.r.y + m.q.x * m.p.y * m.r.w
          - m.q.x * m.p.w * m.r.y - m.r.x * m.p.y * m.q.w + m.r.x * m.p.w * m.q.y,
        m.p.x * m.q.y * m.r.z - m.p.x * m.q.z * m.r.y - m.q.x * m.p.y * m.r.z
          + m.q.x * m.p.z * m.r.y + m.r.x * m.p.y * m.q.z - m.r.x * m.p.z * m.q.y)
  }

  /** The matrix of cofactors, transposed. */
  function Cofactors(m: Mat): Mat {
    FromRows(CofactorRow0(m), CofactorRow1(m), CofactorRow2(m), CofactorRow3(m))
  }

  function Dot(u: Vec, v: Vec): real {
    u.x * v.x + u.y * v.y + u.z * v.z + u.w * v.w
  }

  function Det(m: Mat): real {
    Dot(m.p, CofactorRow0(m))
  }

  /** The inverse; a singular matrix gives the identity. */
  function Inverse(m: Mat): Mat {
    if Det(m) != 0.0 then Scale(Cofactors(m), 1.0 / Det(m)) else IDENTITY
  }

  // ----- minors

  function Neg(u: Vec): Vec {
    Vec(-u.x, -u.y, -u.z, -u.w)
  }

  /** The six 2x2 minors of two columns. */
  datatype Minors = Minors(m01: real, m02: real, m03: real, m12: real, m13: real, m23: real)

  function Minor(a: real, b: real, c: real, d: real): real {
    a * d - b * c
  }

  function Wedge(u: Vec, v: Vec): Minors {
    Minors(Minor(u.x, u.y, v.x, v.y), Minor(u.x, u.z, v.x, v.z), Minor(u.x, u.w, v.x, v.w),
           Minor(u.y, u.z, v.y, v.z), Minor(u.y, u.w, v.y, v.w), Minor(u.z, u.w, v.z, v.w))
  }

  /** The Laplace expansion along two columns. */
  function Pair(a: Minors, b: Minors): real {
    HalfPair(a, b) + HalfPair(b, a)
  }

  function HalfPair(a: Minors, b: Minors): real {
    a.m01 * b.m23 - a.m02 * b.m13 + a.m03 * b.m12
  }

  /** The vector that is orthogonal to the three columns, written out. */
  function Cross(u: Vec, r: Vec, t: Vec): Vec {
    Vec(u.y * r.z * t.w - u.y * r.w * t.z - r.y * u.z * t.w + r.y * u.w * t.z + t.y * u.z * r.w - t.y * u.w * r.z,
        -u.x * r.z * t.w + u.x * r.w * t.z + r.x * u.z * t.w - r.x * u.w * t.z - t.x * u.z * r.w + t.x * u.w * r.z,
        u.x * r.y * t.w - u.x * r.w * t.y - r.x * u.y * t.w + r.x * u.w * t.y + t.x * u.y * r.w - t.x * u.w * r.y,
        -u.x * r.y * t.z + u.x * r.z * t.y + r.x * u.y * t.z - r.x * u.z * t.y - t.x * u.y * r.z + t.x * u.z * r.y)
  }

  lemma Row0(m: Mat)
    ensures CofactorRow0(m) == Cross(m.q, m.r, m.t)
  {
  }

  lemma Row1(m: Mat)
    ensures CofactorRow1(m) == Neg(Cross(m.p, m.r, m.t))
  {
  }

  lemma Row2(m: Mat)
    ensures CofactorRow2(m) == Cross(m.p, m.q, m.t)
  {
  }

  lemma Row3(m: Mat)
    ensures CofactorRow3(m) == Neg(Cross(m.p, m.q, m.r))
  {
  }

  /** The determinant of four columns. */
  function Det4(v: Vec, u: Vec, r: Vec, t: Vec): real {
    Dot(Cross(u, r, t), v)
  }

  lemma Spread6(p: real, a: real, b: real, c: real, d: real, e: real, f: real, s: real)
    requires p == a - b - c + d + e - f
    ensures p * s == a * s - b * s - c * s + d * s + e * s - f * s
  {
  }

  /** The determinant, written out. */
  function Expanded(v: Vec, u: Vec, r: Vec, t: Vec): real {
    v.x * u.y * r.z * t.w - v.x * u.y * r.w * t.z - v.x * r.y * u.z * t.w
    + v.x * r.y * u.w * t.z + v.x * t.y * u.z * r.w - v.x * t.y * u.w * r.z
    - v.y * u.x * r.z * t.w + v.y * u.x * r.w * t.z + v.y * r.x * u.z * t.w
    - v.y * r.x * u.w * t.z - v.y * t.x * u.z * r.w + v.y * t.x * u.w * r.z
    + v.z * u.x * r.y * t.w - v.z * u.x * r.w * t.y - v.z * r.x * u.y * t.w
    + v.z * r.x * u.w * t.y + v.z * t.x * u.y * r.w - v.z * t.x * u.w * r.y
    - v.w * u.x * r.y * t.z + v.w * u.x * r.z * t.y + v.w * r.x * u.y * t.z
    - v.w * r.x * u.z * t.y - v.w * t.x * u.y * r.z + v.w * t.x * u.z * r.y
  }

  lemma TermX(s: real, u: Vec, r: Vec, t: Vec)
    ensures Cross(u, r, t).x * s == s * u.y * r.z * t.w - s * u.y * r.w * t.z - s * r.y * u.z * t.w
                                  + s * r.y * u.w * t.z + s * t.y * u.z * r.w - s * t.y * u.w * r.z
  {
    Spread6(Cross(u, r, t).x, u.y * r.z * t.w, u.y * r.w * t.z, r.y * u.z * t.w, r.y * u.w * t.z, t.y * u.z * r.w,
            t.y * u.w * r.z, s);
  }

  lemma TermY(s: real, u: Vec, r: Vec, t: Vec)
    ensures Cross(u, r, t).y * s == - s * u.x * r.z * t.w + s * u.x * r.w * t.z + s * r.x * u.z * t.w
                                  - s * r.x * u.w * t.z - s * t.x * u.z * r.w + s * t.x * u.w * r.z
  {
    Spread6(-Cross(u, r, t).y, u.x * r.z * t.w, u.x * r.w * t.z, r.x * u.z * t.w, r.x * u.w * t.z, t.x * u.z * r.w,
            t.x * u.w * r.z, s);
  }

  lemma TermZ(s: real, u: Vec, r: Vec, t: Vec)
    ensures Cross(u, r, t).z * s == s * u.x * r.y * t.w - s * u.x * r.w * t.y - s * r.x * u.y * t.w
                                  + s * r.x * u.w * t.y + s * t.x * u.y * r.w - s * t.x * u.w * r.y
  {
    Spread6(Cross(u, r, t).z, u.x * r.y * t.w, u.x * r.w * t.y, r.x * u.y * t.w, r.x * u.w * t.y, t.x * u.y * r.w,
            t.x * u.w * r.y, s);
  }

  lemma TermW(s: real, u: Vec, r: Vec, t: Vec)
    ensures Cross(u, r, t).w * s == - s * u.x * r.y * t.z + s * u.x * r.z * t.y + s * r.x * u.y * t.z
                                  - s * r.x * u.z * t.y - s * t.x * u.y * r.z + s * t.x * u.z * r.y
  {
    Spread6(-Cross(u, r, t).w, u.x * r.y * t.z, u.x * r.z * t.y, r.x * u.y * t.z, r.x * u.z * t.y, t.x * u.y * r.z,
            t.x * u.z * r.y, s);
  }

  lemma DetExpands(v: Vec, u: Vec, r: Vec, t: Vec)
    ensures Det4(v, u, r, t) == Expanded(v, u, r, t)
  {
    TermX(v.x, u, r, t);
    TermY(v.y, u, r, t);
    TermZ(v.z, u, r, t);
    TermW(v.w, u, r, t);
  }

  /** Exchanging columns changes the sign. */
  lemma Alternates(v: Vec, u: Vec, r: Vec, t: Vec)
    ensures Expanded(u, v, r, t) == -Expanded(v, u, r, t)
    ensures Expanded(v, r, u, t) == -Expanded(v, u, r, t)
    ensures Expanded(v, u, t, r) == -Expanded(v, u, r, t)
  {
  }

  /** A repeated column makes the determinant vanish. */
  lemma DetRepeats(u: Vec, r: Vec, t: Vec)
    ensures Det4(u, u, r, t) == 0.0 && Det4(r, u, r, t) == 0.0 && Det4(t, u, r, t) == 0.0
  {
    DetExpands(u, u, r, t);
    DetExpands(r, u, r, t);
    DetExpands(t, u, r, t);
    Alternates(u, u, r, t);
    Alternates(u, r, r, t);
    Alternates(r, u, r, t);
    Alternates(t, u, r, t);
    Alternates(u, t, r, t);
    Alternates(u, r, t, t);
  }

  // ----- the cofactor matrix inverts

  lemma ApplyRows(a: Vec, b: Vec, c: Vec, d: Vec, v: Vec)
    ensures Apply(FromRows(a, b, c, d), v) == Vec(Dot(a, v), Dot(b, v), Dot(c, v), Dot(d, v))
  {
  }

  lemma DotNeg(u: Vec, v: Vec)
    ensures Dot(Neg(u), v) == -Dot(u, v)
  {
  }

  lemma DotSwaps(u: Vec, v: Vec)
    ensures Dot(u, v) == Dot(v, u)
  {
  }

  lemma CofactorDots(m: Mat, v: Vec)
    ensures Dot(CofactorRow0(m), v) == Det4(v, m.q, m.r, m.t) && Dot(CofactorRow1(m), v) == -Det4(v, m.p, m.r, m.t)
    ensures Dot(CofactorRow2(m), v) == Det4(v, m.p, m.q, m.t) && Dot(CofactorRow3(m), v) == -Det4(v, m.p, m.q, m.r)
  {
    Row0(m);
    Row1(m);
    Row2(m);
    Row3(m);
    DotNeg(Cross(m.p, m.r, m.t), v);
    DotNeg(Cross(m.p, m.q, m.r), v);
  }

  /** A cofactor matrix takes any vector to the four determinants in which it replaces a column. */
  lemma CofactorsApply(m: Mat, v: Vec)
    ensures Apply(Cofactors(m), v)
         == Vec(Det4(v, m.q, m.r, m.t), -Det4(v, m.p, m.r, m.t), Det4(v, m.p, m.q, m.t), -Det4(v, m.p, m.q, m.r))
  {
    ApplyRows(CofactorRow0(m), CofactorRow1(m), CofactorRow2(m), CofactorRow3(m), v);
    CofactorDots(m, v);
  }

  lemma DetIsDet4(m: Mat)
    ensures Det(m) == Det4(m.p, m.q, m.r, m.t)
  {
    Row0(m);
    DotSwaps(m.p, Cross(m.q, m.r, m.t));
  }

  /** The determinant with a column moved to the front. */
  lemma DetMoves(p: Vec, q: Vec, r: Vec, t: Vec)
    ensures Det4(q, p, r, t) == -Det4(p, q, r, t)
    ensures Det4(r, p, q, t) == Det4(p, q, r, t)
    ensures Det4(t, p, q, r) == -Det4(p, q, r, t)
  {
    DetExpands(p, q, r, t);
    DetExpands(q, p, r, t);
    DetExpands(r, p, q, t);
    DetExpands(t, p, q, r);
    Alternates(p, q, r, t);
    Alternates(p, r, q, t);
    Alternates(p, t, q, r);
    Alternates(p, q, t, r);
  }

  lemma CofactorsTimes(m: Mat)
    ensures Mul(Cofactors(m), m) == Scale(IDENTITY, Det(m))
  {
    DetIsDet4(m);
    DetMoves(m.p, m.q, m.r, m.t);
    CofactorsApply(m, m.p);
    CofactorsApply(m, m.q);
    CofactorsApply(m, m.r);
    CofactorsApply(m, m.t);
    DetRepeats(m.q, m.r, m.t);
    DetRepeats(m.p, m.r, m.t);
    DetRepeats(m.p, m.q, m.t);
    DetRepeats(m.p, m.q, m.r);
  }

  // ----- the product is associative

  lemma ByRows(m: Mat) returns (x: Vec, y: Vec, z: Vec, w: Vec)
    ensures m == FromRows(x, y, z, w)
  {
    x, y := Vec(m.p.x, m.q.x, m.r.x, m.t.x), Vec(m.p.y, m.q.y, m.r.y, m.t.y);
    z, w := Vec(m.p.z, m.q.z, m.r.z, m.t.z), Vec(m.p.w, m.q.w, m.r.w, m.t.w);
  }

  function Product(a: real, b: real, c: real): real {
    a * b * c
  }

  function RowTimes(s: Vec, b: Mat): Vec {
    Vec(Dot(s, b.p), Dot(s, b.q), Dot(s, b.r), Dot(s, b.t))
  }

  lemma Substitute(p: real, q: real, s: real)
    requires p == q
    ensures p * s == q * s
  {
  }

  lemma Spread4(p: real, a: real, b: real, c: real, d: real, s: real)
    requires p == a + b + c + d
    ensures p * s == a * s + b * s + c * s + d * s
  {
  }

  lemma DotSpreads(r: Vec, v: Vec, s: real)
    ensures s * Dot(r, v) == Product(s, r.x, v.x) + Product(s, r.y, v.y) + Product(s, r.z, v.z) + Product(s, r.w, v.w)
    ensures Dot(r, v) * s == Product(r.x, v.x, s) + Product(r.y, v.y, s) + Product(r.z, v.z, s) + Product(r.w, v.w, s)
  {
    Spread4(Dot(r, v), r.x * v.x, r.y * v.y, r.z * v.z, r.w * v.w, s);
  }

  lemma DotApply(s: Vec, x: Vec, y: Vec, z: Vec, w: Vec, v: Vec)
    ensures var b := FromRows(x, y, z, w);
            Dot(s, Apply(b, v)) == Dot(RowTimes(s, b), v)
  {
    var b := FromRows(x, y, z, w);
    ApplyRows(x, y, z, w, v);
    DotSpreads(x, v, s.x);
    DotSpreads(y, v, s.y);
    DotSpreads(z, v, s.z);
    DotSpreads(w, v, s.w);
    DotSpreads(s, b.p, v.x);
    DotSpreads(s, b.q, v.y);
    DotSpreads(s, b.r, v.z);
    DotSpreads(s, b.t, v.w);
  }

  lemma MulRows(x: Vec, y: Vec, z: Vec, w: Vec, b: Mat)
    ensures Mul(FromRows(x, y, z, w), b)
         == FromRows(RowTimes(x, b), RowTimes(y, b), RowTimes(z, b), RowTimes(w, b))
  {
    ApplyRows(x, y, z, w, b.p);
    ApplyRows(x, y, z, w, b.q);
    ApplyRows(x, y, z, w, b.r);
    ApplyRows(x, y, z, w, b.t);
  }

  lemma ApplyMul(a: Mat, b: Mat, v: Vec)
    ensures Apply(a, Apply(b, v)) == Apply(Mul(a, b), v)
  {
    var x, y, z, w := ByRows(a);
    var e, f, g, h := ByRows(b);
    MulRows(x, y, z, w, b);
    ApplyRows(x, y, z, w, Apply(b, v));
    DotApply(x, e, f, g, h, v);
    DotApply(y, e, f, g, h, v);
    DotApply(z, e, f, g, h, v);
    DotApply(w, e, f, g, h, v);
    ApplyRows(RowTimes(x, b), RowTimes(y, b), RowTimes(z, b), RowTimes(w, b), v);
  }

  lemma MulAssociates(a: Mat, b: Mat, c: Mat)
    ensures Mul(Mul(a, b), c) == Mul(a, Mul(b, c))
  {
    ApplyMul(a, b, c.p);
    ApplyMul(a, b, c.q);
    ApplyMul(a, b, c.r);
    ApplyMul(a, b, c.t);
  }

  lemma MulIdentity(m: Mat)
    ensures Mul(IDENTITY, m) == m && Mul(m, IDENTITY) == m
  {
  }

  lemma TransposeMul(a: Mat, b: Mat)
    ensures Transpose(Mul(a, b)) == Mul(Transpose(b), Transpose(a))
  {
    var x, y, z, w := ByRows(a);
    MulRows(x, y, z, w, b);
    TransposeApply(b, x);
    TransposeApply(b, y);
    TransposeApply(b, z);
    TransposeApply(b, w);
  }

  /** The transposed matrix multiplies from the other side. */
  lemma TransposeApply(b: Mat, s: Vec)
    ensures Apply(Transpose(b), s) == RowTimes(s, b)
  {
    ApplyRows(b.p, b.q, b.r, b.t, s);
    DotSwaps(s, b.p);
    DotSwaps(s, b.q);
    DotSwaps(s, b.r);
    DotSwaps(s, b.t);
  }

  // ----- the determinant of a product

  lemma Differ(p: real, a: real, b: real, q: real, c: real, d: real)
    requires p == a - b && q == c - d
    ensures p * q == a * c - a * d - b * c + b * d
  {
  }

  /** The determinant is the Laplace expansion along its first two columns. */
  lemma DetPairs(v: Vec, u: Vec, r: Vec, t: Vec)
    ensures Pair(Wedge(v, u), Wedge(r, t)) == Det4(v, u, r, t)
  {
    PairExpands(v, u, r, t);
    DetExpands(v, u, r, t);
  }

  lemma PairExpands(v: Vec, u: Vec, r: Vec, t: Vec)
    ensures Pair(Wedge(v, u), Wedge(r, t)) == Expanded(v, u, r, t)
  {
    HalfExpands(v, u, r, t);
    HalfExpands(r, t, v, u);
    HalvesMeet(v, u, r, t);
  }

  function HalfExpanded(v: Vec, u: Vec, r: Vec, t: Vec): real {
    v.x * u.y * r.z * t.w - v.x * u.y * r.w * t.z - v.y * u.x * r.z * t.w + v.y * u.x * r.w * t.z
    - v.x * u.z * r.y * t.w + v.x * u.z * r.w * t.y + v.z * u.x * r.y * t.w - v.z * u.x * r.w * t.y
    + v.x * u.w * r.y * t.z - v.x * u.w * r.z * t.y - v.w * u.x * r.y * t.z + v.w * u.x * r.z * t.y
  }

  lemma HalvesMeet(v: Vec, u: Vec, r: Vec, t: Vec)
    ensures HalfExpanded(v, u, r, t) + HalfExpanded(r, t, v, u) == Expanded(v, u, r, t)
  {
  }

  lemma HalfExpands(v: Vec, u: Vec, r: Vec, t: Vec)
    ensures HalfPair(Wedge(v, u), Wedge(r, t)) == HalfExpanded(v, u, r, t)
  {
    var a, b := Wedge(v, u), Wedge(r, t);
    Differ(a.m01, v.x * u.y, v.y * u.x, b.m23, r.z * t.w, r.w * t.z);
    Differ(a.m02, v.x * u.z, v.z * u.x, b.m13, r.y * t.w, r.w * t.y);
    Differ(a.m03, v.x * u.w, v.w * u.x, b.m12, r.y * t.z, r.z * t.y);
  }

  lemma PairSwaps(a: Minors, b: Minors)
    ensures Pair(a, b) == Pair(b, a)
  {
  }

  /** All the products of the terms of two dot products. */
  function Grid(a: Vec, u: Vec, b: Vec, v: Vec): real {
    a.x * u.x * b.x * v.x + a.x * u.x * b.y * v.y + a.x * u.x * b.z * v.z + a.x * u.x * b.w * v.w
    + a.y * u.y * b.x * v.x + a.y * u.y * b.y * v.y + a.y * u.y * b.z * v.z + a.y * u.y * b.w * v.w
    + a.z * u.z * b.x * v.x + a.z * u.z * b.y * v.y + a.z * u.z * b.z * v.z + a.z * u.z * b.w * v.w
    + a.w * u.w * b.x * v.x + a.w * u.w * b.y * v.y + a.w * u.w * b.z * v.z + a.w * u.w * b.w * v.w
  }

  lemma ProductOfDots(a: Vec, u: Vec, b: Vec, v: Vec)
    ensures Dot(a, u) * Dot(b, v) == Grid(a, u, b, v)
  {
    var d := Dot(b, v);
    Spread4(Dot(a, u), a.x * u.x, a.y * u.y, a.z * u.z, a.w * u.w, d);
    Spread4(d, b.x * v.x, b.y * v.y, b.z * v.z, b.w * v.w, a.x * u.x);
    Spread4(d, b.x * v.x, b.y * v.y, b.z * v.z, b.w * v.w, a.y * u.y);
    Spread4(d, b.x * v.x, b.y * v.y, b.z * v.z, b.w * v.w, a.z * u.z);
    Spread4(d, b.x * v.x, b.y * v.y, b.z * v.z, b.w * v.w, a.w * u.w);
  }

  function LowInner(m: Minors, n: Minors): real {
    m.m01 * n.m01 + m.m02 * n.m02 + m.m03 * n.m03
  }

  function HighInner(m: Minors, n: Minors): real {
    m.m12 * n.m12 + m.m13 * n.m13 + m.m23 * n.m23
  }

  function LowGrid(a: Vec, u: Vec, b: Vec, v: Vec): real {
    a.x * u.x * b.y * v.y + a.y * u.y * b.x * v.x + a.x * u.x * b.z * v.z + a.z * u.z * b.x * v.x
    + a.x * u.x * b.w * v.w + a.w * u.w * b.x * v.x
  }

  function HighGrid(a: Vec, u: Vec, b: Vec, v: Vec): real {
    a.y * u.y * b.z * v.z + a.z * u.z * b.y * v.y + a.y * u.y * b.w * v.w + a.w * u.w * b.y * v.y
    + a.z * u.z * b.w * v.w + a.w * u.w * b.z * v.z
  }

  lemma LowInnerExpands(a: Vec, b: Vec, u: Vec, v: Vec)
    ensures LowInner(Wedge(a, b), Wedge(u, v)) == LowGrid(a, u, b, v) - LowGrid(b, u, a, v)
  {
    var m, n := Wedge(a, b), Wedge(u, v);
    Differ(m.m01, a.x * b.y, a.y * b.x, n.m01, u.x * v.y, u.y * v.x);
    Differ(m.m02, a.x * b.z, a.z * b.x, n.m02, u.x * v.z, u.z * v.x);
    Differ(m.m03, a.x * b.w, a.w * b.x, n.m03, u.x * v.w, u.w * v.x);
  }

  lemma HighInnerExpands(a: Vec, b: Vec, u: Vec, v: Vec)
    ensures HighInner(Wedge(a, b), Wedge(u, v)) == HighGrid(a, u, b, v) - HighGrid(b, u, a, v)
  {
    var m, n := Wedge(a, b), Wedge(u, v);
    Differ(m.m12, a.y * b.z, a.z * b.y, n.m12, u.y * v.z, u.z * v.y);
    Differ(m.m13, a.y * b.w, a.w * b.y, n.m13, u.y * v.w, u.w * v.y);
    Differ(m.m23, a.z * b.w, a.w * b.z, n.m23, u.z * v.w, u.w * v.z);
  }

  lemma GridSplits(a: Vec, u: Vec, b: Vec, v: Vec)
    ensures Grid(a, u, b, v) - Grid(b, u, a, v)
         == LowGrid(a, u, b, v) - LowGrid(b, u, a, v) + HighGrid(a, u, b, v) - HighGrid(b, u, a, v)
  {
  }

  /** The identity of Binet and Cauchy for two rows and two vectors. */
  lemma Binet(a: Vec, b: Vec, u: Vec, v: Vec)
    ensures Dot(a, u) * Dot(b, v) - Dot(b, u) * Dot(a, v)
         == LowInner(Wedge(a, b), Wedge(u, v)) + HighInner(Wedge(a, b), Wedge(u, v))
  {
    ProductOfDots(a, u, b, v);
    ProductOfDots(b, u, a, v);
    GridSplits(a, u, b, v);
    LowInnerExpands(a, b, u, v);
    HighInnerExpands(a, b, u, v);
  }

  /** The minors of every two columns of a matrix. */
  datatype Compound = Compound(w01: Minors, w02: Minors, w03: Minors, w12: Minors, w13: Minors, w23: Minors)

  function Compounds(m: Mat): Compound {
    Compound(Wedge(m.p, m.q), Wedge(m.p, m.r), Wedge(m.p, m.t), Wedge(m.q, m.r), Wedge(m.q, m.t), Wedge(m.r, m.t))
  }

  function Inner(m: Minors, n: Minors): real {
    LowInner(m, n) + HighInner(m, n)
  }

  function Row01Of(c: Compound): Minors {
    Minors(c.w01.m01, c.w02.m01, c.w03.m01, c.w12.m01, c.w13.m01, c.w23.m01)
  }

  function Row02Of(c: Compound): Minors {
    Minors(c.w01.m02, c.w02.m02, c.w03.m02, c.w12.m02, c.w13.m02, c.w23.m02)
  }

  function Row03Of(c: Compound): Minors {
    Minors(c.w01.m03, c.w02.m03, c.w03.m03, c.w12.m03, c.w13.m03, c.w23.m03)
  }

  function Row12Of(c: Compound): Minors {
    Minors(c.w01.m12, c.w02.m12, c.w03.m12, c.w12.m12, c.w13.m12, c.w23.m12)
  }

  function Row13Of(c: Compound): Minors {
    Minors(c.w01.m13, c.w02.m13, c.w03.m13, c.w12.m13, c.w13.m13, c.w23.m13)
  }

  function Row23Of(c: Compound): Minors {
    Minors(c.w01.m23, c.w02.m23, c.w03.m23, c.w12.m23, c.w13.m23, c.w23.m23)
  }

  function Mix(c: Compound, n: Minors): Minors {
    Minors(Inner(Row01Of(c), n), Inner(Row02Of(c), n), Inner(Row03Of(c), n),
           Inner(Row12Of(c), n), Inner(Row13Of(c), n), Inner(Row23Of(c), n))
  }

  lemma MinorsTurn()
    ensures forall a, b, c, d :: Minor(a, b, c, d) == Minor(a, c, b, d)
  {
  }

  lemma CompoundRows(x: Vec, y: Vec, z: Vec, w: Vec)
    ensures var c := Compounds(FromRows(x, y, z, w));
            Row01Of(c) == Wedge(x, y) && Row02Of(c) == Wedge(x, z) && Row03Of(c) == Wedge(x, w)
    ensures var c := Compounds(FromRows(x, y, z, w));
            Row12Of(c) == Wedge(y, z) && Row13Of(c) == Wedge(y, w) && Row23Of(c) == Wedge(z, w)
  {
    MinorsTurn();
  }

  /** The minors of two images are a linear function of the minors of the two vectors. */
  lemma WedgeApply(x: Vec, y: Vec, z: Vec, w: Vec, u: Vec, v: Vec)
    ensures var m := FromRows(x, y, z, w);
            Wedge(Apply(m, u), Apply(m, v)) == Mix(Compounds(m), Wedge(u, v))
  {
    ApplyRows(x, y, z, w, u);
    ApplyRows(x, y, z, w, v);
    CompoundRows(x, y, z, w);
    Binet(x, y, u, v);
    Binet(x, z, u, v);
    Binet(x, w, u, v);
    Binet(y, z, u, v);
    Binet(y, w, u, v);
    Binet(z, w, u, v);
  }

  lemma Spread6Plus(p: real, a: real, b: real, c: real, d: real, e: real, f: real, s: real)
    requires p == a + b + c + d + e + f
    ensures p * s == a * s + b * s + c * s + d * s + e * s + f * s
  {
  }

  lemma InnerSpreads(m: Minors, n: Minors, s: real)
    ensures Inner(m, n) * s == Product(m.m01, n.m01, s) + Product(m.m02, n.m02, s) + Product(m.m03, n.m03, s)
                             + Product(m.m12, n.m12, s) + Product(m.m13, n.m13, s) + Product(m.m23, n.m23, s)
  {
    Spread6Plus(Inner(m, n), m.m01 * n.m01, m.m02 * n.m02, m.m03 * n.m03, m.m12 * n.m12, m.m13 * n.m13, m.m23 * n.m23, s);
  }

  lemma HalfPairSpreads(a: Minors, b: Minors, s: real)
    ensures HalfPair(a, b) * s == Product(a.m01, s, b.m23) - Product(a.m02, s, b.m13) + Product(a.m03, s, b.m12)
    ensures HalfPair(a, b) * s == Product(b.m23, s, a.m01) - Product(b.m13, s, a.m02) + Product(b.m12, s, a.m03)
  {
  }

  lemma HalfPairMix(c: Compound, n: Minors, k: Minors)
    ensures HalfPair(Mix(c, n), k)
         == HalfPair(c.w01, k) * n.m01 + HalfPair(c.w02, k) * n.m02 + HalfPair(c.w03, k) * n.m03
          + HalfPair(c.w12, k) * n.m12 + HalfPair(c.w13, k) * n.m13 + HalfPair(c.w23, k) * n.m23
  {
    InnerSpreads(Row01Of(c), n, k.m23);
    InnerSpreads(Row02Of(c), n, k.m13);
    InnerSpreads(Row03Of(c), n, k.m12);
    HalfPairSpreads(c.w01, k, n.m01);
    HalfPairSpreads(c.w02, k, n.m02);
    HalfPairSpreads(c.w03, k, n.m03);
    HalfPairSpreads(c.w12, k, n.m12);
    HalfPairSpreads(c.w13, k, n.m13);
    HalfPairSpreads(c.w23, k, n.m23);
  }

  lemma PairHalfMix(c: Compound, n: Minors, k: Minors)
    ensures HalfPair(k, Mix(c, n))
         == HalfPair(k, c.w01) * n.m01 + HalfPair(k, c.w02) * n.m02 + HalfPair(k, c.w03) * n.m03
          + HalfPair(k, c.w12) * n.m12 + HalfPair(k, c.w13) * n.m13 + HalfPair(k, c.w23) * n.m23
  {
    InnerSpreads(Row23Of(c), n, k.m01);
    InnerSpreads(Row13Of(c), n, k.m02);
    InnerSpreads(Row12Of(c), n, k.m03);
    HalfPairSpreads(k, c.w01, n.m01);
    HalfPairSpreads(k, c.w02, n.m02);
    HalfPairSpreads(k, c.w03, n.m03);
    HalfPairSpreads(k, c.w12, n.m12);
    HalfPairSpreads(k, c.w13, n.m13);
    HalfPairSpreads(k, c.w23, n.m23);
  }

  /** The pairing is linear in the minors. */
  lemma PairMix(c: Compound, n: Minors, k: Minors)
    ensures Pair(Mix(c, n), k)
         == Pair(c.w01, k) * n.m01 + Pair(c.w02, k) * n.m02 + Pair(c.w03, k) * n.m03
          + Pair(c.w12, k) * n.m12 + Pair(c.w13, k) * n.m13 + Pair(c.w23, k) * n.m23
  {
    HalfPairMix(c, n, k);
    PairHalfMix(c, n, k);
  }

  /** Two pairs of columns that share one are not independent. */
  lemma PairShares(u: Vec, v: Vec, w: Vec)
    ensures Pair(Wedge(u, v), Wedge(u, w)) == 0.0 && Pair(Wedge(u, v), Wedge(w, u)) == 0.0
    ensures Pair(Wedge(v, u), Wedge(u, w)) == 0.0 && Pair(Wedge(v, u), Wedge(w, u)) == 0.0
  {
    DetRepeats(v, u, w);
    DetRepeats(v, w, u);
    DetPairs(u, v, u, w);
    DetPairs(u, v, w, u);
    DetPairs(v, u, u, w);
    DetPairs(v, u, w, u);
    DetMoves(u, v, u, w);
    DetMoves(u, v, w, u);
  }

  lemma PairItself(u: Vec, v: Vec)
    ensures Pair(Wedge(u, v), Wedge(u, v)) == 0.0
  {
    PairShares(u, v, v);
  }

  /** How the minors of every two columns pair up with each other. */
  lemma PairsOf(m: Mat)
    ensures var c, d := Compounds(m), Det(m);
            Pair(c.w01, c.w23) == d && Pair(c.w02, c.w13) == -d && Pair(c.w03, c.w12) == d
  {
    DetIsDet4(m);
    DetPairs(m.p, m.q, m.r, m.t);
    DetPairs(m.p, m.r, m.q, m.t);
    DetPairs(m.p, m.t, m.q, m.r);
    DetMoves(m.p, m.q, m.r, m.t);
    DetMoves(m.p, m.r, m.q, m.t);
    DetMoves(m.p, m.t, m.q, m.r);
  }

  /** The minors of every two columns of a matrix with determinant `d` pair up like this. */
  predicate PairsUp(c: Compound, d: real) {
    && Pair(c.w01, c.w01) == 0.0 && Pair(c.w01, c.w02) == 0.0 && Pair(c.w01, c.w03) == 0.0
    && Pair(c.w01, c.w12) == 0.0 && Pair(c.w01, c.w13) == 0.0 && Pair(c.w01, c.w23) == d
    && Pair(c.w02, c.w02) == 0.0 && Pair(c.w02, c.w03) == 0.0 && Pair(c.w02, c.w12) == 0.0
    && Pair(c.w02, c.w13) == -d && Pair(c.w02, c.w23) == 0.0 && Pair(c.w03, c.w03) == 0.0
    && Pair(c.w03, c.w12) == d && Pair(c.w03, c.w13) == 0.0 && Pair(c.w03, c.w23) == 0.0
    && Pair(c.w12, c.w12) == 0.0 && Pair(c.w12, c.w13) == 0.0 && Pair(c.w12, c.w23) == 0.0
    && Pair(c.w13, c.w13) == 0.0 && Pair(c.w13, c.w23) == 0.0 && Pair(c.w23, c.w23) == 0.0
  }

  lemma CompoundsPairUp(m: Mat)
    ensures PairsUp(Compounds(m), Det(m))
  {
    PairsOf(m);
    PairItself(m.p, m.q);
    PairShares(m.p, m.q, m.r);
    PairShares(m.p, m.q, m.t);
    PairShares(m.q, m.p, m.r);
    PairShares(m.q, m.p, m.t);
    PairItself(m.p, m.r);
    PairShares(m.p, m.r, m.t);
    PairShares(m.r, m.p, m.q);
    PairShares(m.r, m.p, m.t);
    PairItself(m.p, m.t);
    PairShares(m.t, m.p, m.q);
    PairShares(m.t, m.p, m.r);
    PairItself(m.q, m.r);
    PairShares(m.q, m.r, m.t);
    PairShares(m.r, m.q, m.t);
    PairItself(m.q, m.t);
    PairShares(m.t, m.q, m.r);
    PairItself(m.r, m.t);
  }

  lemma AgainstOne(c: Compound, k: Minors, w: Minors)
    ensures Pair(w, Mix(c, k))
         == Pair(w, c.w01) * k.m01 + Pair(w, c.w02) * k.m02 + Pair(w, c.w03) * k.m03
          + Pair(w, c.w12) * k.m12 + Pair(w, c.w13) * k.m13 + Pair(w, c.w23) * k.m23
  {
    PairMix(c, k, w);
    PairSwaps(w, Mix(c, k));
    PairSwaps(w, c.w01);
    PairSwaps(w, c.w02);
    PairSwaps(w, c.w03);
    PairSwaps(w, c.w12);
    PairSwaps(w, c.w13);
    PairSwaps(w, c.w23);
  }

  /** Applied to both of them, a matrix multiplies the pairing of two minors by its determinant. */
  lemma MixPairs(c: Compound, d: real, n: Minors, k: Minors)
    requires PairsUp(c, d)
    ensures Pair(Mix(c, n), Mix(c, k)) == d * Pair(n, k)
  {
    PairMix(c, n, Mix(c, k));
    Against01(c, d, k);
    Against02(c, d, k);
    Against03(c, d, k);
    Against12(c, d, k);
    Against13(c, d, k);
    Against23(c, d, k);
    var x := Mix(c, k);
    Combine(Pair(c.w01, x), Pair(c.w02, x), Pair(c.w03, x), Pair(c.w12, x), Pair(c.w13, x), Pair(c.w23, x), n, k, d);
  }

  lemma Combine(p01: real, p02: real, p03: real, p12: real, p13: real, p23: real, n: Minors, k: Minors, d: real)
    requires p01 == (d * k.m23) && p02 == -(d * k.m13) && p03 == (d * k.m12) && p12 == (d * k.m03) && p13 == -(d * k.m02) && p23 == (d * k.m01)
    ensures p01 * n.m01 + p02 * n.m02 + p03 * n.m03 + p12 * n.m12 + p13 * n.m13 + p23 * n.m23 == d * Pair(n, k)
  {
    PairSpreads(n, k, d);
    Substitute(p01, (d * k.m23), n.m01);
    Substitute(p02, -(d * k.m13), n.m02);
    Substitute(p03, (d * k.m12), n.m03);
    Substitute(p12, (d * k.m03), n.m12);
    Substitute(p13, -(d * k.m02), n.m13);
    Substitute(p23, (d * k.m01), n.m23);
  }

  lemma PairSpreads(n: Minors, k: Minors, d: real)
    ensures d * Pair(n, k)
         == (d * k.m23) * n.m01 - (d * k.m13) * n.m02 + (d * k.m12) * n.m03
          + (d * k.m03) * n.m12 - (d * k.m02) * n.m13 + (d * k.m01) * n.m23
  {
  }

  lemma Against01(c: Compound, d: real, k: Minors)
    requires PairsUp(c, d)
    ensures Pair(c.w01, Mix(c, k)) == (d * k.m23)
  {
    AgainstOne(c, k, c.w01);
  }

  lemma Against02(c: Compound, d: real, k: Minors)
    requires PairsUp(c, d)
    ensures Pair(c.w02, Mix(c, k)) == -(d * k.m13)
  {
    AgainstOne(c, k, c.w02);
    PairSwaps(c.w02, c.w01);
  }

  lemma Against03(c: Compound, d: real, k: Minors)
    requires PairsUp(c, d)
    ensures Pair(c.w03, Mix(c, k)) == (d * k.m12)
  {
    AgainstOne(c, k, c.w03);
    PairSwaps(c.w03, c.w01);
    PairSwaps(c.w03, c.w02);
  }

  lemma Against12(c: Compound, d: real, k: Minors)
    requires PairsUp(c, d)
    ensures Pair(c.w12, Mix(c, k)) == (d * k.m03)
  {
    AgainstOne(c, k, c.w12);
    PairSwaps(c.w12, c.w01);
    PairSwaps(c.w12, c.w02);
    PairSwaps(c.w12, c.w03);
  }

  lemma Against13(c: Compound, d: real, k: Minors)
    requires PairsUp(c, d)
    ensures Pair(c.w13, Mix(c, k)) == -(d * k.m02)
  {
    AgainstOne(c, k, c.w13);
    PairSwaps(c.w13, c.w01);
    PairSwaps(c.w13, c.w02);
    PairSwaps(c.w13, c.w03);
    PairSwaps(c.w13, c.w12);
  }

  lemma Against23(c: Compound, d: real, k: Minors)
    requires PairsUp(c, d)
    ensures Pair(c.w23, Mix(c, k)) == (d * k.m01)
  {
    AgainstOne(c, k, c.w23);
    PairSwaps(c.w23, c.w01);
    PairSwaps(c.w23, c.w02);
    PairSwaps(c.w23, c.w03);
    PairSwaps(c.w23, c.w12);
    PairSwaps(c.w23, c.w13);
  }

  lemma PairApply(a: Mat, u: Vec, v: Vec, r: Vec, t: Vec)
    ensures Pair(Wedge(Apply(a, u), Apply(a, v)), Wedge(Apply(a, r), Apply(a, t)))
         == Det(a) * Pair(Wedge(u, v), Wedge(r, t))
  {
    var x, y, z, w := ByRows(a);
    WedgeApply(x, y, z, w, u, v);
    WedgeApply(x, y, z, w, r, t);
    CompoundsPairUp(a);
    MixPairs(Compounds(a), Det(a), Wedge(u, v), Wedge(r, t));
  }

  lemma DetMul(a: Mat, b: Mat)
    ensures Det(Mul(a, b)) == Det(a) * Det(b)
  {
    PairApply(a, b.p, b.q, b.r, b.t);
    DetPairs(b.p, b.q, b.r, b.t);
    DetPairs(Apply(a, b.p), Apply(a, b.q), Apply(a, b.r), Apply(a, b.t));
    DetIsDet4(b);
    DetIsDet4(Mul(a, b));
    Substitute(Pair(Wedge(b.p, b.q), Wedge(b.r, b.t)), Det(b), Det(a));
  }

  lemma DetTranspose(m: Mat)
    ensures Det(Transpose(m)) == Det(m)
  {
    var n := Transpose(m);
    DetIsDet4(m);
    DetIsDet4(n);
    DetExpands(m.p, m.q, m.r, m.t);
    DetExpands(n.p, n.q, n.r, n.t);
    ExpandedTransposes(m);
  }

  lemma ExpandedTransposes(m: Mat)
    ensures var n := Transpose(m); Expanded(n.p, n.q, n.r, n.t) == Expanded(m.p, m.q, m.r, m.t)
  {
  }

  // ----- inverses

  lemma ScaleApply(x: Vec, y: Vec, z: Vec, w: Vec, s: real, v: Vec)
    ensures var m := FromRows(x, y, z, w);
            Apply(Scale(m, s), v) == Times(Apply(m, v), s)
  {
    ScaleRows(x, y, z, w, s);
    ApplyRows(x, y, z, w, v);
    ApplyRows(Times(x, s), Times(y, s), Times(z, s), Times(w, s), v);
    DotTimes(x, v, s);
    DotTimes(y, v, s);
    DotTimes(z, v, s);
    DotTimes(w, v, s);
  }

  lemma ScaleRows(x: Vec, y: Vec, z: Vec, w: Vec, s: real)
    ensures Scale(FromRows(x, y, z, w), s) == FromRows(Times(x, s), Times(y, s), Times(z, s), Times(w, s))
  {
  }

  lemma DotTimes(a: Vec, v: Vec, s: real)
    ensures Dot(Times(a, s), v) == Scaled(Dot(a, v), s)
  {
    var b := Times(a, s);
    Substitute(b.x, a.x * s, v.x);
    Substitute(b.y, a.y * s, v.y);
    Substitute(b.z, a.z * s, v.z);
    Substitute(b.w, a.w * s, v.w);
    Spread4(Dot(a, v), a.x * v.x, a.y * v.y, a.z * v.z, a.w * v.w, s);
  }

  lemma DetIdentity()
    ensures Det(IDENTITY) == 1.0
  {
  }

  lemma TimesTwice(a: Vec, d: real, s: real)
    requires d * s == 1.0
    ensures Times(Times(a, d), s) == a
  {
    ScaledTwice(a.x, d, s);
    ScaledTwice(a.y, d, s);
    ScaledTwice(a.z, d, s);
    ScaledTwice(a.w, d, s);
  }

  lemma ScaledTwice(a: real, d: real, s: real)
    requires d * s == 1.0
    ensures Scaled(Scaled(a, d), s) == a
  {
    assert (a * d) * s == a * (d * s);
  }

  lemma ScaleMul(a: Mat, b: Mat, s: real)
    ensures Mul(Scale(a, s), b) == Scale(Mul(a, b), s)
  {
    var x, y, z, w := ByRows(a);
    ScaleApply(x, y, z, w, s, b.p);
    ScaleApply(x, y, z, w, s, b.q);
    ScaleApply(x, y, z, w, s, b.r);
    ScaleApply(x, y, z, w, s, b.t);
  }

  lemma ScaleBack(m: Mat, d: real)
    requires d != 0.0
    ensures Scale(Scale(m, d), 1.0 / d) == m
  {
    var s := 1.0 / d;
    assert d * s == 1.0;
    TimesTwice(m.p, d, s);
    TimesTwice(m.q, d, s);
    TimesTwice(m.r, d, s);
    TimesTwice(m.t, d, s);
  }

  lemma LeftInverse(m: Mat)
    requires Det(m) != 0.0
    ensures Mul(Inverse(m), m) == IDENTITY
  {
    CofactorsTimes(m);
    ScaleMul(Cofactors(m), m, 1.0 / Det(m));
    ScaleBack(IDENTITY, Det(m));
  }

  /** A left inverse and a right inverse of the same matrix are one. */
  lemma InversesMeet(x: Mat, a: Mat, y: Mat)
    requires Mul(x, a) == IDENTITY && Mul(a, y) == IDENTITY
    ensures x == y
  {
    MulAssociates(x, a, y);
    MulIdentity(x);
    MulIdentity(y);
  }

  lemma InvertibleDet(a: Mat, m: Mat)
    ensures Det(Mul(a, m)) != 0.0 ==> Det(a) != 0.0 && Det(m) != 0.0
  {
    DetMul(a, m);
    NonZero(Det(a), Det(m));
  }

  lemma NonZero(x: real, y: real)
    ensures x * y != 0.0 ==> x != 0.0 && y != 0.0
  {
  }

  lemma RightDet(a: Mat, m: Mat)
    requires Mul(a, m) == IDENTITY
    ensures Det(m) != 0.0
  {
    DetIdentity();
    InvertibleDet(a, m);
  }

  lemma LeftDet(a: Mat, m: Mat)
    requires Mul(a, m) == IDENTITY
    ensures Det(a) != 0.0
  {
    DetIdentity();
    InvertibleDet(a, m);
  }

  /** Any left inverse is the inverse, on both sides. */
  lemma InverseUnique(a: Mat, m: Mat)
    requires Mul(a, m) == IDENTITY
    ensures Det(m) != 0.0 && Det(a) != 0.0
    ensures a == Inverse(m) && m == Inverse(a) && Mul(m, a) == IDENTITY
  {
    LeftDet(a, m);
    RightDet(a, m);
    LeftInverse(m);
    LeftInverse(a);
    InversesMeet(Inverse(a), a, m);
    InversesMeet(Inverse(m), m, a);
  }

  lemma SingularInverse(m: Mat)
    requires Det(m) == 0.0
    ensures Inverse(m) == IDENTITY
  {
  }

  lemma SingularIsNotOne(m: Mat)
    requires Det(m) == 0.0
    ensures m != IDENTITY
  {
    DetIdentity();
  }

  lemma SingularProducts(m: Mat)
    requires Det(m) == 0.0
    ensures Mul(Inverse(m), m) == m && Mul(m, Inverse(m)) == m
  {
    SingularInverse(m);
    MulIdentity(m);
  }

  /** The result is a two-sided inverse exactly when the determinant is not zero. */
  lemma InverseIff(m: Mat)
    ensures Mul(Inverse(m), m) == IDENTITY <==> Det(m) != 0.0
    ensures Mul(m, Inverse(m)) == IDENTITY <==> Det(m) != 0.0
  {
    if Det(m) != 0.0 {
      LeftInverse(m);
      InverseUnique(Inverse(m), m);
    } else {
      SingularProducts(m);
      SingularIsNotOne(m);
    }
  }

  /** Inverting twice gives the matrix back, unless it is singular and not the identity. */
  lemma InverseTwice(m: Mat)
    ensures Inverse(Inverse(m)) == m <==> Det(m) != 0.0
  {
    if Det(m) != 0.0 {
      LeftInverse(m);
      InverseUnique(Inverse(m), m);
    } else {
      InverseIdentity();
      DetIdentity();
    }
  }

  lemma InverseIdentity()
    ensures Inverse(IDENTITY) == IDENTITY
  {
    MulIdentity(IDENTITY);
    InverseUnique(IDENTITY, IDENTITY);
  }

  lemma InverseMul(a: Mat, b: Mat)
    requires Det(a) != 0.0 && Det(b) != 0.0
    ensures Inverse(Mul(a, b)) == Mul(Inverse(b), Inverse(a))
  {
    var x, y := Inverse(a), Inverse(b);
    LeftInverse(a);
    LeftInverse(b);
    // (y x) (a b) == y (x (a b)) == y ((x a) b) == y b
    MulAssociates(y, x, Mul(a, b));
    MulAssociates(x, a, b);
    MulIdentity(b);
    InverseUnique(Mul(y, x), Mul(a, b));
  }

  lemma InverseOne(b: Mat)
    requires Det(b) != 0.0
    ensures Inverse(b) == IDENTITY <==> b == IDENTITY
  {
    InverseIdentity();
    InverseTwice(b);
  }

  lemma DetVanishes(a: Mat, b: Mat)
    requires Det(a) == 0.0 || Det(b) == 0.0
    ensures Inverse(Mul(a, b)) == IDENTITY
  {
    InvertibleDet(a, b);
  }

  /** Inverting reverses a product, except where one factor is singular and the other is not. */
  lemma InverseMulIff(a: Mat, b: Mat)
    ensures Inverse(Mul(a, b)) == Mul(Inverse(b), Inverse(a))
       <==> (Det(a) != 0.0 <==> Det(b) != 0.0) || a == IDENTITY || b == IDENTITY
  {
    if Det(a) != 0.0 && Det(b) != 0.0 {
      InverseMul(a, b);
    } else {
      InverseMulSingular(a, b);
    }
  }

  lemma LeftSingular(a: Mat, b: Mat)
    requires Det(a) == 0.0 && Det(b) != 0.0
    ensures Mul(Inverse(b), Inverse(a)) == IDENTITY <==> b == IDENTITY
  {
    SingularInverse(a);
    MulIdentity(Inverse(b));
    InverseOne(b);
  }

  lemma RightSingular(a: Mat, b: Mat)
    requires Det(a) != 0.0 && Det(b) == 0.0
    ensures Mul(Inverse(b), Inverse(a)) == IDENTITY <==> a == IDENTITY
  {
    SingularInverse(b);
    MulIdentity(Inverse(a));
    InverseOne(a);
  }

  lemma BothSingular(a: Mat, b: Mat)
    requires Det(a) == 0.0 && Det(b) == 0.0
    ensures Mul(Inverse(b), Inverse(a)) == IDENTITY
  {
    SingularInverse(a);
    SingularInverse(b);
    MulIdentity(IDENTITY);
  }

  lemma InverseMulSingular(a: Mat, b: Mat)
    requires Det(a) == 0.0 || Det(b) == 0.0
    ensures Inverse(Mul(a, b)) == Mul(Inverse(b), Inverse(a))
       <==> (Det(a) != 0.0 <==> Det(b) != 0.0) || a == IDENTITY || b == IDENTITY
  {
    DetVanishes(a, b);
    if Det(a) != 0.0 {
      RightSingular(a, b);
      SingularIsNotOne(b);
    } else if Det(b) != 0.0 {
      LeftSingular(a, b);
      SingularIsNotOne(a);
    } else {
      BothSingular(a, b);
    }
  }

  lemma InverseTranspose(m: Mat)
    ensures Inverse(Transpose(m)) == Transpose(Inverse(m))
  {
    DetTranspose(m);
    if Det(m) != 0.0 {
      LeftInverse(m);
      InverseUnique(Inverse(m), m);
      TransposeMul(m, Inverse(m));
      InverseUnique(Transpose(Inverse(m)), Transpose(m));
    }
  }
}
