/** Axis-aligned rectangles, points and 2D affine matrices, over the reals.
    The renderer uses 32-bit floats for all of these; rounding is not
    modelled. */
module Geometry {
  import opened Results

  datatype Point = Point(x: real, y: real)

  /** A rectangle given by its left, top, right and bottom edges. */
  datatype Rect = Rect(left: real, top: real, right: real, bottom: real)

  /** The empty rectangle: every edge at zero. */
  const EmptyRect := Rect(0.0, 0.0, 0.0, 0.0)

  function Center(r: Rect): (c: Point)
    ensures c.x - r.left == r.right - c.x
    ensures c.y - r.top == r.bottom - c.y
  {
    Point((r.left + r.right) / 2.0, (r.top + r.bottom) / 2.0)
  }

  /** The affine map x' = a*x + c*y + e, y' = b*x + d*y + f. */
  datatype Matrix = Matrix(a: real, b: real, c: real, d: real, e: real, f: real)

  const Identity := Matrix(1.0, 0.0, 0.0, 1.0, 0.0, 0.0)

  function Apply(m: Matrix, p: Point): Point
  {
    Point(m.a * p.x + m.c * p.y + m.e, m.b * p.x + m.d * p.y + m.f)
  }

  /** The translation by (dx, dy). */
  function Translate(dx: real, dy: real): Matrix
  {
    Matrix(1.0, 0.0, 0.0, 1.0, dx, dy)
  }

  /** The product m * n: the map that applies n first and then m. */
  function Concat(m: Matrix, n: Matrix): Matrix
  {
    Matrix(m.a * n.a + m.c * n.b, m.b * n.a + m.d * n.b,
           m.a * n.c + m.c * n.d, m.b * n.c + m.d * n.d,
           m.a * n.e + m.c * n.f + m.e, m.b * n.e + m.d * n.f + m.f)
  }

  /** Skia's pre-translation: `m` times the translation by `t`, that is,
      `Concat(m, Translate(t.x, t.y))` written out. */
  function PreTranslate(m: Matrix, t: Point): Matrix
  {
    Matrix(m.a, m.b, m.c, m.d, m.a * t.x + m.c * t.y + m.e, m.b * t.x + m.d * t.y + m.f)
  }

  /** The same matrix with its translation part removed. */
  function NoTranslation(m: Matrix): Matrix
  {
    Matrix(m.a, m.b, m.c, m.d, 0.0, 0.0)
  }

  function Determinant(m: Matrix): real
  {
    m.a * m.d - m.b * m.c
  }

  /** The inverse matrix, or `None` when the matrix is singular. The inverse
      of a matrix without translation has none either. */
  function Invert(m: Matrix): (r: Option<Matrix>)
    ensures r.None? <==> Determinant(m) == 0.0
    ensures r.Some? && m.e == 0.0 && m.f == 0.0 ==> r.value.e == 0.0 && r.value.f == 0.0
  {
    var det := Determinant(m);
    if det == 0.0 then None
    else Some(Matrix(m.d / det, -m.b / det, -m.c / det, m.a / det,
                     (m.c * m.f - m.d * m.e) / det, (m.b * m.e - m.a * m.f) / det))
  }

  /** The identity is its own inverse. */
  lemma InvertIdentity()
    ensures Invert(Identity) == Some(Identity)
  {
    assert Determinant(Identity) == 1.0;
  }

  /** The product applies its right factor first, then its left one. */
  lemma ConcatApply(m: Matrix, n: Matrix, p: Point)
    ensures Apply(Concat(m, n), p) == Apply(m, Apply(n, p))
  {
    ConcatApplyX(m, n, p);
    ConcatApplyY(m, n, p);
  }

  /** The first coordinate of ConcatApply. */
  lemma ConcatApplyX(m: Matrix, n: Matrix, p: Point)
    ensures Apply(Concat(m, n), p).x == Apply(m, Apply(n, p)).x
  {
    var q := Apply(n, p);
    var r := Concat(m, n);
    ProductRow(m.a, m.c, m.e, n.a, n.b, n.c, n.d, n.e, n.f, p.x, p.y, q.x, q.y, r.a, r.c, r.e);
  }

  /** The second coordinate of ConcatApply. */
  lemma ConcatApplyY(m: Matrix, n: Matrix, p: Point)
    ensures Apply(Concat(m, n), p).y == Apply(m, Apply(n, p)).y
  {
    var q := Apply(n, p);
    var r := Concat(m, n);
    ProductRow(m.b, m.d, m.f, n.a, n.b, n.c, n.d, n.e, n.f, p.x, p.y, q.x, q.y, r.b, r.d, r.f);
  }

  /** One output coordinate of a product whose row (ru, rw, rt) has already
      been multiplied out. */
  lemma ProductRow(u: real, w: real, t: real, a: real, b: real, c: real, d: real, e: real, f: real,
                   x: real, y: real, qx: real, qy: real, ru: real, rw: real, rt: real)
    requires qx == a * x + c * y + e && qy == b * x + d * y + f
    requires ru == u * a + w * b && rw == u * c + w * d && rt == u * e + w * f + t
    ensures ru * x + rw * y + rt == u * qx + w * qy + t
  {
    RowCompose(u, w, t, a, b, c, d, e, f, x, y, qx, qy);
  }

  /** A translation applied after `n` shifts every image of `n`. */
  lemma TranslationConcatApply(t: Point, n: Matrix, p: Point)
    ensures Apply(Concat(Translate(t.x, t.y), n), p) == Point(Apply(n, p).x + t.x, Apply(n, p).y + t.y)
  {
    var r := Concat(Translate(t.x, t.y), n);
    assert r == Matrix(n.a, n.b, n.c, n.d, n.e + t.x, n.f + t.y);
  }

  /** Pre-translating the identity gives the translation itself. */
  lemma PreTranslateIdentity(t: Point)
    ensures PreTranslate(Identity, t) == Translate(t.x, t.y)
  {
  }

  /** One output coordinate of a product: the row (u, w, t) applied after
      the matrix (a, b, c, d, e, f). */
  lemma RowCompose(u: real, w: real, t: real, a: real, b: real, c: real, d: real, e: real, f: real,
                   x: real, y: real, qx: real, qy: real)
    requires qx == a * x + c * y + e && qy == b * x + d * y + f
    ensures u * qx + w * qy + t == (u * a + w * b) * x + (u * c + w * d) * y + (u * e + w * f + t)
  {
    Distribute(u, a * x, c * y, e);
    Distribute(w, b * x, d * y, f);
    Associate(u, a, x);
    Associate(u, c, y);
    Associate(w, b, x);
    Associate(w, d, y);
  }

  lemma Distribute(k: real, x: real, y: real, z: real)
    ensures k * (x + y + z) == k * x + k * y + k * z
  {
  }

  lemma Associate(x: real, y: real, z: real)
    ensures x * (y * z) == (x * y) * z
  {
  }

  /** A pre-translated matrix moves a point by `t` before applying `m`. */
  lemma PreTranslateApply(m: Matrix, t: Point, p: Point)
    ensures Apply(PreTranslate(m, t), p) == Apply(m, Point(p.x + t.x, p.y + t.y))
  {
    var r := PreTranslate(m, t);
    assert Apply(r, p).x == Apply(m, Point(p.x + t.x, p.y + t.y)).x by {
      Shift(m.a, m.c, m.e, p.x, p.y, t.x, t.y);
    }
    assert Apply(r, p).y == Apply(m, Point(p.x + t.x, p.y + t.y)).y by {
      Shift(m.b, m.d, m.f, p.x, p.y, t.x, t.y);
    }
  }

  /** One output coordinate of a pre-translated matrix. */
  lemma Shift(u: real, w: real, k: real, x: real, y: real, tx: real, ty: real)
    ensures u * x + w * y + (u * tx + w * ty + k) == u * (x + tx) + w * (y + ty) + k
  {
  }

  /** Removing the translation shifts every image back by (e, f). */
  lemma NoTranslationApply(m: Matrix, p: Point)
    ensures Apply(NoTranslation(m), p) == Point(Apply(m, p).x - m.e, Apply(m, p).y - m.f)
  {
  }

  /** The inverse undoes the matrix: inverse after matrix is the identity map. */
  lemma InvertApply(m: Matrix, p: Point)
    requires Determinant(m) != 0.0
    ensures Apply(Invert(m).value, Apply(m, p)) == p
  {
    InvertApplyAt(m, Determinant(m), Invert(m).value, p);
  }

  lemma InvertApplyAt(m: Matrix, det: real, inv: Matrix, p: Point)
    requires det == Determinant(m) && det != 0.0
    requires inv == Matrix(m.d / det, -m.b / det, -m.c / det, m.a / det,
                           (m.c * m.f - m.d * m.e) / det, (m.b * m.e - m.a * m.f) / det)
    ensures Apply(inv, Apply(m, p)) == p
  {
    var q := Apply(m, p);
    assert Apply(inv, q).x == p.x by {
      InverseRowX(m.a, m.b, m.c, m.d, m.e, m.f, p.x, p.y, q.x, q.y, det);
      DivideRow(m.d, -m.c, m.c * m.f - m.d * m.e, det, q, p.x);
    }
    assert Apply(inv, q).y == p.y by {
      InverseRowY(m.a, m.b, m.c, m.d, m.e, m.f, p.x, p.y, q.x, q.y, det);
      DivideRow(-m.b, m.a, m.b * m.e - m.a * m.f, det, q, p.y);
    }
  }

  /** The first row of the adjugate, applied after the matrix, scales x by
      the determinant. */
  lemma InverseRowX(a: real, b: real, c: real, d: real, e: real, f: real, x: real, y: real,
                    qx: real, qy: real, det: real)
    requires qx == a * x + c * y + e && qy == b * x + d * y + f && det == a * d - b * c
    ensures d * qx + -c * qy + (c * f - d * e) == det * x
  {
    var t := c * f - d * e;
    RowCompose(d, -c, t, a, b, c, d, e, f, x, y, qx, qy);
    Collapse(d * a + -c * b, d * c + -c * d, d * e + -c * f + t, x, y, det);
  }

  /** The second row of the adjugate, applied after the matrix, scales y by
      the determinant. */
  lemma InverseRowY(a: real, b: real, c: real, d: real, e: real, f: real, x: real, y: real,
                    qx: real, qy: real, det: real)
    requires qx == a * x + c * y + e && qy == b * x + d * y + f && det == a * d - b * c
    ensures -b * qx + a * qy + (b * e - a * f) == det * y
  {
    var t := b * e - a * f;
    RowCompose(-b, a, t, a, b, c, d, e, f, x, y, qx, qy);
    Collapse(-b * c + a * d, -b * a + a * b, -b * e + a * f + t, y, x, det);
  }

  /** A row whose coefficients reduce to (k, 0, 0) takes the value k * x. */
  lemma Collapse(coefX: real, coefY: real, constant: real, x: real, y: real, k: real)
    requires coefX == k && coefY == 0.0 && constant == 0.0
    ensures coefX * x + coefY * y + constant == k * x
  {
  }

  /** Dividing a row through by a non-zero factor divides its value by it. */
  lemma DivideRow(u: real, w: real, t: real, det: real, q: Point, target: real)
    requires det != 0.0
    requires u * q.x + w * q.y + t == det * target
    ensures (u / det) * q.x + (w / det) * q.y + t / det == target
  {
    var k := 1.0 / det;
    assert u / det == u * k && w / det == w * k && t / det == t * k;
    Associate(k, u, q.x);
    Associate(k, w, q.y);
    assert (u * k) * q.x + (w * k) * q.y + t * k == k * (u * q.x + w * q.y + t) by {
      Distribute(k, u * q.x, w * q.y, t);
    }
    assert k * (det * target) == (k * det) * target by { Associate(k, det, target); }
  }
}
