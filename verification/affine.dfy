// Value-level algebra of the 2x3 affine matrix kept by src/transform.js.
// A matrix [a, b, c, d, e, f] maps (x, y) to (a*x + c*y + e, b*x + d*y + f).

module Affine {

  datatype Point = Point(x: real, y: real)

  /** The six entries of `Transform.m`, in the order the JavaScript array holds them. */
  datatype Matrix = Matrix(a: real, b: real, c: real, d: real, e: real, f: real)

  /** A cosine/sine pair, standing for `Math.cos(rad)` and `Math.sin(rad)` of some angle. */
  datatype Turn = Turn(cos: real, sin: real)

  type UnitTurn = t: Turn | t.cos * t.cos + t.sin * t.sin == 1.0 witness Turn(1.0, 0.0)

  /** The turn by the opposite angle: cos(-r) == cos(r), sin(-r) == -sin(r). */
  function Reverse(t: UnitTurn): (r: UnitTurn)
    ensures r.cos == t.cos && r.sin == -t.sin
  {
    Turn(t.cos, -t.sin)
  }

  const Identity: Matrix := Matrix(1.0, 0.0, 0.0, 1.0, 0.0, 0.0)

  /** The point `transformPoint(px, py)` returns for matrix `m`. */
  function Apply(m: Matrix, p: Point): Point
  {
    Point(p.x * m.a + p.y * m.c + m.e, p.x * m.b + p.y * m.d + m.f)
  }

  /** The matrix after `translate(x, y)`: the offset is expressed in the current frame. */
  function Translated(m: Matrix, x: real, y: real): Matrix
  {
    m.(e := m.e + (m.a * x + m.c * y), f := m.f + (m.b * x + m.d * y))
  }

  /** The matrix after `rotate(rad)` with `t` the cosine and sine of `rad`. */
  function Rotated(m: Matrix, t: Turn): Matrix
  {
    Matrix(m.a * t.cos + m.c * t.sin, m.b * t.cos + m.d * t.sin,
           m.a * -t.sin + m.c * t.cos, m.b * -t.sin + m.d * t.cos,
           m.e, m.f)
  }

  /** The point rotated by `t` about the origin. */
  function RotatePoint(t: Turn, p: Point): Point
  {
    Point(t.cos * p.x - t.sin * p.y, t.sin * p.x + t.cos * p.y)
  }

  lemma IdentityFixesPoints(p: Point)
    ensures Apply(Identity, p) == p
  {
  }

  /** A translation leaves the linear part untouched and moves the image of every point
      as if the point itself were moved by the offset first. */
  lemma TranslatedMovesPoints(m: Matrix, x: real, y: real, p: Point)
    ensures Translated(m, x, y).a == m.a && Translated(m, x, y).b == m.b
    ensures Translated(m, x, y).c == m.c && Translated(m, x, y).d == m.d
    ensures Apply(Translated(m, x, y), p) == Apply(m, Point(p.x + x, p.y + y))
  {
  }

  /** Two consecutive translates are one translate by the summed offsets. */
  lemma TranslatesCompose(m: Matrix, x1: real, y1: real, x2: real, y2: real)
    ensures Translated(Translated(m, x1, y1), x2, y2) == Translated(m, x1 + x2, y1 + y2)
  {
    calc {
      Translated(Translated(m, x1, y1), x2, y2).e;
      m.e + (m.a * x1 + m.c * y1) + (m.a * x2 + m.c * y2);
      m.e + (m.a * (x1 + x2) + m.c * (y1 + y2));
    }
    calc {
      Translated(Translated(m, x1, y1), x2, y2).f;
      m.f + (m.b * x1 + m.d * y1) + (m.b * x2 + m.d * y2);
      m.f + (m.b * (x1 + x2) + m.d * (y1 + y2));
    }
  }

  /** A rotation keeps the offset and maps every point as if the point were rotated first. */
  lemma RotatedMovesPoints(m: Matrix, t: Turn, p: Point)
    ensures Rotated(m, t).e == m.e && Rotated(m, t).f == m.f
    ensures Apply(Rotated(m, t), p) == Apply(m, RotatePoint(t, p))
  {
    RotatedAbscissa(m, t, p);
    RotatedOrdinate(m, t, p);
  }

  lemma RotatedAbscissa(m: Matrix, t: Turn, p: Point)
    ensures Apply(Rotated(m, t), p).x == Apply(m, RotatePoint(t, p)).x
  {
    RotatedImageX(m, t, p);
    ImageOfRotatedX(m, t, p);
    RotatedCoordinate(m.a, m.c, m.e, t.cos, t.sin, p.x, p.y, Apply(Rotated(m, t), p).x, Apply(m, RotatePoint(t, p)).x);
  }

  lemma RotatedOrdinate(m: Matrix, t: Turn, p: Point)
    ensures Apply(Rotated(m, t), p).y == Apply(m, RotatePoint(t, p)).y
  {
    RotatedImageY(m, t, p);
    ImageOfRotatedY(m, t, p);
    RotatedCoordinate(m.b, m.d, m.f, t.cos, t.sin, p.x, p.y, Apply(Rotated(m, t), p).y, Apply(m, RotatePoint(t, p)).y);
  }

  lemma RotatedImageX(m: Matrix, t: Turn, p: Point)
    ensures Apply(Rotated(m, t), p).x == p.x * (m.a * t.cos + m.c * t.sin) + p.y * (m.a * -t.sin + m.c * t.cos) + m.e
  {
  }

  lemma RotatedImageY(m: Matrix, t: Turn, p: Point)
    ensures Apply(Rotated(m, t), p).y == p.x * (m.b * t.cos + m.d * t.sin) + p.y * (m.b * -t.sin + m.d * t.cos) + m.f
  {
  }

  lemma ImageOfRotatedX(m: Matrix, t: Turn, p: Point)
    ensures Apply(m, RotatePoint(t, p)).x == (t.cos * p.x - t.sin * p.y) * m.a + (t.sin * p.x + t.cos * p.y) * m.c + m.e
  {
  }

  lemma ImageOfRotatedY(m: Matrix, t: Turn, p: Point)
    ensures Apply(m, RotatePoint(t, p)).y == (t.cos * p.x - t.sin * p.y) * m.b + (t.sin * p.x + t.cos * p.y) * m.d + m.f
  {
  }

  /** One coordinate of a rotated image: the rotated matrix applied to (x, y) is the matrix
      applied to the rotated point. */
  lemma RotatedCoordinate(a: real, c: real, e: real, co: real, si: real, x: real, y: real, lhs: real, rhs: real)
    requires lhs == x * (a * co + c * si) + y * (a * -si + c * co) + e
    requires rhs == (co * x - si * y) * a + (si * x + co * y) * c + e
    ensures lhs == rhs
  {
    calc {
      lhs;
      x * (a * co) + x * (c * si) + y * (a * -si) + y * (c * co) + e;
      a * (co * x) + c * (si * x) - a * (si * y) + c * (co * y) + e;
      rhs;
    }
  }

  /** One row of a rotation by `t` followed by one by `rt`, the reverse of `t`:
      u*(cos^2 + sin^2) == u. */
  lemma UndoRotationEntry(u: real, v: real, t: UnitTurn, rt: Turn, p: real, q: real)
    requires rt.cos == t.cos && rt.sin == -t.sin
    requires p == (u * t.cos + v * t.sin) * rt.cos + (u * -t.sin + v * t.cos) * rt.sin
    requires q == (u * t.cos + v * t.sin) * -rt.sin + (u * -t.sin + v * t.cos) * rt.cos
    ensures p == u && q == v
  {
    var co, si := t.cos, t.sin;
    calc {
      p;
      (u * co + v * si) * co + (u * -si + v * co) * -si;
      u * (co * co) + v * (si * co) + u * (si * si) - v * (co * si);
      u * (co * co + si * si);
      u;
    }
    calc {
      q;
      (u * co + v * si) * si + (u * -si + v * co) * co;
      u * (co * si) + v * (si * si) - u * (si * co) + v * (co * co);
      v * (co * co + si * si);
      v;
    }
  }

  /** Rotating by an angle and then by its opposite restores the matrix exactly. */
  lemma {:induction false} RotateThenReverse(m: Matrix, t: UnitTurn)
    ensures Rotated(Rotated(m, t), Reverse(t)) == m
  {
    var r := Rotated(Rotated(m, t), Reverse(t));
    TwiceRotatedFirstRow(m, t);
    UndoRotationEntry(m.a, m.c, t, Reverse(t), r.a, r.c);
    TwiceRotatedSecondRow(m, t);
    UndoRotationEntry(m.b, m.d, t, Reverse(t), r.b, r.d);
  }

  lemma TwiceRotatedFirstRow(m: Matrix, t: UnitTurn)
    ensures var r := Rotated(Rotated(m, t), Reverse(t));
      && r.a == (m.a * t.cos + m.c * t.sin) * Reverse(t).cos + (m.a * -t.sin + m.c * t.cos) * Reverse(t).sin
      && r.c == (m.a * t.cos + m.c * t.sin) * -Reverse(t).sin + (m.a * -t.sin + m.c * t.cos) * Reverse(t).cos
  {
  }

  lemma TwiceRotatedSecondRow(m: Matrix, t: UnitTurn)
    ensures var r := Rotated(Rotated(m, t), Reverse(t));
      && r.b == (m.b * t.cos + m.d * t.sin) * Reverse(t).cos + (m.b * -t.sin + m.d * t.cos) * Reverse(t).sin
      && r.d == (m.b * t.cos + m.d * t.sin) * -Reverse(t).sin + (m.b * -t.sin + m.d * t.cos) * Reverse(t).cos
  {
  }
}
