// The rectangle and angle helpers of src/pieces.js: `normalizeAngle`, `intersect`
// and `extendRect`, with JavaScript's `null`/`undefined` rectangle written as `None`.

module Options {
  datatype Option<+T> = None | Some(value: T)
}

module Geometry {
  import opened Options

  function Min(a: real, b: real): real { if a <= b then a else b }
  function Max(a: real, b: real): real { if a >= b then a else b }

  /** JavaScript's `Math.trunc` on a real. */
  function Trunc(q: real): (k: int)
    ensures q >= 0.0 ==> k as real <= q < k as real + 1.0
    ensures q < 0.0 ==> k as real - 1.0 < q <= k as real
  {
    if q >= 0.0 then q.Floor else -((-q).Floor)
  }

  /** True when `d` is a whole number of turns of 360. */
  predicate WholeTurns(d: real)
  {
    (d / 360.0).Floor as real * 360.0 == d
  }

  lemma TurnsAreWhole(k: int)
    ensures WholeTurns(360.0 * k as real)
  {
    assert 360.0 * k as real / 360.0 == k as real;
  }

  /** JavaScript's `angle % 360`: the remainder of a division truncated toward zero, which
      takes the sign of the dividend (Dafny's own `%` is Euclidean). */
  function Rem360(angle: real): (r: real)
    ensures angle >= 0.0 ==> 0.0 <= r < 360.0
    ensures angle < 0.0 ==> -360.0 < r <= 0.0
    ensures WholeTurns(angle - r)
  {
    var k := Trunc(angle / 360.0);
    TurnsAreWhole(k);
    angle - 360.0 * k as real
  }

  /** `normalizeAngle`: a non-negative angle lands in [0, 360), a negative one in (0, 360];
      either way the angle moves by a whole number of turns. */
  function NormalizeAngle(angle: real): (r: real)
    ensures angle >= 0.0 ==> 0.0 <= r < 360.0
    ensures angle < 0.0 ==> 0.0 < r <= 360.0
    ensures WholeTurns(r - angle)
  {
    if angle >= 0.0 then
      var q := Rem360(angle);
      TurnsAreWhole(-Trunc(angle / 360.0));
      q
    else
      var q := Rem360(angle);
      TurnsAreWhole(1 - Trunc(angle / 360.0));
      q + 360.0
  }

  /** Two whole-turn shifts of one angle that land in the same half-open range are the same. */
  lemma SameTurns(angle: real, j: int, k: int)
    requires angle >= 0.0 ==> 0.0 <= angle + 360.0 * j as real < 360.0 && 0.0 <= angle + 360.0 * k as real < 360.0
    requires angle < 0.0 ==> 0.0 < angle + 360.0 * j as real <= 360.0 && 0.0 < angle + 360.0 * k as real <= 360.0
    ensures j == k
  {
    assert -1 < j - k < 1;
  }

  /** The result is THE representative of the angle in its range: any value that differs from
      the angle by whole turns and lies in the same range is the result. */
  lemma NormalizeAngleUnique(angle: real, k: int)
    requires angle >= 0.0 ==> 0.0 <= angle + 360.0 * k as real < 360.0
    requires angle < 0.0 ==> 0.0 < angle + 360.0 * k as real <= 360.0
    ensures NormalizeAngle(angle) == angle + 360.0 * k as real
  {
    var r := NormalizeAngle(angle);
    var j := ((r - angle) / 360.0).Floor;
    assert r == angle + 360.0 * j as real;
    SameTurns(angle, j, k);
  }

  /** A negative whole number of turns normalizes to 360, not to 0. */
  lemma NormalizeNegativeTurns(k: int)
    requires k >= 1
    ensures NormalizeAngle(-360.0 * k as real) == 360.0
  {
    NormalizeAngleUnique(-360.0 * k as real, k + 1);
  }

  /** Normalizing twice changes the result only when the first pass gave 360. */
  lemma NormalizeAngleTwice(angle: real)
    ensures NormalizeAngle(NormalizeAngle(angle)) ==
            if NormalizeAngle(angle) == 360.0 then 0.0 else NormalizeAngle(angle)
  {
    var r := NormalizeAngle(angle);
    if r == 360.0 {
      NormalizeAngleUnique(r, -1);
    } else {
      NormalizeAngleUnique(r, 0);
    }
  }

  /** A dirty rectangle `{left, top, right, bottom}` in surface coordinates. */
  datatype Rect = Rect(left: real, top: real, right: real, bottom: real)

  predicate WellFormed(r: Rect)
  {
    r.left <= r.right && r.top <= r.bottom
  }

  predicate InRect(p: (real, real), r: Rect)
  {
    r.left <= p.0 <= r.right && r.top <= p.1 <= r.bottom
  }

  /** `intersect(a, b)`: both rectangles present and their closed extents overlap. */
  predicate Intersect(a: Option<Rect>, b: Option<Rect>)
  {
    a.Some? && b.Some?
    && a.value.left <= b.value.right
    && b.value.left <= a.value.right
    && a.value.top <= b.value.bottom
    && b.value.top <= a.value.bottom
  }

  lemma IntersectMissing(a: Option<Rect>, b: Option<Rect>)
    requires a.None? || b.None?
    ensures !Intersect(a, b)
  {
  }

  lemma IntersectSymmetric(a: Option<Rect>, b: Option<Rect>)
    ensures Intersect(a, b) == Intersect(b, a)
  {
  }

  /** Closed intervals: two rectangles that only share an edge intersect. */
  lemma IntersectSharedEdge(a: Rect, b: Rect)
    requires WellFormed(a) && WellFormed(b)
    requires a.right == b.left
    requires a.top <= b.bottom && b.top <= a.bottom
    ensures Intersect(Some(a), Some(b))
  {
  }

  /** For well-formed rectangles, `intersect` holds exactly when some point lies in both. */
  lemma IntersectIffCommonPoint(a: Rect, b: Rect)
    requires WellFormed(a) && WellFormed(b)
    ensures Intersect(Some(a), Some(b)) <==> exists p: (real, real) :: InRect(p, a) && InRect(p, b)
  {
    if Intersect(Some(a), Some(b)) {
      var p := (Max(a.left, b.left), Max(a.top, b.top));
      assert InRect(p, a) && InRect(p, b);
    }
  }

  /** `outer` reaches at least as far as `inner` does inside the surface [0,width]x[0,height]. */
  predicate Covers(width: real, height: real, outer: Rect, inner: Rect)
  {
    outer.left <= Max(0.0, inner.left) && outer.top <= Max(0.0, inner.top)
    && outer.right >= Min(width, inner.right) && outer.bottom >= Min(height, inner.bottom)
  }

  lemma CoversTransitive(width: real, height: real, a: Rect, b: Rect, c: Rect)
    requires Covers(width, height, a, b) && Covers(width, height, b, c)
    ensures Covers(width, height, a, c)
  {
  }

  /** `outer` reaches at least as far as `inner` on every side. */
  predicate Encloses(outer: Rect, inner: Rect)
  {
    outer.left <= inner.left && outer.top <= inner.top
    && outer.right >= inner.right && outer.bottom >= inner.bottom
  }

  predicate InSurface(width: real, height: real, r: Rect)
  {
    r.left >= 0.0 && r.top >= 0.0 && r.right <= width && r.bottom <= height
  }

  /** `extendRect(rect1, rect2)` on a `width` x `height` surface. When either argument is
      missing the result is the second one, unclamped (so a missing second argument discards
      the first); otherwise it is the clamped box covering both. */
  function ExtendRect(width: real, height: real, rect1: Option<Rect>, rect2: Option<Rect>): (r: Option<Rect>)
    ensures rect1.None? || rect2.None? ==> r == rect2
    ensures rect1.Some? && rect2.Some? ==>
      r.Some? && InSurface(width, height, r.value)
      && Covers(width, height, r.value, rect1.value) && Covers(width, height, r.value, rect2.value)
  {
    if rect1.Some? && rect2.Some? then
      var a, b := rect1.value, rect2.value;
      Some(Rect(Max(0.0, Min(a.left, b.left)), Max(0.0, Min(a.top, b.top)),
                Min(width, Max(a.right, b.right)), Min(height, Max(a.bottom, b.bottom))))
    else rect2
  }

  /** The union is the tightest such box: every box that covers both arguments, up to the
      clamp, encloses it. */
  lemma ExtendRectTightest(width: real, height: real, a: Rect, b: Rect, o: Rect)
    requires Covers(width, height, o, a) && Covers(width, height, o, b)
    ensures Encloses(o, ExtendRect(width, height, Some(a), Some(b)).value)
  {
  }

  lemma ExtendRectCommutative(width: real, height: real, a: Rect, b: Rect)
    ensures ExtendRect(width, height, Some(a), Some(b)) == ExtendRect(width, height, Some(b), Some(a))
  {
  }

  lemma ExtendRectAssociative(width: real, height: real, a: Rect, b: Rect, c: Rect)
    ensures ExtendRect(width, height, ExtendRect(width, height, Some(a), Some(b)), Some(c))
         == ExtendRect(width, height, Some(a), ExtendRect(width, height, Some(b), Some(c)))
  {
  }

  /** Growing a box never loses what it already covered. */
  lemma ExtendRectKeepsCover(width: real, height: real, o: Rect, x: Rect, b: Rect)
    requires Covers(width, height, o, x)
    ensures Covers(width, height, ExtendRect(width, height, Some(o), Some(b)).value, x)
  {
  }
}
