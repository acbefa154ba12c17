// The Transform object of src/transform.js: a six-entry matrix `m`, overwritten in place
// by `translate` and `rotate`, replaced by `reset` and read by `transformPoint`.

module Transforms {
  import opened Affine

  class Transform {
    var m: array<real>

    ghost predicate Valid()
      reads this
    {
      m.Length == 6
    }

    /** The matrix the array currently holds. */
    ghost function Matrix(): Affine.Matrix
      reads this, m
      requires Valid()
    {
      Affine.Matrix(m[0], m[1], m[2], m[3], m[4], m[5])
    }

    /** `new Transform()` calls `reset`, so it starts as the identity. */
    constructor ()
      ensures Valid() && fresh(m)
      ensures Matrix() == Identity
    {
      m := new real[6] [1.0, 0.0, 0.0, 1.0, 0.0, 0.0];
    }

    /** `reset` assigns a fresh identity array; committing it to a drawing context is not modelled. */
    method Reset()
      modifies this
      ensures Valid() && fresh(m)
      ensures Matrix() == Identity
      ensures m[..] == [1.0, 0.0, 0.0, 1.0, 0.0, 0.0]
    {
      m := new real[6] [1.0, 0.0, 0.0, 1.0, 0.0, 0.0];
    }

    /** `rotate(rad)` with `t` the cosine and sine of `rad`: m[0..3] become the product of the
        current linear part with the rotation; m[4] and m[5] stay. */
    method Rotate(t: UnitTurn)
      requires Valid()
      modifies m
      ensures Valid()
      ensures Matrix() == Rotated(old(Matrix()), t)
    {
      ghost var before := Matrix();
      var a, b, c, d := m[0], m[1], m[2], m[3];
      var m11 := a * t.cos + c * t.sin;
      var m12 := b * t.cos + d * t.sin;
      var m21 := a * -t.sin + c * t.cos;
      var m22 := b * -t.sin + d * t.cos;
      assert Affine.Matrix(m11, m12, m21, m22, m[4], m[5]) == Rotated(before, t);
      m[0] := m11;
      m[1] := m12;
      m[2] := m21;
      m[3] := m22;
    }

    /** `translate(x, y)`: m[0..3] stay; m[4] and m[5] move by the offset mapped through m[0..3]. */
    method Translate(x: real, y: real)
      requires Valid()
      modifies m
      ensures Valid()
      ensures Matrix() == Translated(old(Matrix()), x, y)
    {
      m[4] := m[4] + (m[0] * x + m[2] * y);
      m[5] := m[5] + (m[1] * x + m[3] * y);
    }

    /** `transformPoint(px, py)`: the image of the point under the current matrix. */
    method TransformPoint(px: real, py: real) returns (p: Point)
      requires Valid()
      ensures p == Affine.Apply(Matrix(), Point(px, py))
    {
      var x := px * m[0] + py * m[2] + m[4];
      var y := px * m[1] + py * m[3] + m[5];
      p := Point(x, y);
    }

    /** `apply(ctx)` hands the six entries to `ctx.setTransform`; the model returns them. */
    method Apply() returns (a: Affine.Matrix)
      requires Valid()
      ensures a == Matrix()
    {
      a := Affine.Matrix(m[0], m[1], m[2], m[3], m[4], m[5]);
    }
  }

  /** A client of the class: after rotating by a turn and by its reverse the linear part
      is back where it started, while the offset never moved. */
  method RotateAndBack(t: Transform, turn: UnitTurn)
    requires t.Valid()
    modifies t.m
    ensures t.Valid()
    ensures t.m[..] == old(t.m[..])
  {
    ghost var before := t.Matrix();
    t.Rotate(turn);
    t.Rotate(Reverse(turn));
    RotateThenReverse(before, turn);
    assert t.Matrix() == before;
  }
}
