// What `renderPieces` (src/pieces.js:392-440) does with an item: consume the redraw flag,
// then blit the cached assembled bitmap, skip a hidden item, or draw every piece through a
// clip window rotated about the item's centre while the bitmap itself is turned back.

module Render {
  import opened Options
  import opened Geometry
  import opened Objects
  import opened Model
  import opened Affine
  import opened Transforms
  import opened Tracker

  /** One piece as drawn: the matrix and size of its clip rectangle (centred on the origin),
      the matrix the item's bitmap is then drawn with, and the alpha. */
  datatype Blit = Blit(clip: Matrix, w: real, h: real, image: Matrix, opacity: real)

  /** The matrix the bitmap is drawn with: continue from the clip matrix, step back from the
      piece's centre to the item's frame, and turn by `back` about the item's centre. */
  function ImageMatrix(it: Item, g: Geom, t: UnitTurn, back: UnitTurn): Matrix
  {
    TurnBack(PieceMatrix(it, g, t), it, g, back)
  }

  function TurnBack(m: Matrix, it: Item, g: Geom, back: UnitTurn): Matrix
  {
    var m1 := Translated(m, -(g.x + g.w / 2.0 - it.x), -(g.y + g.h / 2.0 - it.y));
    var m2 := Translated(m1, it.width / 2.0, it.height / 2.0);
    var m3 := Rotated(m2, back);
    Translated(m3, -it.width / 2.0, -it.height / 2.0)
  }

  function BlitOf(it: Item, p: Piece, t: UnitTurn, back: UnitTurn): Blit
  {
    Blit(PieceMatrix(it, p.live, t), p.live.w, p.live.h, ImageMatrix(it, p.live, t, back), p.opacity)
  }

  function Blits(it: Item, t: UnitTurn, back: UnitTurn): seq<Blit>
  {
    seq(|it.pieces|, k requires 0 <= k < |it.pieces| => BlitOf(it, it.pieces[k], t, back))
  }

  /** The turn back by the item's normalized angle (`rotate(-angle * PI / 180)`). */
  function BackTurn(it: Item, trig: real -> UnitTurn): UnitTurn
  {
    trig(-NormalizeAngle(it.angle))
  }

  /** The outcome of `renderPieces` for one item. */
  datatype Outcome =
    | Untouched            // the redraw flag was down
    | Bitmap(at: Rect)     // the cached assembled bitmap, blitted at the item's place
    | Skipped              // flagged, but hidden
    | Strips(blits: seq<Blit>)

  function Rendering(it: Item, saveShowState: bool, trig: real -> UnitTurn): Outcome
  {
    if !it.redraw then Untouched
    else if it.shown && saveShowState then Bitmap(Rect(it.x, it.y, it.x + it.width, it.y + it.height))
    else if !it.hidden then Strips(Blits(it, ItemTurn(it, trig), BackTurn(it, trig)))
    else Skipped
  }

  /** The per-piece loop of `renderPieces`, with its own Transform that is reset after each
      piece. */
  method DrawPieces(it: Item, t: UnitTurn, back: UnitTurn) returns (blits: seq<Blit>)
    ensures blits == Blits(it, t, back)
  {
    var tr := new Transform();
    blits := [];
    var k := 0;
    while k < |it.pieces|
      invariant 0 <= k <= |it.pieces|
      invariant fresh(tr) && fresh(tr.m)
      invariant tr.Valid() && tr.Matrix() == Identity
      invariant |blits| == k && forall j :: 0 <= j < k ==> blits[j] == BlitOf(it, it.pieces[j], t, back)
    {
      var clip, image := PlacePiece(tr, it, it.pieces[k].live, t, back);
      blits := blits + [Blit(clip, it.pieces[k].live.w, it.pieces[k].live.h, image, it.pieces[k].opacity)];
      tr.Reset();
      k := k + 1;
    }
  }

  /** The transform calls for one piece: the clip matrix, then the bitmap's matrix. */
  method PlacePiece(tr: Transform, it: Item, p: Geom, t: UnitTurn, back: UnitTurn) returns (clip: Matrix, image: Matrix)
    requires tr.Valid() && tr.Matrix() == Identity
    modifies tr.m
    ensures tr.Valid()
    ensures clip == PieceMatrix(it, p, t) && image == ImageMatrix(it, p, t, back)
  {
    PlaceClip(tr, it, p, t);
    clip := tr.Apply();
    PlaceImage(tr, it, p, back);
    image := tr.Apply();
  }

  method PlaceClip(tr: Transform, it: Item, p: Geom, t: UnitTurn)
    requires tr.Valid() && tr.Matrix() == Identity
    modifies tr.m
    ensures tr.Valid() && tr.Matrix() == PieceMatrix(it, p, t)
  {
    tr.Translate(it.x, it.y);
    TurnAbout(tr, it.width / 2.0, it.height / 2.0, t);
    tr.Translate(p.tx, p.ty - it.extraY);
    tr.Translate(p.x + p.w / 2.0 - it.x, p.y + p.h / 2.0 - it.y);
  }

  method PlaceImage(tr: Transform, it: Item, p: Geom, back: UnitTurn)
    requires tr.Valid()
    modifies tr.m
    ensures tr.Valid() && tr.Matrix() == TurnBack(old(tr.Matrix()), it, p, back)
  {
    tr.Translate(-(p.x + p.w / 2.0 - it.x), -(p.y + p.h / 2.0 - it.y));
    TurnAbout(tr, it.width / 2.0, it.height / 2.0, back);
  }

  /** `translate(cx, cy)`, `rotate`, `translate(-cx, -cy)`: a turn about (cx, cy). */
  method TurnAbout(tr: Transform, cx: real, cy: real, t: UnitTurn)
    requires tr.Valid()
    modifies tr.m
    ensures tr.Valid() && tr.Matrix() == Translated(Rotated(Translated(old(tr.Matrix()), cx, cy), t), -cx, -cy)
  {
    tr.Translate(cx, cy);
    tr.Rotate(t);
    tr.Translate(-cx, -cy);
  }

  /** When the turn back is the reverse of the clip's turn (an item without a rotate offset),
      the bitmap is drawn upright and unscaled, at the item's place moved by the piece offset
      turned through the item's angle: only the clip window rotates. */
  lemma {:induction false} ImageUpright(it: Item, g: Geom, t: UnitTurn)
    ensures ImageMatrix(it, g, t, Reverse(t)) == Matrix(1.0, 0.0, 0.0, 1.0,
      it.x + (t.cos * g.tx - t.sin * (g.ty - it.extraY)), it.y + (t.sin * g.tx + t.cos * (g.ty - it.extraY)))
  {
    var w2, h2 := it.width / 2.0, it.height / 2.0;
    var dx, dy := g.x + g.w / 2.0 - it.x, g.y + g.h / 2.0 - it.y;
    // the clip's frame before its own offsets: the turn about the item's centre
    var r := Matrix(t.cos, t.sin, -t.sin, t.cos, it.x + w2, it.y + h2);
    var pm := PieceMatrix(it, g, t);
    ClipFrame(it, g, t, r, w2, h2, dx, dy);
    // the translations between the two turns add up to the piece offset
    var x := Translated(r, g.tx, g.ty - it.extraY);
    OffsetsBetweenTurns(r, w2, h2, g.tx, g.ty - it.extraY, dx, dy);
    // so the turn back undoes the turn and leaves an upright frame at the new offset
    UndoTurn(pm, it, g, t, x, w2, h2, dx, dy);
    var m := ImageMatrix(it, g, t, Reverse(t));
    assert m == Matrix(1.0, 0.0, 0.0, 1.0, x.e - w2, x.f - h2);
    TurnedOffset(m, x, it, g, t, w2, h2);
  }

  /** With `trig` even in its cosine and odd in its sine, as `Math.cos` and `Math.sin` are,
      the turn back of an item without a rotate offset is the reverse of the turn its clip
      window is drawn with. */
  lemma BackTurnReverses(it: Item, trig: real -> UnitTurn)
    requires forall a :: trig(-a) == Reverse(trig(a))
    requires it.rotate == 0.0
    ensures BackTurn(it, trig) == Reverse(ItemTurn(it, trig))
  {
    NormalizeAngleUnique(0.0, 0);
    assert NormalizeAngle(it.angle) + NormalizeAngle(it.rotate) == NormalizeAngle(it.angle);
  }

  /** So every strip `renderPieces` draws for such an item shows the bitmap upright and
      unscaled, at the item's place moved by the piece offset turned through the angle. */
  lemma {:induction false} RenderedUpright(it: Item, saveShowState: bool, trig: real -> UnitTurn, k: nat)
    requires forall a :: trig(-a) == Reverse(trig(a))
    requires it.rotate == 0.0
    requires Rendering(it, saveShowState, trig).Strips? && k < |it.pieces|
    ensures var t, g := ItemTurn(it, trig), it.pieces[k].live;
      Rendering(it, saveShowState, trig).blits[k].image == Matrix(1.0, 0.0, 0.0, 1.0,
        it.x + (t.cos * g.tx - t.sin * (g.ty - it.extraY)), it.y + (t.sin * g.tx + t.cos * (g.ty - it.extraY)))
  {
    var t, back, g := ItemTurn(it, trig), BackTurn(it, trig), it.pieces[k].live;
    BackTurnReverses(it, trig);
    assert Rendering(it, saveShowState, trig).blits[k] == BlitOf(it, it.pieces[k], t, back);
    ImageUpright(it, g, t);
  }

  /** The clip matrix is the turn about the item's centre followed by the step back to the
      item's corner, the piece offset and the step to the piece's centre. */
  lemma ClipFrame(it: Item, g: Geom, t: UnitTurn, r: Matrix, w2: real, h2: real, dx: real, dy: real)
    requires w2 == it.width / 2.0 && h2 == it.height / 2.0
    requires dx == g.x + g.w / 2.0 - it.x && dy == g.y + g.h / 2.0 - it.y
    requires r == Matrix(t.cos, t.sin, -t.sin, t.cos, it.x + w2, it.y + h2)
    ensures PieceMatrix(it, g, t) == Translated(Translated(Translated(r, -w2, -h2), g.tx, g.ty - it.extraY), dx, dy)
  {
    TurnedFrame(it.x + w2, it.y + h2, t);
    assert Translated(Translated(Identity, it.x, it.y), w2, h2) == Matrix(1.0, 0.0, 0.0, 1.0, it.x + w2, it.y + h2);
  }

  /** The turn back of `TurnBack` undoes a turn `t` that the clip matrix `pm` still carries
      once its step to the piece's centre is taken back. */
  lemma UndoTurn(pm: Matrix, it: Item, g: Geom, t: UnitTurn, x: Matrix, w2: real, h2: real, dx: real, dy: real)
    requires w2 == it.width / 2.0 && h2 == it.height / 2.0
    requires dx == g.x + g.w / 2.0 - it.x && dy == g.y + g.h / 2.0 - it.y
    requires Translated(Translated(pm, -dx, -dy), w2, h2) == x
    requires x.a == t.cos && x.b == t.sin && x.c == -t.sin && x.d == t.cos
    ensures TurnBack(pm, it, g, Reverse(t)) == Matrix(1.0, 0.0, 0.0, 1.0, x.e - w2, x.f - h2)
  {
    var u := Matrix(1.0, 0.0, 0.0, 1.0, x.e, x.f);
    TurnedFrame(x.e, x.f, t);
    RotateThenReverse(u, t);
    assert Rotated(x, Reverse(t)) == u;
  }

  /** Turning the upright frame at (ex, ey) gives the rotation matrix at (ex, ey). */
  lemma TurnedFrame(ex: real, ey: real, t: UnitTurn)
    ensures Rotated(Matrix(1.0, 0.0, 0.0, 1.0, ex, ey), t) == Matrix(t.cos, t.sin, -t.sin, t.cos, ex, ey)
  {
  }

  /** Stepping to a piece's centre and back, between two half-size steps that cancel, leaves
      only the piece's own offset. */
  lemma OffsetsBetweenTurns(r: Matrix, w2: real, h2: real, tx: real, ty: real, dx: real, dy: real)
    ensures Translated(Translated(Translated(Translated(Translated(r, -w2, -h2), tx, ty), dx, dy), -dx, -dy), w2, h2)
         == Translated(r, tx, ty)
  {
    TranslatesCompose(r, -w2, -h2, tx, ty);
    TranslatesCompose(r, -w2 + tx, -h2 + ty, dx, dy);
    TranslatesCompose(r, -w2 + tx + dx, -h2 + ty + dy, -dx, -dy);
    TranslatesCompose(r, -w2 + tx + dx + -dx, -h2 + ty + dy + -dy, w2, h2);
    assert -w2 + tx + dx + -dx + w2 == tx && -h2 + ty + dy + -dy + h2 == ty;
  }

  /** The upright frame left after the turn back sits at the item's place moved by the piece
      offset turned through `t`. */
  lemma TurnedOffset(m: Matrix, x: Matrix, it: Item, g: Geom, t: UnitTurn, w2: real, h2: real)
    requires x == Translated(Matrix(t.cos, t.sin, -t.sin, t.cos, it.x + w2, it.y + h2), g.tx, g.ty - it.extraY)
    requires m == Matrix(1.0, 0.0, 0.0, 1.0, x.e - w2, x.f - h2)
    ensures m == Matrix(1.0, 0.0, 0.0, 1.0,
      it.x + (t.cos * g.tx - t.sin * (g.ty - it.extraY)), it.y + (t.sin * g.tx + t.cos * (g.ty - it.extraY)))
  {
  }

  /** Every point of a drawn clip rectangle lies in the box the next `clearRect` computes
      for that piece, once its live geometry has become its snapshot and provided the item's
      angle has not moved in between. */
  lemma StripsInsideNextClear(it: Item, saveShowState: bool, trig: real -> UnitTurn, k: nat, p: Point)
    requires Rendering(it, saveShowState, trig).Strips?
    requires k < |it.pieces| && it.pieces[k].live.w >= 0.0 && it.pieces[k].live.h >= 0.0
    requires -it.pieces[k].live.w / 2.0 <= p.x <= it.pieces[k].live.w / 2.0
    requires -it.pieces[k].live.h / 2.0 <= p.y <= it.pieces[k].live.h / 2.0
    ensures var b := Rendering(it, saveShowState, trig).blits[k];
      InRect((Apply(b.clip, p).x, Apply(b.clip, p).y), PieceBox(it, Committed(it.pieces)[k].last, ItemTurn(it, trig)))
  {
    ClipInsideBox(it, it.pieces[k].live, ItemTurn(it, trig), p);
  }

  /** The fast path and the strip path are taken only for a flagged item, and never both:
      a hidden item is drawn by the fast path only when it is also shown. */
  lemma RenderingCases(it: Item, saveShowState: bool, trig: real -> UnitTurn)
    ensures Rendering(it, saveShowState, trig).Untouched? <==> !it.redraw
    ensures Rendering(it, saveShowState, trig).Bitmap? <==> it.redraw && it.shown && saveShowState
    ensures Rendering(it, saveShowState, trig).Strips? <==> it.redraw && !(it.shown && saveShowState) && !it.hidden
    ensures Rendering(it, saveShowState, trig).Strips? ==> |Rendering(it, saveShowState, trig).blits| == |it.pieces|
  {
  }
}
