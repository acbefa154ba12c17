// The strip decomposition of `initPieces` (src/pieces.js:290-389): each item is cut into
// full-height vertical strips by a cursor `lx` that starts at the item's left edge and
// advances by `piecesWidth + piecesSpacing` until it passes the right edge plus margins.

module Layout {
  import opened Options
  import opened Geometry
  import opened Objects
  import opened Model

  /** The values the per-piece options (`w`, `h`, `tx`, `ty`, `opacity`, `duration`, `delay`)
      resolve to for one piece; a generator option may give each piece its own. */
  datatype PieceDraw = PieceDraw(w: real, h: real, tx: real, ty: real,
                                 opacity: real, duration: real, delay: real)

  /** An item's resolved options: the bitmap's size, the tiling parameters, the resolved
      `extraSpacing` and `translate` pairs, and `draw(k)`, the per-piece values of piece k. */
  datatype ItemConfig = ItemConfig(width: real, height: real,
                                   piecesWidth: real, piecesSpacing: real,
                                   extraX: real, extraY: real,
                                   angle: real, rotate: real,
                                   showGhost: bool, ghostOpacity: real, easing: string,
                                   translateX: real, translateY: real,
                                   draw: nat -> PieceDraw)

  /** The distance the cursor moves per strip. */
  function Step(o: ItemConfig): real { o.piecesWidth + o.piecesSpacing }

  /** The width the strips must span: the bitmap plus a margin on each side. */
  function Span(o: ItemConfig): real { o.width + o.extraX * 2.0 }

  /** The cursor loop ends: either the span is empty, or each strip moves the cursor right.
      Otherwise the source's `while` never stops. */
  predicate Terminates(o: ItemConfig)
  {
    Span(o) <= 0.0 || Step(o) > 0.0
  }

  /** Piece k of an item at (x, y) as the loop lays it out. */
  predicate StripPiece(p: Piece, o: ItemConfig, x: real, y: real, k: nat)
  {
    var d := o.draw(k);
    var ph := o.height + o.extraY * 2.0;
    // the shown preset: the strip itself, full height, drawn without vertical offset
    && p.shown == Geom(x - o.extraX + k as real * Step(o), y - o.extraY, o.piecesWidth, ph, d.tx, o.extraY)
    // the hidden preset: clamped to the strip, centred on it, horizontal offset shared
    && p.hidden.w == Min(d.w, o.piecesWidth) && p.hidden.h == Min(d.h, ph)
    && p.hidden.w <= p.shown.w && p.hidden.h <= p.shown.h
    && p.hidden.x + p.hidden.w / 2.0 == p.shown.x + p.shown.w / 2.0
    && p.hidden.y + p.hidden.h / 2.0 == p.shown.y + p.shown.h / 2.0
    && p.hidden.tx == p.shown.tx && p.hidden.ty == o.extraY + d.ty
    // live and last geometry start at the hidden preset
    && p.live == p.hidden && p.last == p.hidden
    && p.opacity == d.opacity && p.duration == d.duration && p.delay == d.delay && p.easing == o.easing
  }

  /** The strips of an item at (x, y): as many as it takes to span the item, laid out in order. */
  predicate StripLayout(ps: seq<Piece>, o: ItemConfig, x: real, y: real)
  {
    && |ps| as real * Step(o) >= Span(o)
    && (|ps| > 0 ==> (|ps| - 1) as real * Step(o) < Span(o))
    && forall k :: 0 <= k < |ps| ==> StripPiece(ps[k], o, x, y, k)
  }

  /** A freshly decomposed item: flags and snapshot force the first frame to redraw it. */
  predicate FreshItem(it: Item, index: nat, o: ItemConfig, x: real, y: real)
  {
    && it.index == index && it.x == x && it.y == y
    && it.width == o.width && it.height == o.height && it.extraY == o.extraY
    && it.angle == NormalizeAngle(o.angle) && it.rotate == NormalizeAngle(o.rotate)
    && it.lastAngle == None
    && it.showGhost == o.showGhost && it.ghostOpacity == o.ghostOpacity
    && it.ghostDashArray == [20.0, 10.0] && it.ghostDashOffset == 30.0
    && !it.shown && it.hidden && !it.redraw && !it.hover && it.rect == None
    && it.rectShown == Rect(x, y, x + o.width, y + o.height)
    && StripLayout(it.pieces, o, x, y)
  }

  /** The body of `initPieces`' per-item callback after the position is fixed: build the item
      and run the strip loop. */
  method InitItem(index: nat, x: real, y: real, o: ItemConfig) returns (item: Item)
    requires Terminates(o)
    ensures FreshItem(item, index, o, x, y)
  {
    var step := Step(o);
    var lx := x;
    var ps: seq<Piece> := [];
    while lx - (o.width + o.extraX * 2.0) < x
      invariant lx == x + |ps| as real * step
      invariant step <= 0.0 ==> |ps| == 0
      invariant |ps| > 0 ==> (|ps| - 1) as real * step < Span(o)
      invariant forall k :: 0 <= k < |ps| ==> StripPiece(ps[k], o, x, y, k)
      decreases if step > 0.0 then (x + Span(o) - lx) / step else 0.0
    {
      var piecesWidth := o.piecesWidth;
      var piecesHeight := o.height + o.extraY * 2.0;
      var piecesSpacing := o.piecesSpacing;
      var d := o.draw(|ps|);
      var w := Min(d.w, piecesWidth);
      var h := Min(d.h, piecesHeight);
      var hidden := Geom(lx - o.extraX + (piecesWidth / 2.0) - (w / 2.0),
                         y + (o.height / 2.0) - (h / 2.0), w, h, d.tx, o.extraY + d.ty);
      var shown := Geom(lx - o.extraX, y - o.extraY, piecesWidth, piecesHeight, d.tx, o.extraY);
      var p := Piece(hidden, shown, hidden, hidden, d.opacity, d.duration, d.delay, o.easing);
      StripBuilt(p, o, x, y, |ps|, lx, hidden, shown);
      ghost var before := (x + Span(o) - lx) / step;
      ps := ps + [p];
      lx := lx + (piecesWidth + piecesSpacing);
      assert lx == x + |ps| as real * step by {
        assert (|ps| - 1) as real * step + step == |ps| as real * step;
      }
      DivideLessOne(x + Span(o) - (lx - step), step);
    }
    item := Item(index, x, y, o.width, o.height, o.extraY,
                 NormalizeAngle(o.angle), NormalizeAngle(o.rotate), None,
                 o.showGhost, [20.0, 10.0], 20.0 + 10.0, o.ghostOpacity,
                 ps, false, true, false, false, None,
                 Rect(x, y, x + o.width, y + o.height));
    ItemBuilt(item, index, o, x, y, ps);
  }

  /** The piece the loop body builds at cursor `lx` is strip k. */
  lemma StripBuilt(p: Piece, o: ItemConfig, x: real, y: real, k: nat, lx: real, hidden: Geom, shown: Geom)
    requires lx == x + k as real * Step(o)
    requires var d := o.draw(k);
      var w, h := Min(d.w, o.piecesWidth), Min(d.h, o.height + o.extraY * 2.0);
      && hidden == Geom(lx - o.extraX + (o.piecesWidth / 2.0) - (w / 2.0),
                        y + (o.height / 2.0) - (h / 2.0), w, h, d.tx, o.extraY + d.ty)
      && shown == Geom(lx - o.extraX, y - o.extraY, o.piecesWidth, o.height + o.extraY * 2.0, d.tx, o.extraY)
    requires p == Piece(hidden, shown, hidden, hidden, o.draw(k).opacity, o.draw(k).duration, o.draw(k).delay, o.easing)
    ensures StripPiece(p, o, x, y, k)
  {
  }

  /** The item the callback builds from finished strips is a fresh item. */
  lemma ItemBuilt(item: Item, index: nat, o: ItemConfig, x: real, y: real, ps: seq<Piece>)
    requires StripLayout(ps, o, x, y)
    requires item == Item(index, x, y, o.width, o.height, o.extraY,
                          NormalizeAngle(o.angle), NormalizeAngle(o.rotate), None,
                          o.showGhost, [20.0, 10.0], 20.0 + 10.0, o.ghostOpacity,
                          ps, false, true, false, false, None,
                          Rect(x, y, x + o.width, y + o.height))
    ensures FreshItem(item, index, o, x, y)
  {
  }

  lemma DivideLessOne(a: real, s: real)
    requires s > 0.0
    ensures (a - s) / s == a / s - 1.0
  {
    DivideTimes(a, s);
    DivideTimes(a - s, s);
    assert (a / s - 1.0) * s == a / s * s - s;
    TimesCancel((a - s) / s, a / s - 1.0, s);
  }

  lemma DivideTimes(a: real, s: real)
    requires s > 0.0
    ensures a / s * s == a
  {
  }

  lemma TimesCancel(u: real, v: real, s: real)
    requires s > 0.0 && u * s == v * s
    ensures u == v
  {
  }

  lemma TimesMonotoneLe(u: real, v: real, s: real)
    requires s > 0.0 && u <= v
    ensures u * s <= v * s
  {
  }

  lemma TimesMonotone(u: real, v: real, s: real)
    requires s > 0.0 && u < v
    ensures u * s < v * s
  {
  }

  /** Width 23, strips of 5 without spacing or margin: five strips, all of width 5 (the last
      one is not clipped to 3). */
  lemma FiveStripsOfFive(ps: seq<Piece>, o: ItemConfig, x: real, y: real)
    requires o.width == 23.0 && o.piecesWidth == 5.0 && o.piecesSpacing == 0.0 && o.extraX == 0.0
    requires StripLayout(ps, o, x, y)
    ensures |ps| == 5
    ensures forall k :: 0 <= k < |ps| ==> ps[k].shown.w == 5.0
  {
    var n := |ps|;
    assert n as real * 5.0 >= 23.0;
    assert n > 0 && (n - 1) as real * 5.0 < 23.0;
  }

  /** Without spacing the strips leave no gap: every abscissa from the left margin to the
      right margin lies in some strip. */
  lemma StripsCoverSpan(ps: seq<Piece>, o: ItemConfig, x: real, y: real, px: real)
    requires o.piecesWidth > 0.0 && o.piecesSpacing == 0.0
    requires StripLayout(ps, o, x, y)
    requires x - o.extraX <= px < x + o.width + o.extraX
    ensures exists k :: 0 <= k < |ps| && ps[k].shown.x <= px < ps[k].shown.x + ps[k].shown.w
  {
    var pw := o.piecesWidth;
    var u := px - (x - o.extraX);
    var k := StripIndex(u, pw);
    assert Step(o) == pw;
    assert u < Span(o) <= |ps| as real * pw;
    IndexBelow(|ps|, k, pw, u);
    assert StripPiece(ps[k], o, x, y, k);
  }

  /** The strip of width `pw` that holds offset `u`. */
  lemma StripIndex(u: real, pw: real) returns (k: int)
    requires pw > 0.0 && u >= 0.0
    ensures 0 <= k && k as real * pw <= u < k as real * pw + pw
  {
    var q := Quotient(u, pw);
    k := q.Floor;
    if q < 0.0 {
      TimesMonotone(q, 0.0, pw);
    }
    FloorStrip(u, pw, q, k as real);
  }

  /** With `q * pw == u` and `lo <= q < lo + 1`, `u` lies in the strip that starts at `lo * pw`. */
  lemma FloorStrip(u: real, pw: real, q: real, lo: real)
    requires pw > 0.0 && q * pw == u && lo <= q < lo + 1.0
    ensures lo * pw <= u < lo * pw + pw
  {
    calc {
      lo * pw;
    <= { TimesMonotoneLe(lo, q, pw); }
      q * pw;
    ==
      u;
    }
    calc {
      u;
    ==
      q * pw;
    < { TimesMonotone(q, lo + 1.0, pw); }
      (lo + 1.0) * pw;
    ==
      lo * pw + pw;
    }
  }

  /** The quotient `u / pw`, handed back as a plain value. */
  lemma Quotient(u: real, pw: real) returns (q: real)
    requires pw > 0.0
    ensures q * pw == u
  {
    q := u / pw;
    DivideTimes(u, pw);
  }

  lemma IndexBelow(n: nat, k: int, pw: real, u: real)
    requires pw > 0.0 && k as real * pw <= u < n as real * pw
    ensures k < n
  {
    if k >= n {
      TimesMonotoneLe(n as real, k as real, pw);
    }
  }

  /** With non-negative spacing consecutive strips do not overlap. */
  lemma StripsDoNotOverlap(ps: seq<Piece>, o: ItemConfig, x: real, y: real, k: nat)
    requires o.piecesSpacing >= 0.0
    requires StripLayout(ps, o, x, y)
    requires k + 1 < |ps|
    ensures ps[k].shown.x + ps[k].shown.w <= ps[k + 1].shown.x
  {
    assert StripPiece(ps[k], o, x, y, k) && StripPiece(ps[k + 1], o, x, y, k + 1);
    assert (k + 1) as real * Step(o) == k as real * Step(o) + Step(o);
  }

  /** A fresh item always differs from its snapshot, so the first frame redraws it. */
  lemma FreshItemIsDifferent(it: Item, index: nat, o: ItemConfig, x: real, y: real)
    requires FreshItem(it, index, o, x, y)
    ensures IsItemDifferent(it)
  {
  }

  /** With the default `w = 0`, `h = 0` and non-negative strip sizes, a fresh item's `hidden`
      flag agrees with `isItemHidden`, and it starts with nothing to redraw from its pieces. */
  lemma FreshItemHidden(it: Item, index: nat, o: ItemConfig, x: real, y: real)
    requires FreshItem(it, index, o, x, y)
    requires o.piecesWidth >= 0.0 && o.height + o.extraY * 2.0 >= 0.0
    requires forall k: nat :: o.draw(k).w == 0.0 && o.draw(k).h == 0.0
    ensures IsItemHidden(it) == it.hidden
    ensures !AnyMoved(it.pieces)
  {
    forall k | 0 <= k < |it.pieces|
      ensures it.pieces[k].live.w == 0.0 && it.pieces[k].live.h == 0.0
    {
      assert StripPiece(it.pieces[k], o, x, y, k);
    }
  }
}
