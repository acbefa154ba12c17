// The dirty-region tracker of `clearRect` (src/pieces.js:470-549), as functions of the item
// list: the padded, rotated box of each piece's previous-frame geometry, the per-item diff
// that commits the snapshot, the discovery pass that builds the initial `clear` rectangle,
// and the propagation passes that flag every item touching it.

module Tracker {
  import opened Options
  import opened Geometry
  import opened Objects
  import opened Model
  import opened Affine

  /** The matrix built for a piece with geometry `g` of item `it`: move to the item, rotate
      by `t` about the item's centre, shift by the piece offset, then move to the piece's centre. */
  function PieceMatrix(it: Item, g: Geom, t: UnitTurn): Matrix
  {
    var m0 := Translated(Identity, it.x, it.y);
    var m1 := Translated(m0, it.width / 2.0, it.height / 2.0);
    var m2 := Rotated(m1, t);
    var m3 := Translated(m2, -it.width / 2.0, -it.height / 2.0);
    var m4 := Translated(m3, g.tx, g.ty - it.extraY);
    Translated(m4, g.x + g.w / 2.0 - it.x, g.y + g.h / 2.0 - it.y)
  }

  /** The cosine and sine used for an item: of its normalized angle plus its normalized
      rotate offset, both in degrees; `trig` stands for `Math.cos`/`Math.sin` of the radians. */
  function ItemTurn(it: Item, trig: real -> UnitTurn): UnitTurn
  {
    trig(NormalizeAngle(it.angle) + NormalizeAngle(it.rotate))
  }

  function Min4(p: real, q: real, r: real, s: real): real { Min(Min(Min(p, q), r), s) }
  function Max4(p: real, q: real, r: real, s: real): real { Max(Max(Max(p, q), r), s) }

  /** The four corners of the piece rectangle centred on the origin and grown by one unit on
      every side, as `clearRect` lists them. */
  function Corners(g: Geom): seq<Point>
  {
    var x, y := -g.w / 2.0 - 1.0, -g.h / 2.0 - 1.0;
    var w, h := g.w + 2.0, g.h + 2.0;
    [Point(x, y), Point(x + w, y), Point(x + w, y + h), Point(x, y + h)]
  }

  /** The axis-aligned bounding box of the four corners mapped through `m`. */
  function CornerBox(m: Matrix, g: Geom): Rect
  {
    var c := Corners(g);
    var p1, p2, p3, p4 := Apply(m, c[0]), Apply(m, c[1]), Apply(m, c[2]), Apply(m, c[3]);
    Rect(Min4(p1.x, p2.x, p3.x, p4.x), Min4(p1.y, p2.y, p3.y, p4.y),
         Max4(p1.x, p2.x, p3.x, p4.x), Max4(p1.y, p2.y, p3.y, p4.y))
  }

  /** The box `clearRect` computes for a piece whose previous-frame geometry is `g`. */
  function PieceBox(it: Item, g: Geom, t: UnitTurn): Rect
  {
    CornerBox(PieceMatrix(it, g, t), g)
  }

  /** `v * a` for `v` between `lo` and `hi` lies between the two end values; the three
      products are handed back so that callers can reason about them as plain values. */
  lemma ScaleBetween(a: real, lo: real, v: real, hi: real) returns (l: real, m: real, h: real)
    requires lo <= v <= hi
    ensures l == lo * a && m == v * a && h == hi * a
    ensures l <= m <= h || h <= m <= l
  {
    l, m, h := lo * a, v * a, hi * a;
    NonNegProduct(v - lo, if a >= 0.0 then a else -a);
    NonNegProduct(hi - v, if a >= 0.0 then a else -a);
    Distribute(v, lo, a);
    Distribute(hi, v, a);
  }

  lemma NonNegProduct(x: real, y: real)
    requires x >= 0.0 && y >= 0.0
    ensures x * y >= 0.0
  {
  }

  lemma Distribute(x: real, y: real, a: real)
    ensures (x - y) * a == x * a - y * a && (x - y) * -a == y * a - x * a
  {
  }

  /** A sum of two terms, each between two bounds, lies between the least and the greatest
      of the four sums of bounds. */
  lemma SumBetween(u: real, v: real, w: real, lu: real, hu: real, lv: real, hv: real,
                   q1: real, q2: real, q3: real, q4: real, q: real)
    requires lu <= u <= hu || hu <= u <= lu
    requires lv <= v <= hv || hv <= v <= lv
    requires q1 == lu + lv + w && q2 == hu + lv + w && q3 == hu + hv + w && q4 == lu + hv + w && q == u + v + w
    ensures Min4(q1, q2, q3, q4) <= q <= Max4(q1, q2, q3, q4)
  {
  }

  lemma CornerAbscissas(m: Matrix, x0: real, x1: real, y0: real, y1: real, p: Point)
    ensures Apply(m, Point(x0, y0)).x == x0 * m.a + y0 * m.c + m.e
    ensures Apply(m, Point(x1, y0)).x == x1 * m.a + y0 * m.c + m.e
    ensures Apply(m, Point(x1, y1)).x == x1 * m.a + y1 * m.c + m.e
    ensures Apply(m, Point(x0, y1)).x == x0 * m.a + y1 * m.c + m.e
    ensures Apply(m, p).x == p.x * m.a + p.y * m.c + m.e
  {
  }

  lemma CornerOrdinates(m: Matrix, x0: real, x1: real, y0: real, y1: real, p: Point)
    ensures Apply(m, Point(x0, y0)).y == x0 * m.b + y0 * m.d + m.f
    ensures Apply(m, Point(x1, y0)).y == x1 * m.b + y0 * m.d + m.f
    ensures Apply(m, Point(x1, y1)).y == x1 * m.b + y1 * m.d + m.f
    ensures Apply(m, Point(x0, y1)).y == x0 * m.b + y1 * m.d + m.f
    ensures Apply(m, p).y == p.x * m.b + p.y * m.d + m.f
  {
  }

  /** `px*a + py*c + e` for (px, py) in the box [x0, x1] x [y0, y1] lies between its values
      at the four corners. */
  lemma LinearBetween(a: real, c: real, e: real, x0: real, x1: real, y0: real, y1: real, px: real, py: real)
    requires x0 <= px <= x1 && y0 <= py <= y1
    ensures Min4(x0 * a + y0 * c + e, x1 * a + y0 * c + e, x1 * a + y1 * c + e, x0 * a + y1 * c + e)
            <= px * a + py * c + e <=
            Max4(x0 * a + y0 * c + e, x1 * a + y0 * c + e, x1 * a + y1 * c + e, x0 * a + y1 * c + e)
  {
    var l1, u, h1 := ScaleBetween(a, x0, px, x1);
    var l2, v, h2 := ScaleBetween(c, y0, py, y1);
    SumBetween(u, v, e, l1, h1, l2, h2, l1 + l2 + e, h1 + l2 + e, h1 + h2 + e, l1 + h2 + e, u + v + e);
  }

  /** The abscissa of the image of a point of the box [x0, x1] x [y0, y1] lies between its
      values at the images of the four corners. */
  lemma ImageXBetween(m: Matrix, x0: real, x1: real, y0: real, y1: real, p: Point)
    requires x0 <= p.x <= x1 && y0 <= p.y <= y1
    ensures Min4(Apply(m, Point(x0, y0)).x, Apply(m, Point(x1, y0)).x, Apply(m, Point(x1, y1)).x, Apply(m, Point(x0, y1)).x)
            <= Apply(m, p).x <=
            Max4(Apply(m, Point(x0, y0)).x, Apply(m, Point(x1, y0)).x, Apply(m, Point(x1, y1)).x, Apply(m, Point(x0, y1)).x)
  {
    CornerAbscissas(m, x0, x1, y0, y1, p);
    LinearBetween(m.a, m.c, m.e, x0, x1, y0, y1, p.x, p.y);
  }

  /** The same for the ordinate. */
  lemma ImageYBetween(m: Matrix, x0: real, x1: real, y0: real, y1: real, p: Point)
    requires x0 <= p.x <= x1 && y0 <= p.y <= y1
    ensures Min4(Apply(m, Point(x0, y0)).y, Apply(m, Point(x1, y0)).y, Apply(m, Point(x1, y1)).y, Apply(m, Point(x0, y1)).y)
            <= Apply(m, p).y <=
            Max4(Apply(m, Point(x0, y0)).y, Apply(m, Point(x1, y0)).y, Apply(m, Point(x1, y1)).y, Apply(m, Point(x0, y1)).y)
  {
    CornerOrdinates(m, x0, x1, y0, y1, p);
    LinearBetween(m.b, m.d, m.f, x0, x1, y0, y1, p.x, p.y);
  }

  /** Every point of the padded rectangle is mapped into the box: the box really bounds the
      region the piece may have painted. */
  lemma {:induction false} CornerBoxContains(m: Matrix, g: Geom, p: Point)
    requires g.w >= -2.0 && g.h >= -2.0
    requires -g.w / 2.0 - 1.0 <= p.x <= g.w / 2.0 + 1.0
    requires -g.h / 2.0 - 1.0 <= p.y <= g.h / 2.0 + 1.0
    ensures InRect((Apply(m, p).x, Apply(m, p).y), CornerBox(m, g))
  {
    var c := Corners(g);
    assert c[0].x <= p.x <= c[1].x && c[0].y <= p.y <= c[2].y;
    assert c[1] == Point(c[1].x, c[0].y) && c[2] == Point(c[1].x, c[2].y) && c[3] == Point(c[0].x, c[2].y);
    ImageXBetween(m, c[0].x, c[1].x, c[0].y, c[2].y, p);
    ImageYBetween(m, c[0].x, c[1].x, c[0].y, c[2].y, p);
  }

  /** The clip rectangle `renderPieces` draws for geometry `g` lies inside the box that
      `clearRect` computes once `g` has become the previous-frame geometry. */
  lemma ClipInsideBox(it: Item, g: Geom, t: UnitTurn, p: Point)
    requires g.w >= 0.0 && g.h >= 0.0
    requires -g.w / 2.0 <= p.x <= g.w / 2.0 && -g.h / 2.0 <= p.y <= g.h / 2.0
    ensures InRect((Apply(PieceMatrix(it, g, t), p).x, Apply(PieceMatrix(it, g, t), p).y), PieceBox(it, g, t))
  {
    CornerBoxContains(PieceMatrix(it, g, t), g, p);
  }

  /** Without rotation the box is the piece's rectangle grown by one unit, moved by the piece
      offset `(tx, ty - extraY)`. */
  lemma PieceBoxUnrotated(it: Item, g: Geom)
    requires g.w >= -2.0 && g.h >= -2.0
    ensures PieceBox(it, g, Turn(1.0, 0.0)) ==
      Rect(g.x + g.tx - 1.0, g.y + g.ty - it.extraY - 1.0,
           g.x + g.w + g.tx + 1.0, g.y + g.h + g.ty - it.extraY + 1.0)
  {
    var m := PieceMatrix(it, g, Turn(1.0, 0.0));
    assert m.a == 1.0 && m.b == 0.0 && m.c == 0.0 && m.d == 1.0;
    assert m.e == g.x + g.w / 2.0 + g.tx;
    assert m.f == g.y + g.h / 2.0 + g.ty - it.extraY;
  }

  /** `itemRect` after the first `n` pieces: the union of their boxes, `None` before the first. */
  function BoxesUpTo(width: real, height: real, it: Item, t: UnitTurn, n: nat): (r: Option<Rect>)
    requires n <= |it.pieces|
    ensures r.Some? <==> n > 0
  {
    if n == 0 then None
    else ExtendRect(width, height, BoxesUpTo(width, height, it, t, n - 1), Some(PieceBox(it, it.pieces[n - 1].last, t)))
  }

  function ItemRect(width: real, height: real, it: Item, t: UnitTurn): Option<Rect>
  {
    BoxesUpTo(width, height, it, t, |it.pieces|)
  }

  /** Every piece's box is covered by the item's rectangle, up to the surface clamp. */
  lemma {:induction false} BoxesCovered(width: real, height: real, it: Item, t: UnitTurn, n: nat, k: nat)
    requires k < n <= |it.pieces|
    ensures Covers(width, height, BoxesUpTo(width, height, it, t, n).value, PieceBox(it, it.pieces[k].last, t))
  {
    if k < n - 1 {
      BoxesCovered(width, height, it, t, n - 1, k);
      ExtendRectKeepsCover(width, height, BoxesUpTo(width, height, it, t, n - 1).value,
                           PieceBox(it, it.pieces[k].last, t), PieceBox(it, it.pieces[n - 1].last, t));
    } else if n == 1 {
      assert BoxesUpTo(width, height, it, t, 1) == Some(PieceBox(it, it.pieces[0].last, t));
    }
  }

  /** A piece list with each snapshot `last` replaced by the live geometry (`copyValues(last, p, ...)`). */
  function Committed(ps: seq<Piece>): (r: seq<Piece>)
    ensures |r| == |ps|
    ensures forall k :: 0 <= k < |ps| ==> r[k] == ps[k].(last := ps[k].live)
  {
    if |ps| == 0 then [] else [ps[0].(last := ps[0].live)] + Committed(ps[1..])
  }

  /** Appending the snapshot of piece k to the first k committed pieces commits k + 1. */
  lemma CommitOne(done: seq<Piece>, ps: seq<Piece>, k: nat, snapshot: Geom)
    requires k < |ps| && |done| == k
    requires forall j :: 0 <= j < k ==> done[j] == ps[j].(last := ps[j].live)
    requires snapshot == ps[k].live
    ensures var next := done + [ps[k].(last := snapshot)];
      |next| == k + 1 && forall j :: 0 <= j < k + 1 ==> next[j] == ps[j].(last := ps[j].live)
  {
  }

  /** The dirty rectangle `clearRect` computes for each item in the current frame. */
  function DirtyRects(width: real, height: real, trig: real -> UnitTurn): Item -> Option<Rect>
  {
    it => ItemRect(width, height, it, ItemTurn(it, trig))
  }

  /** One item after the diff step of `clearRect`, given the dirty rectangle its pieces make:
      a changed item is flagged, classified, snapshotted and given its rectangle; an unchanged
      one is unflagged. */
  function Diffed(it: Item, itemRect: Option<Rect>): Item
  {
    if IsItemDifferent(it) then
      var shown := IsItemShown(it);
      it.(redraw := true, shown := shown, hidden := IsItemHidden(it), lastAngle := Some(it.angle),
          pieces := Committed(it.pieces), rect := if shown then Some(it.rectShown) else itemRect)
    else
      it.(redraw := false)
  }

  /** What the diff promises for a changed item: flagged, classified, every snapshot equal to
      the live geometry, and a rectangle that covers the box of every piece unless shown. */
  lemma DiffedCommits(width: real, height: real, it: Item, trig: real -> UnitTurn)
    requires IsItemDifferent(it)
    ensures var d := Diffed(it, ItemRect(width, height, it, ItemTurn(it, trig)));
      && d.redraw && d.shown == IsItemShown(it) && d.hidden == IsItemHidden(it)
      && d.lastAngle == Some(d.angle)
      && |d.pieces| == |it.pieces|
      && (forall k :: 0 <= k < |d.pieces| ==> d.pieces[k].last == d.pieces[k].live == it.pieces[k].live)
      && d.rect == (if d.shown then Some(d.rectShown) else ItemRect(width, height, it, ItemTurn(it, trig)))
      && (!d.shown && |it.pieces| > 0 ==> forall k :: 0 <= k < |it.pieces| ==>
            Covers(width, height, d.rect.value, PieceBox(it, it.pieces[k].last, ItemTurn(it, trig))))
  {
    var d := Diffed(it, ItemRect(width, height, it, ItemTurn(it, trig)));
    if !d.shown && |it.pieces| > 0 {
      forall k | 0 <= k < |it.pieces|
        ensures Covers(width, height, d.rect.value, PieceBox(it, it.pieces[k].last, ItemTurn(it, trig)))
      {
        BoxesCovered(width, height, it, ItemTurn(it, trig), |it.pieces|, k);
      }
    }
  }

  /** After the diff nothing differs from its snapshot any more. */
  lemma DiffedIsSettled(it: Item, itemRect: Option<Rect>)
    ensures !IsItemDifferent(Diffed(it, itemRect))
  {
    var d := Diffed(it, itemRect);
    if IsItemDifferent(it) {
      assert forall k :: 0 <= k < |d.pieces| ==> d.pieces[k].live == d.pieces[k].last;
    }
  }

  /** Diffing again without any change in between only clears the flag. */
  lemma DiffedTwice(it: Item, r1: Option<Rect>, r2: Option<Rect>, redraw: bool)
    ensures Diffed(Diffed(it, r1).(redraw := redraw), r2) == Diffed(it, r1).(redraw := false)
  {
    DiffedIsSettled(it, r1);
  }

  /** The state of a pass over the items: the items, the `clear` accumulator and `newRedraw`. */
  datatype Sweep = Sweep(items: seq<Item>, clear: Option<Rect>, flagged: bool)

  /** `clear` after the first loop's body for item `it` with dirty rectangle `itemRect`: the
      rectangle of a changed item is folded in, then the bitmap rectangle of a hidden item
      with a ghost outline. */
  function StepClear(width: real, height: real, it: Item, itemRect: Option<Rect>, clear: Option<Rect>): Option<Rect>
  {
    var c := if IsItemDifferent(it) then ExtendRect(width, height, clear, itemRect) else clear;
    var d := Diffed(it, itemRect);
    if d.hidden && d.showGhost then ExtendRect(width, height, c, Some(d.rectShown)) else c
  }

  /** `newRedraw` after the first loop's body for item `it`. */
  function StepFlag(it: Item, itemRect: Option<Rect>, flagged: bool): bool
  {
    flagged || IsItemDifferent(it) || (Diffed(it, itemRect).hidden && it.showGhost)
  }

  /** The first loop of `clearRect` over the first `n` items, with `rectOf` giving each item's
      dirty rectangle: diff each item, fold the rectangle of a changed one into `clear`, and
      always add the bitmap rectangle of a hidden item with a ghost outline. */
  function Discover(width: real, height: real, its: seq<Item>, rectOf: Item -> Option<Rect>, n: nat): (s: Sweep)
    requires n <= |its|
    ensures |s.items| == |its|
  {
    if n == 0 then Sweep(its, None, false)
    else
      var s := Discover(width, height, its, rectOf, n - 1);
      var it := its[n - 1];
      Sweep(s.items[n - 1 := Diffed(it, rectOf(it))],
            StepClear(width, height, it, rectOf(it), s.clear), StepFlag(it, rectOf(it), s.flagged))
  }

  /** One more step of the discovery pass, spelled out on the state after the previous steps. */
  lemma DiscoverNext(width: real, height: real, its: seq<Item>, rectOf: Item -> Option<Rect>, n: nat,
                      items: seq<Item>, clear: Option<Rect>, flagged: bool, d: Item, clear': Option<Rect>, flagged': bool)
    requires n < |its|
    requires Sweep(items, clear, flagged) == Discover(width, height, its, rectOf, n)
    requires d == Diffed(its[n], rectOf(its[n]))
    requires clear' == StepClear(width, height, its[n], rectOf(its[n]), clear)
    requires flagged' == StepFlag(its[n], rectOf(its[n]), flagged)
    ensures Sweep(items[n := d], clear', flagged') == Discover(width, height, its, rectOf, n + 1)
  {
  }

  /** The first n items are diffed and the rest are untouched. */
  lemma {:induction false} DiscoverShape(width: real, height: real, its: seq<Item>, rectOf: Item -> Option<Rect>, n: nat)
    requires n <= |its|
    ensures var s := Discover(width, height, its, rectOf, n);
      && (forall k :: 0 <= k < n ==> s.items[k] == Diffed(its[k], rectOf(its[k])))
      && (forall k :: n <= k < |its| ==> s.items[k] == its[k])
  {
    if n > 0 {
      DiscoverShape(width, height, its, rectOf, n - 1);
    }
  }

  /** Item k is untouched until the loop reaches it. */
  lemma {:induction false} DiscoverUntouched(width: real, height: real, its: seq<Item>, rectOf: Item -> Option<Rect>, n: nat, k: nat)
    requires n <= k < |its|
    ensures Discover(width, height, its, rectOf, n).items[k] == its[k]
  {
    if n > 0 {
      DiscoverUntouched(width, height, its, rectOf, n - 1, k);
    }
  }

  /** `newRedraw` is false only when nothing was put into `clear`. */
  lemma {:induction false} DiscoverQuietIsEmpty(width: real, height: real, its: seq<Item>, rectOf: Item -> Option<Rect>, n: nat)
    requires n <= |its|
    ensures !Discover(width, height, its, rectOf, n).flagged ==> Discover(width, height, its, rectOf, n).clear.None?
  {
    if n > 0 {
      DiscoverQuietIsEmpty(width, height, its, rectOf, n - 1);
    }
  }

  /** `clear` covers the dirty rectangle of every changed item among the first `n`. */
  predicate CoversChanged(width: real, height: real, clear: Option<Rect>, its: seq<Item>, rectOf: Item -> Option<Rect>, n: nat)
    requires n <= |its|
  {
    forall k :: 0 <= k < n && IsItemDifferent(its[k]) && rectOf(its[k]).Some? ==>
      clear.Some? && Covers(width, height, clear.value, rectOf(its[k]).value)
  }

  /** `clear` covers the bitmap rectangle of every hidden ghost item among the first `n`. */
  predicate CoversGhosts(width: real, height: real, clear: Option<Rect>, its: seq<Item>, rectOf: Item -> Option<Rect>, n: nat)
    requires n <= |its|
  {
    forall k :: 0 <= k < n && Diffed(its[k], rectOf(its[k])).hidden && its[k].showGhost ==>
      clear.Some? && Covers(width, height, clear.value, its[k].rectShown)
  }

  lemma GrowKeepsCovers(width: real, height: real, clear: Option<Rect>, add: Rect,
                        its: seq<Item>, rectOf: Item -> Option<Rect>, n: nat)
    requires n <= |its|
    requires CoversChanged(width, height, clear, its, rectOf, n) && CoversGhosts(width, height, clear, its, rectOf, n)
    ensures var c := ExtendRect(width, height, clear, Some(add));
      && c.Some? && Covers(width, height, c.value, add)
      && CoversChanged(width, height, c, its, rectOf, n) && CoversGhosts(width, height, c, its, rectOf, n)
  {
    var c := ExtendRect(width, height, clear, Some(add));
    if clear.Some? {
      forall k | 0 <= k < n && IsItemDifferent(its[k]) && rectOf(its[k]).Some?
        ensures Covers(width, height, c.value, rectOf(its[k]).value)
      {
        ExtendRectKeepsCover(width, height, clear.value, rectOf(its[k]).value, add);
      }
      forall k | 0 <= k < n && Diffed(its[k], rectOf(its[k])).hidden && its[k].showGhost
        ensures Covers(width, height, c.value, its[k].rectShown)
      {
        ExtendRectKeepsCover(width, height, clear.value, its[k].rectShown, add);
      }
    }
  }

  /** The three facts `DiscoverCovers` keeps about the first `n` items. */
  predicate CoversSoFar(width: real, height: real, its: seq<Item>, rectOf: Item -> Option<Rect>, n: nat)
    requires n <= |its|
  {
    var s := Discover(width, height, its, rectOf, n);
    && (s.clear.Some? <==> s.flagged)
    && CoversChanged(width, height, s.clear, its, rectOf, n)
    && CoversGhosts(width, height, s.clear, its, rectOf, n)
  }

  lemma DiscoverCoversStep(width: real, height: real, its: seq<Item>, rectOf: Item -> Option<Rect>, n: nat)
    requires 0 < n <= |its|
    requires IsItemDifferent(its[n - 1]) ==> rectOf(its[n - 1]).Some?
    requires CoversSoFar(width, height, its, rectOf, n - 1)
    ensures CoversSoFar(width, height, its, rectOf, n)
  {
    var s0 := Discover(width, height, its, rectOf, n - 1);
    var it := its[n - 1];
    var d := Diffed(it, rectOf(it));
    var clear := s0.clear;
    if IsItemDifferent(it) {
      clear := ExtendRect(width, height, s0.clear, rectOf(it));
      GrowKeepsCovers(width, height, s0.clear, rectOf(it).value, its, rectOf, n - 1);
    }
    assert clear.Some? <==> s0.flagged || IsItemDifferent(it);
    assert CoversChanged(width, height, clear, its, rectOf, n);
    if d.hidden && d.showGhost {
      GrowKeepsCovers(width, height, clear, d.rectShown, its, rectOf, n - 1);
      assert CoversChanged(width, height, ExtendRect(width, height, clear, Some(d.rectShown)), its, rectOf, n);
    }
  }

  /** When every changed item has a dirty rectangle (at least one piece), `clear` is present
      exactly when `newRedraw` is set, and it covers the dirty rectangle of every changed item
      and the bitmap rectangle of every hidden ghost item. (An item without pieces has none,
      and `extendRect` then discards what `clear` held.) */
  lemma {:induction false} DiscoverCovers(width: real, height: real, its: seq<Item>, rectOf: Item -> Option<Rect>, n: nat)
    requires n <= |its|
    requires forall k :: 0 <= k < n && IsItemDifferent(its[k]) ==> rectOf(its[k]).Some?
    ensures CoversSoFar(width, height, its, rectOf, n)
  {
    if n > 0 {
      DiscoverCovers(width, height, its, rectOf, n - 1);
      DiscoverCoversStep(width, height, its, rectOf, n);
    }
  }

  /** An item list that changed since the last diff only in its flags passes through the diff
      unflagged, and only hidden ghost items set `newRedraw`. */
  lemma {:induction false} DiscoverSettled(width: real, height: real, its: seq<Item>, rectOf: Item -> Option<Rect>, n: nat)
    requires n <= |its|
    requires forall k :: 0 <= k < n ==> !IsItemDifferent(its[k])
    ensures var s := Discover(width, height, its, rectOf, n);
      && (forall k :: 0 <= k < n ==> s.items[k] == Unflag(its[k]))
      && (s.flagged <==> exists k :: 0 <= k < n && its[k].hidden && its[k].showGhost)
  {
    forall k | 0 <= k < n
      ensures Discover(width, height, its, rectOf, n).items[k] == Unflag(its[k])
    {
      DiscoverSettledAt(width, height, its, rectOf, n, k);
    }
    DiscoverSettledFlag(width, height, its, rectOf, n);
  }

  lemma {:induction false} DiscoverSettledAt(width: real, height: real, its: seq<Item>, rectOf: Item -> Option<Rect>, n: nat, k: nat)
    requires k < n <= |its|
    requires forall j :: 0 <= j < n ==> !IsItemDifferent(its[j])
    ensures Discover(width, height, its, rectOf, n).items[k] == Unflag(its[k])
  {
    if k < n - 1 {
      DiscoverSettledAt(width, height, its, rectOf, n - 1, k);
    } else {
      SettledStep(its[n - 1], rectOf(its[n - 1]), false);
    }
  }

  lemma {:induction false} DiscoverSettledFlag(width: real, height: real, its: seq<Item>, rectOf: Item -> Option<Rect>, n: nat)
    requires n <= |its|
    requires forall j :: 0 <= j < n ==> !IsItemDifferent(its[j])
    ensures Discover(width, height, its, rectOf, n).flagged <==> exists k :: 0 <= k < n && its[k].hidden && its[k].showGhost
  {
    if n > 0 {
      DiscoverSettledFlag(width, height, its, rectOf, n - 1);
      var s0 := Discover(width, height, its, rectOf, n - 1);
      SettledStep(its[n - 1], rectOf(its[n - 1]), s0.flagged);
      if s0.flagged {
        var k :| 0 <= k < n - 1 && its[k].hidden && its[k].showGhost;
      }
    }
  }

  /** The diff of an item that has not changed only lowers its flag, and sets `newRedraw`
      only for a hidden ghost. */
  lemma SettledStep(it: Item, itemRect: Option<Rect>, flagged: bool)
    requires !IsItemDifferent(it)
    ensures Diffed(it, itemRect) == Unflag(it)
    ensures StepFlag(it, itemRect, flagged) == (flagged || (it.hidden && it.showGhost))
  {
  }

  /** The indices of the items whose `redraw` flag is still down. */
  function Unflagged(its: seq<Item>): set<int>
  {
    set k | 0 <= k < |its| && !its[k].redraw
  }

  /** One iteration of `clearRect`'s `while (newRedraw)` body over the first `n` items: each
      unflagged item whose rectangle touches `clear` is flagged and folded into `clear`. */
  function Pass(width: real, height: real, its: seq<Item>, clear: Option<Rect>, n: nat): (s: Sweep)
    requires n <= |its|
    ensures |s.items| == |its|
  {
    if n == 0 then Sweep(its, clear, false)
    else
      var s := Pass(width, height, its, clear, n - 1);
      var it := s.items[n - 1];
      if !it.redraw && Intersect(s.clear, it.rect) then
        Sweep(s.items[n - 1 := it.(redraw := true)], ExtendRect(width, height, s.clear, it.rect), true)
      else s
  }

  /** A pass over the first `n` items leaves the others alone. */
  lemma {:induction false} PassUntouched(width: real, height: real, its: seq<Item>, clear: Option<Rect>, n: nat, k: nat)
    requires n <= k < |its|
    ensures Pass(width, height, its, clear, n).items[k] == its[k]
  {
    if n > 0 {
      PassUntouched(width, height, its, clear, n - 1, k);
    }
  }

  /** A pass that flags nothing changes nothing; one that flags something lowers the set of
      unflagged items, which is what ends the `while (newRedraw)` loop. */
  lemma {:induction false} PassShrinks(width: real, height: real, its: seq<Item>, clear: Option<Rect>, n: nat)
    requires n <= |its|
    ensures var s := Pass(width, height, its, clear, n);
      && (!s.flagged ==> s.items == its && s.clear == clear)
      && (s.flagged ==> Unflagged(s.items) < Unflagged(its))
  {
    if n > 0 {
      PassShrinks(width, height, its, clear, n - 1);
      var s := Pass(width, height, its, clear, n - 1);
      var it := s.items[n - 1];
      if !it.redraw && Intersect(s.clear, it.rect) {
        PassUntouched(width, height, its, clear, n - 1, n - 1);
        var items := s.items[n - 1 := it.(redraw := true)];
        assert n - 1 in Unflagged(its) && n - 1 !in Unflagged(items);
        assert Unflagged(items) <= Unflagged(s.items);
      }
    }
  }

  /** An item with its `redraw` flag lowered: what stays fixed while flags are raised. */
  function Unflag(it: Item): Item
  {
    it.(redraw := false)
  }

  /** `after` is `before` with some flags raised: every other field of every item is kept. */
  predicate FlagsRaised(before: seq<Item>, after: seq<Item>)
  {
    && |after| == |before|
    && forall k :: 0 <= k < |before| ==>
         Unflag(after[k]) == Unflag(before[k]) && (before[k].redraw ==> after[k].redraw)
  }

  lemma UnflagRaised(it: Item)
    ensures Unflag(it.(redraw := true)) == Unflag(it)
  {
  }

  /** A pass only raises flags. */
  lemma PassRaisesFlags(width: real, height: real, its: seq<Item>, clear: Option<Rect>, n: nat)
    requires n <= |its|
    ensures FlagsRaised(its, Pass(width, height, its, clear, n).items)
  {
    forall k | 0 <= k < |its|
      ensures var after := Pass(width, height, its, clear, n).items;
        Unflag(after[k]) == Unflag(its[k]) && (its[k].redraw ==> after[k].redraw)
    {
      PassRaisesFlagAt(width, height, its, clear, n, k);
    }
  }

  lemma {:induction false} PassRaisesFlagAt(width: real, height: real, its: seq<Item>, clear: Option<Rect>, n: nat, k: nat)
    requires n <= |its| && k < |its|
    ensures var after := Pass(width, height, its, clear, n).items;
      Unflag(after[k]) == Unflag(its[k]) && (its[k].redraw ==> after[k].redraw)
  {
    if n > 0 {
      PassRaisesFlagAt(width, height, its, clear, n - 1, k);
      var s := Pass(width, height, its, clear, n - 1);
      if k == n - 1 {
        UnflagRaised(s.items[k]);
      }
    }
  }

  /** The `while (newRedraw)` loop: passes repeat until one flags nothing. It ends because
      every pass that flags something lowers the set of unflagged items. */
  function Settle(width: real, height: real, its: seq<Item>, clear: Option<Rect>, go: bool): (r: Sweep)
    ensures !r.flagged && |r.items| == |its|
    decreases Unflagged(its), go
  {
    if !go then Sweep(its, clear, false)
    else
      var s := Pass(width, height, its, clear, |its|);
      PassShrinks(width, height, its, clear, |its|);
      Settle(width, height, s.items, s.clear, s.flagged)
  }

  /** The whole of `clearRect`: the discovery pass, then propagation. */
  function ClearFrame(width: real, height: real, its: seq<Item>, trig: real -> UnitTurn): Sweep
  {
    var s := Discover(width, height, its, DirtyRects(width, height, trig), |its|);
    Settle(width, height, s.items, s.clear, s.flagged)
  }

  /** A pass that flags nothing found every unflagged item disjoint from `clear`. */
  lemma {:induction false} QuietPassDisjoint(width: real, height: real, its: seq<Item>, clear: Option<Rect>, n: nat)
    requires n <= |its|
    requires !Pass(width, height, its, clear, n).flagged
    ensures forall k :: 0 <= k < n && !its[k].redraw ==> !Intersect(clear, its[k].rect)
  {
    if n > 0 {
      QuietPassDisjoint(width, height, its, clear, n - 1);
      PassShrinks(width, height, its, clear, n - 1);
    }
  }

  /** A pass keeps what `clear` covered, keeps it present, and covers every item it flags. */
  lemma {:induction false} PassCovers(width: real, height: real, its: seq<Item>, clear: Option<Rect>, n: nat)
    requires n <= |its|
    ensures var s := Pass(width, height, its, clear, n);
      && (s.clear.Some? <==> clear.Some?)
      && (forall x: Rect :: clear.Some? && Covers(width, height, clear.value, x) ==> Covers(width, height, s.clear.value, x))
      && (forall k :: 0 <= k < |its| && s.items[k].redraw && !its[k].redraw ==>
            s.clear.Some? && its[k].rect.Some? && Covers(width, height, s.clear.value, its[k].rect.value))
  {
    if n > 0 {
      PassCovers(width, height, its, clear, n - 1);
      PassUntouched(width, height, its, clear, n - 1, n - 1);
      var s0 := Pass(width, height, its, clear, n - 1);
      var it := s0.items[n - 1];
      if !it.redraw && Intersect(s0.clear, it.rect) {
        var s := Pass(width, height, its, clear, n);
        forall x: Rect | clear.Some? && Covers(width, height, clear.value, x)
          ensures Covers(width, height, s.clear.value, x)
        {
          ExtendRectKeepsCover(width, height, s0.clear.value, x, it.rect.value);
        }
        forall k | 0 <= k < |its| && s.items[k].redraw && !its[k].redraw
          ensures s.clear.Some? && its[k].rect.Some? && Covers(width, height, s.clear.value, its[k].rect.value)
        {
          if k != n - 1 {
            ExtendRectKeepsCover(width, height, s0.clear.value, its[k].rect.value, it.rect.value);
          }
        }
      }
    }
  }

  /** Propagation only raises flags: every other field of every item is kept. */
  lemma {:induction false} SettleRaisesFlags(width: real, height: real, its: seq<Item>, clear: Option<Rect>, go: bool)
    ensures var r := Settle(width, height, its, clear, go);
      && |r.items| == |its|
      && (forall k :: 0 <= k < |its| ==> r.items[k] == its[k].(redraw := r.items[k].redraw))
      && (forall k :: 0 <= k < |its| && its[k].redraw ==> r.items[k].redraw)
    decreases Unflagged(its), go
  {
    if go {
      var s := Pass(width, height, its, clear, |its|);
      PassShrinks(width, height, its, clear, |its|);
      PassRaisesFlags(width, height, its, clear, |its|);
      SettleRaisesFlags(width, height, s.items, s.clear, s.flagged);
    }
  }

  /** No unflagged item touches `clear`. */
  predicate Disjoint(s: Sweep)
  {
    forall k :: 0 <= k < |s.items| && !s.items[k].redraw ==> !Intersect(s.clear, s.items[k].rect)
  }

  /** On exit no unflagged item touches `clear`, given that the loop is skipped only when
      `clear` is empty. */
  lemma {:induction false} SettleDisjoint(width: real, height: real, its: seq<Item>, clear: Option<Rect>, go: bool)
    requires go || clear.None?
    ensures Disjoint(Settle(width, height, its, clear, go))
    decreases Unflagged(its), go
  {
    if go {
      var s := Pass(width, height, its, clear, |its|);
      PassShrinks(width, height, its, clear, |its|);
      if s.flagged {
        SettleDisjoint(width, height, s.items, s.clear, s.flagged);
      } else {
        QuietPassDisjoint(width, height, its, clear, |its|);
      }
    }
  }

  /** On exit `clear` still covers what it covered before, is present exactly when it was,
      and covers the rectangle of every item the loop flagged. */
  lemma {:induction false} SettleCovers(width: real, height: real, its: seq<Item>, clear: Option<Rect>, go: bool)
    ensures var r := Settle(width, height, its, clear, go);
      && |r.items| == |its|
      && (r.clear.Some? <==> clear.Some?)
      && (forall x: Rect :: clear.Some? && Covers(width, height, clear.value, x) ==> Covers(width, height, r.clear.value, x))
      && (forall k :: 0 <= k < |its| && r.items[k].redraw && !its[k].redraw ==>
            r.clear.Some? && its[k].rect.Some? && Covers(width, height, r.clear.value, its[k].rect.value))
    decreases Unflagged(its), go
  {
    if go {
      var s := Pass(width, height, its, clear, |its|);
      PassShrinks(width, height, its, clear, |its|);
      PassCovers(width, height, its, clear, |its|);
      PassRaisesFlags(width, height, its, clear, |its|);
      SettleCovers(width, height, s.items, s.clear, s.flagged);
      SettleRaisesFlags(width, height, s.items, s.clear, s.flagged);
      var r := Settle(width, height, its, clear, go);
      forall k | 0 <= k < |its| && r.items[k].redraw && !its[k].redraw
        ensures r.clear.Some? && its[k].rect.Some? && Covers(width, height, r.clear.value, its[k].rect.value)
      {
        if s.items[k].redraw {
          assert s.clear.Some? && its[k].rect.Some? && Covers(width, height, s.clear.value, its[k].rect.value);
        } else {
          assert s.items[k].rect == its[k].rect;
        }
      }
    }
  }

  /** After a whole `clearRect`, no unflagged item touches `clear`, every changed item is
      flagged, and each item differs from what it was only as the diff and the flag raising say. */
  lemma ClearFrameSound(width: real, height: real, its: seq<Item>, trig: real -> UnitTurn)
    ensures var r := ClearFrame(width, height, its, trig);
      && |r.items| == |its|
      && (forall k :: 0 <= k < |its| ==>
            r.items[k] == Diffed(its[k], ItemRect(width, height, its[k], ItemTurn(its[k], trig))).(redraw := r.items[k].redraw))
      && (forall k :: 0 <= k < |its| && IsItemDifferent(its[k]) ==> r.items[k].redraw)
      && Disjoint(r)
  {
    var rectOf := DirtyRects(width, height, trig);
    var s := Discover(width, height, its, rectOf, |its|);
    DiscoverQuietIsEmpty(width, height, its, rectOf, |its|);
    DiscoverShape(width, height, its, rectOf, |its|);
    SettleRaisesFlags(width, height, s.items, s.clear, s.flagged);
    SettleDisjoint(width, height, s.items, s.clear, s.flagged);
  }

  /** What `clear` covers after a whole `clearRect`, when every changed item has a piece:
      the previous-frame box of every piece of a changed item, the bitmap rectangle of every
      hidden ghost item, and the rectangle of every item that propagation flagged. */
  lemma ClearFrameCovers(width: real, height: real, its: seq<Item>, trig: real -> UnitTurn)
    requires forall k :: 0 <= k < |its| && IsItemDifferent(its[k]) ==> |its[k].pieces| > 0
    ensures var r := ClearFrame(width, height, its, trig);
      && |r.items| == |its|
      && (forall k, j :: 0 <= k < |its| && IsItemDifferent(its[k]) && 0 <= j < |its[k].pieces| ==>
            r.clear.Some? && Covers(width, height, r.clear.value, PieceBox(its[k], its[k].pieces[j].last, ItemTurn(its[k], trig))))
      && (forall k :: 0 <= k < |its| && r.items[k].hidden && r.items[k].showGhost ==>
            r.clear.Some? && Covers(width, height, r.clear.value, r.items[k].rectShown))
      && (forall k :: 0 <= k < |its| && r.items[k].redraw && !IsItemDifferent(its[k]) ==>
            r.clear.Some? && r.items[k].rect.Some? && Covers(width, height, r.clear.value, r.items[k].rect.value))
  {
    var rectOf := DirtyRects(width, height, trig);
    var s := Discover(width, height, its, rectOf, |its|);
    forall k | 0 <= k < |its| && IsItemDifferent(its[k])
      ensures rectOf(its[k]).Some?
    {
      assert rectOf(its[k]) == BoxesUpTo(width, height, its[k], ItemTurn(its[k], trig), |its[k].pieces|);
    }
    DiscoverCovers(width, height, its, rectOf, |its|);
    DiscoverShape(width, height, its, rectOf, |its|);
    SettleCovers(width, height, s.items, s.clear, s.flagged);
    SettleRaisesFlags(width, height, s.items, s.clear, s.flagged);
    ClearFrameCoversBoxes(width, height, its, trig);
  }

  /** The piece boxes part of `ClearFrameCovers`. */
  lemma ClearFrameCoversBoxes(width: real, height: real, its: seq<Item>, trig: real -> UnitTurn)
    requires forall k :: 0 <= k < |its| && IsItemDifferent(its[k]) ==> |its[k].pieces| > 0
    requires var rectOf := DirtyRects(width, height, trig);
      var s := Discover(width, height, its, rectOf, |its|);
      && CoversChanged(width, height, s.clear, its, rectOf, |its|)
    ensures var r := ClearFrame(width, height, its, trig);
      forall k, j :: 0 <= k < |its| && IsItemDifferent(its[k]) && 0 <= j < |its[k].pieces| ==>
        r.clear.Some? && Covers(width, height, r.clear.value, PieceBox(its[k], its[k].pieces[j].last, ItemTurn(its[k], trig)))
  {
    var rectOf := DirtyRects(width, height, trig);
    var s := Discover(width, height, its, rectOf, |its|);
    var r := ClearFrame(width, height, its, trig);
    SettleCovers(width, height, s.items, s.clear, s.flagged);
    forall k, j | 0 <= k < |its| && IsItemDifferent(its[k]) && 0 <= j < |its[k].pieces|
      ensures r.clear.Some? && Covers(width, height, r.clear.value, PieceBox(its[k], its[k].pieces[j].last, ItemTurn(its[k], trig)))
    {
      var it := its[k];
      var t := ItemTurn(it, trig);
      var ir := BoxesUpTo(width, height, it, t, |it.pieces|);
      assert rectOf(it) == ir;
      BoxesCovered(width, height, it, t, |it.pieces|, j);
      assert s.clear.Some? && Covers(width, height, s.clear.value, ir.value);
      CoversTransitive(width, height, r.clear.value, ir.value, PieceBox(it, it.pieces[j].last, t));
    }
  }

  /** A second `clearRect` with no change in between flags nothing through the diff; when no
      item is a hidden ghost, it clears nothing and unflags every item. */
  lemma SecondFrameQuiet(width: real, height: real, its: seq<Item>, trig: real -> UnitTurn)
    requires forall k :: 0 <= k < |its| ==>
      !(Diffed(its[k], ItemRect(width, height, its[k], ItemTurn(its[k], trig))).hidden && its[k].showGhost)
    ensures var r1 := ClearFrame(width, height, its, trig);
      var r2 := ClearFrame(width, height, r1.items, trig);
      && r2.clear.None?
      && |r2.items| == |r1.items| == |its|
      && forall k :: 0 <= k < |its| ==> r2.items[k] == r1.items[k].(redraw := false)
  {
    var rectOf := DirtyRects(width, height, trig);
    var r1 := ClearFrame(width, height, its, trig);
    ClearFrameSound(width, height, its, trig);
    forall k | 0 <= k < |its|
      ensures !IsItemDifferent(r1.items[k]) && !(r1.items[k].hidden && r1.items[k].showGhost)
    {
      DiffedIsSettled(its[k], rectOf(its[k]));
    }
    DiscoverSettled(width, height, r1.items, rectOf, |its|);
    DiscoverQuietIsEmpty(width, height, r1.items, rectOf, |its|);
  }
}
