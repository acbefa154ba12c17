// The `Pieces` instance of src/pieces.js as a class: its item list, canvas size and mouse
// position, and the per-frame methods `clearRect`, `renderPieces` and `checkHover`, the
// `initPieces` layout, the mouse handlers and the `getPieces`/`getItems` queries. Items are
// values, so a method that changes an item writes the item list back.

module Engine {
  import opened Options
  import opened Geometry
  import opened Objects
  import opened Model
  import opened Affine
  import opened Transforms
  import opened Layout
  import opened Placement
  import opened Tracker
  import opened Render
  import opened Queries

  class Pieces {
    /** The canvas size read by `initCanvas` and used by `extendRect` and the centring. */
    const width: real
    const height: real
    var items: seq<Item>
    /** `(mouseX, mouseY)`, `None` while undefined. */
    var mouse: Option<Point>

    /** The state before `initPieces`: a canvas of the given size, no items, no mouse. */
    constructor (width: real, height: real)
      ensures this.width == width && this.height == height
      ensures items == [] && mouse == None
    {
      this.width := width;
      this.height := height;
      items := [];
      mouse := None;
    }

    /** `initPieces`: place each item and cut it into strips. `y: 'center'` reads the first
        item's height, so it needs at least one item. */
    method InitPieces(configs: seq<ItemConfig>, xpos: XPos, ypos: YPos, itemSeparation: real)
      requires ypos.YCenter? ==> |configs| > 0
      requires forall k :: 0 <= k < |configs| ==> Terminates(configs[k])
      modifies this
      ensures |items| == |configs|
      ensures forall k :: 0 <= k < |configs| ==>
        FreshItem(items[k], k, configs[k], ItemX(width, configs, xpos, itemSeparation, k), ItemY(height, configs, ypos, k))
      ensures mouse == old(mouse)
    {
      items := [];
      var x := RowStart(width, configs, xpos, itemSeparation);
      var y := ColumnStart(height, configs, ypos);
      var i := 0;
      while i < |configs|
        invariant 0 <= i <= |configs| && |items| == i
        invariant forall k :: 0 <= k < i ==>
          FreshItem(items[k], k, configs[k], ItemX(width, configs, xpos, itemSeparation, k), ItemY(height, configs, ypos, k))
        invariant !xpos.XCenterAll? ==> x == RowStart(width, configs, xpos, itemSeparation) + Advance(configs, itemSeparation, i)
        invariant !ypos.YCenterAll? ==> y == ColumnStart(height, configs, ypos) + Lift(configs, i)
        invariant mouse == old(mouse)
      {
        var o := configs[i];
        if xpos.XCenterAll? {
          x := width / 2.0 - o.width / 2.0;
        }
        if ypos.YCenterAll? {
          y := height / 2.0 - o.height / 2.0;
        }
        x := x + o.translateX;
        y := y + o.translateY;
        assert x == ItemX(width, configs, xpos, itemSeparation, i);
        assert y == ItemY(height, configs, ypos, i);
        var item := InitItem(i, x, y, o);
        items := items + [item];
        if !xpos.XCenterAll? {
          x := x + o.width + itemSeparation;
        }
        i := i + 1;
      }
    }

    /** The inner loop of `clearRect` for a changed item: project each piece's previous box
        through the shared Transform, union the boxes, reset, and snapshot the live geometry. */
    method ProjectPieces(it: Item, turn: UnitTurn, t: Transform) returns (pieces: seq<Piece>, itemRect: Option<Rect>)
      requires t.Valid() && t.Matrix() == Identity
      modifies t, t.m
      ensures t.Valid() && t.Matrix() == Identity && (t.m == old(t.m) || fresh(t.m))
      ensures pieces == Committed(it.pieces)
      ensures itemRect == ItemRect(width, height, it, turn)
    {
      pieces := [];
      itemRect := None;
      var k := 0;
      while k < |it.pieces|
        invariant 0 <= k <= |it.pieces|
        invariant t.Valid() && t.Matrix() == Identity && (t.m == old(t.m) || fresh(t.m))
        invariant itemRect == BoxesUpTo(width, height, it, turn, k)
        invariant |pieces| == k && forall j :: 0 <= j < k ==> pieces[j] == it.pieces[j].(last := it.pieces[j].live)
      {
        var p := it.pieces[k];
        var last := p.last;
        var box := ProjectPiece(it, last, turn, t);
        itemRect := ExtendRect(width, height, itemRect, Some(box));
        t.Reset();
        var snapshot := CopyValues(last, p.live, GeomKeys);
        CopiedAllKeys(snapshot, last, p.live);
        CommitOne(pieces, it.pieces, k, snapshot);
        pieces := pieces + [p.(last := snapshot)];
        k := k + 1;
      }
      assert pieces == Committed(it.pieces);
    }

    /** `clearRect`: diff every item, collect the dirty rectangle, then flag every item that
        touches it until a pass flags nothing. The `clear` it returns is what the canvas
        would be cleared with. */
    method ClearRect(trig: real -> UnitTurn) returns (clear: Option<Rect>)
      modifies this
      ensures Sweep(items, clear, false) == ClearFrame(width, height, old(items), trig)
      ensures mouse == old(mouse)
    {
      var newRedraw;
      clear, newRedraw := DiscoverItems(trig, DirtyRects(width, height, trig));
      clear := Propagate(clear, newRedraw);
    }

    /** The first loop of `clearRect`, with one Transform shared by all items. */
    method DiscoverItems(trig: real -> UnitTurn, ghost rectOf: Item -> Option<Rect>) returns (clear: Option<Rect>, newRedraw: bool)
      modifies this
      requires forall k :: 0 <= k < |items| ==> rectOf(items[k]) == ItemRect(width, height, items[k], ItemTurn(items[k], trig))
      ensures Sweep(items, clear, newRedraw) == Discover(width, height, old(items), rectOf, |old(items)|)
      ensures mouse == old(mouse)
    {
      var t := new Transform();
      ghost var its := items;
      newRedraw := false;
      clear := None;
      var i := 0;
      while i < |items|
        invariant 0 <= i <= |its| && |items| == |its|
        invariant fresh(t) && fresh(t.m) && t.Valid() && t.Matrix() == Identity
        invariant Sweep(items, clear, newRedraw) == Discover(width, height, its, rectOf, i)
        invariant mouse == old(mouse)
      {
        assert its[i] == old(items)[i];
        clear, newRedraw := DiscoverStep(i, its, rectOf, trig, t, clear, newRedraw);
        i := i + 1;
      }
    }

    /** One iteration of that loop: examine item i and write it back. */
    method DiscoverStep(i: nat, ghost its: seq<Item>, ghost rectOf: Item -> Option<Rect>, trig: real -> UnitTurn,
                        t: Transform, clear: Option<Rect>, newRedraw: bool) returns (clear': Option<Rect>, newRedraw': bool)
      requires i < |its| && |items| == |its| && rectOf(its[i]) == ItemRect(width, height, its[i], ItemTurn(its[i], trig))
      requires t.Valid() && t.Matrix() == Identity
      requires Sweep(items, clear, newRedraw) == Discover(width, height, its, rectOf, i)
      modifies this, t, t.m
      ensures |items| == |its| && mouse == old(mouse)
      ensures t.Valid() && t.Matrix() == Identity && (t.m == old(t.m) || fresh(t.m))
      ensures Sweep(items, clear', newRedraw') == Discover(width, height, its, rectOf, i + 1)
    {
      DiscoverUntouched(width, height, its, rectOf, i, i);
      var item;
      item, clear', newRedraw' := Examine(items[i], trig, t, clear, newRedraw);
      DiscoverNext(width, height, its, rectOf, i, items, clear, newRedraw, item, clear', newRedraw');
      items := items[i := item];
    }

    /** `while (newRedraw)`: repeat passes until one flags nothing. */
    method Propagate(clear0: Option<Rect>, newRedraw0: bool) returns (clear: Option<Rect>)
      modifies this
      ensures Sweep(items, clear, false) == Settle(width, height, old(items), clear0, newRedraw0)
      ensures mouse == old(mouse)
    {
      clear := clear0;
      var newRedraw := newRedraw0;
      while newRedraw
        invariant Settle(width, height, items, clear, newRedraw) == Settle(width, height, old(items), clear0, newRedraw0)
        invariant mouse == old(mouse)
        decreases Unflagged(items), newRedraw
      {
        ghost var before, wide := items, clear;
        clear, newRedraw := FlagTouching(clear);
        PassShrinks(width, height, before, wide, |before|);
      }
    }

    /** One pass of the `while (newRedraw)` body: flag each unflagged item touching `clear`. */
    method FlagTouching(clear0: Option<Rect>) returns (clear: Option<Rect>, newRedraw: bool)
      modifies this
      ensures Sweep(items, clear, newRedraw) == Pass(width, height, old(items), clear0, |old(items)|)
      ensures mouse == old(mouse)
    {
      ghost var start := items;
      clear := clear0;
      newRedraw := false;
      var j := 0;
      while j < |items|
        invariant 0 <= j <= |start| && |items| == |start|
        invariant Sweep(items, clear, newRedraw) == Pass(width, height, start, clear0, j)
        invariant mouse == old(mouse)
      {
        PassUntouched(width, height, start, clear0, j, j);
        var item := items[j];
        if !item.redraw && Intersect(clear, item.rect) {
          newRedraw := true;
          items := items[j := item.(redraw := true)];
          clear := ExtendRect(width, height, clear, item.rect);
        }
        j := j + 1;
      }
    }

    /** The body of `clearRect`'s first loop for one item. */
    method Examine(item: Item, trig: real -> UnitTurn, t: Transform, clear: Option<Rect>, newRedraw: bool)
      returns (d: Item, clear': Option<Rect>, newRedraw': bool)
      requires t.Valid() && t.Matrix() == Identity
      modifies t, t.m
      ensures t.Valid() && t.Matrix() == Identity && (t.m == old(t.m) || fresh(t.m))
      ensures d == Diffed(item, DirtyRects(width, height, trig)(item))
      ensures clear' == StepClear(width, height, item, DirtyRects(width, height, trig)(item), clear)
      ensures newRedraw' == StepFlag(item, DirtyRects(width, height, trig)(item), newRedraw)
    {
      d, clear', newRedraw' := item, clear, newRedraw;
      var turn := ItemTurn(item, trig);
      if IsItemDifferent(item) {
        newRedraw' := true;
        var shown := IsItemShown(item);
        var hidden := IsItemHidden(item);
        var pieces, itemRect := ProjectPieces(item, turn, t);
        clear' := ExtendRect(width, height, clear', itemRect);
        d := item.(redraw := true, shown := shown, hidden := hidden, lastAngle := Some(item.angle),
                   pieces := pieces, rect := if shown then Some(item.rectShown) else itemRect);
      } else {
        d := item.(redraw := false);
      }
      // a hidden item with a ghost outline is always cleared
      if d.hidden && d.showGhost {
        newRedraw' := true;
        clear' := ExtendRect(width, height, clear', Some(d.rectShown));
      }
    }

    /** `renderPieces` for item i: consume the redraw flag and choose what to draw. */
    method RenderPieces(i: nat, saveShowState: bool, trig: real -> UnitTurn) returns (r: Outcome)
      requires i < |items|
      modifies this
      ensures r == Rendering(old(items[i]), saveShowState, trig)
      ensures items == old(items)[i := old(items[i]).(redraw := false)]
      ensures mouse == old(mouse)
    {
      var item := items[i];
      r := Untouched;
      if item.redraw {
        items := items[i := item.(redraw := false)];
        if item.shown && saveShowState {
          r := Bitmap(Rect(item.x, item.y, item.x + item.width, item.y + item.height));
        } else if !item.hidden {
          var blits := DrawPieces(item, ItemTurn(item, trig), BackTurn(item, trig));
          r := Strips(blits);
        } else {
          r := Skipped;
        }
      }
    }

    /** `checkHover` for item i: the new hover state, and which callback fires. */
    method CheckHover(i: nat, hasEnter: bool, hasLeave: bool) returns (hover: bool, fired: Option<HoverEvent>)
      requires i < |items|
      modifies this
      ensures hover == Hovering(mouse, old(items[i]))
      ensures fired == Fired(old(items[i]).hover, hover, hasEnter, hasLeave)
      ensures items == old(items)[i := old(items[i]).(hover := hover)]
      ensures mouse == old(mouse)
    {
      var item := items[i];
      hover := mouse.Some? && mouse.value.x >= item.x && mouse.value.x <= item.x + item.width
               && mouse.value.y >= item.y && mouse.value.y <= item.y + item.height;
      fired := None;
      if hover && !item.hover {
        if hasEnter {
          fired := Some(ItemEnter);
        }
      } else if !hover && item.hover {
        if hasLeave {
          fired := Some(ItemLeave);
        }
      }
      items := items[i := item.(hover := hover)];
    }

    /** `onmousemove`, given the pointer already in canvas coordinates. */
    method MouseMove(x: real, y: real)
      modifies this
      ensures mouse == Some(Point(x, y)) && items == old(items)
    {
      mouse := Some(Point(x, y));
    }

    /** `onmouseout`: the position becomes undefined, so nothing hovers. */
    method MouseOut()
      modifies this
      ensures mouse == None && items == old(items)
      ensures forall k :: 0 <= k < |items| ==> !Hovering(mouse, items[k])
    {
      mouse := None;
    }

    /** `getPieces(sel)`; `None` where the source throws on `undefined.pieces`. */
    method GetPieces(sel: Selector) returns (r: Option<seq<Piece>>)
      ensures r == Selected(items, sel)
    {
      match sel
      case Everything =>
        r := Some(AllPieces(items));
      case Index(i) =>
        r := if 0 <= i < |items| then Some(items[i].pieces) else None;
      case Several(refs) =>
        var k := 0;
        r := Some([]);
        while k < |refs|
          invariant 0 <= k <= |refs|
          invariant r == SelectRefs(items, refs[..k])
        {
          assert refs[..k + 1][..k] == refs[..k];
          var it := Resolve(items, refs[k]);
          if r.Some? && it.Some? {
            r := Some(r.value + it.value.pieces);
          } else {
            r := None;
          }
          k := k + 1;
        }
        assert refs[..k] == refs;
      case Direct(it) =>
        r := Some(it.pieces);
    }

    /** `getItems(sel)`. */
    method GetItems(sel: Selector) returns (r: Picked)
      ensures r == PickedItems(items, sel)
    {
      match sel
      case Everything =>
        var its := items;
        r := Many(seq(|its|, k requires 0 <= k < |its| => Some(its[k])));
      case Index(i) =>
        r := One(ItemAt(items, i));
      case Several(refs) =>
        var target: seq<Option<Item>> := [];
        var k := 0;
        while k < |refs|
          invariant 0 <= k <= |refs| && |target| == k
          invariant forall j :: 0 <= j < k ==> target[j] == Resolve(items, refs[j])
        {
          match refs[k] {
            case ByIndex(n) =>
              target := target + [ItemAt(items, n)];
            case ByItem(it) =>
              target := target + [Some(it)];
          }
          k := k + 1;
        }
        var its := items;
        assert target == seq(|refs|, k requires 0 <= k < |refs| => Resolve(its, refs[k]));
        r := Many(target);
      case Direct(it) =>
        r := One(Some(it));
    }
  }

  /** The box of one piece: the six transform calls, then the corners. */
  method ProjectPiece(it: Item, g: Geom, turn: UnitTurn, t: Transform) returns (box: Rect)
    requires t.Valid() && t.Matrix() == Identity
    modifies t.m
    ensures t.Valid()
    ensures box == PieceBox(it, g, turn)
  {
    PlaceClip(t, it, g, turn);
    box := CornerBoxOf(t, g);
  }

  /** The four corners of a piece's padded rectangle through the current matrix, and their
      bounding box. */
  method CornerBoxOf(t: Transform, g: Geom) returns (box: Rect)
    requires t.Valid()
    ensures box == CornerBox(t.Matrix(), g)
  {
    var x, y := -g.w / 2.0 - 1.0, -g.h / 2.0 - 1.0;
    var w, h := g.w + 2.0, g.h + 2.0;
    var p1 := t.TransformPoint(x, y);
    var p2 := t.TransformPoint(x + w, y);
    var p3 := t.TransformPoint(x + w, y + h);
    var p4 := t.TransformPoint(x, y + h);
    box := Rect(Min4(p1.x, p2.x, p3.x, p4.x), Min4(p1.y, p2.y, p3.y, p4.y),
                Max4(p1.x, p2.x, p3.x, p4.x), Max4(p1.y, p2.y, p3.y, p4.y));
  }
}
