// The item and piece records of src/pieces.js and the three classification
// predicates `isItemShown`, `isItemHidden` and `isItemDifferent`.

module Model {
  import opened Options
  import opened Geometry
  import opened Objects

  /** One vertical strip of an item. `live` is what the tween engine animates; `shown` and
      `hidden` are the `s_*` and `h_*` presets; `last` is the geometry drawn in the previous
      frame. Opacity, duration, delay and easing are read by the tween engine and the renderer. */
  datatype Piece = Piece(live: Geom, shown: Geom, hidden: Geom, last: Geom,
                         opacity: real, duration: real, delay: real, easing: string)

  /** One decomposed asset. `lastAngle` is `item.last.angle`, `None` for the initial `null`;
      `rect` is `None` while `item.rect` is still undefined. The source and cached bitmaps
      are not modelled. */
  datatype Item = Item(index: nat, x: real, y: real, width: real, height: real, extraY: real,
                       angle: real, rotate: real, lastAngle: Option<real>,
                       showGhost: bool, ghostDashArray: seq<real>, ghostDashOffset: real, ghostOpacity: real,
                       pieces: seq<Piece>,
                       shown: bool, hidden: bool, redraw: bool, hover: bool,
                       rect: Option<Rect>, rectShown: Rect)

  /** The six live fields of `p` equal its `s_*` preset, compared field by field. */
  predicate AtShown(p: Piece)
  {
    p.live.x == p.shown.x && p.live.y == p.shown.y && p.live.w == p.shown.w
    && p.live.h == p.shown.h && p.live.tx == p.shown.tx && p.live.ty == p.shown.ty
  }

  /** `pieces.every(...)` of `isItemShown`, left to right. */
  function AllShown(ps: seq<Piece>): (r: bool)
    ensures r <==> forall k :: 0 <= k < |ps| ==> ps[k].live == ps[k].shown
  {
    if |ps| == 0 then true else AtShown(ps[0]) && AllShown(ps[1..])
  }

  /** `pieces.every(p => p.w === 0 && p.h === 0)` of `isItemHidden`. */
  function AllCollapsed(ps: seq<Piece>): (r: bool)
    ensures r <==> forall k :: 0 <= k < |ps| ==> ps[k].live.w == 0.0 && ps[k].live.h == 0.0
  {
    if |ps| == 0 then true else ps[0].live.w == 0.0 && ps[0].live.h == 0.0 && AllCollapsed(ps[1..])
  }

  /** `pieces.some(p => !areObjectsEquals(p, p.last, [...]))` of `isItemDifferent`. */
  function AnyMoved(ps: seq<Piece>): (r: bool)
    ensures r <==> exists k :: 0 <= k < |ps| && ps[k].live != ps[k].last
  {
    if |ps| == 0 then false
    else
      EqualsOnGeomKeys(ps[0].live, ps[0].last);
      !AreObjectsEquals(ps[0].live, ps[0].last, GeomKeys) || AnyMoved(ps[1..])
  }

  predicate IsItemShown(it: Item)
  {
    AllShown(it.pieces)
  }

  predicate IsItemHidden(it: Item)
  {
    AllCollapsed(it.pieces)
  }

  /** `isItemDifferent`: the angle is not the recorded one (`null` never is), or some piece's
      live geometry is not its recorded geometry. */
  function IsItemDifferent(it: Item): (r: bool)
    ensures r <==> it.lastAngle != Some(it.angle)
                   || exists k :: 0 <= k < |it.pieces| && it.pieces[k].live != it.pieces[k].last
  {
    it.lastAngle != Some(it.angle) || AnyMoved(it.pieces)
  }

  /** Shown and hidden hold vacuously for an item without pieces. */
  lemma NoPiecesShownAndHidden(it: Item)
    requires |it.pieces| == 0
    ensures IsItemShown(it) && IsItemHidden(it)
  {
  }

  /** An item with a piece whose shown preset has a positive extent is never both shown and hidden. */
  lemma ShownExcludesHidden(it: Item, k: nat)
    requires k < |it.pieces| && (it.pieces[k].shown.w != 0.0 || it.pieces[k].shown.h != 0.0)
    ensures !(IsItemShown(it) && IsItemHidden(it))
  {
  }

  /** The flat `this.pieces` list: every item's pieces, item by item. */
  function AllPieces(items: seq<Item>): seq<Piece>
  {
    if |items| == 0 then [] else AllPieces(items[..|items| - 1]) + items[|items| - 1].pieces
  }
}
