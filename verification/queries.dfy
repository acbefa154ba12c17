// The read-only queries of src/pieces.js: how `getPieces` and `getItems` (610-636) resolve
// their argument, and the hover test and enter/leave transitions of `checkHover` (560-573).

module Queries {
  import opened Options
  import opened Affine
  import opened Model

  /** One element of an array argument: an item index or an item object. */
  datatype Ref = ByIndex(i: int) | ByItem(item: Item)

  /** The argument of `getPieces`/`getItems`: undefined, a number, an array, or an item. */
  datatype Selector = Everything | Index(i: int) | Several(refs: seq<Ref>) | Direct(item: Item)

  /** `this.items[i]`: `None` stands for `undefined`. */
  function ItemAt(items: seq<Item>, i: int): (r: Option<Item>)
    ensures r.Some? <==> 0 <= i < |items|
    ensures r.Some? ==> r.value == items[i]
  {
    if 0 <= i < |items| then Some(items[i]) else None
  }

  function Resolve(items: seq<Item>, ref: Ref): Option<Item>
  {
    match ref
    case ByIndex(i) => ItemAt(items, i)
    case ByItem(it) => Some(it)
  }

  /** The pieces `getPieces` pushes for `refs`, in order; `None` when reading `.pieces` of
      `undefined` throws. */
  function SelectRefs(items: seq<Item>, refs: seq<Ref>): Option<seq<Piece>>
  {
    if |refs| == 0 then Some([])
    else
      var front := SelectRefs(items, refs[..|refs| - 1]);
      var it := Resolve(items, refs[|refs| - 1]);
      if front.Some? && it.Some? then Some(front.value + it.value.pieces) else None
  }

  function Selected(items: seq<Item>, sel: Selector): Option<seq<Piece>>
  {
    match sel
    case Everything => Some(AllPieces(items))
    case Index(i) => if 0 <= i < |items| then Some(items[i].pieces) else None
    case Several(refs) => SelectRefs(items, refs)
    case Direct(it) => Some(it.pieces)
  }

  /** What `getItems` returns: one item (or `undefined`), or an array of them. */
  datatype Picked = One(item: Option<Item>) | Many(elems: seq<Option<Item>>)

  function PickedItems(items: seq<Item>, sel: Selector): Picked
  {
    match sel
    case Everything => Many(seq(|items|, k requires 0 <= k < |items| => Some(items[k])))
    case Index(i) => One(ItemAt(items, i))
    case Several(refs) => Many(seq(|refs|, k requires 0 <= k < |refs| => Resolve(items, refs[k])))
    case Direct(it) => One(Some(it))
  }

  /** The pieces of a list of picked items, item by item; `None` if one is `undefined`. */
  function PiecesOf(picked: seq<Option<Item>>): Option<seq<Piece>>
  {
    if |picked| == 0 then Some([])
    else
      var front := PiecesOf(picked[..|picked| - 1]);
      var last := picked[|picked| - 1];
      if front.Some? && last.Some? then Some(front.value + last.value.pieces) else None
  }

  /** Selecting every index in order gives exactly the flat piece list. */
  lemma {:induction false} AllIndicesSelectEverything(items: seq<Item>, n: nat)
    requires n <= |items|
    ensures SelectRefs(items, seq(n, k requires 0 <= k < n => ByIndex(k))) == Some(AllPieces(items[..n]))
  {
    if n > 0 {
      var refs := seq(n, k requires 0 <= k < n => ByIndex(k));
      assert refs[..n - 1] == seq(n - 1, k requires 0 <= k < n - 1 => ByIndex(k));
      AllIndicesSelectEverything(items, n - 1);
      assert items[..n][..n - 1] == items[..n - 1];
    }
  }

  /** `getPieces(sel)` is the pieces of `getItems(sel)`, for an array argument: it fails
      exactly when some element resolves to `undefined`, and otherwise concatenates. */
  lemma {:induction false} PiecesOfPickedItems(items: seq<Item>, refs: seq<Ref>)
    ensures Selected(items, Several(refs)) == PiecesOf(PickedItems(items, Several(refs)).elems)
    ensures Selected(items, Several(refs)).Some? <==>
      forall k :: 0 <= k < |refs| ==> Resolve(items, refs[k]).Some?
  {
    var picked := PickedItems(items, Several(refs)).elems;
    if |refs| > 0 {
      var front := refs[..|refs| - 1];
      PiecesOfPickedItems(items, front);
      assert PickedItems(items, Several(front)).elems == picked[..|refs| - 1];
    }
  }

  /** An array argument is resolved element by element: the pieces of a concatenation are
      the concatenation of the pieces. */
  lemma {:induction false} SelectConcat(items: seq<Item>, a: seq<Ref>, b: seq<Ref>)
    ensures SelectRefs(items, a + b) ==
      if SelectRefs(items, a).Some? && SelectRefs(items, b).Some?
      then Some(SelectRefs(items, a).value + SelectRefs(items, b).value) else None
  {
    if |b| > 0 {
      var b' := b[..|b| - 1];
      assert (a + b)[..|a + b| - 1] == a + b';
      assert (a + b)[|a + b| - 1] == b[|b| - 1];
      SelectConcat(items, a, b');
      var last := Resolve(items, b[|b| - 1]);
      if SelectRefs(items, a).Some? && SelectRefs(items, b').Some? && last.Some? {
        var x, y, z := SelectRefs(items, a).value, SelectRefs(items, b').value, last.value.pieces;
        assert x + y + z == x + (y + z);
      }
    } else {
      assert a + b == a;
      if SelectRefs(items, a).Some? {
        assert SelectRefs(items, a).value + [] == SelectRefs(items, a).value;
      }
    }
  }

  /** `checkHover`'s test: the mouse lies in the item's closed rectangle. An undefined mouse
      position compares false with everything. */
  predicate Hovering(mouse: Option<Point>, it: Item)
  {
    mouse.Some? && it.x <= mouse.value.x <= it.x + it.width && it.y <= mouse.value.y <= it.y + it.height
  }

  datatype HoverEvent = ItemEnter | ItemLeave

  /** The callback `checkHover` calls, given the previous and new hover state and which of
      `itemEnter`/`itemLeave` are functions. */
  function Fired(was: bool, now: bool, hasEnter: bool, hasLeave: bool): Option<HoverEvent>
  {
    if now && !was then (if hasEnter then Some(ItemEnter) else None)
    else if !now && was then (if hasLeave then Some(ItemLeave) else None)
    else None
  }

  /** The callbacks fired, both handlers given, over successive hover readings of one item
      that starts with hover state `was`. */
  function Events(was: bool, hovers: seq<bool>): seq<HoverEvent>
    decreases |hovers|
  {
    if |hovers| == 0 then []
    else
      var e := Fired(was, hovers[0], true, true);
      (if e.Some? then [e.value] else []) + Events(hovers[0], hovers[1..])
  }

  /** Enter and leave alternate: the first event is an enter exactly when the item started
      without hover, and the last one says whether it ends with hover. */
  lemma {:induction false} EventsAlternate(was: bool, hovers: seq<bool>)
    ensures var e := Events(was, hovers);
      && (forall k :: 0 <= k < |e| - 1 ==> e[k] != e[k + 1])
      && (|e| > 0 ==> (e[0] == ItemEnter <==> !was))
      && (|e| > 0 ==> (e[|e| - 1] == ItemEnter <==> hovers[|hovers| - 1]))
      && (|e| == 0 ==> forall k :: 0 <= k < |hovers| ==> hovers[k] == was)
    decreases |hovers|
  {
    if |hovers| > 0 {
      var tail := hovers[1..];
      EventsAlternate(hovers[0], tail);
      var e := Fired(was, hovers[0], true, true);
      var rest := Events(hovers[0], tail);
      assert Events(was, hovers) == (if e.Some? then [e.value] else []) + rest;
      if |rest| == 0 {
        forall k | 0 <= k < |hovers| ensures hovers[k] == hovers[0] {
          if k > 0 { assert hovers[k] == tail[k - 1]; }
        }
      } else {
        assert tail[|tail| - 1] == hovers[|hovers| - 1];
      }
    }
  }
}
