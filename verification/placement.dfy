// Where `initPieces` (src/pieces.js:290-389) places each item: a running cursor `x` that
// starts at `options.x` (or the centre of the whole row) and moves past each item plus the
// separation, a cursor `y` that starts at `options.y` (or centres the first item), and the
// `centerAll` modes that centre every item on its own. Each item's `translate` pair is added
// to the cursors and never taken off again, so it carries over to the items after it.

module Placement {
  import opened Layout

  datatype XPos = XAt(x: real) | XCenter | XCenterAll
  datatype YPos = YAt(y: real) | YCenter | YCenterAll

  /** The widths of the first n items. */
  function Widths(cs: seq<ItemConfig>, n: nat): real
    requires n <= |cs|
  {
    if n == 0 then 0.0 else Widths(cs, n - 1) + cs[n - 1].width
  }

  /** How far the x cursor has moved after the first n items: each adds its horizontal
      translation, its width and the separation. */
  function Advance(cs: seq<ItemConfig>, sep: real, n: nat): real
    requires n <= |cs|
  {
    if n == 0 then 0.0 else Advance(cs, sep, n - 1) + cs[n - 1].translateX + cs[n - 1].width + sep
  }

  /** How far the y cursor has moved after the first n items. */
  function Lift(cs: seq<ItemConfig>, n: nat): real
    requires n <= |cs|
  {
    if n == 0 then 0.0 else Lift(cs, n - 1) + cs[n - 1].translateY
  }

  /** The x cursor before the first item; `centerAll` overwrites it before every item. */
  function RowStart(width: real, cs: seq<ItemConfig>, xpos: XPos, sep: real): real
  {
    match xpos
    case XAt(x) => x
    case XCenter => width / 2.0 - (Widths(cs, |cs|) + sep * |cs| as real) / 2.0
    case XCenterAll => 0.0
  }

  /** The y cursor before the first item: `center` centres the first item only. */
  function ColumnStart(height: real, cs: seq<ItemConfig>, ypos: YPos): real
    requires ypos.YCenter? ==> |cs| > 0
  {
    match ypos
    case YAt(y) => y
    case YCenter => height / 2.0 - cs[0].height / 2.0
    case YCenterAll => 0.0
  }

  function ItemX(width: real, cs: seq<ItemConfig>, xpos: XPos, sep: real, k: nat): real
    requires k < |cs|
  {
    if xpos.XCenterAll? then width / 2.0 - cs[k].width / 2.0 + cs[k].translateX
    else RowStart(width, cs, xpos, sep) + Advance(cs, sep, k) + cs[k].translateX
  }

  function ItemY(height: real, cs: seq<ItemConfig>, ypos: YPos, k: nat): real
    requires k < |cs|
  {
    if ypos.YCenterAll? then height / 2.0 - cs[k].height / 2.0 + cs[k].translateY
    else ColumnStart(height, cs, ypos) + Lift(cs, k + 1)
  }

  /** In a row, the next item starts one width and one separation after the previous one,
      moved by its own translation on top of every earlier one; so items never overlap when
      the separation and the translations are non-negative. */
  lemma NextItemX(width: real, cs: seq<ItemConfig>, xpos: XPos, sep: real, k: nat)
    requires !xpos.XCenterAll? && k + 1 < |cs|
    ensures ItemX(width, cs, xpos, sep, k + 1) == ItemX(width, cs, xpos, sep, k) + cs[k].width + sep + cs[k + 1].translateX
    ensures sep >= 0.0 && cs[k + 1].translateX >= 0.0 ==>
      ItemX(width, cs, xpos, sep, k) + cs[k].width <= ItemX(width, cs, xpos, sep, k + 1)
  {
  }

  /** Unless every item is centred on its own, an item's y is the start plus the vertical
      translations of it and of every item before it. */
  lemma NextItemY(height: real, cs: seq<ItemConfig>, ypos: YPos, k: nat)
    requires !ypos.YCenterAll? && k + 1 < |cs|
    requires ypos.YCenter? ==> |cs| > 0
    ensures ItemY(height, cs, ypos, k + 1) == ItemY(height, cs, ypos, k) + cs[k + 1].translateY
  {
  }

  /** Without translations the cursor moves by the widths plus one separation per item. */
  lemma {:induction false} AdvanceUntranslated(cs: seq<ItemConfig>, sep: real, n: nat)
    requires n <= |cs|
    requires forall k :: 0 <= k < |cs| ==> cs[k].translateX == 0.0
    ensures Advance(cs, sep, n) == Widths(cs, n) + sep * n as real
  {
    if n > 0 {
      AdvanceUntranslated(cs, sep, n - 1);
      assert sep * (n - 1) as real + sep == sep * n as real;
    }
  }

  /** `x: 'center'` counts a separation after the last item as well, so without translations
      the row from the first item's left edge to the last item's right edge is centred on
      `width / 2 - sep / 2`, not on `width / 2`. */
  lemma CenteredRowShift(width: real, cs: seq<ItemConfig>, sep: real)
    requires |cs| > 0
    requires forall k :: 0 <= k < |cs| ==> cs[k].translateX == 0.0
    ensures var n := |cs|;
      ItemX(width, cs, XCenter, sep, 0) + (ItemX(width, cs, XCenter, sep, n - 1) + cs[n - 1].width)
      == width - sep
  {
    var n := |cs|;
    AdvanceUntranslated(cs, sep, n - 1);
    assert sep * (n - 1) as real + sep == sep * n as real;
  }
}
