# pieces: a verified model of the piece-geometry engine

`pieces` cuts a bitmap (an image, rendered text or a path) into full-height vertical strips
called pieces, and then redraws them frame by frame while a tween engine animates each piece's
geometry. This project models the bookkeeping that runs on every frame. It also models the
small affine matrix class the bookkeeping uses, and proves properties of both.

- **Affine transform** (`src/transform.js`). `Transforms.Transform` is a class over a
  six-entry `array<real>` that `translate` and `rotate` overwrite in place and `reset`
  replaces. `Affine` holds the value-level matrix algebra its contracts refer to.
- **Rect and angle helpers** (`Geometry`). `normalizeAngle` uses JavaScript's truncating
  `%`. `intersect` and `extendRect` model `null`/`undefined` as `None`.
- **Object helpers** (`Objects`). `areObjectsEquals`, `copyValues`, `toArray` and
  `setValuesByIndex`.
- **Items and pieces** (`Model`). Items and pieces are records. This module also holds the
  classification predicates `isItemShown`, `isItemHidden` and `isItemDifferent`.
- **Decomposition** (`Layout`, `Placement`). The strip loop of `initPieces`, the presets each
  piece gets, and where each item is placed along the row.
- **Dirty-region tracker** (`Tracker`). `clearRect` is specified as functions of the item
  list:
  - the padded, rotated box of each piece's previous-frame geometry;
  - the per-item diff that commits the snapshots;
  - the discovery pass that builds `clear`;
  - the propagation passes that flag every item touching `clear`.
- **Render decision** (`Render`). What `renderPieces` does with a flagged item, and the
  matrices it sets for each piece's clip window and for the bitmap.
- **Queries and hover** (`Queries`). How `getPieces`/`getItems` resolve their argument, and
  the enter/leave behaviour of `checkHover`.
- **The engine object** (`Engine.Pieces`). A class holding the canvas size, the item list
  and the mouse position. Its methods are `initPieces`, `clearRect`, `renderPieces`,
  `checkHover`, the two mouse handlers and the two queries. Each method is proved against
  the specification functions above.

`Math.cos`/`Math.sin` of an angle in degrees are a parameter `trig: real -> UnitTurn`. A
`UnitTurn` is a cosine/sine pair whose squares sum to 1. Coordinates are exact reals.

### Where the code and its description differ

The model follows the code in each of these cases.

- The last strip is never clipped: every strip is `piecesWidth` wide
  (`src/pieces.js:349`). So width 23 with strips of 5 gives five strips of width 5, not a
  last one of width 3 (`Layout.FiveStripsOfFive`).
- An item whose `width + 2*extraX <= 0` gets no pieces at all, not exactly one
  (`src/pieces.js:336`).
- `extendRect` clamps only when both arguments are present. A rect that is alone is
  returned as it is (`src/pieces.js:552-557`). So `clear` is not always inside the surface,
  and `extendRect(r, null)` is `null`.
- A changed item with no pieces has a `null` item rect, so `clear = extendRect(clear, null)`
  throws away everything `clear` had collected. `Tracker.DiscoverCovers` and
  `Tracker.ClearFrameCovers` therefore require every changed item to have a piece.
- A second `clearRect` with nothing changed in between still clears the `rectShown` of every
  hidden item with a ghost outline (`src/pieces.js:521-524`). Discovery lowers such an item's
  flag (`src/pieces.js:518`). Propagation raises it again only if the item's `rect` touches
  `clear` (`src/pieces.js:531`).
- `x: 'center'` counts one `itemSeparation` after the last item as well. So the row is
  centred on `width/2 - itemSeparation/2` (`Placement.CenteredRowShift`).
- The `translate` offsets of the items add up along the row and down the column. Each
  offset is added to the cursors and never taken off (`src/pieces.js:312-313`).

## Model

| member | source | states |
|---|---|---|
| Affine.IdentityFixesPoints | src/transform.js:9-12 | `transformPoint` on the reset matrix returns its input |
| Affine.TranslatedMovesPoints | src/transform.js:27-36 | a translate leaves m[0..3] alone, and the image of (px, py) afterwards is the old image of (px+dx, py+dy) |
| Affine.TranslatesCompose | src/transform.js:27-30 | two translates equal one translate by the summed offsets |
| Affine.RotatedMovesPoints | src/transform.js:14-25 | a rotate leaves m[4], m[5] alone, and the image of (px, py) afterwards is the old image of (c*px - s*py, s*px + c*py) |
| Affine.RotateThenReverse | src/transform.js:14-25 | rotating by a unit turn (c, s) and then by (c, -s) restores every matrix |
| Transforms.Transform.constructor | src/transform.js:4-6 | a new Transform holds the identity in a fresh array |
| Transforms.Transform.Reset | src/transform.js:9-12 | `m` becomes a fresh array [1, 0, 0, 1, 0, 0] |
| Transforms.Transform.Rotate | src/transform.js:14-25 | the new matrix is the old one rotated by the turn |
| Transforms.Transform.Translate | src/transform.js:27-30 | the new matrix is the old one translated by (x, y) |
| Transforms.Transform.TransformPoint | src/transform.js:32-36 | returns the image of the point under the current matrix |
| Transforms.Transform.Apply | src/transform.js:38-40 | hands over exactly the six entries of the current matrix |
| Transforms.RotateAndBack | src/transform.js:14-25 | a rotate and its reverse leave the array contents as they were |
| Geometry.Trunc | src/pieces.js:68 | rounds toward zero: below q by less than 1 when q >= 0, above q by less than 1 when q < 0 |
| Geometry.Rem360 | src/pieces.js:68 | `angle % 360` has the sign of the angle, lies strictly within 360 of 0, and differs from the angle by whole turns |
| Geometry.NormalizeAngle | src/pieces.js:67-69 | a non-negative angle lands in [0, 360), a negative one in (0, 360], and it moves by whole turns |
| Geometry.NormalizeAngleUnique | src/pieces.js:67-69 | the result is the only whole-turn shift of the angle in that range |
| Geometry.NormalizeNegativeTurns | src/pieces.js:67-69 | a negative multiple of 360 normalizes to exactly 360 |
| Geometry.NormalizeAngleTwice | src/pieces.js:67-69 | normalizing twice changes the result only when the first pass gave 360, which then becomes 0 |
| Geometry.Intersect | src/pieces.js:71-77 | false when either rect is missing; otherwise the closed intervals overlap on both axes |
| Geometry.IntersectMissing | src/pieces.js:71-77 | a missing rect intersects nothing |
| Geometry.IntersectSymmetric | src/pieces.js:71-77 | `intersect(a, b) == intersect(b, a)` |
| Geometry.IntersectSharedEdge | src/pieces.js:71-77 | the bounds are closed, so rects that only share an edge intersect |
| Geometry.IntersectIffCommonPoint | src/pieces.js:71-77 | for well-formed rects, `intersect` holds exactly when some point lies in both |
| Geometry.ExtendRect | src/pieces.js:551-558 | with an argument missing the result is the second argument; otherwise it lies inside the surface and covers both arguments up to the clamp |
| Geometry.ExtendRectTightest | src/pieces.js:551-558 | every box that covers both arguments up to the clamp encloses the union |
| Geometry.ExtendRectCommutative | src/pieces.js:551-558 | the union of two present rects does not depend on their order |
| Geometry.ExtendRectAssociative | src/pieces.js:551-558 | the union of three present rects does not depend on how it is grouped |
| Geometry.ExtendRectKeepsCover | src/pieces.js:551-558 | growing a box keeps everything it already covered |
| Objects.Set | src/pieces.js:64 | writing one key changes that key and no other |
| Objects.AreObjectsEquals | src/pieces.js:59-61 | true exactly when the two agree on every listed key |
| Objects.EqualsOnGeomKeys | src/pieces.js:444 | compared on x, y, w, h, tx and ty, `areObjectsEquals` is equality of the geometry |
| Objects.CopyValues | src/pieces.js:63-65 | each listed key takes the source's value, and every other key keeps the target's |
| Objects.CopiedAllKeys | src/pieces.js:512 | copying all six keys makes the snapshot equal to the live geometry |
| Objects.ToArray | src/pieces.js:41-46 | each listed key ends up holding an array: `[]` for undefined, `[v]` for a single value, an array unchanged; other keys are untouched; so a second `toArray` leaves every listed key's array as the first one made it |
| Objects.SetValuesByIndex | src/pieces.js:48-57 | a key whose array has an element at `index` that is not `undefined` takes that element; every other entry of `values` is kept |
| Model.IsItemShown | src/pieces.js:447-449 | every piece is at its shown preset, which holds for an item without pieces |
| Model.IsItemHidden | src/pieces.js:451-453 | every piece has collapsed to w == 0 and h == 0, which holds for an item without pieces |
| Model.AllShown | src/pieces.js:447-449 | true exactly when every piece's live geometry equals its shown preset |
| Model.AllCollapsed | src/pieces.js:451-453 | true exactly when every piece has w == 0 and h == 0 |
| Model.AnyMoved | src/pieces.js:444 | true exactly when some piece's live geometry differs from its snapshot |
| Model.IsItemDifferent | src/pieces.js:442-445 | true exactly when the angle is not the recorded one (a `null` record never matches) or some piece moved |
| Model.ShownExcludesHidden | src/pieces.js:447-453 | an item with a piece whose shown preset has extent is never both shown and hidden |
| Layout.Terminates | src/pieces.js:336 | the strip loop stops: the span `width + 2*extraX` is empty, or every strip moves the cursor right |
| Layout.StripPiece | src/pieces.js:337-358 | piece k's shown preset is the k-th strip at full height; its hidden preset is clamped to the strip and centred on it; live geometry and snapshot start at the hidden preset; the animation settings come from the options |
| Layout.FreshItem | src/pieces.js:315-361 | the fields `initPieces` gives an item: place and size, normalized angle and rotate, `last.angle` null, the ghost settings with dash [20, 10] and offset 30, `shown` false, `hidden` true, and its strips |
| Layout.InitItem | src/pieces.js:315-361 | the item is fresh: at its place, flags `shown = false` and `hidden = true`, `last.angle` null, and its strips laid out by the cursor loop with their presets |
| Layout.FiveStripsOfFive | src/pieces.js:336-361 | width 23 with strips of 5, no spacing and no margin gives five strips, all of width 5 |
| Layout.StripsCoverSpan | src/pieces.js:336-361 | without spacing, every abscissa from the left margin to the right margin lies in some strip |
| Layout.StripsDoNotOverlap | src/pieces.js:345-361 | with non-negative spacing, each strip ends before the next one starts |
| Layout.FreshItemIsDifferent | src/pieces.js:315 | a fresh item always differs from its snapshot, so the first frame redraws it |
| Layout.FreshItemHidden | src/pieces.js:328-353 | with w = h = 0 for every piece, a fresh item's `hidden` flag agrees with `isItemHidden`, and no piece has moved |
| Placement.ItemX | src/pieces.js:296-312 | with `centerAll` the item is centred on its own; otherwise it is the row start plus the advance over the earlier items, moved by its own translation |
| Placement.ItemY | src/pieces.js:297-313 | with `centerAll` the item is centred on its own; otherwise it is the column start plus every translation up to its own |
| Placement.NextItemX | src/pieces.js:305-313 | in a row, the next item starts one width and one separation after the previous one, moved by its own translation; so items do not overlap when the separation and translation are non-negative |
| Placement.NextItemY | src/pieces.js:308-313 | the next item's y is the previous one's plus its own vertical translation |
| Placement.AdvanceUntranslated | src/pieces.js:386-388 | without translations the x cursor moves by the widths plus one separation per item |
| Placement.CenteredRowShift | src/pieces.js:296 | with `x: 'center'` and no translations the row is centred on width/2 - separation/2 |
| Tracker.PieceMatrix | src/pieces.js:487-492 | move to the item, turn about its centre, add the piece offset less `extraY`, then move to the piece's centre |
| Tracker.PieceBox | src/pieces.js:487-507 | the bounding box of the snapshot's four padded corners through that matrix |
| Tracker.ItemRect | src/pieces.js:485-513 | the `extendRect` of every piece's box, and null for an item without pieces |
| Tracker.Diffed | src/pieces.js:478-518 | a changed item is flagged, classified, given its angle record and snapshots, and its rect (`rectShown` if shown); an unchanged one only has its flag lowered |
| Tracker.StepClear | src/pieces.js:514-524 | a changed item's rect joins `clear`, and then a hidden ghost item's `rectShown` |
| Tracker.StepFlag | src/pieces.js:514-524 | `newRedraw` is raised by a changed item or by a hidden ghost item |
| Tracker.ClearFrame | src/pieces.js:470-537 | the discovery pass over every item, then propagation passes until one flags nothing |
| Tracker.CornerBoxContains | src/pieces.js:494-507 | every point of the padded piece rectangle maps into the bounding box of its four mapped corners |
| Tracker.ClipInsideBox | src/pieces.js:407-415 | the clip window drawn for a geometry lies inside the box `clearRect` computes once that geometry is the snapshot |
| Tracker.PieceBoxUnrotated | src/pieces.js:487-507 | without rotation the box is the piece grown by one unit and moved by the piece offset |
| Tracker.BoxesUpTo | src/pieces.js:485-513 | the running item rect is present exactly when at least one piece has been projected |
| Tracker.BoxesCovered | src/pieces.js:509 | the item rect covers the box of every piece, up to the clamp |
| Tracker.Committed | src/pieces.js:512 | each snapshot becomes the live geometry, and nothing else about the piece changes |
| Tracker.DiffedCommits | src/pieces.js:478-515 | a changed item is flagged and classified, its angle and all its snapshots are recorded, and its rect is `rectShown` if shown and otherwise covers every piece box |
| Tracker.DiffedIsSettled | src/pieces.js:484-512 | after the diff the item no longer differs from its snapshot |
| Tracker.DiffedTwice | src/pieces.js:478-518 | a second diff with no change in between only lowers the flag |
| Tracker.Discover | src/pieces.js:475-525 | the discovery pass keeps the number of items |
| Tracker.DiscoverShape | src/pieces.js:475-525 | after the first n items those items are diffed and the rest are untouched |
| Tracker.DiscoverUntouched | src/pieces.js:475-525 | an item the pass has not reached yet is still the original |
| Tracker.DiscoverQuietIsEmpty | src/pieces.js:472-522 | when `newRedraw` is still false, `clear` is still null |
| Tracker.DiscoverCovers | src/pieces.js:514-524 | if every changed item has a piece, `clear` is present exactly when `newRedraw` is set, and it covers every changed item's rect and every hidden ghost item's `rectShown` |
| Tracker.DiscoverSettled | src/pieces.js:478-524 | over items that have not changed, every flag is lowered, and `newRedraw` is set exactly when some item is a hidden ghost |
| Tracker.Pass | src/pieces.js:530-536 | a pass keeps the number of items |
| Tracker.PassUntouched | src/pieces.js:530-536 | a pass over the first n items leaves the others alone |
| Tracker.PassShrinks | src/pieces.js:528-536 | a pass that flags nothing changes neither the items nor `clear`; one that flags something shrinks the set of unflagged items, so the `while (newRedraw)` loop ends |
| Tracker.PassRaisesFlags | src/pieces.js:530-536 | a pass changes only flags and never lowers one |
| Tracker.Settle | src/pieces.js:528-537 | the propagation loop ends with `newRedraw` false and the same number of items |
| Tracker.QuietPassDisjoint | src/pieces.js:530-536 | a pass that flags nothing found every unflagged item disjoint from `clear` |
| Tracker.PassCovers | src/pieces.js:530-536 | a pass keeps `clear` present and keeps what it covered, and `clear` covers the rect of every item the pass flags |
| Tracker.SettleRaisesFlags | src/pieces.js:528-537 | propagation only raises flags: every other field of every item is kept |
| Tracker.SettleDisjoint | src/pieces.js:528-537 | on exit no unflagged item's rect intersects `clear` |
| Tracker.SettleCovers | src/pieces.js:528-537 | on exit `clear` still covers what it covered before, and it covers the rect of every item the loop flagged |
| Tracker.ClearFrameSound | src/pieces.js:470-537 | after `clearRect` each item is its diff with only the flag possibly raised, every changed item is flagged, and no unflagged item touches `clear` |
| Tracker.ClearFrameCovers | src/pieces.js:470-537 | if every changed item has a piece, `clear` covers the previous box of every piece of a changed item, every hidden ghost's `rectShown`, and the rect of every item flagged by propagation |
| Tracker.SecondFrameQuiet | src/pieces.js:478-537 | a second `clearRect` with nothing changed, and no hidden ghost item, clears nothing and unflags every item |
| Render.BackTurn | src/pieces.js:427 | the turn by minus the normalized angle |
| Render.Rendering | src/pieces.js:397-437 | unflagged: nothing drawn; shown with `saveShowState`: the bitmap at the item's rect; not hidden: one blit per piece; otherwise skipped |
| Render.DrawPieces | src/pieces.js:404-437 | with one Transform reset after each piece, the clip and bitmap matrices of each piece are the ones the specification gives |
| Render.PlacePiece | src/pieces.js:407-429 | the clip matrix is the piece's matrix, and the bitmap matrix is that one turned back about the item's centre |
| Render.PlaceClip | src/pieces.js:407-412 | the six transform calls build the piece's clip matrix from the identity |
| Render.PlaceImage | src/pieces.js:425-428 | the four transform calls step back to the item's frame and turn about its centre |
| Render.TurnAbout | src/pieces.js:408-410 | translate, rotate, translate back is a turn about that point |
| Render.ImageUpright | src/pieces.js:407-428 | when the turn back reverses the clip's turn, the bitmap is drawn unrotated and unscaled at the item's place, moved by the piece offset turned through the angle |
| Render.BackTurnReverses | src/pieces.js:402-427 | when `trig` is even in its cosine and odd in its sine, the turn back of an item without a rotate offset reverses the clip's turn |
| Render.RenderedUpright | src/pieces.js:402-428 | then every strip drawn for that item shows the bitmap unrotated and unscaled, at the item's place moved by the piece offset turned through the angle |
| Render.StripsInsideNextClear | src/pieces.js:407-507 | every drawn clip point lies in the box the next `clearRect` computes for that piece, if the angle has not changed |
| Render.RenderingCases | src/pieces.js:397-401 | an unflagged item is left alone; a flagged one takes the fast path exactly when shown with `saveShowState`; otherwise it is drawn, one blit per piece, exactly when not hidden |
| Queries.Selected | src/pieces.js:610-622 | no argument: every piece; a number: that item's pieces, or nothing where the source throws; an array: the pieces of each element in order; an item: its pieces |
| Queries.PickedItems | src/pieces.js:624-636 | no argument: the item list; a number: that item or `undefined`; an array: each element resolved in order; an item: that item |
| Queries.Hovering | src/pieces.js:561 | the mouse position is defined and lies in the closed rectangle of the item |
| Queries.Fired | src/pieces.js:562-570 | `itemEnter` on a rise of the hover state, `itemLeave` on a fall, each only if given, and nothing otherwise |
| Queries.ItemAt | src/pieces.js:615-629 | `this.items[i]` is defined exactly when i is in range |
| Queries.AllIndicesSelectEverything | src/pieces.js:612-617 | selecting the indices 0..n-1 in order gives the flat piece list of those items |
| Queries.PiecesOfPickedItems | src/pieces.js:616-631 | for an array, `getPieces` is the concatenated pieces of what `getItems` returns; it fails exactly when some element is `undefined` |
| Queries.SelectConcat | src/pieces.js:617 | the pieces of a concatenated array are the concatenated pieces |
| Queries.EventsAlternate | src/pieces.js:560-573 | over successive frames, enter and leave callbacks alternate; the first is an enter exactly when the item started without hover; the last says whether it ends hovered; with no event the hover state never changed |
| Engine.Pieces.constructor | src/pieces.js:194-195 | a canvas of the given size with no items and no mouse position |
| Engine.Pieces.InitPieces | src/pieces.js:290-389 | item k is a fresh item of its config at its placed x and y, and the mouse is untouched |
| Engine.Pieces.ProjectPieces | src/pieces.js:485-513 | returns the committed pieces and the item rect, and leaves the shared Transform at the identity |
| Engine.Pieces.ClearRect | src/pieces.js:470-549 | the new items and the returned `clear` are those of the specification `ClearFrame` |
| Engine.Pieces.DiscoverItems | src/pieces.js:475-525 | the items, `clear` and `newRedraw` after the first loop are those of `Discover`, taken with a dirty-rect function that gives `ItemRect` for every item |
| Engine.Pieces.DiscoverStep | src/pieces.js:476-524 | one iteration diffs item i, writes it back, and takes `clear` and `newRedraw` one step of `Discover` further, leaving the shared Transform at the identity |
| Engine.Pieces.Propagate | src/pieces.js:528-537 | the loop ends in the state `Settle` gives |
| Engine.Pieces.FlagTouching | src/pieces.js:529-536 | one loop body is one `Pass` |
| Engine.Pieces.Examine | src/pieces.js:476-524 | one item's diff and its effect on `clear` and `newRedraw` |
| Engine.Pieces.RenderPieces | src/pieces.js:392-440 | the outcome is `Rendering` of the item as it was, and only that item's flag is lowered |
| Engine.Pieces.CheckHover | src/pieces.js:560-573 | the hover is the closed-rectangle test; the callback fires only on a change of state and only if given; only that item's hover changes |
| Engine.Pieces.MouseMove | src/pieces.js:199-207 | the mouse position becomes the given point |
| Engine.Pieces.MouseOut | src/pieces.js:209-212 | the mouse position becomes undefined, so no item hovers |
| Engine.Pieces.GetPieces | src/pieces.js:610-622 | the result is `Selected`: every piece, one item's pieces, the concatenation for an array, or `None` where the source throws |
| Engine.Pieces.GetItems | src/pieces.js:624-636 | the result is `PickedItems`: the item list, one item or `undefined`, or the resolved array |
| Engine.ProjectPiece | src/pieces.js:487-507 | the box of one piece is `PieceBox` of its snapshot |
| Engine.CornerBoxOf | src/pieces.js:494-507 | the bounding box of the four padded corners through the current matrix |

## Left out

- Canvas and DOM drawing is not modelled: `ctx.save`/`restore`/`clip`/`drawImage`, the
  `ctx.clearRect` call at the end of `clearRect`, `renderGhost`, `renderDebug` and
  `roundRect`. `renderPieces` returns what it would draw, and `clearRect` returns the rect
  it would clear.
- The source-crop arithmetic of `drawImage` (`ratio`) is not modelled. Only the matrices are.
- The cached assembled bitmap drawn inside `initPieces` (`src/pieces.js:363-380`) is not
  modelled. The fast path only records where the bitmap would be blitted.
- `initImage`/`initText`/`initPath`, `initCanvas`, `createCanvas`, the constructor, `init`
  and the `extend` option merging are not modelled. They rasterise or copy JavaScript
  objects. Per-item options arrive as a resolved `ItemConfig`.
- `loop`/`stop` and the `anime` wrappers (`animatePieces`, `showPieces`, `hidePieces`,
  `animateItems`) are not modelled. They are scheduling and calls into an external tween
  engine. The per-frame operations they call are modelled one by one.
- Value-or-generator options are not modelled as calls. `piecesWidth` and `piecesSpacing`
  are one resolved value per item, though the source may call a generator once per piece.
  The per-piece values come from a function of the piece index.
- `Math.cos`/`Math.sin` and floating-point rounding are not modelled. Angles become a
  `UnitTurn` through the `trig` parameter, and all arithmetic is exact.
- `onmousemove` takes the pointer already in canvas coordinates. The scaling by the
  bounding client rect is DOM work.
- The side effects of the `itemEnter`/`itemLeave` callbacks are not modelled.
  `CheckHover` reports which callback fires.
- Aliasing is not modelled. Items and pieces are values, so the flat `this.pieces` list is
  computed from the items (`Model.AllPieces`), not kept as a second reference to the same
  objects. An animation that writes a piece through `this.pieces` is therefore a write to
  `items`.
- Engine.Pieces.InitPieces: requires at least one item for `y: 'center'`, where the source
  throws on `drawList[0]`. It also requires a strip loop that ends (`Layout.Terminates`),
  where the source loops forever.
- Render.StripsInsideNextClear: holds only if the item's angle does not change between the
  frames. `clearRect` writes the current angle into `last.angle` (`src/pieces.js:484`) before
  it projects the snapshot geometry, and the projection turns by the current angle
  (`src/pieces.js:476`, `src/pieces.js:489`). The angle the strips were drawn at is not used.
  So when the angle changes, strips drawn at the old angle are boxed at the new one, and the
  model states nothing about that case.
- Tracker.ClearFrameSound: states that no unflagged item touches `clear`. It does not state
  that the set of flagged items is minimal.
