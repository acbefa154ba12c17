// The small object utilities of src/pieces.js (`areObjectsEquals`, `copyValues`,
// `setValuesByIndex`, `toArray`). JavaScript objects are modelled two ways: a piece's
// geometry record with its six named keys, and option objects as maps from key names.

module Objects {
  import opened Options

  /** The keys of a piece's live geometry, `['x', 'y', 'w', 'h', 'tx', 'ty']`. */
  datatype Key = X | Y | W | H | TX | TY

  const GeomKeys: seq<Key> := [X, Y, W, H, TX, TY]

  /** A piece's geometry: position, size and drawing offset. */
  datatype Geom = Geom(x: real, y: real, w: real, h: real, tx: real, ty: real)

  /** `obj[key]` */
  function Get(g: Geom, k: Key): real
  {
    match k
    case X => g.x
    case Y => g.y
    case W => g.w
    case H => g.h
    case TX => g.tx
    case TY => g.ty
  }

  /** `obj[key] = v` */
  function Set(g: Geom, k: Key, v: real): (r: Geom)
    ensures Get(r, k) == v
    ensures forall k' :: k' != k ==> Get(r, k') == Get(g, k')
  {
    match k
    case X => g.(x := v)
    case Y => g.(y := v)
    case W => g.(w := v)
    case H => g.(h := v)
    case TX => g.(tx := v)
    case TY => g.(ty := v)
  }

  /** Two records that agree on every key are the same record. */
  lemma SameOnEveryKey(g1: Geom, g2: Geom)
    requires forall k :: Get(g1, k) == Get(g2, k)
    ensures g1 == g2
  {
    assert Get(g1, X) == Get(g2, X) && Get(g1, Y) == Get(g2, Y) && Get(g1, W) == Get(g2, W);
    assert Get(g1, H) == Get(g2, H) && Get(g1, TX) == Get(g2, TX) && Get(g1, TY) == Get(g2, TY);
  }

  /** `areObjectsEquals(obj1, obj2, keys)`: no key of `keys` on which the two differ. */
  function AreObjectsEquals(g1: Geom, g2: Geom, keys: seq<Key>): (r: bool)
    ensures r <==> forall i :: 0 <= i < |keys| ==> Get(g1, keys[i]) == Get(g2, keys[i])
  {
    if |keys| == 0 then true
    else Get(g1, keys[0]) == Get(g2, keys[0]) && AreObjectsEquals(g1, g2, keys[1..])
  }

  /** Compared on all six keys, `areObjectsEquals` is equality of the records. */
  lemma EqualsOnGeomKeys(g1: Geom, g2: Geom)
    ensures AreObjectsEquals(g1, g2, GeomKeys) <==> g1 == g2
  {
    if AreObjectsEquals(g1, g2, GeomKeys) {
      forall k ensures Get(g1, k) == Get(g2, k) {
        var i := match k case X => 0 case Y => 1 case W => 2 case H => 3 case TX => 4 case TY => 5;
        assert GeomKeys[i] == k;
      }
      SameOnEveryKey(g1, g2);
    }
  }

  /** `copyValues(to, from, keys)`: `to` takes `from`'s value on each key of `keys`. */
  method CopyValues(to: Geom, from: Geom, keys: seq<Key>) returns (r: Geom)
    ensures forall k :: Get(r, k) == if k in keys then Get(from, k) else Get(to, k)
  {
    r := to;
    var i := 0;
    while i < |keys|
      invariant 0 <= i <= |keys|
      invariant forall k :: Get(r, k) == if k in keys[..i] then Get(from, k) else Get(to, k)
    {
      r := Set(r, keys[i], Get(from, keys[i]));
      assert keys[..i + 1] == keys[..i] + [keys[i]];
      i := i + 1;
    }
    assert keys[..i] == keys;
  }

  /** Copying all six keys makes `to` equal to `from`. */
  lemma CopiedAllKeys(r: Geom, to: Geom, from: Geom)
    requires forall k :: Get(r, k) == if k in GeomKeys then Get(from, k) else Get(to, k)
    ensures r == from
  {
    forall k ensures Get(r, k) == Get(from, k) {
      assert k in GeomKeys by {
        match k
        case X => assert GeomKeys[0] == k;
        case Y => assert GeomKeys[1] == k;
        case W => assert GeomKeys[2] == k;
        case H => assert GeomKeys[3] == k;
        case TX => assert GeomKeys[4] == k;
        case TY => assert GeomKeys[5] == k;
      }
    }
    SameOnEveryKey(r, from);
  }

  /** A JavaScript option value: a single value or an array of per-item values. A missing
      key is `undefined`; an array element may itself be `undefined` (`None`). */
  datatype Slot<V> = Single(value: V) | List(elems: seq<Option<V>>)

  /** The array `toArray` leaves under `key`: `[]` for undefined, `[v]` for a single value. */
  function AsList<V>(obj: map<string, Slot<V>>, key: string): seq<Option<V>>
  {
    if key !in obj then []
    else match obj[key]
      case Single(v) => [Some(v)]
      case List(vs) => vs
  }

  /** `toArray(obj, keys)`: every key of `keys` holds an array afterwards; other keys are
      untouched. A second `toArray` over the same keys finds those arrays and keeps them. */
  method ToArray<V>(obj: map<string, Slot<V>>, keys: seq<string>) returns (r: map<string, Slot<V>>)
    ensures forall key :: key in keys ==> key in r && r[key] == List(AsList(obj, key))
    ensures forall key :: key !in keys ==> (key in r <==> key in obj)
    ensures forall key :: key !in keys && key in obj ==> r[key] == obj[key]
    ensures forall key :: key in keys ==> AsList(r, key) == AsList(obj, key)
  {
    r := obj;
    var i := 0;
    while i < |keys|
      invariant 0 <= i <= |keys|
      invariant forall key :: key in keys[..i] ==> key in r && r[key] == List(AsList(obj, key))
      invariant forall key :: key !in keys[..i] ==> (key in r <==> key in obj)
      invariant forall key :: key !in keys[..i] && key in obj ==> r[key] == obj[key]
    {
      var key := keys[i];
      if key !in r || !r[key].List? {
        r := r[key := List(if key in r then [Some(r[key].value)] else [])];
      }
      assert keys[..i + 1] == keys[..i] + [key];
      i := i + 1;
    }
    assert keys[..i] == keys;
  }

  /** `obj[key][index]` is defined: the array has an element there that is not `undefined`. */
  predicate Defined<V>(elems: seq<Option<V>>, index: nat)
  {
    index < |elems| && elems[index].Some?
  }

  /** `setValuesByIndex(obj, index, keys, values)`: for each key whose array has a defined
      element at `index`, `values` takes that element; every other entry of `values` is kept,
      so an option given for fewer items, or left `undefined` for this one, keeps the last
      value it was given. The source reads `obj[key][index]` and so needs every key to hold
      an array, as `toArray` leaves it. */
  method SetValuesByIndex<V>(obj: map<string, Slot<V>>, index: nat, keys: seq<string>, values: map<string, V>)
    returns (r: map<string, V>)
    requires forall key :: key in keys ==> key in obj && obj[key].List?
    ensures forall key :: key in r <==> key in values || (key in keys && Defined(obj[key].elems, index))
    ensures forall key :: key in r ==>
      r[key] == if key in keys && Defined(obj[key].elems, index) then obj[key].elems[index].value else values[key]
  {
    r := values;
    var i := 0;
    while i < |keys|
      invariant 0 <= i <= |keys|
      invariant forall key :: key in r <==> key in values || (key in keys[..i] && Defined(obj[key].elems, index))
      invariant forall key :: key in r ==>
        r[key] == if key in keys[..i] && Defined(obj[key].elems, index) then obj[key].elems[index].value else values[key]
    {
      var key := keys[i];
      var elems := obj[key].elems;
      if index < |elems| && elems[index].Some? {
        r := r[key := elems[index].value];
      }
      assert keys[..i + 1] == keys[..i] + [key];
      i := i + 1;
    }
    assert keys[..i] == keys;
  }
}
