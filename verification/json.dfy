/** The JSON value the engine works on (`serde_json::Value` behind the `Json` trait of
    src/json.rs) and the trait's derived accessors and iterators. */
module JsonValue {
  import opened Wrappers
  import opened Text

  /** A JSON number. serde_json keeps integers that fit `u64`/`i64` exactly and everything else
      (including every arithmetic result of a filter expression) as a float. Floats are modelled
      as exact reals: rounding is not modelled. */
  datatype Num = Int(i: int) | Float(r: real)

  /** A JSON value. Object entries are kept in iteration order; a document never repeats a
      key inside one object (`UniqueKeysDeep`). */
  datatype Json =
    | Null
    | Bool(b: bool)
    | Number(n: Num)
    | String(s: string)
    | Array(items: seq<Json>)
    | Object(entries: seq<(string, Json)>)

  /** The keys of an object, in iteration order. */
  function Keys(entries: seq<(string, Json)>): (ks: seq<string>)
    ensures |ks| == |entries|
    ensures forall i :: 0 <= i < |ks| ==> ks[i] == entries[i].0
  {
    if entries == [] then [] else [entries[0].0] + Keys(entries[1..])
  }

  predicate UniqueKeys(entries: seq<(string, Json)>) {
    forall i, j :: 0 <= i < j < |entries| ==> entries[i].0 != entries[j].0
  }

  /** No object anywhere in `v` repeats a key, as for every `serde_json::Map`. */
  predicate UniqueKeysDeep(v: Json) {
    match v
    case Array(items) => forall i :: 0 <= i < |items| ==> UniqueKeysDeep(items[i])
    case Object(entries) =>
      UniqueKeys(entries) && forall i :: 0 <= i < |entries| ==> UniqueKeysDeep(entries[i].1)
    case _ => true
  }

  // JsonArray for Vec (src/json.rs:54-74)

  /** `<[T]>::get`: the element at `i`, or `None` past the end. */
  function VecGet<V>(a: seq<V>, i: nat): (r: Option<V>)
    ensures r.Some? <==> i < |a|
    ensures r.Some? ==> r.value == a[i]
  {
    if i < |a| then Some(a[i]) else None
  }

  /** `Vec::remove`: removes the element at `i`, shifting the later ones down; panics when `i`
      is not a position of the vector. */
  function VecRemove<V>(a: seq<V>, i: nat): (r: Outcome<seq<V>>)
    ensures r.Return? <==> i < |a|
    ensures r.Return? ==> |r.value| == |a| - 1
    ensures r.Return? ==> forall j :: 0 <= j < |r.value| ==>
      r.value[j] == (if j < i then a[j] else a[j + 1])
  {
    if i < |a| then Return(a[..i] + a[i + 1..]) else Panic("removal index should be < len")
  }

  // ArrayIter (src/json.rs:34-44)

  /** What `ArrayIter` yields when started at position `i` over an array whose `get` is
      `get`: `get(i)`, `get(i + 1)`, ... up to the first `None`. `bound` is a position at
      which `get` is known to be `None`, so the iteration ends. */
  function ArrayIterFrom<V>(get: nat -> Option<V>, i: nat, bound: nat): (r: seq<V>)
    requires i <= bound && get(bound).None?
    ensures forall k :: 0 <= k < |r| ==> get(i + k) == Some(r[k])
    ensures get(i + |r|).None?
    decreases bound - i
  {
    if get(i).None? then []
    else [get(i).value] + ArrayIterFrom(get, i + 1, bound)
  }

  /** The `get` of a `Vec`, as a function value. */
  function VecGetter<V>(a: seq<V>): nat -> Option<V> {
    (i: nat) => VecGet(a, i)
  }

  /** `JsonArray::iter` for `Vec`, resumed at position `i`: exactly the remaining elements, in
      index order. */
  lemma {:induction false} VecIterYieldsElements<V>(a: seq<V>, i: nat)
    requires i <= |a|
    ensures ArrayIterFrom(VecGetter(a), i, |a|) == a[i..]
    decreases |a| - i
  {
    if i < |a| {
      VecIterYieldsElements(a, i + 1);
      assert a[i..] == [a[i]] + a[i + 1..];
    }
  }

  // ObjectIter / ObjectValues (src/json.rs:76-96)

  /** What `ObjectIter` yields over the key snapshot `keys` of an object whose `get` is
      `get`: one `(key, value)` per snapshot key, in snapshot order, stopping at the first key
      that is no longer present. */
  function ObjectIter<V>(get: string -> Option<V>, keys: seq<string>): (r: seq<(string, V)>)
    ensures |r| <= |keys|
    ensures forall k :: 0 <= k < |r| ==> r[k].0 == keys[k] && get(keys[k]) == Some(r[k].1)
    ensures |r| < |keys| ==> get(keys[|r|]).None?
  {
    if keys == [] then []
    else match get(keys[0])
      case None => []
      case Some(v) => [(keys[0], v)] + ObjectIter(get, keys[1..])
  }

  /** What `ObjectValues` yields: the same walk as `ObjectIter`, values only. */
  function ObjectValues<V>(get: string -> Option<V>, keys: seq<string>): (r: seq<V>)
    ensures |r| <= |keys|
    ensures forall k :: 0 <= k < |r| ==> get(keys[k]) == Some(r[k])
    ensures |r| < |keys| ==> get(keys[|r|]).None?
  {
    if keys == [] then []
    else match get(keys[0])
      case None => []
      case Some(v) => [v] + ObjectValues(get, keys[1..])
  }

  /** `ObjectValues` is `ObjectIter` with the keys dropped. */
  lemma {:induction false} ObjectValuesAreIterValues<V>(get: string -> Option<V>, keys: seq<string>)
    ensures var it := ObjectIter(get, keys);
      var vs := ObjectValues(get, keys);
      |vs| == |it| && forall k :: 0 <= k < |vs| ==> vs[k] == it[k].1
  {
    if keys != [] && get(keys[0]).Some? {
      ObjectValuesAreIterValues(get, keys[1..]);
    }
  }

  // JsonObject for a map (src/json.rs:106-126)

  /** `JsonObject::get`: the value stored under `key`. */
  function ObjectGet(entries: seq<(string, Json)>, key: string): (r: Option<Json>)
    ensures r.Some? <==> key in Keys(entries)
    ensures r.Some? ==> exists i :: 0 <= i < |entries| && entries[i] == (key, r.value)
  {
    if entries == [] then None
    else if entries[0].0 == key then Some(entries[0].1)
    else ObjectGet(entries[1..], key)
  }

  /** The `get` of a map, as a function value. */
  function ObjectGetter(entries: seq<(string, Json)>): string -> Option<Json> {
    k => ObjectGet(entries, k)
  }

  /** `JsonObject::remove`: drops `key`; a missing key is not an error. */
  function ObjectRemove(entries: seq<(string, Json)>, key: string): (r: seq<(string, Json)>)
    ensures |r| <= |entries|
  {
    if entries == [] then []
    else if entries[0].0 == key then ObjectRemove(entries[1..], key)
    else [entries[0]] + ObjectRemove(entries[1..], key)
  }

  /** Removing `key` leaves no entry under it and every other key's lookup unchanged. */
  lemma {:induction false} ObjectRemoveSpec(entries: seq<(string, Json)>, key: string)
    ensures key !in Keys(ObjectRemove(entries, key))
    ensures forall k :: k != key ==> ObjectGet(ObjectRemove(entries, key), k) == ObjectGet(entries, k)
  {
    if entries != [] {
      ObjectRemoveSpec(entries[1..], key);
    }
  }

  /** `m[key] = value` on a key already present (`IndexMut` on the map). */
  function ObjectSet(entries: seq<(string, Json)>, key: string, value: Json): (r: seq<(string, Json)>)
    ensures |r| == |entries|
  {
    if entries == [] then []
    else
      var head := if entries[0].0 == key then (key, value) else entries[0];
      [head] + ObjectSet(entries[1..], key, value)
  }

  /** Setting a present key keeps the key list, stores the value under the key, and leaves
      every other key's lookup unchanged. */
  lemma {:induction false} ObjectSetSpec(entries: seq<(string, Json)>, key: string, value: Json)
    ensures Keys(ObjectSet(entries, key, value)) == Keys(entries)
    ensures key in Keys(entries) ==> ObjectGet(ObjectSet(entries, key, value), key) == Some(value)
    ensures forall k :: k != key ==> ObjectGet(ObjectSet(entries, key, value), k) == ObjectGet(entries, k)
  {
    if entries != [] {
      ObjectSetSpec(entries[1..], key, value);
    }
  }

  /** For a map without repeated keys, iterating over its key snapshot yields every entry. */
  lemma {:induction false} ObjectIterYieldsEntries(entries: seq<(string, Json)>)
    requires UniqueKeys(entries)
    ensures ObjectIter(ObjectGetter(entries), Keys(entries)) == entries
  {
    var get := ObjectGetter(entries);
    var r := ObjectIter(get, Keys(entries));
    forall k | 0 <= k < |r|
      ensures r[k] == entries[k]
    {
      assert ObjectGet(entries, entries[k].0) == Some(r[k].1);
      FirstLookup(entries, k);
    }
  }

  /** With unique keys, looking up the key of entry `k` yields entry `k`'s value. */
  lemma {:induction false} FirstLookup(entries: seq<(string, Json)>, k: nat)
    requires UniqueKeys(entries) && k < |entries|
    ensures ObjectGet(entries, entries[k].0) == Some(entries[k].1)
  {
    if k > 0 {
      assert entries[0].0 != entries[k].0;
      assert entries[1..][k - 1] == entries[k];
      FirstLookup(entries[1..], k - 1);
    }
  }

  // The derived methods of the Json trait (src/json.rs:139-207)

  /** `Json::is_bool` */
  function IsBool(v: Json): (r: bool)
    ensures r <==> AsBool(v).Some?
  {
    v.Bool?
  }

  /** `Json::is_string` */
  function IsString(v: Json): (r: bool)
    ensures r <==> AsStr(v).Some?
  {
    v.String?
  }

  /** `Json::is_f64`: holds for every number, because serde_json converts any number to an
      `f64`. */
  function IsF64(v: Json): (r: bool)
    ensures r <==> v.Number?
  {
    AsF64(v).Some?
  }

  /** `serde_json::Value::is_f64`, the inherent method that a call on a `Value` resolves to
      (it takes precedence over the `Json` trait's default above): it holds only for a number
      stored as a float, so an integer never counts, even where `as_f64` gives it a value. */
  function ValueIsF64(v: Json): (r: bool)
    ensures r <==> v.Number? && v.n.Float?
    ensures r ==> IsF64(v) && AsF64(v) == Some(v.n.r)
    ensures AsI64(v).Some? ==> !r
  {
    v.Number? && v.n.Float?
  }

  /** `Json::as_bool` */
  function AsBool(v: Json): (r: Option<bool>)
    ensures r.Some? <==> v.Bool?
    ensures r.Some? ==> v == Bool(r.value)
  {
    if v.Bool? then Some(v.b) else None
  }

  /** `Json::as_i64`: integers in the `i64` range only; floats and large unsigned integers
      give `None`. */
  function AsI64(v: Json): (r: Option<int>)
    ensures r.Some? <==> v.Number? && v.n.Int? && I64Min <= v.n.i <= I64Max
    ensures r.Some? ==> v == Number(Int(r.value))
  {
    if v.Number? && v.n.Int? && I64Min <= v.n.i <= I64Max then Some(v.n.i) else None
  }

  /** `Json::as_f64` */
  function AsF64(v: Json): (r: Option<real>)
    ensures r.Some? <==> v.Number?
    ensures r.Some? && v.n.Int? ==> r.value == v.n.i as real
    ensures r.Some? && v.n.Float? ==> r.value == v.n.r
  {
    match v
    case Number(Int(i)) => Some(i as real)
    case Number(Float(f)) => Some(f)
    case _ => None
  }

  /** `Json::as_str` */
  function AsStr(v: Json): (r: Option<string>)
    ensures r.Some? <==> v.String?
    ensures r.Some? ==> v == String(r.value)
  {
    if v.String? then Some(v.s) else None
  }

  /** `Json::as_array_mut` (and serde's `as_array`) */
  function AsArray(v: Json): (r: Option<seq<Json>>)
    ensures r.Some? <==> v.Array?
    ensures r.Some? ==> v == Array(r.value)
  {
    if v.Array? then Some(v.items) else None
  }

  /** `Json::as_object_mut` (and serde's `as_object`) */
  function AsObject(v: Json): (r: Option<seq<(string, Json)>>)
    ensures r.Some? <==> v.Object?
    ensures r.Some? ==> v == Object(r.value)
  {
    if v.Object? then Some(v.entries) else None
  }

  /** The direct children of a value, in iteration order: array elements, or object values. */
  function Children(v: Json): (r: seq<Json>)
    ensures v.Array? ==> r == v.items
    ensures v.Object? ==> |r| == |v.entries| && forall i :: 0 <= i < |r| ==> r[i] == v.entries[i].1
    ensures !v.Array? && !v.Object? ==> r == []
  {
    match v
    case Array(items) => items
    case Object(entries) => seq(|entries|, i requires 0 <= i < |entries| => entries[i].1)
    case _ => []
  }

  // Structural equality (`PartialEq for Value`)

  /** `==` on values: numbers compare by representation (an integer never equals a float),
      objects compare as maps, ignoring iteration order. */
  function JsonEqual(x: Json, y: Json): bool
    decreases x
  {
    match (x, y)
    case (Array(xs), Array(ys)) =>
      |xs| == |ys| && forall i :: 0 <= i < |xs| ==> JsonEqual(xs[i], ys[i])
    case (Object(xe), Object(ye)) =>
      |xe| == |ye|
      && (forall k :: k in Keys(ye) ==> k in Keys(xe))
      && forall i :: 0 <= i < |xe| ==>
           var other := ObjectGet(ye, xe[i].0);
           other.Some? && JsonEqual(xe[i].1, other.value)
    case (Array(_), _) => false
    case (Object(_), _) => false
    case (_, Array(_)) => false
    case (_, Object(_)) => false
    case _ => x == y
  }

  /** Every document value equals itself. */
  lemma {:induction false} JsonEqualReflexive(v: Json)
    requires UniqueKeysDeep(v)
    ensures JsonEqual(v, v)
  {
    match v
    case Array(items) =>
      forall i | 0 <= i < |items| ensures JsonEqual(items[i], items[i]) {
        JsonEqualReflexive(items[i]);
      }
    case Object(entries) =>
      forall i | 0 <= i < |entries|
        ensures ObjectGet(entries, entries[i].0) == Some(entries[i].1)
        ensures JsonEqual(entries[i].1, entries[i].1)
      {
        FirstLookup(entries, i);
        JsonEqualReflexive(entries[i].1);
      }
    case _ =>
  }
}
