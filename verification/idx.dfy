/** Indices into a JSON value (src/idx.rs:8-56). */
module Idx {
  import opened Text
  import opened Wrappers
  import opened JsonValue

  /** One step of a path: a position in an array (`usize`) or a key of an object. */
  datatype Idx = ArrayIdx(pos: nat) | ObjectIdx(key: string)

  /** `Idx::is_array` */
  function IsArray(idx: Idx): (r: bool)
    ensures r != IsObject(idx)
  {
    idx.ArrayIdx?
  }

  /** `Idx::is_object` */
  function IsObject(idx: Idx): (r: bool)
    ensures r <==> !idx.ArrayIdx?
  {
    idx.ObjectIdx?
  }

  /** `Idx::as_array` */
  function AsArray(idx: Idx): (r: Option<nat>)
    ensures r.Some? <==> IsArray(idx)
    ensures r.Some? ==> idx == ArrayIdx(r.value)
  {
    match idx
    case ArrayIdx(u) => Some(u)
    case _ => None
  }

  /** `Idx::as_object` */
  function AsObject(idx: Idx): (r: Option<string>)
    ensures r.Some? <==> IsObject(idx)
    ensures r.Some? ==> idx == ObjectIdx(r.value)
  {
    match idx
    case ObjectIdx(s) => Some(s)
    case _ => None
  }

  /** `From<Idx> for Value`: a position becomes an unsigned integer (`Value::from(usize)`), a
      key a string. */
  function ToValue(idx: Idx): (v: Json)
    ensures idx.ArrayIdx? <==> v.Number?
    ensures idx.ArrayIdx? ==> !ValueIsF64(v) && AsF64(v) == Some(idx.pos as real)
    ensures idx.ArrayIdx? && idx.pos <= I64Max ==> AsI64(v) == Some(idx.pos)
    ensures AsStr(v).Some? <==> idx.ObjectIdx?
    ensures AsStr(v).Some? ==> AsStr(v).value == idx.key
  {
    match idx
    case ArrayIdx(i) => Number(Int(i))
    case ObjectIdx(s) => String(s)
  }

  /** The two's-complement reinterpretation `i as i64` of a `usize`. */
  function WrapI64(i: nat): (r: int)
    ensures I64Min <= r <= I64Max
    ensures i <= I64Max ==> r == i
  {
    (i - I64Min) % 0x1_0000_0000_0000_0000 + I64Min
  }

  /** `Json::from_idx` (src/json.rs): like `ToValue`, but a position goes through
      `from_i64(i as i64)`. */
  function FromIdx(idx: Idx): (v: Json)
    ensures idx.ArrayIdx? ==> AsI64(v) == Some(WrapI64(idx.pos))
    ensures idx.ObjectIdx? ==> v == String(idx.key)
  {
    match idx
    case ArrayIdx(i) => Number(Int(WrapI64(i)))
    case ObjectIdx(s) => String(s)
  }

  /** The two conversions agree on every position an actual array can have. */
  lemma FromIdxIsToValue(idx: Idx)
    requires idx.ArrayIdx? ==> idx.pos <= I64Max
    ensures FromIdx(idx) == ToValue(idx)
  {
  }
}

/** Shortest-path index chains and resolving them against a value (src/idx.rs:80-211). */
module IdxPaths {
  import opened Wrappers
  import opened JsonValue
  import opened Idx
  import opened Errors

  /** `IdxPath`: the chain of indices from the root of a document to one of its nodes. */
  type IdxPath = seq<Idx>

  /** `IdxPath::remove(n)`: drops the last `n` indices; panics when the path is shorter. */
  function Remove(p: IdxPath, n: nat): (r: Outcome<IdxPath>)
    ensures r.Return? <==> n <= |p|
    ensures r.Return? ==> |r.value| == |p| - n && r.value + p[|p| - n..] == p
  {
    if n <= |p| then Return(p[..|p| - n])
    else Panic("Cannot remove items from path, path is too short")
  }

  /** Removing the indices that were appended gives the original path back. */
  lemma RemoveAppended(p: IdxPath, q: IdxPath)
    ensures Remove(p + q, |q|) == Return(p)
  {
    assert (p + q)[..|p + q| - |q|] == p;
  }

  /** One iteration of `resolve_on`'s loop. */
  function Step(v: Json, idx: Idx): (r: Result<Json, ResolveError>)
    ensures idx.ArrayIdx? && !v.Array? ==> r == Err(MismatchedTy(JsonTy.Array, TyOf(v)))
    ensures idx.ObjectIdx? && !v.Object? ==> r == Err(MismatchedTy(JsonTy.Object, TyOf(v)))
    ensures idx.ArrayIdx? && v.Array? ==>
      r == (if idx.pos < |v.items| then Ok(v.items[idx.pos]) else Err(MissingIdx(idx)))
    ensures idx.ObjectIdx? && v.Object? ==>
      r == (if idx.key in Keys(v.entries) then Ok(ObjectGet(v.entries, idx.key).value)
            else Err(MissingIdx(idx)))
    ensures r.Ok? ==> r.value in Children(v)
  {
    match idx
    case ArrayIdx(i) =>
      (match JsonValue.AsArray(v)
       case None => Err(Mismatched(JsonTy.Array, v))
       case Some(items) =>
         (match VecGet(items, i)
          case None => Err(MissingIdx(idx))
          case Some(w) => Ok(w)))
    case ObjectIdx(k) =>
      match JsonValue.AsObject(v)
      case None => Err(Mismatched(JsonTy.Object, v))
      case Some(entries) =>
        (match ObjectGet(entries, k)
         case None => Err(MissingIdx(idx))
         case Some(w) => Ok(w))
  }

  /** `Index<&Idx> for Value` (and `IndexMut`): the child at the index, panicking when the
      index does not fit the value or the child is absent. */
  function IndexBy(v: Json, idx: Idx): (r: Outcome<Json>)
    ensures r.Return? <==> Step(v, idx).Ok?
    ensures r.Return? ==> r.value == Step(v, idx).value
  {
    match (v, idx)
    case (Array(a), ArrayIdx(i)) =>
      if i < |a| then Return(a[i]) else Panic("index out of bounds")
    case (Object(o), ObjectIdx(k)) =>
      (match ObjectGet(o, k)
       case Some(w) => Return(w)
       case None => Panic("key not found"))
    case (_, _) => Panic("Invalid index for value")
  }

  /** `IdxPath::resolve_on`: follows the path from `v`, stopping at the first step that does
      not apply. */
  function ResolveOn(p: IdxPath, v: Json): (r: Result<Json, ResolveError>)
    ensures p == [] ==> r == Ok(v)
    ensures |p| == 1 ==> r == Step(v, p[0])
    ensures r.Err? ==> p != []
  {
    if p == [] then Ok(v)
    else match Step(v, p[0])
      case Err(e) => Err(e)
      case Ok(w) => ResolveOn(p[1..], w)
  }

  /** Resolving a concatenation is resolving the first part, then the second from there. */
  lemma {:induction false} ResolveConcat(p: IdxPath, q: IdxPath, v: Json)
    ensures ResolveOn(p + q, v) ==
      match ResolveOn(p, v)
      case Err(e) => Err(e)
      case Ok(w) => ResolveOn(q, w)
  {
    if p != [] {
      assert (p + q)[1..] == p[1..] + q;
      assert (p + q)[0] == p[0];
      match Step(v, p[0])
      case Err(e) =>
        assert ResolveOn(p + q, v) == Err(e);
      case Ok(w) =>
        ResolveConcat(p[1..], q, w);
        assert ResolveOn(p + q, v) == ResolveOn(p[1..] + q, w);
        assert ResolveOn(p, v) == ResolveOn(p[1..], w);
    } else {
      assert p + q == q;
    }
  }

  /** The empty path resolves to the value itself; one more index is one more step. */
  lemma ResolveSnoc(p: IdxPath, i: Idx, v: Json)
    ensures ResolveOn([], v) == Ok(v)
    ensures ResolveOn(p + [i], v) ==
      match ResolveOn(p, v)
      case Err(e) => Err(e)
      case Ok(w) => Step(w, i)
  {
    ResolveConcat(p, [i], v);
    match ResolveOn(p, v)
    case Err(e) =>
    case Ok(w) =>
      assert [i][1..] == [];
  }

  /** A failing resolution fails at its first inapplicable step, with that step's error. */
  lemma ResolveFailsAtFirstBadStep(p: IdxPath, v: Json)
    requires ResolveOn(p, v).Err?
    ensures exists k :: (0 <= k < |p| && ResolveOn(p[..k], v).Ok?
      && Step(ResolveOn(p[..k], v).value, p[k]) == Err(ResolveOn(p, v).error))
  {
    var k := FirstBadStep(p, v);
  }

  /** The position of the step at which a failing resolution fails. */
  lemma {:induction false} FirstBadStep(p: IdxPath, v: Json) returns (k: nat)
    requires ResolveOn(p, v).Err?
    ensures k < |p| && ResolveOn(p[..k], v).Ok?
    ensures Step(ResolveOn(p[..k], v).value, p[k]) == Err(ResolveOn(p, v).error)
  {
    match Step(v, p[0])
    case Err(e) =>
      k := 0;
      assert p[..0] == [];
    case Ok(w) =>
      var j := FirstBadStep(p[1..], w);
      k := j + 1;
      var pre := p[..k];
      assert pre[0] == p[0] && pre[1..] == p[1..][..j];
      assert ResolveOn(pre, v) == ResolveOn(p[1..][..j], w);
      assert ResolveOn(p, v) == ResolveOn(p[1..], w);
      assert p[k] == p[1..][j];
  }

  /** One iteration of `resolve_on_mut`'s loop. Unlike `Step`, an object index on a value that
      is not an object reports that an ARRAY was expected (src/idx.rs:164-171). */
  function StepMut(v: Json, idx: Idx): (r: Result<Json, ResolveError>)
    ensures idx.ObjectIdx? && !v.Object? ==> r == Err(MismatchedTy(JsonTy.Array, TyOf(v)))
  {
    match idx
    case ArrayIdx(i) =>
      (match JsonValue.AsArray(v)
       case None => Err(MismatchedTy(JsonTy.Array, TyOf(v)))
       case Some(items) =>
         (match VecGet(items, i)
          case None => Err(MissingIdx(idx))
          case Some(w) => Ok(w)))
    case ObjectIdx(k) =>
      match JsonValue.AsObject(v)
      case None => Err(MismatchedTy(JsonTy.Array, TyOf(v)))
      case Some(entries) =>
        (match ObjectGet(entries, k)
         case None => Err(MissingIdx(idx))
         case Some(w) => Ok(w))
  }

  /** `IdxPath::resolve_on_mut`; the location it reaches is given by its value. */
  function ResolveOnMut(p: IdxPath, v: Json): (r: Result<Json, ResolveError>)
    ensures p == [] ==> r == Ok(v)
    ensures r.Err? ==> p != []
    ensures r.Err? && r.error.MismatchedTy? ==> r.error.expected == JsonTy.Array
  {
    if p == [] then Ok(v)
    else match StepMut(v, p[0])
      case Err(e) => Err(e)
      case Ok(w) => ResolveOnMut(p[1..], w)
  }

  /** The error `resolve_on_mut` reports where `resolve_on` reports `e`. */
  function MutError(e: ResolveError): ResolveError {
    match e
    case MismatchedTy(_, actual) => MismatchedTy(JsonTy.Array, actual)
    case MissingIdx(_) => e
  }

  /** `resolve_on_mut` succeeds on exactly the paths `resolve_on` succeeds on and reaches the
      same value; its errors differ only in the expected type of a mismatch. */
  lemma {:induction false} ResolveOnMutAgrees(p: IdxPath, v: Json)
    ensures ResolveOnMut(p, v).Ok? <==> ResolveOn(p, v).Ok?
    ensures ResolveOn(p, v).Ok? ==> ResolveOnMut(p, v) == ResolveOn(p, v)
    ensures ResolveOn(p, v).Err? ==> ResolveOnMut(p, v) == Err(MutError(ResolveOn(p, v).error))
  {
    if p != [] {
      match Step(v, p[0])
      case Err(e) =>
      case Ok(w) =>
        assert StepMut(v, p[0]) == Ok(w);
        ResolveOnMutAgrees(p[1..], w);
    }
  }

  /** `IdxPath::sort_specific_last`: longer paths first; among paths of one length, the one
      whose last index is the higher array position first; everything else is a tie. */
  function SortSpecificLast(left: IdxPath, right: IdxPath): (r: Ordering)
    ensures |left| > |right| ==> r == Less
    ensures |left| < |right| ==> r == Greater
    ensures |left| == |right| && left != [] && left[|left| - 1].ArrayIdx? && right[|right| - 1].ArrayIdx?
      ==> r == Cmp(right[|right| - 1].pos, left[|left| - 1].pos)
    ensures |left| == |right| && !(left != [] && left[|left| - 1].ArrayIdx? && right[|right| - 1].ArrayIdx?)
      ==> r == Equal
  {
    if left == [] && right == [] then Equal
    else match Cmp(|right|, |left|)
      case Equal =>
        var l := left[|left| - 1];
        var r := right[|right| - 1];
        if l.ArrayIdx? && r.ArrayIdx? then Cmp(r.pos, l.pos) else Equal
      case other => other
  }

  /** Swapping the arguments reverses the comparison. */
  lemma SortSpecificLastAntisymmetric(left: IdxPath, right: IdxPath)
    ensures SortSpecificLast(right, left) == SortSpecificLast(left, right).Reverse()
  {
  }

  /** The comparator is not a total preorder: its ties are not transitive, so it cannot order
      a mixed batch of array and object paths consistently. */
  lemma SortSpecificLastTiesNotTransitive()
    ensures var a1, o, a2 := [ArrayIdx(1)], [ObjectIdx("k")], [ArrayIdx(2)];
      SortSpecificLast(a1, o) == Equal && SortSpecificLast(o, a2) == Equal
      && SortSpecificLast(a2, a1) == Less
  {
  }
}
