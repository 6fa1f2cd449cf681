/** The per-node work of each selector of src/ast/eval.rs — the closures handed to
    `apply_matched` — and the value-level operators of filter expressions. Arithmetic that
    overflows in the source (`i64::abs`, `usize` subtraction, `-i64::MIN`) panics, as in a
    debug build. */
module Selectors {
  import opened Wrappers
  import opened Text
  import opened JsonValue
  import opened Arena
  import opened EvalContext
  import Ast
  import Tokens
  import Spans

  const TodoMsg := "not yet implemented"
  const SubOverflow := "attempt to subtract with overflow"
  const NegOverflow := "attempt to negate with overflow"
  const UnwrapNone := "called `Option::unwrap()` on a `None` value"
  const SliceOutOfRange := "slice index out of range"

  /** The values a list of nodes stands for. */
  function Values(doc: Doc, ids: seq<NodeId>): (vs: seq<Json>)
    ensures |vs| == |ids| && forall i :: 0 <= i < |ids| ==> vs[i] == ToJson(doc, ids[i])
  {
    seq(|ids|, i requires 0 <= i < |ids| => ToJson(doc, ids[i]))
  }

  // step_handle and idx_handle (src/ast/eval.rs:57-71)

  /** `i64::abs`, which overflows on `i64::MIN`. */
  function Abs64(v: int): (r: Outcome<nat>)
    requires I64Min <= v <= I64Max
    ensures r.Return? <==> v != I64Min
    ensures r.Return? ==> r.value as int == (if v < 0 then -v else v)
  {
    if v == I64Min then Panic(NegOverflow) else if v < 0 then Return(-v) else Return(v)
  }

  /** `step_handle`: whether to walk backwards, and the stride. */
  function StepHandle(v: int): (r: Outcome<(bool, nat)>)
    requires I64Min <= v <= I64Max
    ensures r.Return? <==> v != I64Min
    ensures r.Return? ==> r.value.0 == (v < 0) && r.value.1 as int == (if v < 0 then -v else v)
  {
    if v < 0 then
      match Abs64(v)
      case Panic(msg) => Panic(msg)
      case Return(a) => Return((true, a))
    else Return((false, v))
  }

  /** `idx_handle`: a position counted from the front, or for a negative value from the end;
      counting back past the front underflows. */
  function IdxHandle(v: int, len: nat): (r: Outcome<nat>)
    requires I64Min <= v <= I64Max
    ensures v >= 0 ==> r == Return(v)
    ensures v < 0 ==> (r.Return? <==> v != I64Min && -v <= len)
    ensures r.Return? && v < 0 ==> r.value + -v == len
  {
    if v < 0 then
      match Abs64(v)
      case Panic(msg) => Panic(msg)
      case Return(a) => if a <= len then Return(len - a) else Panic(SubOverflow)
    else Return(v)
  }

  /** A negative index names the same element as the position that many places from the end. */
  lemma IdxHandleFromEnd(v: int, len: nat)
    requires I64Min < v < 0 && -v <= len <= I64Max
    ensures IdxHandle(v, len) == IdxHandle(len + v, len)
  {
  }

  // Iterator adaptors used by the slices

  /** `Iterator::step_by`: the first element and then every `step`-th one. */
  function StepBy<T>(xs: seq<T>, step: nat): (r: seq<T>)
    requires step > 0
    ensures |r| <= |xs|
    ensures xs != [] ==> r != [] && r[0] == xs[0]
    ensures forall x :: x in r ==> x in xs
    decreases |xs|
  {
    if xs == [] then [] else [xs[0]] + StepBy(if step < |xs| then xs[step..] else [], step)
  }

  /** The `j`-th element of `step_by` is the element at `j * step`. */
  lemma {:induction false} StepByIndex<T>(xs: seq<T>, step: nat, j: nat)
    requires step > 0 && j < |StepBy(xs, step)|
    ensures j * step < |xs| && StepBy(xs, step)[j] == xs[j * step]
    decreases |xs|
  {
    if j > 0 {
      var tail := if step < |xs| then xs[step..] else [];
      StepByIndex(tail, step, j - 1);
      assert (j - 1) * step + step == j * step;
    }
  }

  lemma StepByAll<T>(xs: seq<T>, step: nat)
    requires step > 0
    ensures forall j :: 0 <= j < |StepBy(xs, step)| ==> j * step < |xs| && StepBy(xs, step)[j] == xs[j * step]
  {
    forall j | 0 <= j < |StepBy(xs, step)| ensures j * step < |xs| && StepBy(xs, step)[j] == xs[j * step] {
      StepByIndex(xs, step, j);
    }
  }

  /** `step_by` yields exactly as many elements as there are multiples of the stride below
      the length. */
  lemma {:induction false} StepByLength<T>(xs: seq<T>, step: nat, j: nat)
    requires step > 0
    ensures j < |StepBy(xs, step)| <==> j * step < |xs|
    decreases |xs|
  {
    if xs != [] && j > 0 {
      var tail := if step < |xs| then xs[step..] else [];
      StepByLength(tail, step, j - 1);
      assert (j - 1) * step + step == j * step;
    }
  }

  /** `Iterator::rev` on a slice iterator. */
  function Reverse<T>(xs: seq<T>): (r: seq<T>)
    ensures |r| == |xs| && forall j :: 0 <= j < |xs| ==> r[j] == xs[|xs| - 1 - j]
    ensures forall x :: x in r ==> x in xs
  {
    seq(|xs|, j requires 0 <= j < |xs| => xs[|xs| - 1 - j])
  }

  // The closures of the selectors

  /** The fields of an object node, first match for `key` (a map holds one). */
  function FieldLookup(fs: seq<(string, NodeId)>, key: string): (r: seq<NodeId>)
    ensures |r| <= 1
    ensures r == [] <==> forall i :: 0 <= i < |fs| ==> fs[i].0 != key
    ensures r != [] ==> exists i :: 0 <= i < |fs| && fs[i] == (key, r[0])
  {
    if fs == [] then []
    else if fs[0].0 == key then [fs[0].1]
    else
      var r := FieldLookup(fs[1..], key);
      assert forall i :: 1 <= i < |fs| ==> fs[i] == fs[1..][i - 1];
      r
  }

  /** `*` (dot or bracket): an array's elements, an object's values, nothing for a scalar. */
  function WildcardSel(ctx: Ctx, a: NodeId): (r: seq<NodeId>)
    ensures forall w :: w in r ==> a < |ctx.doc| && w in Kids(ctx.doc[a])
  {
    if a < |ctx.doc| then Kids(ctx.doc[a]) else []
  }

  /** `^`: the recorded parent, if any. */
  function ParentSel(ctx: Ctx, a: NodeId): (r: seq<NodeId>)
    ensures |r| <= 1
    ensures r != [] <==> a in ctx.parents
    ensures CtxWf(ctx) ==> forall w :: w in r ==> w < |ctx.doc| && a in Kids(ctx.doc[w])
  {
    match ParentOf(ctx, a)
    case Some(p) => [p]
    case None => []
  }

  /** `.name` and `['name']`: the member of that name of an object, nothing otherwise. */
  function NameSel(ctx: Ctx, a: NodeId, name: string): (r: seq<NodeId>)
    ensures |r| <= 1 && forall w :: w in r ==> a < |ctx.doc| && w in Kids(ctx.doc[a])
  {
    if a < |ctx.doc| && ctx.doc[a].NObject? then FieldLookup(ctx.doc[a].fields, name) else []
  }

  /** `[n]`: position `n` of an array (negative counts from the end, with the underflow of
      `idx_handle`), or the member named by `n` in decimal of an object. */
  function IntSel(ctx: Ctx, a: NodeId, n: Ast.I64): (r: Outcome<seq<NodeId>>)
    ensures |ctx.doc| <= a || !ctx.doc[a].NArray? ==> r.Return?
    ensures r.Return? ==> |r.value| <= 1 && forall w :: w in r.value ==> a < |ctx.doc| && w in Kids(ctx.doc[a])
  {
    if a >= |ctx.doc| then Return([])
    else match ctx.doc[a]
      case NArray(ks) =>
        (match IdxHandle(n, |ks|)
         case Panic(msg) => Panic(msg)
         case Return(j) => Return(if j < |ks| then [ks[j]] else []))
      case NObject(fs) => Return(FieldLookup(fs, IntToDecimal(n)))
      case _ => Return([])
  }

  /** `v[start..end]` after `idx_handle` on both bounds: panics unless
      `start <= end <= len`. */
  function Slice(ks: seq<NodeId>, start: Ast.I64, end: Ast.I64): (r: Outcome<seq<NodeId>>)
    ensures r.Return? ==> exists s: nat, e: nat :: s <= e <= |ks| && r.value == ks[s..e]
  {
    match IdxHandle(start, |ks|)
    case Panic(msg) => Panic(msg)
    case Return(s) =>
      (match IdxHandle(end, |ks|)
       case Panic(msg) => Panic(msg)
       case Return(e) => if s <= e <= |ks| then Return(ks[s..e]) else Panic(SliceOutOfRange))
  }

  /** `[start:end]` on one node: a slice of an array, nothing for anything else. */
  function RangeSel(ctx: Ctx, a: NodeId, start: Ast.I64, end: Ast.I64): (r: Outcome<seq<NodeId>>)
    ensures r.Return? ==> forall w :: w in r.value ==> a < |ctx.doc| && w in Kids(ctx.doc[a])
  {
    if a < |ctx.doc| && ctx.doc[a].NArray? then Slice(ctx.doc[a].kids, start, end) else Return([])
  }

  /** `[start:end:step]` on one node, the stride already split by `step_handle`: every
      `step`-th element of the slice, from its first element, or from its last walking
      backwards. */
  function StepRangeSel(ctx: Ctx, a: NodeId, start: Ast.I64, end: Ast.I64, rev: bool, step: nat): (r: Outcome<seq<NodeId>>)
    requires step > 0
    ensures r.Panic? <==> RangeSel(ctx, a, start, end).Panic?
    ensures r.Return? ==> forall w :: w in r.value ==> a < |ctx.doc| && w in Kids(ctx.doc[a])
  {
    match RangeSel(ctx, a, start, end)
    case Panic(msg) => Panic(msg)
    case Return(sl) => Return(if rev then StepBy(Reverse(sl), step) else StepBy(sl, step))
  }

  /** The `j`-th node a stepped range selects is `j` strides into the slice, counted from
      its front, or from its back when the step is negative. */
  lemma StepRangeElements(ctx: Ctx, a: NodeId, start: Ast.I64, end: Ast.I64, rev: bool, step: nat, j: nat)
    requires step > 0
    requires StepRangeSel(ctx, a, start, end, rev, step).Return?
    requires j < |StepRangeSel(ctx, a, start, end, rev, step).value|
    ensures var sl := RangeSel(ctx, a, start, end).value;
      j * step < |sl| &&
      StepRangeSel(ctx, a, start, end, rev, step).value[j] == (if rev then sl[|sl| - 1 - j * step] else sl[j * step])
  {
    var sl := RangeSel(ctx, a, start, end).value;
    if rev { StepByIndex(Reverse(sl), step, j); } else { StepByIndex(sl, step, j); }
  }

  /** One matched value of a sub-path used as a key of node `a` (the inner `flat_map` of
      `eval_match`): an integer indexes an array through `idx_handle` (`as_i64().unwrap()`
      panics for a number outside `i64`); a string or an integer in decimal names a member of
      an object. Float keys are not modelled and select nothing. */
  function KeySel(ctx: Ctx, a: NodeId, key: Json): (r: Outcome<seq<NodeId>>)
    ensures r.Return? ==> |r.value| <= 1 && forall w :: w in r.value ==> a < |ctx.doc| && w in Kids(ctx.doc[a])
    ensures key.String? ==> r == Return(NameSel(ctx, a, key.s))
  {
    if a >= |ctx.doc| then Return([])
    else match ctx.doc[a]
      case NArray(ks) =>
        (match key
         case Number(_) =>
           (match AsI64(key)
            case None => Panic(UnwrapNone)
            case Some(i) =>
              (match IdxHandle(i, |ks|)
               case Panic(msg) => Panic(msg)
               case Return(j) => Return(if j < |ks| then [ks[j]] else [])))
         case _ => Return([]))
      case NObject(fs) =>
        (match key
         case String(s) => Return(FieldLookup(fs, s))
         case Number(Int(i)) => Return(FieldLookup(fs, IntToDecimal(i)))
         case _ => Return([]))
      case _ => Return([])
  }

  // The selectors as the closures handed to `apply_matched`

  type Closure = (Ctx, NodeId) -> Outcome<seq<NodeId>>

  function WildcardFn(): Closure { (c, a) => Return(WildcardSel(c, a)) }

  function ParentFn(): Closure { (c, a) => Return(ParentSel(c, a)) }

  function NameFn(name: string): Closure { (c, a) => Return(NameSel(c, a, name)) }

  function IntFn(n: Ast.I64): Closure { (c, a) => IntSel(c, a, n) }

  function StrFn(key: string): Closure { (c, a) => Return(NameSel(c, a, key)) }

  function RangeFn(start: Ast.I64, end: Ast.I64): Closure { (c, a) => RangeSel(c, a, start, end) }

  function StepRangeFn(start: Ast.I64, end: Ast.I64, rev: bool, step: nat): Closure
    requires step > 0
  {
    (c, a) => StepRangeSel(c, a, start, end, rev, step)
  }

  // Properties of the selectors on values

  /** The wildcard yields the children of the node's value, in order. */
  lemma WildcardValues(ctx: Ctx, a: NodeId)
    requires Wf(ctx.doc) && a < |ctx.doc|
    ensures Values(ctx.doc, WildcardSel(ctx, a)) == Children(ToJson(ctx.doc, a))
  {
    var ks := WildcardSel(ctx, a);
    forall i | 0 <= i < |ks|
      ensures ToJson(ctx.doc, ks[i]) == Children(ToJson(ctx.doc, a))[i]
    {
      ToJsonKids(ctx.doc, a, i);
    }
  }

  /** No field of an object node carries the name: the object value has no such member. */
  lemma NameAbsent(doc: Doc, a: NodeId, name: string)
    requires Wf(doc) && a < |doc| && doc[a].NObject? && FieldLookup(doc[a].fields, name) == []
    ensures ToJson(doc, a).Object? && ObjectGet(ToJson(doc, a).entries, name) == None
  {
    var es := ToJson(doc, a).entries;
    forall i | 0 <= i < |es| ensures es[i].0 != name {
      ToJsonKids(doc, a, i);
    }
    assert name !in Keys(es);
  }

  /** The field an object node carries under the name is the member its value holds. */
  lemma NamePresent(doc: Doc, a: NodeId, name: string)
    requires Wf(doc) && a < |doc| && doc[a].NObject? && FieldLookup(doc[a].fields, name) != []
    ensures ToJson(doc, a).Object?
    ensures ObjectGet(ToJson(doc, a).entries, name) == Some(ToJson(doc, FieldLookup(doc[a].fields, name)[0]))
  {
    var fs := doc[a].fields;
    var w := FieldLookup(fs, name)[0];
    var i :| 0 <= i < |fs| && fs[i] == (name, w);
    ToJsonKids(doc, a, i);
    ToJsonUniqueKeys(doc, a);
    FirstLookup(ToJson(doc, a).entries, i);
  }

  /** `.name` yields the member the object value holds under that name, or nothing; a
      non-object yields nothing. */
  lemma NameValues(ctx: Ctx, a: NodeId, name: string)
    requires Wf(ctx.doc) && a < |ctx.doc|
    ensures !ToJson(ctx.doc, a).Object? ==> NameSel(ctx, a, name) == []
    ensures ToJson(ctx.doc, a).Object? ==>
      Values(ctx.doc, NameSel(ctx, a, name)) ==
        match ObjectGet(ToJson(ctx.doc, a).entries, name)
        case None => []
        case Some(v) => [v]
  {
    var doc := ctx.doc;
    if doc[a].NObject? {
      var r := NameSel(ctx, a, name);
      if r == [] {
        NameAbsent(doc, a, name);
      } else {
        NamePresent(doc, a, name);
        assert Values(doc, r) == [ToJson(doc, r[0])];
      }
    }
  }

  /** `[n]` with a negative `n` on an array counts from the end; past the front it panics. */
  lemma IntSelFromEnd(ctx: Ctx, a: NodeId, n: Ast.I64)
    requires a < |ctx.doc| && ctx.doc[a].NArray? && n < 0
    ensures var ks := ctx.doc[a].kids;
      IntSel(ctx, a, n) == if n != I64Min && -n <= |ks| then Return([ks[|ks| + n]]) else IntSel(ctx, a, n)
    ensures var ks := ctx.doc[a].kids;
      IntSel(ctx, a, n).Panic? <==> n == I64Min || -n > |ks|
  {
  }

  /** `[0]` on the object `{"0": 5}` selects the member `"0"`: an integer literal names an
      object member by its decimal rendering. */
  lemma IntSelObjectKey()
    ensures var doc := [NObject([("0", 1)]), NNumber(Int(5))];
      IntSel(Ctx(doc, 0, [0], map[]), 0, 0) == Return([1])
  {
    assert IntToDecimal(0) == "0";
  }

  /** A range of an array value is the slice of its elements between the handled bounds;
      when the bounds do not fit the array it panics. */
  lemma RangeValues(ctx: Ctx, a: NodeId, start: Ast.I64, end: Ast.I64)
    requires Wf(ctx.doc) && a < |ctx.doc| && ctx.doc[a].NArray?
    requires start >= 0 && end >= 0
    ensures var items := ToJson(ctx.doc, a).items;
      RangeSel(ctx, a, start, end).Return? <==> start <= end <= |items|
    ensures var items := ToJson(ctx.doc, a).items;
      RangeSel(ctx, a, start, end).Return? ==>
        Values(ctx.doc, RangeSel(ctx, a, start, end).value) == items[start..end]
  {
    var ks := ctx.doc[a].kids;
    var items := ToJson(ctx.doc, a).items;
    if start <= end <= |ks| {
      forall i | start <= i < end ensures ToJson(ctx.doc, ks[i]) == items[i] {
        ToJsonKids(ctx.doc, a, i);
      }
    }
  }

  // Operators of filter expressions (src/ast/eval.rs:270-383)

  /** `Value::from(f64)` for a finite result: the number stored as a float. (A non-finite
      result becomes `null`; `Arith` handles that case.) */
  function FromF64(x: real): Json {
    Number(Float(x))
  }

  /** Unary `-` on a number: `as_i64` negated (panics on `i64::MIN`), else `as_u64` cast to
      `i64` with wrap-around and negated, else the float negated. */
  function NegNumber(n: Num): (r: Outcome<Json>)
    ensures n.Int? && I64Min < n.i <= I64Max ==> r == Return(Number(Int(-n.i)))
    ensures n.Float? ==> r == Return(Number(Float(-n.r)))
  {
    match n
    case Int(i) =>
      if I64Min <= i <= I64Max then
        (if i == I64Min then Panic(NegOverflow) else Return(Number(Int(-i))))
      else if 0 <= i < 0x1_0000_0000_0000_0000 then
        var w := i - 0x1_0000_0000_0000_0000;
        (if w == I64Min then Panic(NegOverflow) else Return(Number(Int(-w))))
      else Return(Number(Float(-(i as real))))
    case Float(f) => Return(Number(Float(-f)))
  }

  /** Negating a `u64` above `i64::MAX` wraps: `-(2^63 + 1)` becomes `2^63 - 1`. */
  lemma NegWraps()
    ensures NegNumber(Int(0x8000_0000_0000_0001)) == Return(Number(Int(0x7FFF_FFFF_FFFF_FFFF)))
    ensures NegNumber(Int(0x8000_0000_0000_0000)).Panic?
    ensures NegNumber(Int(I64Min)).Panic?
  {
  }

  /** A literal's value: what the literal's own accessors read, as a JSON value. */
  function LitValue(lit: Ast.ExprLit): (v: Json)
    ensures lit.Int? <==> v.Number?
    ensures lit.String? <==> v.String?
    ensures lit.Bool? <==> v.Bool?
    ensures lit.Null? <==> v.Null?
    ensures Ast.ExprLitAsInt(lit).Some? ==> AsI64(v) == Some(Ast.ExprLitAsInt(lit).value as int) && !ValueIsF64(v)
    ensures Ast.ExprLitAsStr(lit).Some? ==> AsStr(v) == Ast.ExprLitAsStr(lit)
    ensures Ast.ExprLitAsBool(lit).Some? ==> AsBool(v) == Ast.ExprLitAsBool(lit)
  {
    match lit
    case Int(i) => Number(Int(i.val))
    case String(s) => String(Ast.StringLitAsStr(s))
    case Bool(b) => Bool(b.val)
    case Null(_) => Null
  }

  /** A binary operator on two evaluated operands: `None` where an operand has the wrong
      type, a panic for `%` (not implemented). Comparisons and `-`, `*`, `/` read both
      operands with `as_f64`; `+` adds only two numbers stored as floats (`Value::is_f64`), and
      otherwise concatenates two strings. */
  function BinaryValue(op: Ast.BinOp, l: Json, r: Json): (res: Outcome<Option<Json>>)
    ensures op.Rem? <==> res.Panic?
    ensures (op.And? || op.Or?) && res.Return? && res.value.Some? ==> l.Bool? && r.Bool?
    ensures op.And? && l.Bool? && r.Bool? ==> res == Return(Some(Bool(l.b && r.b)))
    ensures op.Or? && l.Bool? && r.Bool? ==> res == Return(Some(Bool(l.b || r.b)))
    ensures op.Eq? ==> res == Return(Some(Bool(JsonEqual(l, r))))
    ensures (op.Le? || op.Lt? || op.Gt? || op.Ge? || op.Sub? || op.Mul? || op.Div?) ==>
      (res.Return? && (res.value.Some? <==> l.Number? && r.Number?))
    ensures l.Number? && r.Number? ==>
      var x, y := AsF64(l).value, AsF64(r).value;
      (op.Le? ==> res == Return(Some(Bool(x <= y))))
      && (op.Lt? ==> res == Return(Some(Bool(x < y))))
      && (op.Gt? ==> res == Return(Some(Bool(x > y))))
      && (op.Ge? ==> res == Return(Some(Bool(x >= y))))
      && (op.Sub? ==> res == Return(Some(Number(Float(x - y)))))
      && (op.Mul? ==> res == Return(Some(Number(Float(x * y)))))
      && (op.Div? ==> res == Return(Some(if y == 0.0 then Null else Number(Float(x / y)))))
    ensures op.Add? ==>
      res.Return? && (res.value.Some? <==> (ValueIsF64(l) && ValueIsF64(r)) || (l.String? && r.String?))
    ensures op.Add? && ValueIsF64(l) && ValueIsF64(r) ==> res == Return(Some(Number(Float(l.n.r + r.n.r))))
    ensures op.Add? && l.String? && r.String? ==> res == Return(Some(String(l.s + r.s)))
  {
    match op
    case And(_) =>
      (match (AsBool(l), AsBool(r))
       case (Some(x), Some(y)) => Return(Some(Bool(x && y)))
       case _ => Return(None))
    case Or(_) =>
      (match (AsBool(l), AsBool(r))
       case (Some(x), Some(y)) => Return(Some(Bool(x || y)))
       case _ => Return(None))
    case Eq(_) => Return(Some(Bool(JsonEqual(l, r))))
    case Le(_) => Return(Compare(op, l, r))
    case Lt(_) => Return(Compare(op, l, r))
    case Gt(_) => Return(Compare(op, l, r))
    case Ge(_) => Return(Compare(op, l, r))
    case Add(_) =>
      if ValueIsF64(l) && ValueIsF64(r) then Return(Some(FromF64(AsF64(l).value + AsF64(r).value)))
      else if IsString(l) && IsString(r) then Return(Some(String(AsStr(l).value + AsStr(r).value)))
      else Return(None)
    case Sub(_) => Return(Arith(l, r, (x: real, y: real) => Some(x - y)))
    case Mul(_) =>
      var times := (x: real, y: real) => Some(x * y);
      assert l.Number? && r.Number? ==> times(AsF64(l).value, AsF64(r).value) == Some(AsF64(l).value * AsF64(r).value);
      Return(Arith(l, r, times))
    case Div(_) => Return(Arith(l, r, (x: real, y: real) => if y == 0.0 then None else Some(x / y)))
    case Rem(_) => Panic(TodoMsg)
  }

  predicate IsComparison(op: Ast.BinOp) {
    op.Le? || op.Lt? || op.Gt? || op.Ge?
  }

  /** The comparison `op` stands for, on reals. */
  predicate RealCompare(op: Ast.BinOp, x: real, y: real)
    requires IsComparison(op)
  {
    match op
    case Le(_) => x <= y
    case Lt(_) => x < y
    case Gt(_) => x > y
    case _ => x >= y
  }

  /** A comparison through `as_f64`. */
  function Compare(op: Ast.BinOp, l: Json, r: Json): (res: Option<Json>)
    requires IsComparison(op)
    ensures res.Some? <==> l.Number? && r.Number?
    ensures l.Number? && r.Number? ==>
      var x, y := AsF64(l).value, AsF64(r).value;
      (op.Le? ==> res == Some(Bool(x <= y))) && (op.Lt? ==> res == Some(Bool(x < y)))
      && (op.Gt? ==> res == Some(Bool(x > y))) && (op.Ge? ==> res == Some(Bool(x >= y)))
  {
    match (AsF64(l), AsF64(r))
    case (Some(x), Some(y)) => Some(Bool(RealCompare(op, x, y)))
    case _ => None
  }

  /** Arithmetic through `as_f64`, the result converted back with `Value::from(f64)`; a
      result that is not finite (`None` from `op`) becomes `null`. */
  function Arith(l: Json, r: Json, op: (real, real) -> Option<real>): (res: Option<Json>)
    ensures res.Some? <==> l.Number? && r.Number?
    ensures l.Number? && r.Number? ==>
      var z := op(AsF64(l).value, AsF64(r).value);
      (z.Some? ==> res.value == Number(Float(z.value)) && AsF64(res.value) == z)
      && (z.None? ==> res.value == Null)
  {
    match (AsF64(l), AsF64(r))
    case (Some(x), Some(y)) =>
      (match op(x, y)
       case Some(z) => Some(FromF64(z))
       case None => Some(Null))
    case _ => None
  }

  /** `+` on numbers needs two floats: integers, even together with a float, give nothing,
      while two floats add to a float. */
  lemma AddNeedsFloats()
    ensures BinaryValue(Ast.BinOp.Add(Tokens.Token(Spans.Span(0, 0))), Number(Int(1)), Number(Int(1))) == Return(None)
    ensures BinaryValue(Ast.BinOp.Add(Tokens.Token(Spans.Span(0, 0))), Number(Int(1)), Number(Float(1.5))) == Return(None)
    ensures BinaryValue(Ast.BinOp.Add(Tokens.Token(Spans.Span(0, 0))), Number(Float(1.0)), Number(Float(1.0))) == Return(Some(Number(Float(2.0))))
  {
  }

  /** Swapping the operands of a comparison swaps `<` with `>` and `<=` with `>=`. */
  lemma ComparisonsMirror(tok: Tokens.Token, l: Json, r: Json)
    ensures BinaryValue(Ast.BinOp.Lt(tok), l, r) == BinaryValue(Ast.BinOp.Gt(tok), r, l)
    ensures BinaryValue(Ast.BinOp.Le(tok), l, r) == BinaryValue(Ast.BinOp.Ge(tok), r, l)
  {
  }

  /** On floats, subtracting is adding the negation: binary `-`, `+` and unary `-` agree. */
  lemma SubIsAddNegated(tok: Tokens.Token, x: real, y: real)
    ensures NegNumber(Float(y)).Return?
    ensures BinaryValue(Ast.BinOp.Sub(tok), Number(Float(x)), Number(Float(y)))
         == BinaryValue(Ast.BinOp.Add(tok), Number(Float(x)), NegNumber(Float(y)).value)
  {
  }

  /** Division by zero gives `null`. */
  lemma DivByZeroIsNull()
    ensures BinaryValue(Ast.BinOp.Div(Tokens.Token(Spans.Span(0, 0))), Number(Int(1)), Number(Int(0))) == Return(Some(Null))
  {
  }
}
