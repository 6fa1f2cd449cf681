/** Properties of the evaluator of src/ast/eval.rs: what the selectors yield as values, the
    filter as an order-preserving sub-sequence, the evaluation order of binary operators,
    and how `~` depends on recorded parents. */
module EvalProperties {
  import opened Wrappers
  import opened Text
  import opened JsonValue
  import opened Idx
  import opened Arena
  import opened EvalContext
  import opened Selectors
  import opened Evaluator
  import Ast
  import Tokens
  import Spans

  // Segments compose

  /** Running two lists of segments one after the other is running their concatenation. */
  lemma {:induction false} EvalSegmentsConcat(ctx: Ctx, s1: seq<Ast.Segment>, s2: seq<Ast.Segment>)
    ensures EvalSegments(ctx, s1 + s2) ==
      match EvalSegments(ctx, s1)
      case Panic(msg) => Panic(msg)
      case Return(c) => EvalSegments(c, s2)
    decreases |s1|
  {
    if s1 == [] {
      assert s1 + s2 == s2;
    } else {
      assert (s1 + s2)[0] == s1[0];
      assert (s1 + s2)[1..] == s1[1..] + s2;
      match EvalSegment(ctx, s1[0])
      case Panic(_) =>
      case Return(c) => EvalSegmentsConcat(c, s1[1..], s2);
    }
  }

  // Selectors on a single entry

  /** `.*` on one node yields its children's values, in order. */
  lemma WildcardOnEntry(ctx: Ctx, a: NodeId)
    requires Wf(ctx.doc) && a < |ctx.doc| && ctx.matched == [a]
    ensures Values(ctx.doc, SelectChildren(ctx).value.matched) == Children(ToJson(ctx.doc, a))
  {
    ApplyMatchedSingle(ctx, WildcardFn(), a);
    WildcardValues(ctx, a);
  }

  /** `.name` on one node yields the member of that name, if the node is an object holding
      it, and nothing otherwise. */
  lemma NameOnEntry(ctx: Ctx, a: NodeId, name: Ast.Ident)
    requires Wf(ctx.doc) && a < |ctx.doc| && ctx.matched == [a]
    ensures var out := Values(ctx.doc, EvalRaw(ctx, Ast.RawSelector.Name(name)).value.matched);
      match ToJson(ctx.doc, a)
      case Object(es) => out == (match ObjectGet(es, name.val) case None => [] case Some(v) => [v])
      case _ => out == []
  {
    ApplyMatchedSingle(ctx, NameFn(name.val), a);
    NameValues(ctx, a, name.val);
  }

  /** `['name']` on one node selects exactly as `.name` does: the member of that name, if the
      node is an object holding it, and nothing otherwise. */
  lemma StringLitOnEntry(ctx: Ctx, a: NodeId, s: Ast.StringLit)
    requires Wf(ctx.doc) && a < |ctx.doc| && ctx.matched == [a]
    ensures EvalBracket(ctx, Ast.BracketSelector.Literal(Ast.BracketLit.String(s))).Return?
    ensures var out := Values(ctx.doc, EvalBracket(ctx, Ast.BracketSelector.Literal(Ast.BracketLit.String(s))).value.matched);
      match ToJson(ctx.doc, a)
      case Object(es) => out == (match ObjectGet(es, Ast.StringLitAsStr(s)) case None => [] case Some(v) => [v])
      case _ => out == []
  {
    var key := Ast.StringLitAsStr(s);
    var r := EvalBracket(ctx, Ast.BracketSelector.Literal(Ast.BracketLit.String(s)));
    assert r == ApplyMatched(ctx, StrFn(key));
    ApplyMatchedSingle(ctx, StrFn(key), a);
    assert r == Return(ctx.(matched := NameSel(ctx, a, key)));
    NameValues(ctx, a, key);
  }

  /** `n` copies of `x`. */
  function Repeat<T>(x: T, n: nat): (r: seq<T>)
    ensures |r| == n && forall i :: 0 <= i < n ==> r[i] == x
  {
    if n == 0 then [] else [x] + Repeat(x, n - 1)
  }

  /** `apply_matched` with a closure that yields the same single node for every entry. */
  lemma {:induction false} FlatMapConstant(ctx: Ctx, f: Closure, xs: seq<NodeId>, y: NodeId)
    requires forall i :: 0 <= i < |xs| ==> f(ctx, xs[i]) == Return([y])
    ensures FlatMap(ctx, f, xs) == Return(Repeat(y, |xs|))
    decreases |xs|
  {
    if xs != [] {
      assert forall i :: 0 <= i < |xs| - 1 ==> xs[1..][i] == xs[i + 1];
      FlatMapConstant(ctx, f, xs[1..], y);
    }
  }

  /** `^` undoes `*`: when the children of `a` have `a` recorded as their parent, `.*.^`
      on `a` yields `a` once per child. */
  lemma ParentOfChildren(ctx: Ctx, a: NodeId)
    requires CtxWf(ctx) && a < |ctx.doc| && ctx.matched == [a]
    requires forall k :: k in Kids(ctx.doc[a]) ==> k in ctx.parents && ctx.parents[k] == a
    ensures SelectParents(SelectChildren(ctx).value).value.matched == Repeat(a, |Kids(ctx.doc[a])|)
  {
    ApplyMatchedSingle(ctx, WildcardFn(), a);
    var c := SelectChildren(ctx).value;
    assert c.matched == Kids(ctx.doc[a]);
    forall i | 0 <= i < |c.matched| ensures ParentFn()(c, c.matched[i]) == Return([a]) {
      assert c.matched[i] in Kids(ctx.doc[a]);
    }
    FlatMapConstant(c, ParentFn(), c.matched, a);
  }

  /** With the parent map prepopulated, `.*.^` on the root yields the root once per child. */
  lemma PrepopulatedParentOfChildren(doc: Doc, root: NodeId)
    requires Wf(doc) && root < |doc|
    ensures var ctx := Prepopulate(New(doc, root));
      SelectParents(SelectChildren(ctx).value).value.matched == Repeat(root, |Kids(doc[root])|)
  {
    var ctx := Prepopulate(New(doc, root));
    forall k | k in Kids(doc[root]) ensures k in ctx.parents && ctx.parents[k] == root {
      var i :| 0 <= i < |Kids(doc[root])| && Kids(doc[root])[i] == k;
      assert root in Reach(doc, root);
      PrepopulatedParentOf(doc, root, root, i);
    }
    ParentOfChildren(ctx, root);
  }

  /** An open end (`[1:]`) defaults to `i64::MAX`, past the end of every array, so the slice
      panics on any array entry. */
  lemma OpenEndPanics(ctx: Ctx, a: NodeId, start: Ast.I64)
    requires a < |ctx.doc| && ctx.doc[a].NArray? && |ctx.doc[a].kids| < I64Max
    ensures RangeSel(ctx, a, start, I64Max).Panic?
  {
  }

  // The filter

  /** The entries on which an expression yields exactly `true`. */
  predicate Holds(ctx: Ctx, e: Ast.FilterExpr, a: NodeId) {
    ExprEval(ctx, e, a) == Return(Some(Bool(true)))
  }

  /** The sub-sequence of `xs` on which `e` holds, in order. */
  function KeepTrue(ctx: Ctx, e: Ast.FilterExpr, xs: seq<NodeId>): (r: seq<NodeId>)
    ensures |r| <= |xs|
    ensures forall w :: w in r <==> w in xs && Holds(ctx, e, w)
  {
    if xs == [] then []
    else (if Holds(ctx, e, xs[0]) then [xs[0]] else []) + KeepTrue(ctx, e, xs[1..])
  }

  lemma {:induction false} FlatMapFilter(ctx: Ctx, e: Ast.FilterExpr, xs: seq<NodeId>)
    requires forall i :: 0 <= i < |xs| ==> ExprEval(ctx, e, xs[i]).Return?
    ensures FlatMap(ctx, FilterFn(e), xs) == Return(KeepTrue(ctx, e, xs))
    decreases |xs|
  {
    if xs != [] {
      assert forall i :: 0 <= i < |xs| - 1 ==> xs[1..][i] == xs[i + 1];
      FlatMapFilter(ctx, e, xs[1..]);
    }
  }

  /** `[?(e)]` keeps, in order, exactly the entries on which `e` yields `true`; it panics
      exactly when `e` panics on some entry. */
  lemma FilterKeeps(ctx: Ctx, f: Ast.Filter)
    ensures FilterSel(ctx, f).Panic? <==>
      exists i :: 0 <= i < |ctx.matched| && ExprEval(ctx, f.inner, ctx.matched[i]).Panic?
    ensures FilterSel(ctx, f).Return? ==> FilterSel(ctx, f).value.matched == KeepTrue(ctx, f.inner, ctx.matched)
  {
    if FilterSel(ctx, f).Return? {
      forall i | 0 <= i < |ctx.matched| ensures ExprEval(ctx, f.inner, ctx.matched[i]).Return? {
        assert FilterFn(f.inner)(ctx, ctx.matched[i]).Return?;
      }
      FlatMapFilter(ctx, f.inner, ctx.matched);
    }
  }

  /** The filter tests each entry itself, not its children: on `[true]` the expression `@`
      holds for the element but not for the array, so `$[?(@)]` on the array yields nothing. */
  lemma FilterTestsTheEntry()
    ensures var tok := Tokens.Token(Spans.Span(0, 0));
      var e := Ast.FilterExpr.Path(Ast.SubPath(Ast.PathKind.Relative(tok), [], None));
      var f := Ast.Filter.Filter(tok, Tokens.Wrap(Spans.Span(0, 0), Spans.Span(0, 0)), e);
      var ctx := New([NArray([1]), NBool(true)], 0);
      ExprEval(ctx, e, 1) == Return(Some(Bool(true))) &&
      FilterSel(ctx, f) == Return(ctx.(matched := []))
  {
    var tok := Tokens.Token(Spans.Span(0, 0));
    var e := Ast.FilterExpr.Path(Ast.SubPath(Ast.PathKind.Relative(tok), [], None));
    var f := Ast.Filter.Filter(tok, Tokens.Wrap(Spans.Span(0, 0), Spans.Span(0, 0)), e);
    var doc := [NArray([1]), NBool(true)];
    var ctx := New(doc, 0);
    assert ToJson(doc, 1) == Bool(true);
    assert ToJson(doc, 0) == Array([Bool(true)]);
    ApplyMatchedSingle(ctx, FilterFn(e), 0);
  }

  // Operators inside filter expressions

  /** `!!e` on an expression with a boolean value has that same value. */
  lemma DoubleNot(ctx: Ctx, e: Ast.FilterExpr, t1: Tokens.Token, t2: Tokens.Token, a: NodeId, b: bool)
    requires ExprEval(ctx, e, a) == Return(Some(Bool(b)))
    ensures ExprEval(ctx, Ast.FilterExpr.Unary(Ast.UnOp.Not(t1), Ast.FilterExpr.Unary(Ast.UnOp.Not(t2), e)), a)
         == Return(Some(Bool(b)))
  {
    var inner := Ast.FilterExpr.Unary(Ast.UnOp.Not(t2), e);
    assert ExprEval(ctx, inner, a) == Return(Some(Bool(!b)));
  }

  /** With both operands present, `lhs < rhs` evaluates as `rhs > lhs`, and `lhs <= rhs` as
      `rhs >= lhs`. */
  lemma ComparisonFlip(ctx: Ctx, lhs: Ast.FilterExpr, rhs: Ast.FilterExpr, tok: Tokens.Token, a: NodeId)
    requires ExprEval(ctx, lhs, a).Return? && ExprEval(ctx, lhs, a).value.Some?
    requires ExprEval(ctx, rhs, a).Return? && ExprEval(ctx, rhs, a).value.Some?
    ensures ExprEval(ctx, Ast.FilterExpr.Binary(lhs, Ast.BinOp.Lt(tok), rhs), a)
         == ExprEval(ctx, Ast.FilterExpr.Binary(rhs, Ast.BinOp.Gt(tok), lhs), a)
    ensures ExprEval(ctx, Ast.FilterExpr.Binary(lhs, Ast.BinOp.Le(tok), rhs), a)
         == ExprEval(ctx, Ast.FilterExpr.Binary(rhs, Ast.BinOp.Ge(tok), lhs), a)
  {
    ComparisonsMirror(tok, ExprEval(ctx, lhs, a).value.value, ExprEval(ctx, rhs, a).value.value);
  }

  // Binary operators evaluate both operands

  /** A missing left operand makes the result missing without evaluating the right one. */
  lemma MissingLeftSkipsRight(ctx: Ctx, lhs: Ast.FilterExpr, op: Ast.BinOp, rhs: Ast.FilterExpr, a: NodeId)
    requires ExprEval(ctx, lhs, a) == Return(None)
    ensures ExprEval(ctx, Ast.FilterExpr.Binary(lhs, op, rhs), a) == Return(None)
  {
  }

  /** Once the left operand is present the right one is always evaluated: `&&` and `||` do
      not short-circuit, so a panic or a missing value on the right decides the result. */
  lemma NoShortCircuit(ctx: Ctx, lhs: Ast.FilterExpr, op: Ast.BinOp, rhs: Ast.FilterExpr, a: NodeId)
    requires ExprEval(ctx, lhs, a).Return? && ExprEval(ctx, lhs, a).value.Some?
    ensures ExprEval(ctx, rhs, a).Panic? ==> ExprEval(ctx, Ast.FilterExpr.Binary(lhs, op, rhs), a).Panic?
    ensures ExprEval(ctx, rhs, a) == Return(None) ==> ExprEval(ctx, Ast.FilterExpr.Binary(lhs, op, rhs), a) == Return(None)
    ensures (op.And? && ExprEval(ctx, lhs, a).value.value == Bool(false) && ExprEval(ctx, rhs, a).Return?
        && ExprEval(ctx, rhs, a).value.Some? && !ExprEval(ctx, rhs, a).value.value.Bool?) ==>
      ExprEval(ctx, Ast.FilterExpr.Binary(lhs, op, rhs), a) == Return(None)
  {
  }

  // Sub-paths in expressions and as keys

  /** A sub-path used as a value yields the one node it matches (its index with `~`). */
  lemma SubPathExprSingle(ctx: Ctx, sp: Ast.SubPath, a: NodeId, m: NodeId)
    requires SubMatched(ctx, a, sp) == Return([m])
    ensures sp.tilde.None? ==> SubPathExpr(ctx, sp, a) == Return(Some(ToJson(ctx.doc, m)))
    ensures sp.tilde.Some? ==>
      SubPathExpr(ctx, sp, a) == match IdxOf(ctx, m) case None => Return(None) case Some(idx) => Return(Some(ToValue(idx)))
  {
  }

  /** Without recorded parents, `~` in a filter yields nothing ... */
  lemma TildeValueWithoutParents(ctx: Ctx, sp: Ast.SubPath, a: NodeId)
    requires ctx.parents == map[] && sp.tilde.Some? && SubMatched(ctx, a, sp).Return?
    ensures SubPathExpr(ctx, sp, a) == Return(None)
  {
  }

  /** ... and `~` in a key sub-path panics as soon as it matches anything. */
  lemma TildeKeyWithoutParents(ctx: Ctx, sp: Ast.SubPath, a: NodeId)
    requires ctx.parents == map[] && sp.tilde.Some?
    requires SubMatched(ctx, a, sp).Return? && SubMatched(ctx, a, sp).value != []
    ensures MatchOne(ctx, a, sp).Panic?
  {
    var ms := SubMatched(ctx, a, sp).value;
    assert IdxOf(ctx, ms[0]).None?;
  }
}
