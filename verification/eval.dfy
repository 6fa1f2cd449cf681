/** Evaluation of a compiled path against a document (src/ast/eval.rs): each segment replaces
    the working set of an evaluation context by what its selector yields for every entry. */
module Evaluator {
  import opened Wrappers
  import opened Text
  import opened JsonValue
  import opened Idx
  import opened Arena
  import opened EvalContext
  import opened Selectors
  import Ast

  /** Every node `f` yields for an entry is a node of the document. */
  predicate YieldsNodes(ctx: Ctx, f: (Ctx, NodeId) -> Outcome<seq<NodeId>>) {
    forall i :: 0 <= i < |ctx.matched| && f(ctx, ctx.matched[i]).Return? ==>
      forall w :: w in f(ctx, ctx.matched[i]).value ==> w < |ctx.doc|
  }

  /** Every node `f` yields for an entry is a child of that entry. */
  predicate YieldsKids(ctx: Ctx, f: (Ctx, NodeId) -> Outcome<seq<NodeId>>) {
    forall i :: 0 <= i < |ctx.matched| && f(ctx, ctx.matched[i]).Return? ==>
      forall w :: w in f(ctx, ctx.matched[i]).value ==>
        ctx.matched[i] < |ctx.doc| && w in Kids(ctx.doc[ctx.matched[i]])
  }

  /** `apply_matched` keeps a context well formed when its closure yields nodes of the
      document, children of the entries in particular. */
  lemma ApplyMatchedWf(ctx: Ctx, f: (Ctx, NodeId) -> Outcome<seq<NodeId>>)
    ensures CtxWf(ctx) && ApplyMatched(ctx, f).Return? && (YieldsNodes(ctx, f) || YieldsKids(ctx, f)) ==>
      CtxWf(ApplyMatched(ctx, f).value)
  {
    if CtxWf(ctx) && ApplyMatched(ctx, f).Return? && (YieldsNodes(ctx, f) || YieldsKids(ctx, f)) {
      if YieldsKids(ctx, f) {
        forall i, w | 0 <= i < |ctx.matched| && f(ctx, ctx.matched[i]).Return? && w in f(ctx, ctx.matched[i]).value
          ensures w < |ctx.doc|
        {
          KidForward(ctx.doc, ctx.matched[i], w);
        }
      }
      var m := ApplyMatched(ctx, f).value.matched;
      forall j | 0 <= j < |m| ensures m[j] < |ctx.doc| {
        assert m[j] in m;
      }
    }
  }

  /** `Path::eval`: the segments in order; a trailing `~` is not implemented. */
  function EvalPath(ctx: Ctx, p: Ast.Path): (r: Outcome<Ctx>)
    ensures r.Return? ==> r.value.doc == ctx.doc && r.value.root == ctx.root && r.value.parents == ctx.parents
    ensures CtxWf(ctx) && r.Return? ==> CtxWf(r.value)
    ensures p.tilde.Some? ==> r.Panic?
  {
    match EvalSegments(ctx, p.segments)
    case Panic(msg) => Panic(msg)
    case Return(c) => if p.tilde.Some? then Panic(TodoMsg) else Return(c)
  }

  /** The segments of a path, one after the other. */
  function EvalSegments(ctx: Ctx, segs: seq<Ast.Segment>): (r: Outcome<Ctx>)
    ensures r.Return? ==> r.value.doc == ctx.doc && r.value.root == ctx.root && r.value.parents == ctx.parents
    ensures CtxWf(ctx) && r.Return? ==> CtxWf(r.value)
    decreases segs, 3
  {
    if segs == [] then Return(ctx)
    else match EvalSegment(ctx, segs[0])
      case Panic(msg) => Panic(msg)
      case Return(c) => EvalSegments(c, segs[1..])
  }

  /** `Segment::eval`: a dot selector, a bracket selector, or recursive descent (not
      implemented). */
  function EvalSegment(ctx: Ctx, s: Ast.Segment): (r: Outcome<Ctx>)
    ensures r.Return? ==> r.value.doc == ctx.doc && r.value.root == ctx.root && r.value.parents == ctx.parents
    ensures CtxWf(ctx) && r.Return? ==> CtxWf(r.value)
    ensures s.Recursive? ==> r.Panic?
    decreases s, 2
  {
    match s
    case Dot(_, sel) => EvalRaw(ctx, sel)
    case Bracket(_, inner) => EvalBracket(ctx, inner)
    case Recursive(_, _) => Panic(TodoMsg)
  }

  /** `*`: every entry is replaced by its children. */
  function SelectChildren(ctx: Ctx): (r: Outcome<Ctx>)
    ensures r.Return?
    ensures r.value.doc == ctx.doc && r.value.root == ctx.root && r.value.parents == ctx.parents
    ensures CtxWf(ctx) ==> CtxWf(r.value)
  {
    var f := WildcardFn();
    ApplyMatchedWf(ctx, f);
    ApplyMatched(ctx, f)
  }

  /** `^`: every entry is replaced by its recorded parent, if any. */
  function SelectParents(ctx: Ctx): (r: Outcome<Ctx>)
    ensures r.Return?
    ensures r.value.doc == ctx.doc && r.value.root == ctx.root && r.value.parents == ctx.parents
    ensures CtxWf(ctx) ==> CtxWf(r.value)
  {
    var f := ParentFn();
    ApplyMatchedWf(ctx, f);
    ApplyMatched(ctx, f)
  }

  /** `DotIdent::eval`: `.*`, `.^` and `.name`. */
  function EvalRaw(ctx: Ctx, sel: Ast.RawSelector): (r: Outcome<Ctx>)
    ensures r.Return?
    ensures r.value.doc == ctx.doc && r.value.root == ctx.root && r.value.parents == ctx.parents
    ensures CtxWf(ctx) ==> CtxWf(r.value)
  {
    match sel
    case Wildcard(_) => SelectChildren(ctx)
    case Parent(_) => SelectParents(ctx)
    case Name(name) =>
      var f := NameFn(name.val);
      ApplyMatchedWf(ctx, f);
      ApplyMatched(ctx, f)
  }

  /** The bounds and stride of `[start:end:step]` with their defaults: from 0, to
      `i64::MAX` (so an open end slices past any array and panics), by 1. */
  function StepRangeParts(sr: Ast.StepRange): (r: (Ast.I64, Ast.I64, Ast.I64))
    ensures r.2 != 0
    ensures sr.end.None? ==> r.1 == I64Max
  {
    (StartOr(sr.start, 0), StartOr(sr.end, I64Max),
     match sr.step case None => 1 case Some(s) => s.val)
  }

  function StartOr(lit: Option<Ast.IntLit>, default: Ast.I64): Ast.I64 {
    match lit case None => default case Some(l) => l.val
  }

  /** `BracketInner::eval`. A union has no case in the evaluator and panics. */
  function EvalBracket(ctx: Ctx, b: Ast.BracketSelector): (r: Outcome<Ctx>)
    ensures r.Return? ==> r.value.doc == ctx.doc && r.value.root == ctx.root && r.value.parents == ctx.parents
    ensures CtxWf(ctx) && r.Return? ==> CtxWf(r.value)
    ensures b.Union? ==> r.Panic?
    decreases b, 2
  {
    match b
    case Union(_) => Panic(TodoMsg)
    case StepRange(sr) =>
      var (start, end, step) := StepRangeParts(sr);
      (match StepHandle(step)
       case Panic(msg) => Panic(msg)
       case Return(rs) =>
         var f := StepRangeFn(start, end, rs.0, rs.1);
         ApplyMatchedWf(ctx, f);
         ApplyMatched(ctx, f))
    case Range(rg) =>
      var start := StartOr(rg.start, 0);
      var end := StartOr(rg.end, I64Max);
      var f := RangeFn(start, end);
      ApplyMatchedWf(ctx, f);
      ApplyMatched(ctx, f)
    case Wildcard(_) => SelectChildren(ctx)
    case Parent(_) => SelectParents(ctx)
    case Path(sp) => EvalMatch(ctx, sp)
    case Filter(f) => FilterSel(ctx, f)
    case Literal(lit) =>
      (match lit
       case Int(i) =>
         var f := IntFn(i.val);
         ApplyMatchedWf(ctx, f);
         ApplyMatched(ctx, f)
       case String(s) =>
         var key := Ast.StringLitAsStr(s);
         var f := StrFn(key);
         ApplyMatchedWf(ctx, f);
         ApplyMatched(ctx, f))
  }

  /** `SubPath::eval_match`: for each entry, the values the sub-path matches are used as keys
      into the entry. */
  function EvalMatch(ctx: Ctx, sp: Ast.SubPath): (r: Outcome<Ctx>)
    ensures r.Return? ==> r.value.doc == ctx.doc && r.value.root == ctx.root && r.value.parents == ctx.parents
    ensures CtxWf(ctx) && r.Return? ==> CtxWf(r.value)
    decreases sp, 4
  {
    var f := MatchFn(sp);
    ApplyMatchedWf(ctx, f);
    ApplyMatched(ctx, f)
  }

  function MatchFn(sp: Ast.SubPath): Closure
    decreases sp, 3
  {
    (c, a) => MatchOne(c, a, sp)
  }

  /** The closure of `eval_match` for one entry `a`. */
  function MatchOne(ctx: Ctx, a: NodeId, sp: Ast.SubPath): (r: Outcome<seq<NodeId>>)
    ensures CtxWf(ctx) && r.Return? ==> forall w :: w in r.value ==> w < |ctx.doc|
    decreases sp, 2
  {
    match SubMatched(ctx, a, sp)
    case Panic(msg) => Panic(msg)
    case Return(ms) =>
      (match MatchKeys(ctx, ms, sp.tilde.Some?)
       case Panic(msg) => Panic(msg)
       case Return(keys) => KeysSel(ctx, a, keys))
  }

  /** What a sub-path matches from entry `a`: a fresh context rooted at the document root
      (`$`) or at `a` (`@`), sharing the parent map, run through the segments. */
  function SubMatched(ctx: Ctx, a: NodeId, sp: Ast.SubPath): (r: Outcome<seq<NodeId>>)
    ensures CtxWf(ctx) && (sp.kind.Relative? ==> a < |ctx.doc|) && r.Return? ==>
      forall w :: w in r.value ==> w < |ctx.doc|
    decreases sp, 1
  {
    var root := if sp.kind.Relative? then a else ctx.root;
    match EvalSegments(NewParents(ctx.doc, root, ctx.parents), sp.segments)
    case Panic(msg) => Panic(msg)
    case Return(c) => Return(IntoMatched(c))
  }

  /** `Filter::eval`: keeps the entries for which the expression yields `true`. */
  function FilterSel(ctx: Ctx, f: Ast.Filter): (r: Outcome<Ctx>)
    ensures r.Return? ==> r.value.doc == ctx.doc && r.value.root == ctx.root && r.value.parents == ctx.parents
    ensures CtxWf(ctx) && r.Return? ==> CtxWf(r.value)
    ensures r.Return? ==> forall w :: w in r.value.matched ==> w in ctx.matched
    decreases f, 1
  {
    var g := FilterFn(f.inner);
    ApplyMatchedWf(ctx, g);
    ApplyMatched(ctx, g)
  }

  function FilterFn(e: Ast.FilterExpr): Closure
    decreases e, 3
  {
    (c, a) => FilterOne(c, a, e)
  }

  /** The closure of `Filter::eval` for one entry. */
  function FilterOne(ctx: Ctx, a: NodeId, e: Ast.FilterExpr): (r: Outcome<seq<NodeId>>)
    ensures r.Panic? <==> ExprEval(ctx, e, a).Panic?
    ensures r.Return? ==> (r.value == [a] <==> ExprEval(ctx, e, a) == Return(Some(Bool(true))))
    ensures r.Return? ==> (r.value == [] <==> ExprEval(ctx, e, a) != Return(Some(Bool(true))))
    decreases e, 2
  {
    match ExprEval(ctx, e, a)
    case Panic(msg) => Panic(msg)
    case Return(v) => Return(if v == Some(Bool(true)) then [a] else [])
  }

  /** `FilterExpr::eval_expr` on entry `a`: `None` where an operand is missing or has the
      wrong type. The left operand of a binary operator is evaluated first and, when it is
      missing, the right one is not evaluated; otherwise both are, whatever the operator. */
  function ExprEval(ctx: Ctx, e: Ast.FilterExpr, a: NodeId): (r: Outcome<Option<Json>>)
    ensures e.Lit? ==> r == Return(Some(LitValue(e.lit)))
    ensures e.Path? ==> r == SubPathExpr(ctx, e.path, a)
    ensures e.Parens? ==> r == ExprEval(ctx, e.inner, a)
    ensures e.Unary? && r.Return? && r.value.Some? ==>
      (e.op.Not? ==> r.value.value.Bool?) && (e.op.Neg? ==> r.value.value.Number?)
    ensures e.Binary? && r.Return? && r.value.Some? ==>
      ((e.binop.And? || e.binop.Or? || e.binop.Eq? || e.binop.Le? || e.binop.Lt? || e.binop.Gt? || e.binop.Ge?)
       ==> r.value.value.Bool?)
    ensures e.Binary? && e.binop.Rem? ==> r.Panic? || r == Return(None)
    ensures e.Unary? && ExprEval(ctx, e.operand, a).Panic? ==> r == ExprEval(ctx, e.operand, a)
    ensures e.Unary? && ExprEval(ctx, e.operand, a) == Return(None) ==> r == Return(None)
    ensures e.Unary? && e.op.Not? && ExprEval(ctx, e.operand, a).Return? && ExprEval(ctx, e.operand, a).value.Some? ==>
      var v := ExprEval(ctx, e.operand, a).value.value;
      r == if v.Bool? then Return(Some(Bool(!v.b))) else Return(None)
    ensures e.Unary? && e.op.Neg? && ExprEval(ctx, e.operand, a).Return? && ExprEval(ctx, e.operand, a).value.Some? ==>
      var v := ExprEval(ctx, e.operand, a).value.value;
      (!v.Number? ==> r == Return(None))
      && (v.Number? && NegNumber(v.n).Return? ==> r == Return(Some(NegNumber(v.n).value)))
      && (v.Number? && NegNumber(v.n).Panic? ==> r == Panic(NegNumber(v.n).message))
    ensures e.Binary? && ExprEval(ctx, e.lhs, a).Return? && ExprEval(ctx, e.lhs, a).value.Some?
                      && ExprEval(ctx, e.rhs, a).Return? && ExprEval(ctx, e.rhs, a).value.Some? ==>
      r == BinaryValue(e.binop, ExprEval(ctx, e.lhs, a).value.value, ExprEval(ctx, e.rhs, a).value.value)
    decreases e, 1
  {
    match e
    case Unary(op, inner) =>
      (match ExprEval(ctx, inner, a)
       case Panic(msg) => Panic(msg)
       case Return(None) => Return(None)
       case Return(Some(v)) =>
         (match op
          case Neg(_) =>
            (match v
             case Number(n) =>
               (match NegNumber(n)
                case Panic(msg) => Panic(msg)
                case Return(w) => Return(Some(w)))
             case _ => Return(None))
          case Not(_) =>
            (match v
             case Bool(b) => Return(Some(Bool(!b)))
             case _ => Return(None))))
    case Binary(lhs, op, rhs) =>
      (match ExprEval(ctx, lhs, a)
       case Panic(msg) => Panic(msg)
       case Return(None) => Return(None)
       case Return(Some(l)) =>
         (match ExprEval(ctx, rhs, a)
          case Panic(msg) => Panic(msg)
          case Return(None) => Return(None)
          case Return(Some(rv)) => BinaryValue(op, l, rv)))
    case Path(sp) => SubPathExpr(ctx, sp, a)
    case Lit(lit) => Return(Some(LitValue(lit)))
    case Parens(_, inner) => ExprEval(ctx, inner, a)
  }

  /** `SubPath::eval_expr`: the single value the sub-path matches (or its index in its
      parent, with `~`); nothing unless it matches exactly one node. */
  function SubPathExpr(ctx: Ctx, sp: Ast.SubPath, a: NodeId): (r: Outcome<Option<Json>>)
    ensures r.Return? && r.value.Some? ==>
      SubMatched(ctx, a, sp).Return? && |SubMatched(ctx, a, sp).value| == 1
    decreases sp, 2
  {
    match SubMatched(ctx, a, sp)
    case Panic(msg) => Panic(msg)
    case Return(ms) =>
      if |ms| != 1 then Return(None)
      else if sp.tilde.Some? then
        (match IdxOf(ctx, ms[0])
         case None => Return(None)
         case Some(idx) => Return(Some(ToValue(idx))))
      else Return(Some(ToJson(ctx.doc, ms[0])))
  }

  /** The matched nodes as keys: their values, or with `~` their indices in their parents
      (`idx_of(..).unwrap()` panics for a node without a recorded parent). */
  function MatchKeys(ctx: Ctx, ms: seq<NodeId>, tilde: bool): (r: Outcome<seq<Json>>)
    ensures !tilde ==> r == Return(Values(ctx.doc, ms))
    ensures tilde ==> (r.Panic? <==> exists i :: 0 <= i < |ms| && IdxOf(ctx, ms[i]).None?)
    ensures tilde && r.Return? ==> |r.value| == |ms|
    ensures tilde && r.Return? ==>
      forall i :: 0 <= i < |ms| ==> IdxOf(ctx, ms[i]).Some? && r.value[i] == ToValue(IdxOf(ctx, ms[i]).value)
  {
    if !tilde then Return(Values(ctx.doc, ms))
    else if ms == [] then Return([])
    else match IdxOf(ctx, ms[0])
      case None => Panic(UnwrapNone)
      case Some(idx) =>
        (match MatchKeys(ctx, ms[1..], tilde)
         case Panic(msg) =>
           assert forall i :: 1 <= i < |ms| ==> ms[i] == ms[1..][i - 1];
           Panic(msg)
         case Return(rest) =>
           assert forall i :: 1 <= i < |ms| ==> ms[i] == ms[1..][i - 1];
           Return([ToValue(idx)] + rest))
  }

  /** The inner `flat_map` of `eval_match`: each key selects from entry `a`. */
  function KeysSel(ctx: Ctx, a: NodeId, keys: seq<Json>): (r: Outcome<seq<NodeId>>)
    ensures r.Panic? <==> exists i :: 0 <= i < |keys| && KeySel(ctx, a, keys[i]).Panic?
    ensures CtxWf(ctx) && r.Return? ==> forall w :: w in r.value ==> w < |ctx.doc|
  {
    if keys == [] then Return([])
    else match KeySel(ctx, a, keys[0])
      case Panic(msg) => Panic(msg)
      case Return(ys) =>
        (match KeysSel(ctx, a, keys[1..])
         case Panic(msg) =>
           assert forall i :: 1 <= i < |keys| ==> keys[i] == keys[1..][i - 1];
           Panic(msg)
         case Return(zs) =>
           assert forall i :: 1 <= i < |keys| ==> keys[i] == keys[1..][i - 1];
           Return(ys + zs))
  }
}
