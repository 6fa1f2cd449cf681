/** The `Spanned` implementations of the syntax tree (src/ast/span.rs:86-359). A span is an
    `Outcome` because a union with no components panics (`comps[0]`). */
module SpanOf {
  import opened Wrappers
  import opened Spans
  import opened Tokens
  import opened Ast

  /** The span of a wrapping token: from its opening to its closing delimiter. */
  function WrapSpan(w: Wrap): Span {
    Join(w.open, w.close)
  }

  function StringLitSpan(s: StringLit): Span {
    Join(Join(s.start.span, s.content.span), s.end.span)
  }

  function KindSpan(k: PathKind): Span {
    match k
    case Root(d) => d.span
    case Relative(a) => a.span
  }

  function RawSelectorSpan(r: RawSelector): Span {
    match r
    case Wildcard(s) => s.span
    case Parent(c) => c.span
    case Name(i) => i.span
  }

  function BracketLitSpan(l: BracketLit): Span {
    match l
    case Int(i) => i.span
    case String(s) => StringLitSpan(s)
  }

  function ExprLitSpan(l: ExprLit): Span {
    match l
    case Int(i) => i.span
    case String(s) => StringLitSpan(s)
    case Bool(b) => b.span
    case Null(n) => n.span
  }

  function UnOpSpan(op: UnOp): Span {
    match op
    case Neg(d) => d.span
    case Not(b) => b.span
  }

  function BinOpSpan(op: BinOp): Span {
    op.tok.span
  }

  /** `Spanned for StepRange`: the start (or the first colon), then each part present. */
  function StepRangeSpan(sr: StepRange): (r: Span)
    ensures Within(sr.colon1.span, r) && Within(sr.colon2.span, r)
    ensures sr.start.Some? ==> Within(sr.start.value.span, r)
    ensures sr.end.Some? ==> Within(sr.end.value.span, r)
    ensures sr.step.Some? ==> Within(sr.step.value.span, r)
  {
    var out := match sr.start
      case None => sr.colon1.span
      case Some(s) => Join(s.span, sr.colon1.span);
    var out := match sr.end
      case Some(e) => Join(out, e.span)
      case None => out;
    var out := Join(out, sr.colon2.span);
    match sr.step
    case Some(st) => Join(out, st.span)
    case None => out
  }

  /** `Spanned for Range` */
  function RangeSpan(r: Range): (sp: Span)
    ensures Within(r.colon.span, sp)
    ensures r.start.Some? ==> Within(r.start.value.span, sp)
    ensures r.end.Some? ==> Within(r.end.value.span, sp)
  {
    var out := match r.start
      case None => r.colon.span
      case Some(s) => Join(s.span, r.colon.span);
    match r.end
    case Some(e) => Join(out, e.span)
    case None => out
  }

  function JoinTilde(acc: Span, tilde: Option<Token>): Span {
    match tilde
    case Some(t) => Join(acc, t.span)
    case None => acc
  }

  /** `Spanned for Path`: the `$` joined with every segment, then the tilde. */
  function PathSpan(p: Ast.Path): Outcome<Span>
    decreases p
  {
    match FoldSegments(p.dollar.span, p.segments)
    case Return(out) => Return(JoinTilde(out, p.tilde))
    case Panic(m) => Panic(m)
  }

  /** `Spanned for SubPath`: the `$` or `@` joined with every segment, then the tilde. */
  function SubPathSpan(p: SubPath): Outcome<Span>
    decreases p
  {
    match FoldSegments(KindSpan(p.kind), p.segments)
    case Return(out) => Return(JoinTilde(out, p.tilde))
    case Panic(m) => Panic(m)
  }

  /** The loop `out = out.join(s.span())` over the segments. */
  function FoldSegments(acc: Span, segs: seq<Segment>): Outcome<Span>
    decreases segs
  {
    if segs == [] then Return(acc)
    else match SegmentSpan(segs[0])
      case Panic(m) => Panic(m)
      case Return(s) => FoldSegments(Join(acc, s), segs[1..])
  }

  /** `Spanned for Segment` */
  function SegmentSpan(seg: Segment): Outcome<Span>
    decreases seg
  {
    match seg
    case Bracket(b, i) =>
      (match BracketSelectorSpan(i)
       case Return(s) => Return(Join(WrapSpan(b), s))
       case Panic(m) => Panic(m))
    case Dot(d, i) => Return(Join(d.span, RawSelectorSpan(i)))
    case Recursive(r, i) =>
      match i
      case None => Return(r.span)
      case Some(sel) => Return(Join(r.span, RawSelectorSpan(sel)))
  }

  /** `Spanned for BracketSelector`; a union with no components panics. */
  function BracketSelectorSpan(b: BracketSelector): Outcome<Span>
    decreases b
  {
    match b
    case Union(comps) =>
      if |comps| == 0 then Panic("index out of bounds: the len is 0 but the index is 0")
      else (match ComponentSpan(comps[0])
        case Panic(m) => Panic(m)
        case Return(first) => FoldComponents(first, comps[1..]))
    case StepRange(sr) => Return(StepRangeSpan(sr))
    case Range(r) => Return(RangeSpan(r))
    case Wildcard(s) => Return(s.span)
    case Parent(c) => Return(c.span)
    case Path(sp) => SubPathSpan(sp)
    case Filter(f) => FilterSpan(f)
    case Literal(lit) => Return(BracketLitSpan(lit))
  }

  function FoldComponents(acc: Span, comps: seq<UnionComponent>): Outcome<Span>
    decreases comps
  {
    if comps == [] then Return(acc)
    else match ComponentSpan(comps[0])
      case Panic(m) => Panic(m)
      case Return(s) => FoldComponents(Join(acc, s), comps[1..])
  }

  /** `Spanned for UnionComponent` */
  function ComponentSpan(c: UnionComponent): Outcome<Span>
    decreases c
  {
    match c
    case StepRange(sr) => Return(StepRangeSpan(sr))
    case Range(r) => Return(RangeSpan(r))
    case Parent(p) => Return(p.span)
    case Path(sp) => SubPathSpan(sp)
    case Filter(f) => FilterSpan(f)
    case Literal(lit) => Return(BracketLitSpan(lit))
  }

  /** `Spanned for Filter`: `?`, joined with the parentheses, joined with the expression. */
  function FilterSpan(f: Ast.Filter): Outcome<Span>
    decreases f
  {
    match FilterExprSpan(f.inner)
    case Return(i) => Return(Join(Join(f.question.span, WrapSpan(f.paren)), i))
    case Panic(m) => Panic(m)
  }

  /** `Spanned for FilterExpr` */
  function FilterExprSpan(e: FilterExpr): Outcome<Span>
    decreases e
  {
    match e
    case Unary(op, x) =>
      (match FilterExprSpan(x)
       case Panic(m) => Panic(m)
       case Return(xs) => Return(Join(UnOpSpan(op), xs)))
    case Binary(l, op, r) =>
      (match FilterExprSpan(l)
       case Panic(m) => Panic(m)
       case Return(ls) =>
         match FilterExprSpan(r)
         case Panic(m) => Panic(m)
         case Return(rs) => Return(Join(Join(ls, BinOpSpan(op)), rs)))
    case Path(sp) => SubPathSpan(sp)
    case Lit(l) => Return(ExprLitSpan(l))
    case Parens(p, x) =>
      match FilterExprSpan(x)
      case Panic(m) => Panic(m)
      case Return(xs) => Return(Join(WrapSpan(p), xs))
  }

  // Properties

  lemma WithinJoin(a: Span, b: Span, c: Span)
    ensures Within(a, Join(a, b)) && Within(b, Join(a, b))
    ensures Within(c, a) ==> Within(c, Join(a, b))
  {
  }

  /** The fold over the segments succeeds exactly when every segment has a span, and then
      covers the starting span and every segment's span. */
  lemma {:induction false} FoldSegmentsCovers(acc: Span, segs: seq<Segment>)
    ensures FoldSegments(acc, segs).Return? <==>
      forall i :: 0 <= i < |segs| ==> SegmentSpan(segs[i]).Return?
    ensures FoldSegments(acc, segs).Return? ==> Within(acc, FoldSegments(acc, segs).value)
    ensures FoldSegments(acc, segs).Return? ==> forall i :: 0 <= i < |segs| ==>
      Within(SegmentSpan(segs[i]).value, FoldSegments(acc, segs).value)
    decreases segs
  {
    if segs != [] {
      match SegmentSpan(segs[0])
      case Panic(_) =>
      case Return(s) =>
        var j := Join(acc, s);
        FoldSegmentsCovers(j, segs[1..]);
        assert forall i :: 0 < i < |segs| ==> segs[i] == segs[1..][i - 1];
    }
  }

  /** The span of a path covers the `$`, each segment and the tilde; it exists exactly when
      every segment has one. */
  lemma PathSpanCovers(p: Ast.Path)
    ensures PathSpan(p).Return? <==>
      forall i :: 0 <= i < |p.segments| ==> SegmentSpan(p.segments[i]).Return?
    ensures PathSpan(p).Return? ==> Within(p.dollar.span, PathSpan(p).value)
    ensures PathSpan(p).Return? ==> forall i :: 0 <= i < |p.segments| ==>
      Within(SegmentSpan(p.segments[i]).value, PathSpan(p).value)
    ensures PathSpan(p).Return? && p.tilde.Some? ==> Within(p.tilde.value.span, PathSpan(p).value)
  {
    FoldSegmentsCovers(p.dollar.span, p.segments);
  }

  /** The same for a sub-path, starting from its `$` or `@`. */
  lemma SubPathSpanCovers(p: SubPath)
    ensures SubPathSpan(p).Return? <==>
      forall i :: 0 <= i < |p.segments| ==> SegmentSpan(p.segments[i]).Return?
    ensures SubPathSpan(p).Return? ==> Within(KindSpan(p.kind), SubPathSpan(p).value)
    ensures SubPathSpan(p).Return? ==> forall i :: 0 <= i < |p.segments| ==>
      Within(SegmentSpan(p.segments[i]).value, SubPathSpan(p).value)
  {
    FoldSegmentsCovers(KindSpan(p.kind), p.segments);
  }

  lemma {:induction false} FoldComponentsCovers(acc: Span, comps: seq<UnionComponent>)
    ensures FoldComponents(acc, comps).Return? <==>
      forall i :: 0 <= i < |comps| ==> ComponentSpan(comps[i]).Return?
    ensures FoldComponents(acc, comps).Return? ==> Within(acc, FoldComponents(acc, comps).value)
    ensures FoldComponents(acc, comps).Return? ==> forall i :: 0 <= i < |comps| ==>
      Within(ComponentSpan(comps[i]).value, FoldComponents(acc, comps).value)
    decreases comps
  {
    if comps != [] {
      match ComponentSpan(comps[0])
      case Panic(_) =>
      case Return(s) =>
        FoldComponentsCovers(Join(acc, s), comps[1..]);
        assert forall i :: 0 < i < |comps| ==> comps[i] == comps[1..][i - 1];
    }
  }

  /** A union has a span only when it has a component, and then its span covers every
      component's. */
  lemma UnionSpanCovers(comps: seq<UnionComponent>)
    ensures BracketSelectorSpan(Union(comps)).Return? <==>
      |comps| > 0 && forall i :: 0 <= i < |comps| ==> ComponentSpan(comps[i]).Return?
    ensures BracketSelectorSpan(Union(comps)).Return? ==> forall i :: 0 <= i < |comps| ==>
      Within(ComponentSpan(comps[i]).value, BracketSelectorSpan(Union(comps)).value)
  {
    if |comps| > 0 {
      match ComponentSpan(comps[0])
      case Panic(_) =>
      case Return(first) =>
        FoldComponentsCovers(first, comps[1..]);
        assert forall i :: 0 < i < |comps| ==> comps[i] == comps[1..][i - 1];
    }
  }

  /** A segment's span covers its tokens; a recursive segment without a selector has exactly
      the span of its `..`. */
  lemma SegmentSpanCovers(seg: Segment)
    ensures seg.Recursive? && seg.raw.None? ==> SegmentSpan(seg) == Return(seg.dotdot.span)
    ensures seg.Recursive? && seg.raw.Some? ==>
      SegmentSpan(seg) == Return(Join(seg.dotdot.span, RawSelectorSpan(seg.raw.value)))
    ensures seg.Dot? ==> SegmentSpan(seg).Return?
    ensures seg.Dot? ==> Within(seg.dot.span, SegmentSpan(seg).value)
    ensures seg.Dot? ==> Within(RawSelectorSpan(seg.sel), SegmentSpan(seg).value)
    ensures seg.Bracket? ==> (SegmentSpan(seg).Return? <==> BracketSelectorSpan(seg.inner).Return?)
    ensures seg.Bracket? && SegmentSpan(seg).Return? ==>
      (Within(seg.bracket.open, SegmentSpan(seg).value) && Within(seg.bracket.close, SegmentSpan(seg).value)
       && Within(BracketSelectorSpan(seg.inner).value, SegmentSpan(seg).value))
  {
  }

  /** A filter's span covers the `?`, both parentheses and the expression. */
  lemma FilterSpanCovers(f: Ast.Filter)
    ensures FilterSpan(f).Return? <==> FilterExprSpan(f.inner).Return?
    ensures FilterSpan(f).Return? ==>
      (Within(f.question.span, FilterSpan(f).value)
       && Within(f.paren.open, FilterSpan(f).value) && Within(f.paren.close, FilterSpan(f).value)
       && Within(FilterExprSpan(f.inner).value, FilterSpan(f).value))
  {
  }

  /** The filter of `$[?(@ == true)]` as the grammar describes it, with its spans. */
  function TestFilter(): Ast.Filter {
    var at := SubPath(Relative(Token(Span(4, 5))), [], None);
    var lit := ExprLit.Bool(BoolLit(Span(9, 13), true));
    var expr := Binary(FilterExpr.Path(at), Eq(Token(Span(6, 8))), Lit(lit));
    Ast.Filter.Filter(Token(Span(2, 3)), Wrap(Span(3, 4), Span(13, 14)), expr)
  }

  /** On that tree, the filter's span selects `?(@ == true)` and its expression's span
      selects `@ == true`, as src/ast/tests.rs expects. */
  lemma FilterSpanOfTest()
    ensures FilterSpan(TestFilter()).Return?
    ensures GetSpan(FilterSpan(TestFilter()).value, "$[?(@ == true)]") == Return("?(@ == true)")
    ensures GetSpan(FilterExprSpan(TestFilter().inner).value, "$[?(@ == true)]") == Return("@ == true")
  {
    var src := "$[?(@ == true)]";
    assert FilterSpan(TestFilter()) == Return(Span(2, 14));
    assert FilterExprSpan(TestFilter().inner) == Return(Span(4, 13));
    assert src[2..14] == "?(@ == true)";
    assert src[4..13] == "@ == true";
  }
}
