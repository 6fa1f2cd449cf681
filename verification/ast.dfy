/** The syntax tree of a path (src/ast.rs). Every token keeps its source span. */
module Ast {
  import opened Wrappers
  import opened Text
  import opened Spans
  import opened Tokens

  /** A raw identifier, the `foo` in `.foo`. */
  datatype Ident = Ident(span: Span, val: string)

  /** A boolean literal. */
  datatype BoolLit = BoolLit(span: Span, val: bool)

  /** The keyword `null`. */
  datatype NullLit = NullLit(span: Span)

  /** An `i64` value. */
  type I64 = x: int | I64Min <= x <= I64Max

  /** A `NonZeroI64` value. */
  type NonZeroI64 = x: int | I64Min <= x <= I64Max && x != 0 witness 1

  /** An integer literal such as `-3`. */
  datatype IntLit = IntLit(span: Span, val: I64)

  /** An integer literal other than `0`. */
  datatype NonZeroIntLit = NonZeroIntLit(span: Span, val: NonZeroI64)

  /** The characters between the quotes of a string literal. */
  datatype StringContent = StringContent(span: Span, val: string)

  /** A string literal, apostrophe- or quote-delimited. */
  datatype StringLit =
    | Single(start: Token, content: StringContent, end: Token)
    | Double(start: Token, content: StringContent, end: Token)

  /** A compiled path: `$`, its segments, and an optional trailing `~`. */
  datatype Path = Path(dollar: Token, segments: seq<Segment>, tilde: Option<Token>)

  /** A sub-path inside a bracket or a filter, based on the root or on the current node. */
  datatype SubPath = SubPath(kind: PathKind, segments: seq<Segment>, tilde: Option<Token>)

  datatype PathKind = Root(dollar: Token) | Relative(at: Token)

  /** One segment of a path. */
  datatype Segment =
    | Dot(dot: Token, sel: RawSelector)
    | Bracket(bracket: Wrap, inner: BracketSelector)
    | Recursive(dotdot: Token, raw: Option<RawSelector>)

  /** The selector after a dot. */
  datatype RawSelector = Wildcard(star: Token) | Parent(caret: Token) | Name(name: Ident)

  /** `[start:end:step]` */
  datatype StepRange = StepRange(
    start: Option<IntLit>, colon1: Token, end: Option<IntLit>, colon2: Token, step: Option<NonZeroIntLit>)

  /** `[start:end]` */
  datatype Range = Range(start: Option<IntLit>, colon: Token, end: Option<IntLit>)

  /** A component of a bracket union. */
  datatype UnionComponent =
    | StepRange(sr: StepRange)
    | Range(r: Range)
    | Parent(caret: Token)
    | Path(path: SubPath)
    | Filter(filter: Filter)
    | Literal(lit: BracketLit)

  /** The inside of a bracket segment. */
  datatype BracketSelector =
    | Union(comps: seq<UnionComponent>)
    | StepRange(sr: StepRange)
    | Range(r: Range)
    | Wildcard(star: Token)
    | Parent(caret: Token)
    | Path(path: SubPath)
    | Filter(filter: Filter)
    | Literal(lit: BracketLit)

  /** A literal inside brackets, `0` or `'a'`. */
  datatype BracketLit = Int(intLit: IntLit) | String(str: StringLit)

  /** `?(expr)` */
  datatype Filter = Filter(question: Token, paren: Wrap, inner: FilterExpr)

  /** A literal inside an expression. */
  datatype ExprLit = Int(intLit: IntLit) | String(str: StringLit) | Bool(boolLit: BoolLit) | Null(nullLit: NullLit)

  /** An expression inside a filter. */
  datatype FilterExpr =
    | Unary(op: UnOp, operand: FilterExpr)
    | Binary(lhs: FilterExpr, binop: BinOp, rhs: FilterExpr)
    | Path(path: SubPath)
    | Lit(lit: ExprLit)
    | Parens(paren: Wrap, inner: FilterExpr)

  datatype UnOp = Neg(dash: Token) | Not(bang: Token)

  datatype BinOp =
    | And(tok: Token) | Or(tok: Token)
    | Eq(tok: Token) | Le(tok: Token) | Lt(tok: Token) | Gt(tok: Token) | Ge(tok: Token)
    | Add(tok: Token) | Sub(tok: Token) | Mul(tok: Token) | Div(tok: Token) | Rem(tok: Token)

  // Accessors

  /** `StringLit::as_str` (and the two quote styles' `as_str`): the content, whatever the
      quotes. */
  function StringLitAsStr(s: StringLit): (r: string)
    ensures r == s.content.val
  {
    match s
    case Single(_, c, _) => c.val
    case Double(_, c, _) => c.val
  }

  /** `PathKind::is_root` */
  function IsRoot(k: PathKind): (r: bool)
    ensures r != IsRelative(k)
  {
    k.Root?
  }

  /** `PathKind::is_relative` */
  function IsRelative(k: PathKind): (r: bool)
    ensures r <==> k.Relative?
  {
    k.Relative?
  }

  /** `SubPath::is_id`: the sub-path yields the indices of its matches, not the matches. */
  function IsId(p: SubPath): (r: bool)
    ensures r <==> p.tilde.Some?
  {
    p.tilde.Some?
  }

  /** `StepRange::start` / `end` / `step` and the matching `Range` accessors: the literal
      values, or `None` for an absent part. */
  function StartOf(lit: Option<IntLit>): (r: Option<I64>)
    ensures r.Some? <==> lit.Some?
    ensures r.Some? ==> r.value == lit.value.val
  {
    match lit
    case Some(l) => Some(l.val)
    case None => None
  }

  /** `StepRange::step`: never `Some(0)`. */
  function StepOf(sr: StepRange): (r: Option<int>)
    ensures r.Some? <==> sr.step.Some?
    ensures r.Some? ==> r.value != 0 && r.value == sr.step.value.val
  {
    match sr.step
    case Some(l) => Some(l.val as int)
    case None => None
  }

  /** `BracketLit::is_int` */
  function BracketLitIsInt(l: BracketLit): (r: bool)
    ensures r != BracketLitIsStr(l)
  {
    l.Int?
  }

  /** `BracketLit::is_str` */
  function BracketLitIsStr(l: BracketLit): (r: bool)
    ensures r <==> l.String?
  {
    l.String?
  }

  /** `BracketLit::as_int` */
  function BracketLitAsInt(l: BracketLit): (r: Option<I64>)
    ensures r.Some? <==> BracketLitIsInt(l)
    ensures r.Some? ==> r.value == l.intLit.val
  {
    if l.Int? then Some(l.intLit.val) else None
  }

  /** `BracketLit::as_str` */
  function BracketLitAsStr(l: BracketLit): (r: Option<string>)
    ensures r.Some? <==> BracketLitIsStr(l)
    ensures r.Some? ==> r.value == StringLitAsStr(l.str)
  {
    if l.String? then Some(StringLitAsStr(l.str)) else None
  }

  /** `ExprLit::is_int` */
  function ExprLitIsInt(l: ExprLit): (r: bool)
    ensures r ==> !ExprLitIsStr(l) && !ExprLitIsBool(l) && !ExprLitIsNull(l)
    ensures r || ExprLitIsStr(l) || ExprLitIsBool(l) || ExprLitIsNull(l)
  {
    l.Int?
  }

  /** `ExprLit::is_str` */
  function ExprLitIsStr(l: ExprLit): (r: bool)
    ensures r ==> !ExprLitIsBool(l) && !ExprLitIsNull(l)
    ensures r <==> l.String?
  {
    l.String?
  }

  /** `ExprLit::is_bool` */
  function ExprLitIsBool(l: ExprLit): (r: bool)
    ensures r ==> !ExprLitIsNull(l)
    ensures r <==> l.Bool?
  {
    l.Bool?
  }

  /** `ExprLit::is_null` */
  function ExprLitIsNull(l: ExprLit): (r: bool)
    ensures r <==> l.Null?
  {
    l.Null?
  }

  /** `ExprLit::as_int` */
  function ExprLitAsInt(l: ExprLit): (r: Option<I64>)
    ensures r.Some? <==> ExprLitIsInt(l)
    ensures r.Some? ==> r.value == l.intLit.val
  {
    if l.Int? then Some(l.intLit.val) else None
  }

  /** `ExprLit::as_str` */
  function ExprLitAsStr(l: ExprLit): (r: Option<string>)
    ensures r.Some? <==> ExprLitIsStr(l)
    ensures r.Some? ==> r.value == StringLitAsStr(l.str)
  {
    if l.String? then Some(StringLitAsStr(l.str)) else None
  }

  /** `ExprLit::as_bool` */
  function ExprLitAsBool(l: ExprLit): (r: Option<bool>)
    ensures r.Some? <==> ExprLitIsBool(l)
    ensures r.Some? ==> r.value == l.boolLit.val
  {
    if l.Bool? then Some(l.boolLit.val) else None
  }

  /** `TryFrom<BracketSelector> for UnionComponent`: every selector a union may hold keeps
      its payload; a union or a wildcard is refused. */
  function TryIntoComponent(b: BracketSelector): (r: Result<UnionComponent, ()>)
    ensures r.Err? <==> b.Union? || b.Wildcard?
    ensures r.Ok? ==> FromComponent(r.value) == b
  {
    match b
    case StepRange(sr) => Ok(UnionComponent.StepRange(sr))
    case Range(r) => Ok(UnionComponent.Range(r))
    case Parent(p) => Ok(UnionComponent.Parent(p))
    case Path(p) => Ok(UnionComponent.Path(p))
    case Filter(f) => Ok(UnionComponent.Filter(f))
    case Literal(l) => Ok(UnionComponent.Literal(l))
    case _ => Err(())
  }

  /** The bracket selector a union component stands for. */
  function FromComponent(c: UnionComponent): (b: BracketSelector)
    ensures !b.Union? && !b.Wildcard?
  {
    match c
    case StepRange(sr) => BracketSelector.StepRange(sr)
    case Range(r) => BracketSelector.Range(r)
    case Parent(p) => BracketSelector.Parent(p)
    case Path(p) => BracketSelector.Path(p)
    case Filter(f) => BracketSelector.Filter(f)
    case Literal(l) => BracketSelector.Literal(l)
  }

  /** Converting a component to a selector and back gives the component. */
  lemma ComponentRoundTrip(c: UnionComponent)
    ensures TryIntoComponent(FromComponent(c)) == Ok(c)
  {
  }
}
