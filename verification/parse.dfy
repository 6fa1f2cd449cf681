/** The grammar of paths (src/ast/parse.rs) as a PEG over the characters of the source:
    ordered choice, greedy repetition that gives back a failed attempt, and an abort outcome
    for the `unwrap` inside the integer literal parser. Positions are character offsets. */
module Parser {
  import opened Wrappers
  import opened Text
  import opened Spans
  import opened Tokens
  import opened Ast

  const EmptyDigits := "called `Result::unwrap()` on an `Err` value: ParseIntError { kind: Empty }"
  const DigitsOverflow := "called `Result::unwrap()` on an `Err` value: ParseIntError { kind: PosOverflow }"
  const NonZeroMsg := "Expected a non-zero integer literal"

  // Character classes (ASCII: the Unicode letters and digits of `char::is_alphanumeric`
  // and `char::is_numeric` are not modelled)

  predicate IsAlphaNum(c: char) {
    'a' <= c <= 'z' || 'A' <= c <= 'Z' || IsDigit(c)
  }

  predicate IsIdentChar(c: char) {
    IsAlphaNum(c) || c == '-' || c == '_'
  }

  /** ASCII whitespace as `char::is_whitespace` sees it. */
  predicate IsSpace(c: char) {
    c == ' ' || c == '\t' || c == '\n' || c == '\r' || c == '\U{000B}' || c == '\U{000C}'
  }

  /** The character classes the grammar reads runs of. */
  datatype CharClass = IdentChars | Digits | Spaces | NoneOf(delim: char)

  predicate InClass(c: char, cls: CharClass) {
    match cls
    case IdentChars => IsIdentChar(c)
    case Digits => IsDigit(c)
    case Spaces => IsSpace(c)
    case NoneOf(d) => c != d
  }

  /** The end of the longest run of characters of class `cls` from `pos`. */
  function TakeWhile(s: string, pos: nat, cls: CharClass): (e: nat)
    requires pos <= |s|
    ensures pos <= e <= |s|
    ensures e < |s| ==> !InClass(s[e], cls)
    decreases |s| - pos
  {
    if pos < |s| && InClass(s[pos], cls) then TakeWhile(s, pos + 1, cls) else pos
  }

  /** Every character of the run is in the class. */
  lemma {:induction false} TakeWhileRun(s: string, pos: nat, cls: CharClass)
    requires pos <= |s|
    ensures forall i :: pos <= i < TakeWhile(s, pos, cls) ==> InClass(s[i], cls)
    decreases |s| - pos
  {
    if pos < |s| && InClass(s[pos], cls) {
      TakeWhileRun(s, pos + 1, cls);
    }
  }

  // Atoms

  /** `Ident`: the longest run of letters, digits, `-` and `_`; it may be empty. */
  function IdentP(s: string, pos: nat): (r: ParseResult<Ident>)
    requires pos <= |s|
    ensures r.Parsed? && pos <= r.next <= |s| && r.value.span == Span(pos, r.next)
    ensures r.value.val == s[pos..r.next]
    ensures r.next < |s| ==> !IsIdentChar(s[r.next])
  {
    var e := TakeWhile(s, pos, IdentChars);
    Parsed(Ident(Span(pos, e), s[pos..e]), e)
  }

  /** The identifier is the longest run of identifier characters at `pos`: all of its
      characters are identifier characters, and so is not the one after it. */
  lemma IdentLongestRun(s: string, pos: nat)
    requires pos <= |s|
    ensures forall i :: pos <= i < IdentP(s, pos).next ==> IsIdentChar(s[i])
    ensures IdentP(s, pos).next < |s| ==> !IsIdentChar(s[IdentP(s, pos).next])
  {
    TakeWhileRun(s, pos, IdentChars);
    forall i | pos <= i < IdentP(s, pos).next ensures IsIdentChar(s[i]) {
      assert InClass(s[i], IdentChars);
    }
  }

  /** `s[pos..next]` is an optional `-` and then a maximal non-empty run of digits whose value,
      negated after a `-`, is `v`. */
  predicate IsIntText(s: string, pos: nat, next: nat, v: int)
    requires pos <= next <= |s|
  {
    var d := if pos < next && s[pos] == '-' then pos + 1 else pos;
    d < next && AllDigits(s[d..next]) && (next == |s| || !IsDigit(s[next]))
    && v == (if d == pos + 1 then -(DigitsValue(s[d..next]) as int) else DigitsValue(s[d..next]))
  }

  /** `IntLit`: an optional `-` and a run of digits, read with `parse::<i64>().unwrap()`, so an
      empty run or a run beyond `i64::MAX` aborts; it never fails. */
  function IntLitP(s: string, pos: nat): (r: ParseResult<IntLit>)
    requires pos <= |s|
    ensures !r.Failed?
    ensures r.Parsed? ==> pos < r.next <= |s| && r.value.span == Span(pos, r.next)
    ensures (pos == |s| || (!IsDigit(s[pos]) && s[pos] != '-')) ==> r == Aborted(EmptyDigits)
  {
    var neg := pos < |s| && s[pos] == '-';
    var d := if neg then pos + 1 else pos;
    var e := TakeWhile(s, d, Digits);
    if e == d then Aborted(EmptyDigits)
    else
      assert AllDigits(s[d..e]) by {
        TakeWhileRun(s, d, Digits);
        forall j | 0 <= j < e - d ensures IsDigit(s[d..e][j]) { assert InClass(s[d + j], Digits); }
      }
      var v := DigitsValue(s[d..e]);
      var val: int := if neg then -(v as int) else v;
      if v > I64Max then Aborted(DigitsOverflow)
      else Parsed(IntLit(Span(pos, e), val), e)
  }

  /** `NonZeroIntLit`: an integer literal, failing with "Expected a non-zero integer
      literal" when it is 0. */
  function NonZeroIntLitP(s: string, pos: nat): (r: ParseResult<NonZeroIntLit>)
    requires pos <= |s|
    ensures r.Aborted? <==> IntLitP(s, pos).Aborted?
    ensures r.Failed? <==> IntLitP(s, pos).Parsed? && IntLitP(s, pos).value.val == 0
    ensures r.Parsed? ==> IntLitP(s, pos).Parsed? && r.next == IntLitP(s, pos).next
    ensures r.Parsed? ==> r.value.val == IntLitP(s, pos).value.val && r.value.span == IntLitP(s, pos).value.span
  {
    var i := IntLitP(s, pos);
    if i.Parsed? then
      if i.value.val == 0 then Failed(pos) else Parsed(NonZeroIntLit(i.value.span, i.value.val), i.next)
    else Aborted(i.message)
  }

  /** `StringContent`: `none_of([delim])` is tried before the escape `\delim`, so a backslash
      is an ordinary character and the content runs to the first delimiter. */
  function StringContentP(s: string, pos: nat, delim: char): (r: ParseResult<StringContent>)
    requires pos <= |s|
    ensures r.Parsed? && pos <= r.next <= |s| && r.value.span == Span(pos, r.next)
    ensures r.value.val == s[pos..r.next]
    ensures delim !in r.value.val
    ensures r.next < |s| ==> s[r.next] == delim
  {
    var e := TakeWhile(s, pos, NoneOf(delim));
    assert delim !in s[pos..e] by {
      TakeWhileRun(s, pos, NoneOf(delim));
      forall j | 0 <= j < e - pos ensures s[pos..e][j] != delim { assert InClass(s[pos + j], NoneOf(delim)); }
    }
    Parsed(StringContent(Span(pos, e), s[pos..e]), e)
  }

  /** Ordered choice: the second alternative is taken only when the first fails. */
  function Or<T>(a: ParseResult<T>, b: ParseResult<T>): ParseResult<T> {
    if a.Failed? then b else a
  }

  /** `.or_not()`: an optional item, absent (and nothing read) when it fails. */
  function OrNot<T>(a: ParseResult<T>, pos: nat): (r: ParseResult<Option<T>>)
    ensures r.Failed? == false
    ensures r.Aborted? <==> a.Aborted?
    ensures a.Parsed? ==> r == Parsed(Some(a.value), a.next)
    ensures a.Failed? ==> r == Parsed(None, pos)
  {
    match a
    case Parsed(v, n) => Parsed(Some(v), n)
    case Failed(_) => Parsed(None, pos)
    case Aborted(m) => Aborted(m)
  }

  /** A quoted string: the quote, the content, the same quote. */
  function QuotedP(s: string, pos: nat, quote: TokenKind, delim: char): (r: ParseResult<(Token, StringContent, Token)>)
    requires pos <= |s| && |Tokens.Text(quote)| == 1
    ensures !r.Aborted?
    ensures r.Parsed? ==> pos < r.next <= |s|
    ensures r.Parsed? ==> pos + 2 <= r.next && r.value.1.val == s[pos + 1..r.next - 1]
  {
    var open := Just(s, pos, quote);
    if open.Failed? then Failed(pos)
    else
      var content := StringContentP(s, open.next, delim);
      var close := Just(s, content.next, quote);
      if close.Failed? then Failed(content.next)
      else Parsed((open.value, content.value, close.value), close.next)
  }

  /** `StringLit`: apostrophe-quoted, else double-quoted. */
  function StringLitP(s: string, pos: nat): (r: ParseResult<StringLit>)
    requires pos <= |s|
    ensures !r.Aborted?
    ensures r.Parsed? ==> pos < r.next <= |s|
  {
    var single := QuotedP(s, pos, TokenKind.SingleQuote, '\'');
    if single.Parsed? then Parsed(Single(single.value.0, single.value.1, single.value.2), single.next)
    else
      var double := QuotedP(s, pos, TokenKind.DoubleQuote, '"');
      if double.Parsed? then Parsed(Double(double.value.0, double.value.1, double.value.2), double.next)
      else Failed(double.at)
  }

  function BoolLitP(s: string, pos: nat): (r: ParseResult<BoolLit>)
    requires pos <= |s|
    ensures !r.Aborted?
    ensures r.Parsed? <==> StartsWith(s, pos, "true") || StartsWith(s, pos, "false")
    ensures r.Parsed? ==> pos < r.next <= |s| && r.value.val == StartsWith(s, pos, "true")
  {
    if StartsWith(s, pos, "true") then Parsed(BoolLit(Span(pos, pos + 4), true), pos + 4)
    else if StartsWith(s, pos, "false") then Parsed(BoolLit(Span(pos, pos + 5), false), pos + 5)
    else Failed(pos)
  }

  function NullLitP(s: string, pos: nat): (r: ParseResult<NullLit>)
    requires pos <= |s|
    ensures !r.Aborted?
    ensures r.Parsed? <==> StartsWith(s, pos, "null")
    ensures r.Parsed? ==> r.next == pos + 4
  {
    if StartsWith(s, pos, "null") then Parsed(NullLit(Span(pos, pos + 4)), pos + 4) else Failed(pos)
  }

  /** `BracketLit`: an integer literal, else a string literal. The integer literal parser
      never fails, so the string alternative is never taken. */
  function BracketLitP(s: string, pos: nat): (r: ParseResult<BracketLit>)
    requires pos <= |s|
    ensures !r.Failed?
    ensures r.Parsed? ==> pos < r.next <= |s| && r.value.Int?
  {
    var i := IntLitP(s, pos);
    var str := StringBracketLitP(s, pos);
    if i.Parsed? then Parsed(BracketLit.Int(i.value), i.next)
    else if i.Aborted? then Aborted(i.message)
    else str
  }

  /** The string alternative of `BracketLit`. */
  function StringBracketLitP(s: string, pos: nat): (r: ParseResult<BracketLit>)
    requires pos <= |s|
  {
    var l := StringLitP(s, pos);
    if l.Parsed? then Parsed(BracketLit.String(l.value), l.next) else Failed(pos)
  }

  /** `ExprLit`: integer, string, boolean, `null`, in that order; as above only the first is
      ever taken. */
  function ExprLitP(s: string, pos: nat): (r: ParseResult<ExprLit>)
    requires pos <= |s|
    ensures !r.Failed?
    ensures r.Parsed? ==> pos < r.next <= |s| && r.value.Int?
  {
    var i := IntLitP(s, pos);
    var other := OtherExprLitP(s, pos);
    if i.Parsed? then Parsed(ExprLit.Int(i.value), i.next)
    else if i.Aborted? then Aborted(i.message)
    else other
  }

  /** The string, boolean and `null` alternatives of `ExprLit`. */
  function OtherExprLitP(s: string, pos: nat): (r: ParseResult<ExprLit>)
    requires pos <= |s|
  {
    var l := StringLitP(s, pos);
    var b := BoolLitP(s, pos);
    var n := NullLitP(s, pos);
    if l.Parsed? then Parsed(ExprLit.String(l.value), l.next)
    else if b.Parsed? then Parsed(ExprLit.Bool(b.value), b.next)
    else if n.Parsed? then Parsed(ExprLit.Null(n.value), n.next)
    else Failed(pos)
  }

  /** `IntLit.or_not()`: an absent literal would be `None`, but the literal parser aborts
      rather than fail. */
  function OptIntLitP(s: string, pos: nat): (r: ParseResult<Option<IntLit>>)
    requires pos <= |s|
    ensures !r.Failed?
    ensures r.Parsed? ==> pos < r.next <= |s| && r.value.Some?
  {
    OrNot(IntLitP(s, pos), pos)
  }

  /** `NonZeroIntLit.or_not()`: a zero step is `None`, and the zero is left unread. */
  function OptNonZeroP(s: string, pos: nat): (r: ParseResult<Option<NonZeroIntLit>>)
    requires pos <= |s|
    ensures !r.Failed?
    ensures r.Parsed? ==> pos <= r.next <= |s|
    ensures r.Parsed? && r.value.None? ==> r.next == pos
  {
    OrNot(NonZeroIntLitP(s, pos), pos)
  }

  /** The outcome of a parse that did not succeed, carried over to a parser of another type. */
  function Propagate<T, U>(a: ParseResult<T>): (r: ParseResult<U>)
    requires !a.Parsed?
    ensures r.Aborted? <==> a.Aborted?
    ensures r.Aborted? ==> r.message == a.message
    ensures r.Failed? ==> r.at == a.at
  {
    if a.Aborted? then Aborted(a.message) else Failed(a.at)
  }

  /** `start:end`, the part both slice forms begin with: two optional literals around a
      colon. */
  function BoundsP(s: string, pos: nat): (r: ParseResult<(Option<IntLit>, Token, Option<IntLit>)>)
    requires pos <= |s|
    ensures r.Parsed? ==> pos < r.next <= |s|
  {
    var start := OptIntLitP(s, pos);
    if !start.Parsed? then Propagate(start)
    else
      var c := Just(s, start.next, TokenKind.Colon);
      if !c.Parsed? then Propagate(c)
      else
        var end := OptIntLitP(s, c.next);
        if !end.Parsed? then Propagate(end)
        else Parsed((start.value, c.value, end.value), end.next)
  }

  /** `[start:end:step]` inside the brackets. */
  function StepRangeP(s: string, pos: nat): (r: ParseResult<StepRange>)
    requires pos <= |s|
    ensures r.Parsed? ==> pos < r.next <= |s|
  {
    var b := BoundsP(s, pos);
    if !b.Parsed? then Propagate(b)
    else
      var c := Just(s, b.next, TokenKind.Colon);
      if !c.Parsed? then Propagate(c)
      else
        var step := OptNonZeroP(s, c.next);
        if !step.Parsed? then Propagate(step)
        else Parsed(StepRange.StepRange(b.value.0, b.value.1, b.value.2, c.value, step.value), step.next)
  }

  /** `[start:end]` inside the brackets. */
  function RangeP(s: string, pos: nat): (r: ParseResult<Range>)
    requires pos <= |s|
    ensures r.Parsed? ==> pos < r.next <= |s|
  {
    var b := BoundsP(s, pos);
    if !b.Parsed? then Propagate(b)
    else Parsed(Range.Range(b.value.0, b.value.1, b.value.2), b.next)
  }

  /** `DotIdent`: `*`, `^`, or a (possibly empty) name; it never fails. */
  function RawSelectorP(s: string, pos: nat): (r: ParseResult<RawSelector>)
    requires pos <= |s|
    ensures r.Parsed? && pos <= r.next <= |s|
  {
    var star := Just(s, pos, TokenKind.Star);
    var caret := Just(s, pos, TokenKind.Caret);
    if star.Parsed? then Parsed(RawSelector.Wildcard(star.value), star.next)
    else if caret.Parsed? then Parsed(RawSelector.Parent(caret.value), caret.next)
    else
      var name := IdentP(s, pos);
      Parsed(RawSelector.Name(name.value), name.next)
  }

  /** `PathKind`: `$` or `@`. */
  function PathKindP(s: string, pos: nat): (r: ParseResult<PathKind>)
    requires pos <= |s|
    ensures !r.Aborted?
    ensures r.Parsed? ==> r.next == pos + 1 <= |s|
    ensures r.Parsed? <==> StartsWith(s, pos, "$") || StartsWith(s, pos, "@")
    ensures r.Parsed? ==> (r.value.Root? <==> StartsWith(s, pos, "$"))
  {
    var dollar := Just(s, pos, TokenKind.Dollar);
    var at := Just(s, pos, TokenKind.At);
    if dollar.Parsed? then Parsed(Root(dollar.value), dollar.next)
    else if at.Parsed? then Parsed(Relative(at.value), at.next)
    else Failed(pos)
  }

  // Operator precedence of filter expressions

  /** The precedence level of a binary operator, 1 binding tightest. */
  function OpLevel(op: BinOp): (k: nat)
    ensures 1 <= k <= 5
  {
    match op
    case Mul(_) => 1 case Div(_) => 1 case Rem(_) => 1
    case Add(_) => 2 case Sub(_) => 2
    case Eq(_) => 3 case Le(_) => 3 case Lt(_) => 3 case Gt(_) => 3 case Ge(_) => 3
    case And(_) => 4
    case Or(_) => 5
  }

  /** The level of an expression: that of its operator, 0 for anything else. */
  function ExprLevel(e: FilterExpr): nat {
    if e.Binary? then OpLevel(e.binop) else 0
  }

  /** Left-associative precedence climbing shapes every binary node so that its left operand
      binds no looser and its right operand strictly tighter; a unary operand is never a
      binary expression. */
  predicate Shaped(e: FilterExpr) {
    match e
    case Binary(l, op, r) => ExprLevel(l) <= OpLevel(op) && ExprLevel(r) < OpLevel(op) && Shaped(l) && Shaped(r)
    case Unary(_, x) => ExprLevel(x) == 0 && Shaped(x)
    case Parens(_, x) => Shaped(x)
    case _ => true
  }

  predicate Leveled(e: FilterExpr, k: nat) {
    ExprLevel(e) <= k && Shaped(e)
  }

  /** The operator tokens of one precedence level, in the order they are tried (`<=` before
      `<`, `>=` before `>`). */
  function LevelTokens(k: nat): seq<TokenKind>
    requires 1 <= k <= 5
  {
    if k == 1 then [TokenKind.Star, TokenKind.RightSlash, TokenKind.Percent]
    else if k == 2 then [TokenKind.Plus, TokenKind.Dash]
    else if k == 3 then [TokenKind.EqEq, TokenKind.LessEq, TokenKind.GreaterEq, TokenKind.LessThan, TokenKind.GreaterThan]
    else if k == 4 then [TokenKind.DoubleAnd]
    else [TokenKind.DoublePipe]
  }

  /** The operator a token of a level stands for. */
  function MakeOp(k: TokenKind, t: Token): BinOp {
    match k
    case Star => BinOp.Mul(t)
    case RightSlash => BinOp.Div(t)
    case Percent => BinOp.Rem(t)
    case Plus => BinOp.Add(t)
    case Dash => BinOp.Sub(t)
    case EqEq => BinOp.Eq(t)
    case LessEq => BinOp.Le(t)
    case GreaterEq => BinOp.Ge(t)
    case LessThan => BinOp.Lt(t)
    case GreaterThan => BinOp.Gt(t)
    case DoubleAnd => BinOp.And(t)
    case _ => BinOp.Or(t)
  }

  /** The first of `kinds` whose text is at `pos`. */
  function FirstToken(s: string, pos: nat, kinds: seq<TokenKind>): (r: ParseResult<(TokenKind, Token)>)
    ensures !r.Aborted?
    ensures r.Parsed? ==> r.value.0 in kinds && r.next == pos + |Tokens.Text(r.value.0)| <= |s|
    ensures r.Parsed? ==> StartsWith(s, pos, Tokens.Text(r.value.0))
    ensures r.Failed? <==> forall i :: 0 <= i < |kinds| ==> !StartsWith(s, pos, Tokens.Text(kinds[i]))
  {
    if kinds == [] then Failed(pos)
    else
      var t := Just(s, pos, kinds[0]);
      if t.Parsed? then Parsed((kinds[0], t.value), t.next) else FirstToken(s, pos, kinds[1..])
  }

  lemma MakeOpLevel(kind: TokenKind, t: Token, k: nat)
    requires 1 <= k <= 5 && kind in LevelTokens(k)
    ensures OpLevel(MakeOp(kind, t)) == k
  {
  }

  /** `ops.padded()`: whitespace, an operator of level `k`, whitespace. */
  function PaddedOpP(s: string, pos: nat, k: nat): (r: ParseResult<BinOp>)
    requires pos <= |s| && 1 <= k <= 5
    ensures !r.Aborted?
    ensures r.Parsed? ==> pos < r.next <= |s| && OpLevel(r.value) == k
  {
    var w := TakeWhile(s, pos, Spaces);
    var t := FirstToken(s, w, LevelTokens(k));
    if t.Failed? then Failed(pos)
    else
      TokenWidths(t.value.0);
      MakeOpLevel(t.value.0, t.value.1, k);
      Parsed(MakeOp(t.value.0, t.value.1), TakeWhile(s, t.next, Spaces))
  }

  /** `UnOp.repeated()`: any run of `-` and `!`. */
  function UnOpsP(s: string, pos: nat): (r: ParseResult<seq<UnOp>>)
    requires pos <= |s|
    ensures r.Parsed? && pos <= r.next <= |s|
    ensures r.next == pos + |r.value|
    decreases |s| - pos
  {
    var dash := Just(s, pos, TokenKind.Dash);
    var bang := Just(s, pos, TokenKind.Bang);
    if dash.Parsed? then
      var rest := UnOpsP(s, dash.next);
      Parsed([Neg(dash.value)] + rest.value, rest.next)
    else if bang.Parsed? then
      var rest := UnOpsP(s, bang.next);
      Parsed([Not(bang.value)] + rest.value, rest.next)
    else Parsed([], pos)
  }

  /** `foldr` of the prefix operators over the operand: the first operator is outermost. */
  function FoldUnary(ops: seq<UnOp>, e: FilterExpr): (r: FilterExpr)
    ensures ExprLevel(e) == 0 && Shaped(e) ==> Leveled(r, 0)
    ensures ops != [] ==> r.Unary? && r.op == ops[0]
    ensures ops == [] ==> r == e
  {
    if ops == [] then e else Unary(ops[0], FoldUnary(ops[1..], e))
  }

  // The recursive core: operators, bracket contents, sub-paths and filter expressions.
  // Each function decreases the unread input, then a rank that orders the calls made at
  // one position.

  /** `Operator.repeated()`: operators as long as one parses. */
  function OperatorsP(s: string, pos: nat): (r: ParseResult<seq<Segment>>)
    requires pos <= |s|
    ensures !r.Failed?
    ensures r.Parsed? ==> pos <= r.next <= |s|
    ensures r.Parsed? && r.value == [] ==> r.next == pos
    decreases |s| - pos, 4
  {
    match OperatorP(s, pos)
    case Aborted(m) => Aborted(m)
    case Failed(_) => Parsed([], pos)
    case Parsed(op, n) =>
      var rest := OperatorsP(s, n);
      if rest.Aborted? then Aborted(rest.message) else Parsed([op] + rest.value, rest.next)
  }

  /** `Operator`: `..` and a raw selector, else a bracketed selector, else `.` and a raw
      selector. */
  function OperatorP(s: string, pos: nat): (r: ParseResult<Segment>)
    requires pos <= |s|
    ensures r.Parsed? ==> pos < r.next <= |s|
    decreases |s| - pos, 3
  {
    var dd := Just(s, pos, TokenKind.DotDot);
    if dd.Parsed? then
      var raw := RawSelectorP(s, dd.next);
      Parsed(Segment.Recursive(dd.value, Some(raw.value)), raw.next)
    else
      var b := BracketSegmentP(s, pos);
      if !b.Failed? then b else DotSegmentP(s, pos)
  }

  /** The `.` alternative of `Operator`. */
  function DotSegmentP(s: string, pos: nat): (r: ParseResult<Segment>)
    requires pos <= |s|
    ensures !r.Aborted?
    ensures r.Parsed? ==> pos < r.next <= |s|
  {
    var d := Just(s, pos, TokenKind.Dot);
    if d.Failed? then Failed(pos)
    else
      var raw := RawSelectorP(s, d.next);
      Parsed(Segment.Dot(d.value, raw.value), raw.next)
  }

  /** The bracketed alternative of `Operator`: `[`, a bracket selector, `]`. */
  function BracketSegmentP(s: string, pos: nat): (r: ParseResult<Segment>)
    requires pos <= |s|
    ensures r.Parsed? ==> pos < r.next <= |s|
    decreases |s| - pos, 2
  {
    if !StartsWith(s, pos, OpenText(WrapKind.Bracket)) then Failed(pos)
    else BracketAround(s, pos, BracketSelectorP(s, pos + 1))
  }

  /** A bracket segment built from whatever the selector parser returned after the `[`. */
  function BracketAround(s: string, pos: nat, inner: ParseResult<BracketSelector>): (r: ParseResult<Segment>)
    requires StartsWith(s, pos, OpenText(WrapKind.Bracket))
    requires inner.Parsed? ==> pos + 1 <= inner.next <= |s|
    ensures r.Parsed? ==> pos < r.next <= |s|
  {
    var b := Delimited(s, pos, WrapKind.Bracket, inner);
    if b.Parsed? then Parsed(Segment.Bracket(b.value.0, b.value.1), b.next) else Propagate(b)
  }

  /** `BracketInner`: step range, range, `*`, `^`, sub-path, filter, literal, in that order. */
  function BracketSelectorP(s: string, pos: nat): (r: ParseResult<BracketSelector>)
    requires pos <= |s|
    ensures r.Parsed? ==> pos < r.next <= |s|
    decreases |s| - pos, 3
  {
    var slice := SliceSelectorP(s, pos);
    if !slice.Failed? then slice
    else
      var symbol := SymbolSelectorP(s, pos);
      if !symbol.Failed? then symbol else NestedSelectorP(s, pos)
  }

  /** The first two alternatives of `BracketInner`: a step range, else a range. */
  function SliceSelectorP(s: string, pos: nat): (r: ParseResult<BracketSelector>)
    requires pos <= |s|
    ensures r.Parsed? ==> pos < r.next <= |s|
    ensures r.Parsed? ==> r.value.StepRange? || r.value.Range?
  {
    var sr := StepRangeP(s, pos);
    if sr.Parsed? then Parsed(BracketSelector.StepRange(sr.value), sr.next)
    else if sr.Aborted? then Aborted(sr.message)
    else
      var rg := RangeP(s, pos);
      if rg.Parsed? then Parsed(BracketSelector.Range(rg.value), rg.next) else Propagate(rg)
  }

  /** The middle alternatives of `BracketInner`: `*`, else `^`. */
  function SymbolSelectorP(s: string, pos: nat): (r: ParseResult<BracketSelector>)
    requires pos <= |s|
    ensures !r.Aborted?
    ensures r.Parsed? ==> r.next == pos + 1 <= |s|
    ensures r.Parsed? ==> r.value.Wildcard? || r.value.Parent?
  {
    var star := Just(s, pos, TokenKind.Star);
    var caret := Just(s, pos, TokenKind.Caret);
    if star.Parsed? then Parsed(BracketSelector.Wildcard(star.value), star.next)
    else if caret.Parsed? then Parsed(BracketSelector.Parent(caret.value), caret.next)
    else Failed(pos)
  }

  /** The last three alternatives of `BracketInner`: a sub-path, a filter, a literal. */
  function NestedSelectorP(s: string, pos: nat): (r: ParseResult<BracketSelector>)
    requires pos <= |s|
    ensures r.Parsed? ==> pos < r.next <= |s|
    decreases |s| - pos, 2
  {
    var path := SubPathP(s, pos);
    if path.Parsed? then Parsed(BracketSelector.Path(path.value), path.next)
    else if path.Aborted? then Aborted(path.message)
    else
      var filter := FilterP(s, pos);
      if filter.Parsed? then Parsed(BracketSelector.Filter(filter.value), filter.next)
      else if filter.Aborted? then Aborted(filter.message)
      else
        var lit := BracketLitP(s, pos);
        if lit.Parsed? then Parsed(BracketSelector.Literal(lit.value), lit.next) else Propagate(lit)
  }

  /** `SubPath`: `$` or `@` and any operators; the parsed sub-path has no `~`. */
  function SubPathP(s: string, pos: nat): (r: ParseResult<SubPath>)
    requires pos <= |s|
    ensures r.Parsed? ==> pos < r.next <= |s| && r.value.tilde.None?
    ensures r.Failed? <==> !StartsWith(s, pos, "$") && !StartsWith(s, pos, "@")
    decreases |s| - pos, 1
  {
    var kind := PathKindP(s, pos);
    if kind.Failed? then Failed(pos)
    else
      var ops := OperatorsP(s, kind.next);
      if ops.Aborted? then Aborted(ops.message) else Parsed(SubPath(kind.value, ops.value, None), ops.next)
  }

  /** `Filter`: `?` and a parenthesised expression. */
  function FilterP(s: string, pos: nat): (r: ParseResult<Filter>)
    requires pos <= |s|
    ensures r.Parsed? ==> pos < r.next <= |s| && Leveled(r.value.inner, 5)
    ensures !StartsWith(s, pos, "?") ==> r.Failed?
    decreases |s| - pos, 1
  {
    var q := Just(s, pos, TokenKind.Question);
    if q.Failed? then Failed(pos)
    else if !StartsWith(s, q.next, OpenText(WrapKind.Paren)) then Failed(q.next)
    else
      var w := Delimited(s, q.next, WrapKind.Paren, ExprP(s, q.next + 1));
      if w.Parsed? then Parsed(Filter.Filter(q.value, w.value.0, w.value.1), w.next) else Propagate(w)
  }

  /** `FilterExpr`: the loosest precedence level. */
  function ExprP(s: string, pos: nat): (r: ParseResult<FilterExpr>)
    requires pos <= |s|
    ensures r.Parsed? ==> pos < r.next <= |s| && Leveled(r.value, 5)
    decreases |s| - pos, 15
  {
    LevelP(s, pos, 5)
  }

  /** Level `k` of precedence climbing: an operand of level `k - 1`, then any number of
      operators of level `k`, each with its right operand, folded to the left. Level 0 is a
      prefixed atom. */
  function LevelP(s: string, pos: nat, k: nat): (r: ParseResult<FilterExpr>)
    requires pos <= |s| && k <= 5
    ensures r.Parsed? ==> pos < r.next <= |s| && Leveled(r.value, k)
    decreases |s| - pos, 4 + 2 * k
  {
    if k == 0 then UnaryP(s, pos)
    else match LevelP(s, pos, k - 1)
      case Parsed(lhs, n) => LevelTailP(s, n, k, lhs)
      case Aborted(m) => Aborted(m)
      case Failed(at) => Failed(at)
  }

  /** The repeated `op operand` part of level `k`, folded onto `lhs`. A repetition whose
      operand does not parse is given back. */
  function LevelTailP(s: string, pos: nat, k: nat, lhs: FilterExpr): (r: ParseResult<FilterExpr>)
    requires pos <= |s| && 1 <= k <= 5 && Leveled(lhs, k)
    ensures !r.Failed?
    ensures r.Parsed? ==> pos <= r.next <= |s| && Leveled(r.value, k)
    decreases |s| - pos, 3 + 2 * k
  {
    var op := PaddedOpP(s, pos, k);
    if op.Failed? then Parsed(lhs, pos)
    else match LevelP(s, op.next, k - 1)
      case Parsed(rhs, n) => LevelTailP(s, n, k, Binary(lhs, op.value, rhs))
      case Aborted(m) => Aborted(m)
      case Failed(_) => Parsed(lhs, pos)
  }

  /** Prefix operators and an atom. */
  function UnaryP(s: string, pos: nat): (r: ParseResult<FilterExpr>)
    requires pos <= |s|
    ensures r.Parsed? ==> pos < r.next <= |s| && Leveled(r.value, 0)
    decreases |s| - pos, 3
  {
    var ops := UnOpsP(s, pos);
    var a := AtomP(s, ops.next);
    if a.Parsed? then Parsed(FoldUnary(ops.value, a.value), a.next) else Propagate(a)
  }

  /** An atom: a sub-path, else a literal, else a parenthesised expression. The literal
      parser never fails, so the last alternative is never taken. */
  function AtomP(s: string, pos: nat): (r: ParseResult<FilterExpr>)
    requires pos <= |s|
    ensures r.Parsed? ==> pos < r.next <= |s| && Leveled(r.value, 0)
    decreases |s| - pos, 2
  {
    var path := SubPathP(s, pos);
    var lit := ExprLitP(s, pos);
    var parens := ParensP(s, pos);
    if path.Parsed? then Parsed(FilterExpr.Path(path.value), path.next)
    else if path.Aborted? then Aborted(path.message)
    else if lit.Parsed? then Parsed(Lit(lit.value), lit.next)
    else if lit.Aborted? then Aborted(lit.message)
    else parens
  }

  /** A parenthesised expression. */
  function ParensP(s: string, pos: nat): (r: ParseResult<FilterExpr>)
    requires pos <= |s|
    ensures r.Parsed? ==> pos < r.next <= |s| && Leveled(r.value, 0)
    decreases |s| - pos, 1
  {
    if !StartsWith(s, pos, OpenText(WrapKind.Paren)) then Failed(pos)
    else
      var w := Delimited(s, pos, WrapKind.Paren, ExprP(s, pos + 1));
      if w.Parsed? then Parsed(Parens(w.value.0, w.value.1), w.next) else Propagate(w)
  }

  // The whole path

  /** `Path`: `$`, any operators, then the end of the input; the parsed path has no `~`. */
  function PathP(s: string): (r: ParseResult<Path>)
    ensures r.Parsed? ==> r.next == |s| && StartsWith(s, 0, "$") && r.value.tilde.None?
    ensures !StartsWith(s, 0, "$") ==> r.Failed?
  {
    var d := Just(s, 0, TokenKind.Dollar);
    if d.Failed? then Failed(0)
    else
      var ops := OperatorsP(s, d.next);
      if ops.Aborted? then Aborted(ops.message)
      else if ops.next == |s| then Parsed(Path.Path(d.value, ops.value, None), ops.next)
      else Failed(ops.next)
  }
}
