/** The tokens of the path grammar and their parsers (src/ast/token.rs). */
module Tokens {
  import opened Spans

  /** What a parser does at a position: succeed with a value and the position after it, fail
      (the caller may try an alternative from the same position), or abort the whole parse
      with a panic. */
  datatype ParseResult<+T> =
    | Parsed(value: T, next: nat)
    | Failed(at: nat)
    | Aborted(message: string)

  /** A simple token: one fixed piece of text and the span it was read from. */
  datatype Token = Token(span: Span)

  /** A wrapping token: the spans of its opening and its closing delimiter. */
  datatype Wrap = Wrap(open: Span, close: Span)

  /** The simple tokens (src/ast/token.rs:50-75). */
  datatype TokenKind =
    | At | Bang | Caret | Colon | Dash | Dollar | Dot | DotDot | DoubleAnd | DoublePipe
    | DoubleQuote | EqEq | GreaterEq | GreaterThan | LessEq | LessThan | Percent | Plus
    | Question | RightSlash | SingleQuote | Star | Tilde

  /** The text each simple token matches. */
  function Text(k: TokenKind): string
  {
    match k
    case At => "@"
    case Bang => "!"
    case Caret => "^"
    case Colon => ":"
    case Dash => "-"
    case Dollar => "$"
    case Dot => "."
    case DotDot => ".."
    case DoubleAnd => "&&"
    case DoublePipe => "||"
    case DoubleQuote => "\""
    case EqEq => "=="
    case GreaterEq => ">="
    case GreaterThan => ">"
    case LessEq => "<="
    case LessThan => "<"
    case Percent => "%"
    case Plus => "+"
    case Question => "?"
    case RightSlash => "/"
    case SingleQuote => "'"
    case Star => "*"
    case Tilde => "~"
  }

  /** Exactly the six two-character tokens have two-character text; the rest are one
      character long. */
  lemma TokenWidths(k: TokenKind)
    ensures |Text(k)| == 2 <==>
      k == DotDot || k == DoubleAnd || k == DoublePipe || k == EqEq || k == GreaterEq || k == LessEq
    ensures |Text(k)| == 1 || |Text(k)| == 2
  {
  }

  /** No two simple tokens share a text. */
  lemma TextInjective(k1: TokenKind, k2: TokenKind)
    requires Text(k1) == Text(k2)
    ensures k1 == k2
  {
  }

  /** The text at `pos` begins with `lit`. */
  predicate StartsWith(s: string, pos: nat, lit: string) {
    pos + |lit| <= |s| && forall i :: 0 <= i < |lit| ==> s[pos + i] == lit[i]
  }

  /** `$name::parser()` of a simple token: `just(text)` mapped to the token with the matched
      span. */
  function Just(s: string, pos: nat, k: TokenKind): (r: ParseResult<Token>)
    ensures !r.Aborted?
    ensures r.Parsed? <==> StartsWith(s, pos, Text(k))
    ensures r.Parsed? ==> r.next == pos + |Text(k)| <= |s|
    ensures r.Parsed? ==> r.value.span.start == pos && r.value.span.end == r.next
    ensures r.Failed? ==> r.at == pos
  {
    var lit := Text(k);
    if StartsWith(s, pos, lit) then
      Parsed(Token(FromRange(pos, pos + |lit|)), pos + |lit|)
    else Failed(pos)
  }

  /** The wrapping tokens (src/ast/token.rs:27-31). */
  datatype WrapKind = Bracket | Paren

  function OpenText(k: WrapKind): string {
    match k
    case Bracket => "["
    case Paren => "("
  }

  function CloseText(k: WrapKind): string {
    match k
    case Bracket => "]"
    case Paren => ")"
  }

  /** The delimiter spans of a wrapping token read from `[start, end)`: the first character
      and the last character of that range. */
  function WrapSpans(start: nat, end: nat): (w: Wrap)
    requires start + 2 <= end
    ensures w.open.end - w.open.start == 1 && w.close.end - w.close.start == 1
    ensures Join(w.open, w.close) == Span(start, end)
    ensures w.open.end <= w.close.start
  {
    Wrap(FromRange(start, start + 1), FromRange(end - 1, end))
  }

  /** `$name::parser(item)` of a wrapping token: the opening delimiter at `pos`, the item
      (whose outcome at `pos + 1` the caller passes in as `inner`), then the closing
      delimiter. */
  function Delimited<T>(s: string, pos: nat, k: WrapKind, inner: ParseResult<T>): (r: ParseResult<(Wrap, T)>)
    requires StartsWith(s, pos, OpenText(k))
    requires inner.Parsed? ==> pos + 1 <= inner.next <= |s|
    ensures r.Parsed? <==> inner.Parsed? && StartsWith(s, inner.next, CloseText(k))
    ensures r.Aborted? <==> inner.Aborted?
    ensures r.Parsed? ==> r.value.1 == inner.value && r.next == inner.next + 1
    ensures r.Parsed? ==> Join(r.value.0.open, r.value.0.close) == Span(pos, r.next)
    ensures r.Parsed? ==> r.value.0.open == Span(pos, pos + 1)
  {
    match inner
    case Aborted(m) => Aborted(m)
    case Failed(at) => Failed(at)
    case Parsed(v, mid) =>
      if StartsWith(s, mid, CloseText(k)) then Parsed((WrapSpans(pos, mid + 1), v), mid + 1)
      else Failed(mid)
  }
}
