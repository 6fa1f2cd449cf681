/** Properties of the path grammar: integer literals read back what `i64::to_string` writes,
    paths built from printable steps parse back to those steps, and a bracket whose content
    does not begin with an integer literal aborts the parse. */
module ParserProperties {
  import opened Wrappers
  import opened Text
  import opened Spans
  import opened Tokens
  import opened Ast
  import opened Parser

  lemma StartsWithConcat(s: string, pos: nat, a: string, b: string)
    ensures StartsWith(s, pos, a + b) <==> StartsWith(s, pos, a) && StartsWith(s, pos + |a|, b)
  {
    if StartsWith(s, pos, a) && StartsWith(s, pos + |a|, b) {
      forall i | 0 <= i < |a + b| ensures s[pos + i] == (a + b)[i] {
        if i >= |a| {
          assert b[i - |a|] == (a + b)[i];
        }
      }
    }
    if StartsWith(s, pos, a + b) {
      forall i | 0 <= i < |a| ensures s[pos + i] == a[i] {
        assert (a + b)[i] == a[i];
      }
      forall i | 0 <= i < |b| ensures s[pos + |a| + i] == b[i] {
        assert (a + b)[|a| + i] == b[i];
      }
    }
  }

  /** A text that starts at `pos` is the slice there. */
  lemma StartsWithSlice(s: string, pos: nat, lit: string)
    requires StartsWith(s, pos, lit)
    ensures pos + |lit| <= |s| && s[pos..pos + |lit|] == lit
  {
  }

  /** A text whose first character is not at `pos` does not start there. */
  lemma NotStartsWith(s: string, pos: nat, lit: string)
    requires lit != [] && (pos >= |s| || s[pos] != lit[0])
    ensures !StartsWith(s, pos, lit)
  {
  }

  /** `TakeWhile` stops exactly at the end of a maximal run. */
  lemma {:induction false} TakeWhileStops(s: string, pos: nat, e: nat, cls: CharClass)
    requires pos <= e <= |s|
    requires forall i :: pos <= i < e ==> InClass(s[i], cls)
    requires e == |s| || !InClass(s[e], cls)
    ensures TakeWhile(s, pos, cls) == e
    decreases e - pos
  {
    if pos < e {
      TakeWhileStops(s, pos + 1, e, cls);
    }
  }

  /** What may follow a name without extending it. */
  predicate EndsName(s: string, e: nat) {
    e >= |s| || !IsIdentChar(s[e])
  }

  /** The integer literal parser on a maximal digit run, optionally signed, whose value fits. */
  lemma IntLitOnDigits(s: string, pos: nat, neg: bool, e: nat)
    requires pos < |s| && (s[pos] == '-' <==> neg)
    requires var d := if neg then pos + 1 else pos; d < e <= |s| && AllDigits(s[d..e])
    requires e == |s| || !IsDigit(s[e])
    requires var d := if neg then pos + 1 else pos; DigitsValue(s[d..e]) <= I64Max
    ensures var d := if neg then pos + 1 else pos; var n: int := DigitsValue(s[d..e]);
      IntLitP(s, pos) == Parsed(IntLit(Span(pos, e), if neg then -n else n), e)
  {
    var d := if neg then pos + 1 else pos;
    assert forall i :: d <= i < e ==> s[i] == s[d..e][i - d];
    TakeWhileStops(s, d, e, Digits);
  }

  /** An integer literal reads back the value `i64::to_string` wrote, for every `i64` but
      `i64::MIN` (whose digits alone do not fit in an `i64`). */
  lemma IntLitRoundTrip(s: string, pos: nat, v: int)
    requires I64Min < v <= I64Max
    requires StartsWith(s, pos, IntToDecimal(v))
    requires var e := pos + |IntToDecimal(v)|; e == |s| || !IsDigit(s[e])
    ensures var e := pos + |IntToDecimal(v)|;
      IntLitP(s, pos) == Parsed(IntLit(Span(pos, e), v), e)
  {
    var d := IntToDecimal(v);
    var e := pos + |d|;
    IntToDecimalRoundTrip(v);
    assert s[pos..e] == d;
    if v < 0 {
      assert s[pos] == d[0] == '-';
      assert s[pos + 1..e] == d[1..];
      IntLitOnDigits(s, pos, true, e);
    } else {
      assert s[pos] == d[0] && IsDigit(d[0]);
      IntLitOnDigits(s, pos, false, e);
    }
  }

  /** A literal outside the `i64` range, `i64::MIN` included (its digits alone do not fit),
      aborts the parse instead of failing. */
  lemma IntLitOutOfRangeAborts(s: string, pos: nat, v: int)
    requires v <= I64Min || I64Max < v
    requires StartsWith(s, pos, IntToDecimal(v))
    requires var e := pos + |IntToDecimal(v)|; e == |s| || !IsDigit(s[e])
    ensures IntLitP(s, pos) == Aborted(DigitsOverflow)
  {
    var d := IntToDecimal(v);
    var e := pos + |d|;
    IntToDecimalRoundTrip(v);
    assert s[pos..e] == d;
    if v < 0 {
      assert s[pos] == d[0] == '-';
      assert s[pos + 1..e] == d[1..];
      TakeWhileStops(s, pos + 1, e, Digits);
    } else {
      assert s[pos] == d[0] && IsDigit(d[0]);
      TakeWhileStops(s, pos, e, Digits);
    }
  }

  /** A zero step is not a step: the non-zero literal parser fails on `0` and the step is
      left out of the slice. */
  lemma ZeroStepFails(s: string, pos: nat)
    requires StartsWith(s, pos, "0") && (pos + 1 == |s| || !IsDigit(s[pos + 1]))
    ensures NonZeroIntLitP(s, pos).Failed?
    ensures OptNonZeroP(s, pos) == Parsed(None, pos)
  {
    assert IntToDecimal(0) == "0";
    IntLitRoundTrip(s, pos, 0);
  }

  // Printable paths

  /** The steps a path can spell with the grammar as it stands. */
  datatype Step =
    | Child(name: string)
    | AllChildren
    | ParentStep
    | Descend(name: string)
    | Index(i: int)
    | Slice(lo: int, hi: int)
    | StepSlice(lo: int, hi: int, step: int)

  predicate IsName(n: string) {
    n != [] && forall i :: 0 <= i < |n| ==> IsIdentChar(n[i])
  }

  predicate IsI64Lit(v: int) {
    I64Min < v <= I64Max
  }

  predicate Printable(st: Step) {
    match st
    case Child(n) => IsName(n)
    case Descend(n) => IsName(n)
    case Index(i) => IsI64Lit(i)
    case Slice(lo, hi) => IsI64Lit(lo) && IsI64Lit(hi)
    case StepSlice(lo, hi, step) => IsI64Lit(lo) && IsI64Lit(hi) && IsI64Lit(step) && step != 0
    case _ => true
  }

  function Print(st: Step): string {
    match st
    case Child(n) => "." + n
    case AllChildren => ".*"
    case ParentStep => ".^"
    case Descend(n) => ".." + n
    case Index(i) => "[" + (IntToDecimal(i) + "]")
    case Slice(lo, hi) => "[" + (IntToDecimal(lo) + (":" + (IntToDecimal(hi) + "]")))
    case StepSlice(lo, hi, step) => "[" + (IntToDecimal(lo) + (":" + (IntToDecimal(hi) + (":" + (IntToDecimal(step) + "]")))))
  }

  /** A printed step begins with `.` or `[`. */
  lemma PrintStart(st: Step)
    ensures |Print(st)| >= 1 && (Print(st)[0] == '.' || Print(st)[0] == '[')
  {
    var p := Print(st);
    if st.Index? || st.Slice? || st.StepSlice? {
      assert p == "[" + p[1..] && |p| >= 2;
    } else {
      assert p[0] == '.';
    }
  }

  function PrintAll(steps: seq<Step>): string {
    if steps == [] then "" else Print(steps[0]) + PrintAll(steps[1..])
  }

  /** The step a parsed segment spells, if it is one of the printable kinds. */
  function Spelled(seg: Segment): Option<Step> {
    match seg
    case Dot(_, Wildcard(_)) => Some(AllChildren)
    case Dot(_, Parent(_)) => Some(ParentStep)
    case Dot(_, Name(id)) => Some(Child(id.val))
    case Recursive(_, Some(Name(id))) => Some(Descend(id.val))
    case Bracket(_, sel) => SpelledSelector(sel)
    case _ => None
  }

  /** The step the content of a bracket spells, if it is one of the printable kinds. */
  function SpelledSelector(sel: BracketSelector): Option<Step> {
    match sel
    case Literal(Int(il)) => Some(Index(il.val))
    case Range(Range(Some(lo), _, Some(hi))) => Some(Slice(lo.val, hi.val))
    case StepRange(StepRange(Some(lo), _, Some(hi), _, Some(step))) => Some(StepSlice(lo.val, hi.val, step.val))
    case _ => None
  }

  lemma IdentAt(s: string, pos: nat, n: string)
    requires IsName(n) && StartsWith(s, pos, n) && EndsName(s, pos + |n|)
    ensures IdentP(s, pos) == Parsed(Ident(Span(pos, pos + |n|), n), pos + |n|)
    ensures RawSelectorP(s, pos) == Parsed(RawSelector.Name(Ident(Span(pos, pos + |n|), n)), pos + |n|)
  {
    forall i | pos <= i < pos + |n| ensures InClass(s[i], IdentChars) {
      assert s[i] == n[i - pos];
    }
    TakeWhileStops(s, pos, pos + |n|, IdentChars);
    StartsWithSlice(s, pos, n);
    assert s[pos] == n[0];
    TokenNotAt(s, pos, TokenKind.Star);
    TokenNotAt(s, pos, TokenKind.Caret);
  }

  lemma DecimalFacts(v: int)
    ensures var d := IntToDecimal(v); IsDigit(d[0]) || d[0] == '-'
    ensures var d := IntToDecimal(v); forall i :: 1 <= i < |d| ==> IsDigit(d[i])
  {
    IntToDecimalRoundTrip(v);
    var d := IntToDecimal(v);
    if d[0] != '-' {
      assert IsDigit(d[0]);
    } else {
      assert forall i :: 1 <= i < |d| ==> d[i] == d[1..][i - 1];
    }
  }

  /** A decimal followed by text that does not begin with a digit. */
  lemma DecimalThen(s: string, q: nat, v: int, t: string)
    requires StartsWith(s, q, IntToDecimal(v) + t) && t != [] && !IsDigit(t[0])
    ensures var e := q + |IntToDecimal(v)|;
      StartsWith(s, q, IntToDecimal(v)) && StartsWith(s, e, t) && e < |s| && s[e] == t[0] && !IsDigit(s[e])
  {
    StartsWithConcat(s, q, IntToDecimal(v), t);
    var e := q + |IntToDecimal(v)|;
    assert s[e] == s[e..e + |t|][0];
  }

  /** A one-character separator and what follows it. */
  lemma CharThen(s: string, q: nat, c: char, t: string)
    requires StartsWith(s, q, [c] + t)
    ensures q < |s| && s[q] == c && StartsWith(s, q + 1, t)
  {
    StartsWithConcat(s, q, [c], t);
    assert s[q] == [c][0];
  }

  /** The integer literal `v` spans `[q, e)`. */
  predicate LitAt(s: string, q: nat, v: int, e: nat)
    requires q <= |s|
  {
    IsI64Lit(v) && IntLitP(s, q) == Parsed(IntLit(Span(q, e), v), e)
  }

  /** A decimal followed by a non-digit is an integer literal, and the text after it is
      what followed the decimal. */
  lemma LitThen(s: string, q: nat, v: int, t: string)
    requires IsI64Lit(v) && StartsWith(s, q, IntToDecimal(v) + t) && t != [] && !IsDigit(t[0])
    ensures var e := q + |IntToDecimal(v)|;
      q < e < |s| && LitAt(s, q, v, e) && StartsWith(s, e, t) && s[e] == t[0]
  {
    DecimalThen(s, q, v, t);
    IntLitRoundTrip(s, q, v);
  }

  /** The slice forms are tried first: when one of them does not fail, it decides the
      bracket's content. */
  lemma SliceFirst(s: string, q: nat)
    requires q <= |s| && !SliceSelectorP(s, q).Failed?
    ensures BracketSelectorP(s, q) == SliceSelectorP(s, q)
  {
  }

  /** Content that starts like a number is neither a sub-path nor a filter. */
  lemma NumericNotPath(s: string, q: nat)
    requires q < |s| && (IsDigit(s[q]) || s[q] == '-')
    ensures SubPathP(s, q).Failed? && FilterP(s, q).Failed?
  {
    NotStartsWith(s, q, "$");
    NotStartsWith(s, q, "@");
    NotStartsWith(s, q, "?");
  }

  /** Content beginning like an integer is neither `*` nor `^`. */
  lemma NumericStart(s: string, q: nat, v: int, e: nat)
    requires q <= |s| && LitAt(s, q, v, e)
    ensures q < |s| && (IsDigit(s[q]) || s[q] == '-')
    ensures SymbolSelectorP(s, q).Failed?
  {
    TokenNotAt(s, q, TokenKind.Star);
    TokenNotAt(s, q, TokenKind.Caret);
  }

  /** A literal followed by something other than a colon is not a pair of bounds. */
  lemma BoundsFailAt(s: string, q: nat, i: int, e: nat)
    requires q <= |s| && LitAt(s, q, i, e) && e < |s| && s[e] != ':'
    ensures BoundsP(s, q) == Failed(e)
  {
    TokenNotAt(s, e, TokenKind.Colon);
  }

  /** A literal followed by something other than a colon begins neither slice form. */
  lemma SliceFailsAt(s: string, q: nat, i: int, e: nat)
    requires q <= |s| && LitAt(s, q, i, e) && e < |s| && s[e] != ':'
    ensures SliceSelectorP(s, q).Failed?
  {
    BoundsFailAt(s, q, i, e);
  }

  /** A literal that is not a sub-path or filter is read as a bracket literal. */
  lemma NestedLiteralAt(s: string, q: nat, i: int, e: nat)
    requires q <= |s| && LitAt(s, q, i, e)
    ensures NestedSelectorP(s, q) == Parsed(BracketSelector.Literal(BracketLit.Int(IntLit(Span(q, e), i))), e)
  {
    NumericStart(s, q, i, e);
    NumericNotPath(s, q);
  }

  /** `i]`: neither slice form parses, so the content is the literal `i`. */
  lemma IndexFromParts(s: string, q: nat, i: int, e: nat)
    requires q <= |s| && LitAt(s, q, i, e) && e < |s| && s[e] == ']'
    ensures BracketSelectorP(s, q) == Parsed(BracketSelector.Literal(BracketLit.Int(IntLit(Span(q, e), i))), e)
  {
    NumericStart(s, q, i, e);
    SliceFailsAt(s, q, i, e);
    NestedLiteralAt(s, q, i, e);
  }

  /** Two literals around a colon. */
  lemma BoundsFromParts(s: string, q: nat, lo: int, m: nat, hi: int, e: nat)
    requires q <= |s| && m < |s| && s[m] == ':'
    requires LitAt(s, q, lo, m) && LitAt(s, m + 1, hi, e)
    ensures BoundsP(s, q).Parsed? && BoundsP(s, q).next == e
    ensures BoundsP(s, q).value.0 == Some(IntLit(Span(q, m), lo))
    ensures BoundsP(s, q).value.2 == Some(IntLit(Span(m + 1, e), hi))
  {
    assert Just(s, m, TokenKind.Colon).Parsed?;
  }

  /** `lo:hi]` is not a step range: the second colon is missing. */
  lemma StepRangeFailsAt(s: string, q: nat, lo: int, m: nat, hi: int, e: nat)
    requires q <= |s| && m < |s| && s[m] == ':' && e < |s| && s[e] != ':'
    requires LitAt(s, q, lo, m) && LitAt(s, m + 1, hi, e)
    ensures StepRangeP(s, q).Failed?
  {
    BoundsFromParts(s, q, lo, m, hi, e);
    TokenNotAt(s, e, TokenKind.Colon);
  }

  /** `lo:hi]`: the range alternative reads both bounds. */
  lemma RangeSliceAt(s: string, q: nat, lo: int, m: nat, hi: int, e: nat)
    requires q <= |s| && m < |s| && s[m] == ':' && e < |s| && s[e] != ':'
    requires LitAt(s, q, lo, m) && LitAt(s, m + 1, hi, e)
    ensures SliceSelectorP(s, q).Parsed? && SliceSelectorP(s, q).next == e
    ensures SliceSelectorP(s, q).value.Range?
    ensures SliceSelectorP(s, q).value.r.start == Some(IntLit(Span(q, m), lo))
    ensures SliceSelectorP(s, q).value.r.end == Some(IntLit(Span(m + 1, e), hi))
  {
    StepRangeFailsAt(s, q, lo, m, hi, e);
    BoundsFromParts(s, q, lo, m, hi, e);
  }

  /** `lo:hi]`: a range, and not a step range. */
  lemma RangeFromParts(s: string, q: nat, lo: int, m: nat, hi: int, e: nat)
    requires q <= |s| && m < |s| && s[m] == ':' && e < |s| && s[e] == ']'
    requires LitAt(s, q, lo, m) && LitAt(s, m + 1, hi, e)
    ensures BracketSelectorP(s, q).Parsed? && BracketSelectorP(s, q).next == e
    ensures BracketSelectorP(s, q).value.Range?
    ensures StartOf(BracketSelectorP(s, q).value.r.start) == Some(lo)
    ensures StartOf(BracketSelectorP(s, q).value.r.end) == Some(hi)
  {
    RangeSliceAt(s, q, lo, m, hi, e);
    SliceFirst(s, q);
  }

  /** `lo:hi:step`: the step range alternative reads all three parts. */
  lemma StepSliceAt(s: string, q: nat, lo: int, m1: nat, hi: int, m2: nat, step: int, e: nat)
    requires q <= |s| && m1 < |s| && s[m1] == ':' && m2 < |s| && s[m2] == ':'
    requires LitAt(s, q, lo, m1) && LitAt(s, m1 + 1, hi, m2) && LitAt(s, m2 + 1, step, e) && step != 0
    ensures StepRangeP(s, q).Parsed? && StepRangeP(s, q).next == e
    ensures StepRangeP(s, q).value.start == Some(IntLit(Span(q, m1), lo))
    ensures StepRangeP(s, q).value.end == Some(IntLit(Span(m1 + 1, m2), hi))
    ensures StepRangeP(s, q).value.step == Some(NonZeroIntLit(Span(m2 + 1, e), step))
  {
    BoundsFromParts(s, q, lo, m1, hi, m2);
    CharTokenAt(s, m2, TokenKind.Colon);
    assert OptNonZeroP(s, m2 + 1) == Parsed(Some(NonZeroIntLit(Span(m2 + 1, e), step)), e);
  }

  /** `lo:hi:step]`: a step range. */
  lemma StepRangeFromParts(s: string, q: nat, lo: int, m1: nat, hi: int, m2: nat, step: int, e: nat)
    requires q <= |s| && m1 < |s| && s[m1] == ':' && m2 < |s| && s[m2] == ':'
    requires LitAt(s, q, lo, m1) && LitAt(s, m1 + 1, hi, m2) && LitAt(s, m2 + 1, step, e) && step != 0
    ensures BracketSelectorP(s, q).Parsed? && BracketSelectorP(s, q).next == e
    ensures BracketSelectorP(s, q).value.StepRange?
    ensures StartOf(BracketSelectorP(s, q).value.sr.start) == Some(lo)
    ensures StartOf(BracketSelectorP(s, q).value.sr.end) == Some(hi)
    ensures StepOf(BracketSelectorP(s, q).value.sr) == Some(step)
  {
    StepSliceAt(s, q, lo, m1, hi, m2, step, e);
    SliceFirst(s, q);
  }

  // Tokens and segments at a position

  /** A one-character token is read exactly where its character stands. */
  lemma CharTokenAt(s: string, pos: nat, k: TokenKind)
    requires |Tokens.Text(k)| == 1 && pos < |s| && s[pos] == Tokens.Text(k)[0]
    ensures Just(s, pos, k) == Parsed(Token(Span(pos, pos + 1)), pos + 1)
  {
    assert s[pos..pos + 1] == Tokens.Text(k);
  }

  /** No token is read where its first character does not stand. */
  lemma TokenNotAt(s: string, pos: nat, k: TokenKind)
    requires pos == |s| || (pos < |s| && s[pos] != Tokens.Text(k)[0])
    ensures Just(s, pos, k) == Failed(pos)
  {
  }

  /** `..` is read exactly where two dots stand. */
  lemma DotDotAt(s: string, pos: nat)
    requires pos <= |s|
    ensures Just(s, pos, TokenKind.DotDot).Parsed? <==> pos + 1 < |s| && s[pos] == '.' && s[pos + 1] == '.'
    ensures Just(s, pos, TokenKind.DotDot).Parsed? ==> Just(s, pos, TokenKind.DotDot) == Parsed(Token(Span(pos, pos + 2)), pos + 2)
  {
    if StartsWith(s, pos, "..") {
      assert s[pos] == ".."[0] && s[pos + 1] == ".."[1];
    }
  }

  /** The bracketed alternative fails where no `[` stands. */
  lemma BracketSegmentNotAt(s: string, pos: nat)
    requires pos == |s| || (pos < |s| && s[pos] != '[')
    ensures BracketSegmentP(s, pos) == Failed(pos)
  {
    NotStartsWith(s, pos, OpenText(WrapKind.Bracket));
  }

  /** No operator begins at a character other than `.` and `[`. */
  lemma OperatorNotAt(s: string, pos: nat)
    requires pos == |s| || (pos < |s| && s[pos] != '.' && s[pos] != '[')
    ensures OperatorP(s, pos) == Failed(pos)
  {
    DotDotAt(s, pos);
    BracketSegmentNotAt(s, pos);
    TokenNotAt(s, pos, TokenKind.Dot);
    assert DotSegmentP(s, pos) == Failed(pos);
  }

  /** Operators stop where no operator begins. */
  lemma OperatorsNotAt(s: string, pos: nat)
    requires pos == |s| || (pos < |s| && s[pos] != '.' && s[pos] != '[')
    ensures OperatorsP(s, pos) == Parsed([], pos)
  {
    OperatorNotAt(s, pos);
  }

  /** A single `.`: the dot alternative, with the raw selector after it. */
  lemma DotOperatorAt(s: string, pos: nat)
    requires pos < |s| && s[pos] == '.' && (pos + 1 == |s| || s[pos + 1] != '.')
    ensures var raw := RawSelectorP(s, pos + 1);
      OperatorP(s, pos) == Parsed(Segment.Dot(Token(Span(pos, pos + 1)), raw.value), raw.next)
  {
    DotDotAt(s, pos);
    BracketSegmentNotAt(s, pos);
    CharTokenAt(s, pos, TokenKind.Dot);
  }

  /** `..`: the recursive alternative, with the raw selector after it. */
  lemma RecursiveOperatorAt(s: string, pos: nat)
    requires pos + 1 < |s| && s[pos] == '.' && s[pos + 1] == '.'
    ensures var raw := RawSelectorP(s, pos + 2);
      OperatorP(s, pos) == Parsed(Segment.Recursive(Token(Span(pos, pos + 2)), Some(raw.value)), raw.next)
  {
    DotDotAt(s, pos);
  }

  /** `[`: the bracketed alternative decides unless it fails. */
  lemma BracketOperatorAt(s: string, pos: nat)
    requires pos < |s| && s[pos] == '['
    ensures !BracketSegmentP(s, pos).Failed? ==> OperatorP(s, pos) == BracketSegmentP(s, pos)
  {
    DotDotAt(s, pos);
  }

  /** A delimiter is read where its character stands. */
  lemma DelimiterAt(s: string, pos: nat, t: string)
    requires |t| == 1 && pos < |s| && s[pos] == t[0]
    ensures StartsWith(s, pos, t)
  {
  }

  /** An item between its delimiters. */
  lemma DelimitedAt<T>(s: string, pos: nat, k: WrapKind, inner: ParseResult<T>)
    requires pos < |s| && s[pos] == OpenText(k)[0]
    requires inner.Parsed? && pos + 1 <= inner.next < |s| && s[inner.next] == CloseText(k)[0]
    ensures StartsWith(s, pos, OpenText(k))
    ensures Delimited(s, pos, k, inner) == Parsed((WrapSpans(pos, inner.next + 1), inner.value), inner.next + 1)
  {
    DelimiterAt(s, pos, OpenText(k));
    DelimiterAt(s, inner.next, CloseText(k));
  }

  /** A bracket selector between `[` and `]`. */
  lemma BracketSegmentAt(s: string, pos: nat, e: nat)
    requires pos < |s| && s[pos] == '['
    requires BracketSelectorP(s, pos + 1).Parsed? && BracketSelectorP(s, pos + 1).next == e
    requires e < |s| && s[e] == ']'
    ensures BracketSegmentP(s, pos) == Parsed(Segment.Bracket(WrapSpans(pos, e + 1), BracketSelectorP(s, pos + 1).value), e + 1)
  {
    BracketWrap(s, pos, BracketSelectorP(s, pos + 1));
  }

  /** The bracket wrapper around any parsed selector, whatever parser produced it. */
  lemma BracketWrap(s: string, pos: nat, inner: ParseResult<BracketSelector>)
    requires pos < |s| && s[pos] == '['
    requires inner.Parsed? && pos + 1 <= inner.next < |s| && s[inner.next] == ']'
    ensures StartsWith(s, pos, OpenText(WrapKind.Bracket))
    ensures BracketAround(s, pos, inner) == Parsed(Segment.Bracket(WrapSpans(pos, inner.next + 1), inner.value), inner.next + 1)
  {
    DelimitedAt(s, pos, WrapKind.Bracket, inner);
  }

  /** A bracket selector that aborts aborts the bracketed alternative. */
  lemma BracketSegmentAborts(s: string, pos: nat)
    requires pos < |s| && s[pos] == '[' && BracketSelectorP(s, pos + 1).Aborted?
    ensures BracketSegmentP(s, pos) == Aborted(BracketSelectorP(s, pos + 1).message)
  {
    DelimiterAt(s, pos, OpenText(WrapKind.Bracket));
  }

  /** One operator, then the rest. */
  lemma OperatorsStep(s: string, pos: nat)
    requires pos <= |s| && OperatorP(s, pos).Parsed?
    ensures var op := OperatorP(s, pos); var rest := OperatorsP(s, op.next);
      OperatorsP(s, pos) == if rest.Aborted? then Aborted(rest.message) else Parsed([op.value] + rest.value, rest.next)
  {
  }

  /** An operator that aborts aborts the repetition. */
  lemma OperatorsAbort(s: string, pos: nat)
    requires pos <= |s| && OperatorP(s, pos).Aborted?
    ensures OperatorsP(s, pos) == Aborted(OperatorP(s, pos).message)
  {
  }

  // Printed steps read back

  /** A raw selector at a printed `*`, `^` or name. */
  lemma RawSymbolAt(s: string, pos: nat)
    requires pos < |s| && (s[pos] == '*' || s[pos] == '^')
    ensures RawSelectorP(s, pos).next == pos + 1
    ensures s[pos] == '*' ==> RawSelectorP(s, pos).value == RawSelector.Wildcard(Token(Span(pos, pos + 1)))
    ensures s[pos] == '^' ==> RawSelectorP(s, pos).value == RawSelector.Parent(Token(Span(pos, pos + 1)))
  {
    if s[pos] == '*' {
      CharTokenAt(s, pos, TokenKind.Star);
    } else {
      TokenNotAt(s, pos, TokenKind.Star);
      CharTokenAt(s, pos, TokenKind.Caret);
    }
  }

  /** The first two characters of a printed dotted step. */
  lemma PrintedPrefix(s: string, pos: nat, st: Step)
    requires (st.Child? ==> st.name != []) && (st.Descend? ==> st.name != [])
    requires st.Child? || st.AllChildren? || st.ParentStep? || st.Descend?
    requires StartsWith(s, pos, Print(st))
    ensures pos + 1 < |s| && s[pos] == '.'
    ensures st.Child? ==> s[pos + 1] == st.name[0]
    ensures st.Descend? ==> s[pos + 1] == '.'
    ensures st.AllChildren? ==> s[pos + 1] == '*'
    ensures st.ParentStep? ==> s[pos + 1] == '^'
  {
    var p := Print(st);
    assert |p| >= 2;
    assert s[pos] == p[0] && s[pos + 1] == p[1];
  }

  /** `.name` parses back to the child step. */
  lemma ChildOperatorAt(s: string, pos: nat, n: string)
    requires IsName(n) && StartsWith(s, pos, Print(Child(n))) && EndsName(s, pos + 1 + |n|)
    ensures OperatorP(s, pos) == Parsed(Segment.Dot(Token(Span(pos, pos + 1)),
      RawSelector.Name(Ident(Span(pos + 1, pos + 1 + |n|), n))), pos + 1 + |n|)
  {
    PrintedPrefix(s, pos, Child(n));
    CharThen(s, pos, '.', n);
    DotOperatorAt(s, pos);
    IdentAt(s, pos + 1, n);
  }

  /** `..name` parses back to the descendant step. */
  lemma DescendOperatorAt(s: string, pos: nat, n: string)
    requires IsName(n) && StartsWith(s, pos, Print(Descend(n))) && EndsName(s, pos + 2 + |n|)
    ensures OperatorP(s, pos) == Parsed(Segment.Recursive(Token(Span(pos, pos + 2)),
      Some(RawSelector.Name(Ident(Span(pos + 2, pos + 2 + |n|), n)))), pos + 2 + |n|)
  {
    PrintedPrefix(s, pos, Descend(n));
    StartsWithConcat(s, pos, "..", n);
    RecursiveOperatorAt(s, pos);
    IdentAt(s, pos + 2, n);
  }

  /** `.*` and `.^` parse back to their steps. */
  lemma SymbolOperatorAt(s: string, pos: nat, st: Step)
    requires (st.AllChildren? || st.ParentStep?) && StartsWith(s, pos, Print(st))
    ensures OperatorP(s, pos).Parsed? && OperatorP(s, pos).next == pos + 2
    ensures Spelled(OperatorP(s, pos).value) == Some(st)
  {
    PrintedPrefix(s, pos, st);
    DotOperatorAt(s, pos);
    RawSymbolAt(s, pos + 1);
  }

  /** `.name`, `.*`, `.^` and `..name` parse back to the step they print. */
  lemma DottedOperatorAt(s: string, pos: nat, st: Step)
    requires Printable(st) && (st.Child? || st.AllChildren? || st.ParentStep? || st.Descend?)
    requires StartsWith(s, pos, Print(st)) && EndsName(s, pos + |Print(st)|)
    ensures OperatorP(s, pos).Parsed? && OperatorP(s, pos).next == pos + |Print(st)|
    ensures Spelled(OperatorP(s, pos).value) == Some(st)
  {
    match st
    case Child(n) => ChildOperatorAt(s, pos, n);
    case Descend(n) => DescendOperatorAt(s, pos, n);
    case AllChildren => SymbolOperatorAt(s, pos, st);
    case ParentStep => SymbolOperatorAt(s, pos, st);
  }

  /** The content of a printed `[i]` and the position of its `]`. */
  lemma IndexContentAt(s: string, q: nat, i: int) returns (e: nat)
    requires IsI64Lit(i) && q >= 1 && StartsWith(s, q, IntToDecimal(i) + "]")
    ensures e < |s| && s[e] == ']' && e == q + |IntToDecimal(i)|
    ensures BracketSelectorP(s, q) == Parsed(BracketSelector.Literal(BracketLit.Int(IntLit(Span(q, e), i))), e)
  {
    LitThen(s, q, i, "]");
    e := q + |IntToDecimal(i)|;
    IndexFromParts(s, q, i, e);
  }

  /** The content of a printed `[lo:hi]` and the position of its `]`. */
  lemma SliceContentAt(s: string, q: nat, lo: int, hi: int) returns (e: nat)
    requires IsI64Lit(lo) && IsI64Lit(hi)
    requires q >= 1 && StartsWith(s, q, IntToDecimal(lo) + (":" + (IntToDecimal(hi) + "]")))
    ensures e < |s| && s[e] == ']' && e == q + |IntToDecimal(lo)| + 1 + |IntToDecimal(hi)|
    ensures BracketSelectorP(s, q).Parsed? && BracketSelectorP(s, q).next == e
    ensures BracketSelectorP(s, q).value.Range?
    ensures StartOf(BracketSelectorP(s, q).value.r.start) == Some(lo)
    ensures StartOf(BracketSelectorP(s, q).value.r.end) == Some(hi)
  {
    var m := LitColonThen(s, q, lo, IntToDecimal(hi) + "]");
    LitThen(s, m + 1, hi, "]");
    e := m + 1 + |IntToDecimal(hi)|;
    RangeFromParts(s, q, lo, m, hi, e);
  }

  /** A decimal, a colon, and what follows the colon. */
  lemma LitColonThen(s: string, q: nat, v: int, t: string) returns (m: nat)
    requires IsI64Lit(v) && StartsWith(s, q, IntToDecimal(v) + (":" + t))
    ensures m == q + |IntToDecimal(v)| && q < m < |s| && s[m] == ':'
    ensures LitAt(s, q, v, m) && StartsWith(s, m + 1, t)
  {
    LitThen(s, q, v, ":" + t);
    m := q + |IntToDecimal(v)|;
    CharThen(s, m, ':', t);
  }

  /** The literals and colons of a printed `lo:hi:step]`. */
  lemma StepSliceParts(s: string, q: nat, lo: int, hi: int, step: int) returns (m1: nat, m2: nat, e: nat)
    requires IsI64Lit(lo) && IsI64Lit(hi) && IsI64Lit(step)
    requires StartsWith(s, q, IntToDecimal(lo) + (":" + (IntToDecimal(hi) + (":" + (IntToDecimal(step) + "]")))))
    ensures m1 == q + |IntToDecimal(lo)| && m2 == m1 + 1 + |IntToDecimal(hi)| && e == m2 + 1 + |IntToDecimal(step)|
    ensures q <= |s| && m1 < |s| && s[m1] == ':' && m2 < |s| && s[m2] == ':' && e < |s| && s[e] == ']'
    ensures LitAt(s, q, lo, m1) && LitAt(s, m1 + 1, hi, m2) && LitAt(s, m2 + 1, step, e)
  {
    m1 := LitColonThen(s, q, lo, IntToDecimal(hi) + (":" + (IntToDecimal(step) + "]")));
    m2, e := StepSliceTail(s, m1 + 1, hi, step);
  }

  /** The literals of a printed `hi:step]`, after the first colon. */
  lemma StepSliceTail(s: string, r: nat, hi: int, step: int) returns (m2: nat, e: nat)
    requires IsI64Lit(hi) && IsI64Lit(step)
    requires StartsWith(s, r, IntToDecimal(hi) + (":" + (IntToDecimal(step) + "]")))
    ensures m2 == r + |IntToDecimal(hi)| && e == m2 + 1 + |IntToDecimal(step)|
    ensures m2 < |s| && s[m2] == ':' && e < |s| && s[e] == ']'
    ensures LitAt(s, r, hi, m2) && LitAt(s, m2 + 1, step, e)
  {
    m2 := LitColonThen(s, r, hi, IntToDecimal(step) + "]");
    LitThen(s, m2 + 1, step, "]");
    e := m2 + 1 + |IntToDecimal(step)|;
  }

  /** The content of a printed `[lo:hi:step]` and the position of its `]`. */
  lemma StepSliceContentAt(s: string, q: nat, lo: int, hi: int, step: int) returns (e: nat)
    requires IsI64Lit(lo) && IsI64Lit(hi) && IsI64Lit(step) && step != 0
    requires q >= 1 && StartsWith(s, q, IntToDecimal(lo) + (":" + (IntToDecimal(hi) + (":" + (IntToDecimal(step) + "]")))))
    ensures e < |s| && s[e] == ']'
    ensures e == q + |IntToDecimal(lo)| + 1 + |IntToDecimal(hi)| + 1 + |IntToDecimal(step)|
    ensures BracketSelectorP(s, q).Parsed? && BracketSelectorP(s, q).next == e
    ensures BracketSelectorP(s, q).value.StepRange?
    ensures StartOf(BracketSelectorP(s, q).value.sr.start) == Some(lo)
    ensures StartOf(BracketSelectorP(s, q).value.sr.end) == Some(hi)
    ensures StepOf(BracketSelectorP(s, q).value.sr) == Some(step)
  {
    var m1, m2;
    m1, m2, e := StepSliceParts(s, q, lo, hi, step);
    StepRangeFromParts(s, q, lo, m1, hi, m2, step, e);
  }

  /** The content of a printed bracket step and the position of its `]`. */
  lemma BracketContentAt(s: string, q: nat, st: Step) returns (e: nat)
    requires Printable(st) && (st.Index? || st.Slice? || st.StepSlice?)
    requires q >= 1 && StartsWith(s, q - 1, Print(st))
    ensures e < |s| && s[e] == ']' && e + 1 == q - 1 + |Print(st)|
    ensures BracketSelectorP(s, q).Parsed? && BracketSelectorP(s, q).next == e
    ensures SpelledSelector(BracketSelectorP(s, q).value) == Some(st)
  {
    var p := Print(st);
    assert p == "[" + p[1..];
    CharThen(s, q - 1, '[', p[1..]);
    match st
    case Index(i) =>
      e := IndexContentAt(s, q, i);
    case Slice(lo, hi) =>
      e := SliceContentAt(s, q, lo, hi);
    case StepSlice(lo, hi, step) =>
      e := StepSliceContentAt(s, q, lo, hi, step);
  }

  /** A bracket around content that spells a step spells that step. */
  lemma BracketStepAt(s: string, pos: nat, e: nat, st: Step)
    requires pos < |s| && s[pos] == '['
    requires BracketSelectorP(s, pos + 1).Parsed? && BracketSelectorP(s, pos + 1).next == e
    requires e < |s| && s[e] == ']' && SpelledSelector(BracketSelectorP(s, pos + 1).value) == Some(st)
    ensures OperatorP(s, pos).Parsed? && OperatorP(s, pos).next == e + 1
    ensures Spelled(OperatorP(s, pos).value) == Some(st)
  {
    BracketSegmentAt(s, pos, e);
    BracketOperatorAt(s, pos);
  }

  /** `[i]`, `[lo:hi]` and `[lo:hi:step]` parse back to the step they print. */
  lemma BracketedOperatorAt(s: string, pos: nat, st: Step)
    requires Printable(st) && (st.Index? || st.Slice? || st.StepSlice?)
    requires StartsWith(s, pos, Print(st))
    ensures OperatorP(s, pos).Parsed? && OperatorP(s, pos).next == pos + |Print(st)|
    ensures Spelled(OperatorP(s, pos).value) == Some(st)
  {
    var e := BracketContentAt(s, pos + 1, st);
    assert s[pos] == Print(st)[0] == '[';
    BracketStepAt(s, pos, e, st);
  }

  /** Every printable step parses back to itself. */
  lemma OperatorAt(s: string, pos: nat, st: Step)
    requires Printable(st) && StartsWith(s, pos, Print(st)) && EndsName(s, pos + |Print(st)|)
    ensures OperatorP(s, pos).Parsed? && OperatorP(s, pos).next == pos + |Print(st)|
    ensures Spelled(OperatorP(s, pos).value) == Some(st)
  {
    if st.Index? || st.Slice? || st.StepSlice? {
      BracketedOperatorAt(s, pos, st);
    } else {
      DottedOperatorAt(s, pos, st);
    }
  }

  /** Operators stop at the end of the input. */
  lemma OperatorsAtEnd(s: string)
    ensures OperatorsP(s, |s|) == Parsed([], |s|)
  {
    OperatorsNotAt(s, |s|);
  }

  /** Every segment spells the step at its place. */
  predicate SpellsAll(segs: seq<Segment>, steps: seq<Step>) {
    |segs| == |steps| && forall i :: 0 <= i < |steps| ==> Spelled(segs[i]) == Some(steps[i])
  }

  lemma SpellsCons(seg: Segment, segs: seq<Segment>, steps: seq<Step>)
    requires steps != [] && Spelled(seg) == Some(steps[0]) && SpellsAll(segs, steps[1..])
    ensures SpellsAll([seg] + segs, steps)
  {
    forall i | 0 <= i < |steps| ensures Spelled(([seg] + segs)[i]) == Some(steps[i]) {
      if i > 0 {
        assert ([seg] + segs)[i] == segs[i - 1] && steps[i] == steps[1..][i - 1];
      }
    }
  }

  predicate AllPrintable(steps: seq<Step>) {
    forall i :: 0 <= i < |steps| ==> Printable(steps[i])
  }

  /** A text that starts with `a + b` and ends a name: `a` ends a name too when `b` does
      not begin with a name character. */
  lemma SplitEndsName(s: string, pos: nat, a: string, b: string)
    requires StartsWith(s, pos, a + b) && EndsName(s, pos + |a + b|)
    requires b != [] ==> !IsIdentChar(b[0])
    ensures StartsWith(s, pos, a) && StartsWith(s, pos + |a|, b) && EndsName(s, pos + |a|)
  {
    StartsWithConcat(s, pos, a, b);
    if b != [] {
      assert s[pos + |a|] == b[0];
    }
  }

  lemma PrintAllFirst(steps: seq<Step>)
    requires steps != []
    ensures |PrintAll(steps)| == |Print(steps[0])| + |PrintAll(steps[1..])|
    ensures PrintAll(steps)[0] == '.' || PrintAll(steps)[0] == '['
  {
    PrintStart(steps[0]);
  }

  lemma AllPrintableSplit(steps: seq<Step>)
    requires steps != [] && AllPrintable(steps)
    ensures Printable(steps[0]) && AllPrintable(steps[1..])
  {
    assert forall i :: 0 <= i < |steps| - 1 ==> steps[1..][i] == steps[i + 1];
  }

  /** Printed steps, split after the first. */
  lemma PrintAllSplit(s: string, pos: nat, steps: seq<Step>)
    requires steps != [] && AllPrintable(steps)
    requires StartsWith(s, pos, PrintAll(steps)) && EndsName(s, pos + |PrintAll(steps)|)
    ensures var e1 := pos + |Print(steps[0])|;
      Printable(steps[0]) && AllPrintable(steps[1..])
      && StartsWith(s, pos, Print(steps[0])) && EndsName(s, e1)
      && StartsWith(s, e1, PrintAll(steps[1..])) && e1 + |PrintAll(steps[1..])| == pos + |PrintAll(steps)|
  {
    PrintAllFirst(steps);
    if steps[1..] != [] {
      PrintAllFirst(steps[1..]);
    }
    SplitEndsName(s, pos, Print(steps[0]), PrintAll(steps[1..]));
    AllPrintableSplit(steps);
  }

  /** One operator spelling the first step, then operators spelling the rest. */
  lemma OperatorsCons(s: string, pos: nat, e1: nat, steps: seq<Step>)
    requires pos <= |s| && steps != []
    requires OperatorP(s, pos).Parsed? && OperatorP(s, pos).next == e1
    requires Spelled(OperatorP(s, pos).value) == Some(steps[0])
    requires OperatorsP(s, e1).Parsed? && SpellsAll(OperatorsP(s, e1).value, steps[1..])
    ensures OperatorsP(s, pos).Parsed? && OperatorsP(s, pos).next == OperatorsP(s, e1).next
    ensures SpellsAll(OperatorsP(s, pos).value, steps)
  {
    OperatorsStep(s, pos);
    SpellsCons(OperatorP(s, pos).value, OperatorsP(s, e1).value, steps);
  }

  /** The operator at `p` spells `st` and ends at `q`. */
  predicate StepAt(s: string, p: nat, st: Step, q: nat) {
    p <= |s| && OperatorP(s, p).Parsed? && OperatorP(s, p).next == q && Spelled(OperatorP(s, p).value) == Some(st)
  }

  /** Operators read one after another from `pos` spell `steps`, the k-th ending at
      `ends[k]`. */
  predicate StepsAt(s: string, pos: nat, steps: seq<Step>, ends: seq<nat>)
    decreases |steps|
  {
    |ends| == |steps|
    && (steps != [] ==> StepAt(s, pos, steps[0], ends[0]) && StepsAt(s, ends[0], steps[1..], ends[1..]))
  }

  function LastEnd(pos: nat, ends: seq<nat>): nat {
    if ends == [] then pos else ends[|ends| - 1]
  }

  /** Printed steps are read one operator each. */
  lemma {:induction false} PrintedStepsAt(s: string, pos: nat, steps: seq<Step>) returns (ends: seq<nat>)
    requires AllPrintable(steps) && StartsWith(s, pos, PrintAll(steps))
    requires EndsName(s, pos + |PrintAll(steps)|)
    ensures StepsAt(s, pos, steps, ends) && LastEnd(pos, ends) == pos + |PrintAll(steps)|
    decreases |steps|
  {
    if steps == [] {
      ends := [];
    } else {
      PrintAllSplit(s, pos, steps);
      var e1 := pos + |Print(steps[0])|;
      PrintedStepAt(s, pos, steps[0]);
      var rest := PrintedStepsAt(s, e1, steps[1..]);
      StepsAtCons(s, pos, steps, e1, rest);
      ends := [e1] + rest;
    }
  }

  /** A printed step is read as one operator. */
  lemma PrintedStepAt(s: string, pos: nat, st: Step)
    requires Printable(st) && StartsWith(s, pos, Print(st)) && EndsName(s, pos + |Print(st)|)
    ensures StepAt(s, pos, st, pos + |Print(st)|)
  {
    OperatorAt(s, pos, st);
  }

  /** One step read, then the rest: the ends line up. */
  lemma StepsAtCons(s: string, pos: nat, steps: seq<Step>, e1: nat, rest: seq<nat>)
    requires steps != [] && StepAt(s, pos, steps[0], e1) && StepsAt(s, e1, steps[1..], rest)
    ensures StepsAt(s, pos, steps, [e1] + rest) && LastEnd(pos, [e1] + rest) == LastEnd(e1, rest)
  {
    assert ([e1] + rest)[1..] == rest;
  }

  /** Operators that spell steps, followed by no further operator, are read as a whole. */
  lemma {:induction false} OperatorsSpell(s: string, pos: nat, steps: seq<Step>, ends: seq<nat>, e: nat)
    requires StepsAt(s, pos, steps, ends) && e == LastEnd(pos, ends)
    requires e <= |s| && OperatorsP(s, e) == Parsed([], e)
    ensures OperatorsP(s, pos).Parsed? && OperatorsP(s, pos).next == e
    ensures SpellsAll(OperatorsP(s, pos).value, steps)
    decreases |steps|
  {
    if steps != [] {
      assert LastEnd(ends[0], ends[1..]) == LastEnd(pos, ends);
      OperatorsSpell(s, ends[0], steps[1..], ends[1..], e);
      OperatorsCons(s, pos, ends[0], steps);
    }
  }

  /** Operators that spell steps, followed by an operator that aborts: the repetition
      aborts. */
  lemma {:induction false} OperatorsSpellAbort(s: string, pos: nat, steps: seq<Step>, ends: seq<nat>, e: nat, m: string)
    requires StepsAt(s, pos, steps, ends) && e == LastEnd(pos, ends)
    requires e <= |s| && OperatorsP(s, e) == Aborted(m)
    ensures OperatorsP(s, pos) == Aborted(m)
    decreases |steps|
  {
    if steps != [] {
      assert LastEnd(ends[0], ends[1..]) == LastEnd(pos, ends);
      OperatorsSpellAbort(s, ends[0], steps[1..], ends[1..], e, m);
      OperatorsStep(s, pos);
    }
  }

  /** Printed steps that end at `e`, where no further operator follows, are read back one
      operator each. */
  lemma OperatorsAt(s: string, pos: nat, steps: seq<Step>, e: nat)
    requires AllPrintable(steps) && StartsWith(s, pos, PrintAll(steps))
    requires e == pos + |PrintAll(steps)| && EndsName(s, e) && OperatorsP(s, e) == Parsed([], e)
    ensures OperatorsP(s, pos).Parsed? && OperatorsP(s, pos).next == e
    ensures SpellsAll(OperatorsP(s, pos).value, steps)
  {
    var ends := PrintedStepsAt(s, pos, steps);
    OperatorsSpell(s, pos, steps, ends, e);
  }

  /** Printed steps that end at `e`, where an operator that aborts follows: the repetition
      aborts. */
  lemma OperatorsAbortAfter(s: string, pos: nat, steps: seq<Step>, e: nat, m: string)
    requires AllPrintable(steps) && StartsWith(s, pos, PrintAll(steps))
    requires e == pos + |PrintAll(steps)| && EndsName(s, e) && OperatorsP(s, e) == Aborted(m)
    ensures OperatorsP(s, pos) == Aborted(m)
  {
    var ends := PrintedStepsAt(s, pos, steps);
    OperatorsSpellAbort(s, pos, steps, ends, e, m);
  }

  /** A path that starts with `$` is its operators, read up to the end of the input. */
  lemma PathAt(s: string)
    requires 0 < |s| && s[0] == '$'
    ensures var ops := OperatorsP(s, 1);
      PathP(s) == if ops.Aborted? then Aborted(ops.message)
        else if ops.next == |s| then Parsed(Path.Path(Token(Span(0, 1)), ops.value, None), ops.next)
        else Failed(ops.next)
  {
    CharTokenAt(s, 0, TokenKind.Dollar);
  }

  /** The three parts of a concatenation start where they stand. */
  lemma ThreeParts(a: string, b: string, c: string)
    ensures StartsWith(a + b + c, 0, a) && StartsWith(a + b + c, |a|, b) && StartsWith(a + b + c, |a| + |b|, c)
  {
    var s := a + b + c;
    forall i | 0 <= i < |a| ensures s[i] == a[i] { }
    forall i | 0 <= i < |b| ensures s[|a| + i] == b[i] { }
    forall i | 0 <= i < |c| ensures s[|a| + |b| + i] == c[i] { }
  }

  /** Printed steps after a `$` where the input ends or no operator follows. */
  lemma PathStepsAt(s: string, steps: seq<Step>, e: nat)
    requires 0 < |s| && s[0] == '$' && AllPrintable(steps) && StartsWith(s, 1, PrintAll(steps))
    requires e == 1 + |PrintAll(steps)| && (e == |s| || (!IsIdentChar(s[e]) && s[e] != '.' && s[e] != '['))
    ensures e < |s| ==> PathP(s) == Failed(e)
    ensures e == |s| ==> PathP(s).Parsed? && PathP(s).value.tilde.None? && SpellsAll(PathP(s).value.segments, steps)
  {
    OperatorsNotAt(s, e);
    OperatorsAt(s, 1, steps, e);
    PathAt(s);
  }

  /** A path printed from steps parses back to those steps: the printed path is `$` and
      the steps, and every segment of the parse spells the step at its place. */
  lemma PathRoundTrip(steps: seq<Step>)
    requires AllPrintable(steps)
    ensures var r := PathP("$" + PrintAll(steps));
      r.Parsed? && r.value.tilde.None? && SpellsAll(r.value.segments, steps)
  {
    var s := "$" + PrintAll(steps) + "";
    ThreeParts("$", PrintAll(steps), "");
    assert s == "$" + PrintAll(steps) && s[0] == "$"[0];
    PathStepsAt(s, steps, |s|);
  }

  /** Text after the last operator that begins no operator makes the path fail there:
      a path must end where its operators end. */
  lemma PathTrailingTextFails(steps: seq<Step>, t: string)
    requires AllPrintable(steps)
    requires t != [] && !IsIdentChar(t[0]) && t[0] != '.' && t[0] != '['
    ensures PathP("$" + PrintAll(steps) + t) == Failed(1 + |PrintAll(steps)|)
  {
    var s := "$" + PrintAll(steps) + t;
    var e := 1 + |PrintAll(steps)|;
    ThreeParts("$", PrintAll(steps), t);
    assert s[0] == "$"[0] && s[e] == t[0];
    PathStepsAt(s, steps, e);
  }

  /** A bracket whose content does not begin with a digit or `-` aborts the parse: the step
      range alternative is tried first, and its optional start literal reads an empty digit
      run and unwraps the failed conversion. So `[*]`, `['a']` and `[?(...)]` never parse. */
  lemma BracketWithoutIntegerAborts(s: string, pos: nat)
    requires pos < |s| && s[pos] == '['
    requires pos + 1 == |s| || (!IsDigit(s[pos + 1]) && s[pos + 1] != '-')
    ensures OperatorP(s, pos) == Aborted(EmptyDigits)
    ensures OperatorsP(s, pos) == Aborted(EmptyDigits)
  {
    assert IntLitP(s, pos + 1) == Aborted(EmptyDigits);
    assert BoundsP(s, pos + 1) == Aborted(EmptyDigits);
    assert SliceSelectorP(s, pos + 1) == Aborted(EmptyDigits);
    SliceFirst(s, pos + 1);
    BracketSegmentAborts(s, pos);
    BracketOperatorAt(s, pos);
    OperatorsAbort(s, pos);
  }

  /** Printed steps after a `$`, then a bracket that aborts. */
  lemma PathAbortsAt(s: string, steps: seq<Step>, e: nat)
    requires 0 < |s| && s[0] == '$' && AllPrintable(steps) && StartsWith(s, 1, PrintAll(steps))
    requires e == 1 + |PrintAll(steps)| && e < |s| && s[e] == '['
    requires e + 1 == |s| || (!IsDigit(s[e + 1]) && s[e + 1] != '-')
    ensures PathP(s) == Aborted(EmptyDigits)
  {
    BracketWithoutIntegerAborts(s, e);
    OperatorsAbortAfter(s, 1, steps, e, EmptyDigits);
    PathAt(s);
  }

  /** Whatever valid steps come first, such a bracket makes the whole path abort. */
  lemma PathWithBracketWithoutIntegerAborts(steps: seq<Step>, t: string)
    requires AllPrintable(steps)
    requires t == [] || (!IsDigit(t[0]) && t[0] != '-')
    ensures PathP("$" + PrintAll(steps) + "[" + t) == Aborted(EmptyDigits)
  {
    var s := "$" + PrintAll(steps) + ("[" + t);
    var e := 1 + |PrintAll(steps)|;
    ThreeParts("$", PrintAll(steps), "[" + t);
    assert s[0] == "$"[0] && s[e] == ("[" + t)[0];
    if t != [] {
      assert s[e + 1] == ("[" + t)[1] == t[0];
    }
    PathAbortsAt(s, steps, e);
    assert "$" + PrintAll(steps) + "[" + t == s;
  }
}
