/** Parse failures and how they merge (src/ast/error.rs). */
module ParseFailures {
  import opened Wrappers
  import opened Spans

  /** `FailReason<I>`: why a parse failed at a span. */
  datatype FailReason<I(==)> =
    | Unexpected(expected: set<Option<I>>, found: Option<I>)
    | Unclosed(unclosedSpan: Span, expected: set<Option<I>>, found: Option<I>, delimiter: I)
    | Custom(message: string)
    | MultiReason(reasons: seq<FailReason<I>>)

  /** `FailReason::merge` */
  function Merge<I(==)>(self: FailReason<I>, other: FailReason<I>): FailReason<I>
  {
    match (self, other)
    case (Unexpected(e1, found), Unexpected(e2, _)) => Unexpected(e1 + e2, found)
    case (MultiReason(m1), MultiReason(m2)) => MultiReason(m1 + m2)
    case (MultiReason(m), _) => MultiReason(m + [other])
    case (_, MultiReason(m)) => MultiReason(m + [self])
    case (_, _) => MultiReason([self, other])
  }

  /** Every token a reason says was expected, through nested lists of reasons. */
  function ExpectedOf<I(==)>(r: FailReason<I>): set<Option<I>>
  {
    match r
    case Unexpected(e, _) => e
    case Unclosed(_, e, _, _) => e
    case Custom(_) => {}
    case MultiReason(rs) => ExpectedOfAll(rs)
  }

  function ExpectedOfAll<I(==)>(rs: seq<FailReason<I>>): set<Option<I>>
  {
    if rs == [] then {} else ExpectedOf(rs[0]) + ExpectedOfAll(rs[1..])
  }

  lemma {:induction false} ExpectedOfAllConcat<I>(a: seq<FailReason<I>>, b: seq<FailReason<I>>)
    ensures ExpectedOfAll(a + b) == ExpectedOfAll(a) + ExpectedOfAll(b)
  {
    if a != [] {
      assert (a + b)[1..] == a[1..] + b;
      ExpectedOfAllConcat(a[1..], b);
    } else {
      assert a + b == b;
    }
  }

  /** Merging loses no expectation and invents none: the merged reason expects exactly what
      either operand expected. */
  lemma MergeExpected<I>(self: FailReason<I>, other: FailReason<I>)
    ensures ExpectedOf(Merge(self, other)) == ExpectedOf(self) + ExpectedOf(other)
  {
    match (self, other)
    case (Unexpected(_, _), Unexpected(_, _)) =>
    case (MultiReason(m1), MultiReason(m2)) =>
      ExpectedOfAllConcat(m1, m2);
    case (MultiReason(m), _) =>
      ExpectedOfAllConcat(m, [other]);
      assert [other][1..] == [];
    case (_, MultiReason(m)) =>
      ExpectedOfAllConcat(m, [self]);
      assert [self][1..] == [];
    case (_, _) =>
      assert [self, other] == [self] + [other];
      ExpectedOfAllConcat([self], [other]);
      assert [self][1..] == [];
      assert [other][1..] == [];
  }

  /** The reasons a merged reason is made of, in order, except that two `Unexpected`
      reasons fuse into one. */
  function Parts<I(==)>(r: FailReason<I>): seq<FailReason<I>>
  {
    if r.MultiReason? then r.reasons else [r]
  }

  /** Merging lists the parts of both operands: the first operand's before the second's,
      except that a plain reason merged onto a list goes last. */
  lemma MergeParts<I>(self: FailReason<I>, other: FailReason<I>)
    requires !(self.Unexpected? && other.Unexpected?)
    ensures Merge(self, other).MultiReason?
    ensures !other.MultiReason? || self.MultiReason? ==>
      Parts(Merge(self, other)) == Parts(self) + Parts(other)
    ensures other.MultiReason? && !self.MultiReason? ==>
      Parts(Merge(self, other)) == Parts(other) + Parts(self)
  {
  }

  /** `ParseFail<I, L>`: a failure with its span, reason and optional label. */
  datatype ParseFail<I(==), L> = ParseFail(span: Span, reason: FailReason<I>, failLabel: Option<L>)

  /** `ParseFail::custom` */
  function CustomFail<I(==), L>(span: Span, message: string): (f: ParseFail<I, L>)
    ensures f.reason.Custom? && f.reason.message == message && f.span == span
    ensures f.failLabel.None?
    ensures ExpectedOf(f.reason) == {}
  {
    ParseFail(span, Custom(message), None)
  }

  /** `expected_input_found`: the expected tokens become a set. */
  function ExpectedInputFound<I(==,!new), L>(span: Span, expected: seq<Option<I>>, found: Option<I>): (f: ParseFail<I, L>)
    ensures f.span == span && f.failLabel.None?
    ensures f.reason.Unexpected? && f.reason.found == found
    ensures forall x :: x in ExpectedOf(f.reason) <==> x in expected
  {
    ParseFail(span, Unexpected((set x | x in expected), found), None)
  }

  /** `unclosed_delimiter` */
  function UnclosedDelimiter<I(==), L>(unclosedSpan: Span, unclosed: I, span: Span, expected: I, found: Option<I>): (f: ParseFail<I, L>)
    ensures f.span == span && f.failLabel.None?
    ensures f.reason.Unclosed? && f.reason.delimiter == unclosed && f.reason.unclosedSpan == unclosedSpan
    ensures f.reason.found == found
    ensures ExpectedOf(f.reason) == {Some(expected)}
  {
    ParseFail(span, Unclosed(unclosedSpan, {Some(expected)}, found, unclosed), None)
  }

  /** `with_label` */
  function WithLabel<I(==), L>(f: ParseFail<I, L>, newLabel: L): (g: ParseFail<I, L>)
    ensures g.failLabel == Some(newLabel)
    ensures g.span == f.span && g.reason == f.reason
  {
    f.(failLabel := Some(newLabel))
  }

  /** `ParseFail::merge`: the first failure's span, the merged reasons, the first label
      present. */
  function MergeFails<I(==), L>(self: ParseFail<I, L>, other: ParseFail<I, L>): (f: ParseFail<I, L>)
    ensures f.span == self.span
    ensures f.failLabel.Some? <==> self.failLabel.Some? || other.failLabel.Some?
    ensures self.failLabel.Some? ==> f.failLabel == self.failLabel
    ensures self.failLabel.None? ==> f.failLabel == other.failLabel
    ensures ExpectedOf(f.reason) == ExpectedOf(self.reason) + ExpectedOf(other.reason)
  {
    MergeExpected(self.reason, other.reason);
    ParseFail(self.span, Merge(self.reason, other.reason),
      match self.failLabel case Some(_) => self.failLabel case None => other.failLabel)
  }
}
