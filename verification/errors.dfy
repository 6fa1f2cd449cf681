/** The errors of the library and their rendering (src/error.rs). */
module Errors {
  import opened Text
  import opened JsonValue
  import opened Idx
  import opened Wrappers

  /** `JsonTy`: the kind of a JSON value, for error messages. */
  datatype JsonTy = Null | Bool | Number | String | Array | Object

  /** `JsonTy::from(&Value)`: the tag of the value's variant. */
  function TyOf(v: Json): (t: JsonTy)
    ensures t == JsonTy.Null <==> v.Null?
    ensures t == JsonTy.Bool <==> v.Bool?
    ensures t == JsonTy.Number <==> v.Number?
    ensures t == JsonTy.String <==> v.String?
    ensures t == JsonTy.Array <==> v.Array?
    ensures t == JsonTy.Object <==> v.Object?
  {
    match v
    case Null => JsonTy.Null
    case Bool(_) => JsonTy.Bool
    case Number(_) => JsonTy.Number
    case String(_) => JsonTy.String
    case Array(_) => JsonTy.Array
    case Object(_) => JsonTy.Object
  }

  /** `Display for JsonTy` */
  function TyName(t: JsonTy): (s: string)
    ensures TyFromName(s) == Some(t)
    ensures ',' !in s
  {
    match t
    case Null => "null"
    case Bool => "bool"
    case Number => "number"
    case String => "string"
    case Array => "array"
    case Object => "object"
  }

  /** Reads a type name back. */
  function TyFromName(s: string): Option<JsonTy> {
    if s == "null" then Some(JsonTy.Null)
    else if s == "bool" then Some(JsonTy.Bool)
    else if s == "number" then Some(JsonTy.Number)
    else if s == "string" then Some(JsonTy.String)
    else if s == "array" then Some(JsonTy.Array)
    else if s == "object" then Some(JsonTy.Object)
    else None
  }

  /** `ResolveError`: why an index path could not be followed. */
  datatype ResolveError =
    | MismatchedTy(expected: JsonTy, actual: JsonTy)
    | MissingIdx(idx: Idx)

  /** `ResolveError::mismatched`: `expected` as given, `actual` the tag of `got`. */
  function Mismatched(expected: JsonTy, got: Json): (e: ResolveError)
    ensures e.MismatchedTy? && e.expected == expected && e.actual == TyOf(got)
    ensures e.actual == JsonTy.Array <==> got.Array?
    ensures e.actual == JsonTy.Object <==> got.Object?
  {
    MismatchedTy(expected, TyOf(got))
  }

  const MismatchPrefix: string := "Resolved path expected type "
  const MismatchMiddle: string := ", instead got type "
  const MissingPrefix: string := "Resolved path expected an index "
  const MissingSuffix: string := ", but it didn't exist"

  /** `{:?}` of the payload of an index: a position in decimal, a key quoted. */
  function DebugIdx(idx: Idx): (s: string)
    ensures |s| > 0
    ensures s[0] == '"' <==> idx.ObjectIdx?
  {
    match idx
    case ArrayIdx(i) => NatToDecimal(i)
    case ObjectIdx(k) => DebugString(k)
  }

  /** `Display for ResolveError` */
  function ResolveErrorMessage(e: ResolveError): string
  {
    match e
    case MismatchedTy(expected, actual) =>
      MismatchPrefix + (TyName(expected) + (MismatchMiddle + TyName(actual)))
    case MissingIdx(idx) => MissingPrefix + (DebugIdx(idx) + MissingSuffix)
  }

  /** The rendered message determines the error: different errors never print alike. */
  lemma ResolveErrorMessageInjective(e1: ResolveError, e2: ResolveError)
    requires ResolveErrorMessage(e1) == ResolveErrorMessage(e2)
    ensures e1 == e2
  {
    if e1.MismatchedTy? && e2.MismatchedTy? {
      MismatchMessageInjective(e1, e2);
    } else if e1.MissingIdx? && e2.MissingIdx? {
      MissingMessageInjective(e1, e2);
    } else {
      MessageTag(e1);
      MessageTag(e2);
    }
  }

  /** The two kinds of message part ways at their 24th character. */
  lemma MessageTag(e: ResolveError)
    ensures |ResolveErrorMessage(e)| > 23
    ensures ResolveErrorMessage(e)[23] == if e.MismatchedTy? then 't' else 'a'
  {
    match e
    case MismatchedTy(x, y) =>
      PrefixChar(MismatchPrefix, TyName(x) + (MismatchMiddle + TyName(y)), 23);
      assert MismatchPrefix[23] == 't';
    case MissingIdx(idx) =>
      PrefixChar(MissingPrefix, DebugIdx(idx) + MissingSuffix, 23);
      assert MissingPrefix[23] == 'a';
  }

  /** A character inside the first part of a concatenation. */
  lemma PrefixChar(a: string, b: string, i: nat)
    requires i < |a|
    ensures |a + b| > i && (a + b)[i] == a[i]
  {
  }

  lemma MismatchMessageInjective(e1: ResolveError, e2: ResolveError)
    requires e1.MismatchedTy? && e2.MismatchedTy?
    requires ResolveErrorMessage(e1) == ResolveErrorMessage(e2)
    ensures e1 == e2
  {
    var m1 := TyName(e1.expected) + (MismatchMiddle + TyName(e1.actual));
    var m2 := TyName(e2.expected) + (MismatchMiddle + TyName(e2.actual));
    assert m1 == ResolveErrorMessage(e1)[|MismatchPrefix|..];
    assert m2 == ResolveErrorMessage(e2)[|MismatchPrefix|..];
    TyPairInjective(e1.expected, e1.actual, e2.expected, e2.actual);
  }

  lemma TyPairInjective(a1: JsonTy, b1: JsonTy, a2: JsonTy, b2: JsonTy)
    requires TyName(a1) + (MismatchMiddle + TyName(b1)) == TyName(a2) + (MismatchMiddle + TyName(b2))
    ensures a1 == a2 && b1 == b2
  {
    var n1, n2 := TyName(a1), TyName(a2);
    var t1, t2 := MismatchMiddle + TyName(b1), MismatchMiddle + TyName(b2);
    var m := n1 + t1;
    FirstComma(n1, t1);
    FirstComma(n2, t2);
    assert n1 == m[..|n1|];
    assert n2 == m[..|n2|];
    assert t1 == m[|n1|..] == t2;
    assert TyName(b1) == t1[|MismatchMiddle|..];
    assert TyName(b2) == t2[|MismatchMiddle|..];
    assert TyFromName(n1) == Some(a1);
    assert TyFromName(TyName(b1)) == Some(b1);
  }

  lemma MissingMessageInjective(e1: ResolveError, e2: ResolveError)
    requires e1.MissingIdx? && e2.MissingIdx?
    requires ResolveErrorMessage(e1) == ResolveErrorMessage(e2)
    ensures e1 == e2
  {
    var d1, d2 := DebugIdx(e1.idx), DebugIdx(e2.idx);
    var m := ResolveErrorMessage(e1)[|MissingPrefix|..];
    assert m == d1 + MissingSuffix;
    assert m == d2 + MissingSuffix;
    assert d1 == m[..|m| - |MissingSuffix|] == d2;
    DebugIdxInjective(e1.idx, e2.idx);
  }

  /** Positions print as bare decimals, keys as quoted strings, so no two indices print alike. */
  lemma DebugIdxInjective(i1: Idx, i2: Idx)
    requires DebugIdx(i1) == DebugIdx(i2)
    ensures i1 == i2
  {
    match (i1, i2)
    case (ArrayIdx(i), ArrayIdx(j)) =>
      assert DigitsValue(NatToDecimal(i)) == i;
      assert DigitsValue(NatToDecimal(j)) == j;
    case (ObjectIdx(k1), ObjectIdx(k2)) =>
      DebugStringInjective(k1, k2);
    case (_, _) =>
  }

  /** In `a + b` with no comma in `a` and a comma first in `b`, the first comma is at `|a|`. */
  lemma FirstComma(a: string, b: string)
    requires ',' !in a && |b| > 0 && b[0] == ','
    ensures FirstIndexOf(a + b, ',') == |a|
  {
    FirstIndexOfConcat(a, b, ',');
  }

  function FirstIndexOf(s: string, c: char): (i: nat)
    ensures i <= |s|
    ensures i < |s| ==> s[i] == c
    ensures forall j :: 0 <= j < i ==> s[j] != c
  {
    if s == [] then 0 else if s[0] == c then 0 else 1 + FirstIndexOf(s[1..], c)
  }

  lemma FirstIndexOfConcat(a: string, b: string, c: char)
    requires c !in a && |b| > 0 && b[0] == c
    ensures FirstIndexOf(a + b, c) == |a|
  {
    var s := a + b;
    assert s[|a|] == c;
    assert forall j :: 0 <= j < |a| ==> s[j] == a[j];
  }

  // ParseError (src/error.rs:18-36)

  const ParseErrorHeader: string := "Error Parsing JSON Path:"

  /** `ParseError`: the source text and the parser's diagnostics, each already rendered to one
      line of text. */
  datatype ParseError = ParseError(src: string, errs: seq<string>)

  /** Each string followed by a line break, as `writeln!` prints them. */
  function JoinLines(lines: seq<string>): string
  {
    if lines == [] then [] else lines[0] + "\n" + JoinLines(lines[1..])
  }

  /** `Display for ParseError`: the header line, the source line, then one line per
      diagnostic in order. */
  function ParseErrorMessage(e: ParseError): (s: string)
    ensures s == JoinLines([ParseErrorHeader, e.src] + e.errs)
  {
    var body := JoinLines(e.errs);
    assert ([ParseErrorHeader, e.src] + e.errs)[1..] == [e.src] + e.errs;
    assert ([e.src] + e.errs)[1..] == e.errs;
    ParseErrorHeader + "\n" + (e.src + "\n" + body)
  }

  /** Cuts text into its newline-terminated lines (a last line without a newline counts). */
  function SplitLines(s: string): seq<string>
    decreases |s|
  {
    if s == [] then []
    else
      var i := FirstIndexOf(s, '\n');
      if i == |s| then [s] else [s[..i]] + SplitLines(s[i + 1..])
  }

  /** A line without a line break, its newline, then more text: the line is split off first. */
  lemma SplitLinesCons(a: string, rest: string)
    requires '\n' !in a
    ensures SplitLines(a + "\n" + rest) == [a] + SplitLines(rest)
  {
    var s := a + "\n" + rest;
    assert s == a + ("\n" + rest);
    FirstIndexOfConcat(a, "\n" + rest, '\n');
    assert s[..|a|] == a;
    assert s[|a| + 1..] == rest;
  }

  /** Lines without line breaks are recovered from their joined text. */
  lemma {:induction false} SplitJoinLines(lines: seq<string>)
    requires forall i :: 0 <= i < |lines| ==> '\n' !in lines[i]
    ensures SplitLines(JoinLines(lines)) == lines
  {
    if lines != [] {
      forall i | 0 <= i < |lines[1..]| ensures '\n' !in lines[1..][i] {
        assert lines[1..][i] == lines[i + 1];
      }
      SplitJoinLines(lines[1..]);
      SplitLinesCons(lines[0], JoinLines(lines[1..]));
      assert lines == [lines[0]] + lines[1..];
    }
  }

  /** When the source and the diagnostics are single lines, the rendered error reads back as
      the header, the source, and the diagnostics in order. */
  lemma ParseErrorLines(e: ParseError)
    requires '\n' !in e.src
    requires forall i :: 0 <= i < |e.errs| ==> '\n' !in e.errs[i]
    ensures SplitLines(ParseErrorMessage(e)) == [ParseErrorHeader, e.src] + e.errs
  {
    var lines := [ParseErrorHeader, e.src] + e.errs;
    forall i | 0 <= i < |lines| ensures '\n' !in lines[i] {
      if i >= 2 { assert lines[i] == e.errs[i - 2]; }
    }
    SplitJoinLines(lines);
  }
}
