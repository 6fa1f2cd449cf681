# jsonpath-plus query engine in Dafny

A Dafny model of the query engine of jsonpath-plus, a Rust JSONPath library ("Proposal A with
extensions"). The library parses a path such as `$.list[1:3]` into an AST, evaluates it over a
JSON document with a working set of matched nodes, and can delete or replace what matched by
turning the matched nodes into index paths. The model covers:

- **JSON values, index paths and errors.**
  - `JsonValue` is the six-variant value and the derived accessors of the `Json` trait, plus the
    array and object iterators.
  - `Idx` and `IdxPaths` are array positions and object keys. They cover `IdxPath::remove`,
    `resolve_on`, `resolve_on_mut` and `sort_specific_last`.
  - `Errors` holds the type tags, the `ResolveError` and `ParseError` messages.
- **Front end.**
  - `Ast` holds the AST and its accessors. `Tokens` holds the simple and wrapping tokens.
  - `Spans` and `SpanOf` hold source spans and the spans of AST nodes.
  - `ParseFailures` holds the parse-failure merging.
  - `Parser` is the grammar, as a PEG over the characters of the pattern. A parse is
    `Parsed(value, next)`, `Failed(at)` or `Aborted(message)`. The last one stands for a panic
    inside a parser.
- **Evaluation.**
  - `Arena` holds the document as an arena of nodes. Node identity, which the library takes
    from pointers, becomes the node's index.
  - `EvalContext` holds the evaluation context: the working set, the identity-keyed parent map,
    `apply_matched`, `idx_of` and `paths_matched`.
  - `Selectors` and `Evaluator` hold the selectors and the filter-expression evaluator.
- **Mutation.**
  - `Mutation` holds `delete_paths` and `replace_paths` over a plain `Json` tree.
  - `JsonPath` holds the library's `compile`, `find`, `delete` and `replace`, with their own
    `resolve_path`.

Every panic of the Rust code is an explicit outcome. It is either `Outcome.Panic(message)` or a
parser's `Aborted(message)`. Examples are `unwrap` on `None`, an index out of range, a debug-build
integer overflow, `unreachable!` and `todo!`. A panic is never a precondition. The model is pure,
so the inputs of `delete` and `replace` are unchanged by construction: they return a new value.

### Where the files disagree

The files of the repository are from revisions that are out of step with each other.

- **Names.** `src/ast.rs` defines `Segment`, `RawSelector` and `BracketSelector`. The parser and
  evaluator still use the older names `Operator`, `DotIdent`, `BracketInner` and `RecursiveOp`.
  The model has one AST, following `src/ast.rs`, and maps the old names onto it. The evaluator
  has no case for a union selector, so evaluating one panics (`todo!`).
- **Index accessors.** `src/lib.rs` calls `Idx::as_int` and `Idx::as_string`, which do not
  exist. The model uses `as_array` and `as_object` and unwraps them. A mismatched index panics.
- **Digit runs in the parser.** The integer-literal parser reads a digit run of length zero or
  more and unwraps the conversion. So every bracket whose content does not start with a digit or
  `-` aborts the parse. This covers `$[*]`, `$['a']` and `$[?(@.x)]`. The reason is that the
  step-range alternative is tried first, and its optional start literal does not fail on
  an empty run: it panics.
- **`is_f64`.** The `Json` trait's default `is_f64` (src/json.rs:153-155) holds for every
  number. The evaluator calls `is_f64` on a `serde_json::Value`, where serde_json's inherent
  method takes precedence; it holds only for a number stored as a float. The model keeps both
  (`JsonValue.IsF64`, `JsonValue.ValueIsF64`), and `+` uses the inherent one.
- **Parent map in the pipeline.** `find`, `delete` and `replace` never fill the parent map. So
  every matched node has the empty index path. `delete` and `replace` then underflow on
  `p.len() - 1` whenever anything matched (`JsonPath.DeletePipeline`,
  `JsonPath.ReplacePipeline`). The mutation itself is proved correct separately, for non-empty
  paths (`JsonPath.DeleteAtAgrees`, `JsonPath.ReplaceAllFillsArray`).
- **Tests that do not match the code.** Several tests expect behaviour the evaluator does not
  have:
  - slices clamped to the array (`Evaluator.OpenEndPanics`);
  - `$[0]` matching nothing on `{"0": ...}` (`Selectors.IntSelObjectKey`);
  - filters applied to the children of the entry (`EvalProperties.FilterTestsTheEntry`).

  The model follows the code.

## Model

| member | source | states |
|---|---|---|
| JsonValue.VecGet | src/json.rs:59-61 | `get(i)` is `Some(a[i])` exactly when `i` is below the length |
| JsonValue.VecRemove | src/json.rs:67-69 | `Vec::remove(i)` panics unless `i < len`; otherwise one element shorter, earlier elements kept, later ones shifted down by one |
| JsonValue.ArrayIterFrom | src/json.rs:36-44 | the iterator yields `get(i)`, `get(i+1)`, … and stops at the first `None` |
| JsonValue.VecIterYieldsElements | src/json.rs:54-73 | iterating a `Vec` from `i` yields exactly its elements from `i`, in index order |
| JsonValue.ObjectIter | src/json.rs:76-85 | one `(key, value)` entry per snapshotted key, in snapshot order, each value what `get` returns for its key; stops at the first key no longer present |
| JsonValue.ObjectValues | src/json.rs:87-96 | the same over values: one value per snapshotted key, stopping at the first missing key |
| JsonValue.ObjectValuesAreIterValues | src/json.rs:76-96 | `values()` yields exactly the second components of `iter()` |
| JsonValue.ObjectGet | src/json.rs:107-109 | a lookup finds a value exactly when the key is present, and the value is stored under that key |
| JsonValue.ObjectRemoveSpec | src/json.rs:115-117 | after `remove(key)` the key is absent and every other key looks up as before |
| JsonValue.ObjectSetSpec | src/utils.rs:34-35 | assigning `m[key] = new` keeps the key list, makes `key` look up `new`, and leaves every other key's lookup unchanged |
| JsonValue.ObjectIterYieldsEntries | src/json.rs:119-121 | over the map's own key list, the object iterator yields exactly the map's entries |
| JsonValue.IsBool | src/json.rs:149-151 | `is_bool` holds exactly when `as_bool` is `Some` |
| JsonValue.IsF64 | src/json.rs:153-155 | `is_f64` holds exactly for numbers, which is when `as_f64` is `Some` |
| JsonValue.IsString | src/json.rs:157-159 | `is_string` holds exactly when `as_str` is `Some` |
| JsonValue.AsBool | src/json.rs:161-167 | `Some(b)` exactly for the value `Bool(b)`, `None` for every other variant |
| JsonValue.AsI64 | src/json.rs:169-175 | `Some(i)` exactly for an integer number within the `i64` range, and the value is that number |
| JsonValue.AsF64 | src/json.rs:177-183 | `Some` exactly for numbers; an integer converts to the same real |
| JsonValue.AsStr | src/json.rs:185-191 | `Some(s)` exactly for the value `String(s)` |
| JsonValue.AsArray | src/json.rs:193-199 | `Some(items)` exactly for the value `Array(items)` |
| JsonValue.AsObject | src/json.rs:201-207 | `Some(entries)` exactly for the value `Object(entries)` |
| JsonValue.ValueIsF64 | src/ast/eval.rs:338 | the `is_f64` that the evaluator calls on a `Value` holds exactly for a float-stored number: never for an integer, even though `as_f64` converts one |
| Idx.FromIdx | src/json.rs:139-144 | an array index becomes the integer value of its position, wrapped to `i64` as the `as` cast does; an object index becomes the string value of its key |
| Idx.FromIdxIsToValue | src/idx.rs:49-55 | for positions that fit in `i64`, `Json::from_idx` and `From<Idx> for Value` agree |
| Idx.IsArray | src/idx.rs:20-22 | exactly one of `is_array` and `is_object` holds |
| Idx.AsArray | src/idx.rs:32-37 | `Some(u)` exactly when the index is `Array(u)` |
| Idx.AsObject | src/idx.rs:41-46 | `Some(s)` exactly when the index is `Object(s)` |
| Idx.ToValue | src/idx.rs:49-55 | an array index becomes the integer number of its position (not a float, and `as_i64` reads the position back whenever it fits in `i64`); a key index becomes the string of its key |
| IdxPaths.IndexBy | src/idx.rs:58-78 | indexing a value by an `Idx` returns exactly when one resolve step succeeds, with the same child; otherwise it panics |
| IdxPaths.Remove | src/idx.rs:101-109 | `remove(n)` panics unless `n <= len`, and otherwise returns the prefix that leaves out the last `n` indices |
| IdxPaths.RemoveAppended | src/idx.rs:101-109 | removing the length of an appended suffix gives back the original path |
| IdxPaths.Step | src/idx.rs:120-136 | one resolve step: a position on a non-array is `MismatchedTy{Array, actual}`, a key on a non-object is `MismatchedTy{Object, actual}`, an absent position or key is `MissingIdx(idx)`, and otherwise the child |
| IdxPaths.ResolveConcat | src/idx.rs:117-140 | resolving `p ++ q` is resolving `p` and then `q` from where `p` ends, with the first error kept |
| IdxPaths.ResolveSnoc | src/idx.rs:117-140 | the empty path resolves to the value itself; `p ++ [i]` resolves `p` and takes one step `i` |
| IdxPaths.ResolveOn | src/idx.rs:117-140 | the empty path resolves to the value itself, a one-index path is exactly one step, and only a non-empty path can fail |
| IdxPaths.ResolveOnMut | src/idx.rs:148-179 | the empty path resolves to the value itself, only a non-empty path can fail, and every type mismatch reports `expected: Array`, whichever index kind failed |
| IdxPaths.ResolveFailsAtFirstBadStep | src/idx.rs:117-140 | a failed resolve reports the error of the first step that fails after a prefix that resolves |
| IdxPaths.FirstBadStep | src/idx.rs:117-140 | names that step: the prefix before it resolves and the step fails with exactly the error the whole resolve reports |
| IdxPaths.StepMut | src/idx.rs:164-171 | the mutable step reports `expected: Array` for a key on a non-object |
| IdxPaths.ResolveOnMutAgrees | src/idx.rs:148-179 | `resolve_on_mut` succeeds on exactly the paths `resolve_on` does, at the same location, and otherwise reports the same error with the expected type rewritten as above |
| IdxPaths.SortSpecificLast | src/idx.rs:181-196 | a longer path sorts first; two equal-length paths ending in array positions sort the higher position first; every other equal-length pair is `Equal` |
| IdxPaths.SortSpecificLastAntisymmetric | src/idx.rs:181-196 | swapping the arguments reverses the ordering |
| IdxPaths.SortSpecificLastTiesNotTransitive | src/idx.rs:181-196 | the `Equal` ties are not transitive: `[1] = ["k"] = [2]` but `[2] < [1]` |
| Errors.TyOf | src/error.rs:110-121 | each of the six value variants maps to the tag of the same name |
| Errors.TyName | src/error.rs:97-108 | each tag displays as a distinct lower-case name, from which the tag can be read back, and which has no comma |
| Errors.Mismatched | src/error.rs:137-144 | `mismatched` gives a `MismatchedTy` error with the expected tag as passed and `actual` the tag of the value it was given |
| Errors.ResolveErrorMessageInjective | src/error.rs:146-169 | two resolve errors with the same message are the same error |
| Errors.MismatchMessageInjective | src/error.rs:149-155 | the mismatch message determines both types |
| Errors.TyPairInjective | src/error.rs:149-155 | the `expected …, instead got …` text determines the pair of types |
| Errors.MissingMessageInjective | src/error.rs:156-166 | the missing-index message determines the index |
| Errors.DebugIdxInjective | src/error.rs:157-160 | the `Debug` text of an index determines the index, and starts with a quote exactly for keys |
| Errors.ParseErrorMessage | src/error.rs:27-36 | the message is the header line, the source line and one line per diagnostic, joined by newlines |
| Errors.SplitJoinLines | src/error.rs:27-36 | lines without newlines, joined, split back into the same lines |
| Errors.ParseErrorLines | src/error.rs:27-36 | splitting the rendered parse error gives back header, source and diagnostics, in order |
| Text.IntToDecimalRoundTrip | src/ast/parse.rs:16-28 | the decimal text of an integer is an optional `-` and digits whose value is the integer |
| Text.IntToDecimalInjective | src/ast/eval.rs:139-145 | distinct integers have distinct decimal texts, so an integer literal names one object key |
| Text.EscapeRoundTrip | src/error.rs:156-166 | the `Debug` escaping of a string can be undone |
| Text.DebugStringInjective | src/error.rs:156-166 | distinct strings have distinct `Debug` texts |
| Text.EscapeChar | src/error.rs:156-166 | `{:?}` gives backslash, quote, line feed, carriage return, tab and NUL a two-character escape, the other control characters `\u{…}` around the hexadecimal of their code point, and leaves every other character as it is |
| Spans.Join | src/ast/span.rs:14-18 | `join` starts at the smaller start and ends at the larger end |
| Spans.JoinAlgebra | src/ast/span.rs:14-18 | `join` is commutative, associative and idempotent |
| Spans.JoinIsLeastBound | src/ast/span.rs:14-18 | `join(a, b)` contains `a` and `b` and is contained in every span that contains both |
| Spans.FromRange | src/ast/span.rs:42-49 | a span built from `start..end` has exactly those bounds |
| Spans.GetSpan | src/ast/span.rs:31-39 | returns the characters with index in `[start, end)`, and panics unless `start <= end < char count` |
| Spans.JoinAllBounds | src/ast/span.rs:158-171 | the fold of `join` over spans contains each of them, and its bounds are bounds of one of them |
| Tokens.Just | src/ast/token.rs:35-48 | a simple token matches exactly its literal text at the position, and its span is the matched range |
| Tokens.TokenWidths | src/ast/token.rs:50-75 | exactly `..`, `&&`, the double bar, `==`, `>=` and `<=` are two characters wide; the rest are one |
| Tokens.TextInjective | src/ast/token.rs:50-75 | no two tokens share a text |
| Tokens.Delimited | src/ast/token.rs:13-21 | a wrapping token succeeds exactly when the inner item parses and the closing delimiter follows; the outer span joins its opening and closing spans, which start and end it |
| Tokens.WrapSpans | src/ast/token.rs:15-20 | for an outer span `[s, e)` the opening span is `[s, s+1)` and the closing span `[e-1, e)` |
| SpanOf.StepRangeSpan | src/ast/span.rs:255-274 | the span of `start:end:step` contains both colons and every part that is present |
| SpanOf.RangeSpan | src/ast/span.rs:276-289 | the span of `start:end` contains the colon and every part that is present |
| SpanOf.FoldSegmentsCovers | src/ast/span.rs:162-164 | folding `join` over segments succeeds exactly when every segment has a span, and the result contains the start and every segment |
| SpanOf.PathSpanCovers | src/ast/span.rs:158-172 | the span of a path contains the `$`, every segment and the tilde |
| SpanOf.SubPathSpanCovers | src/ast/span.rs:174-188 | the span of a sub-path contains its `$` or `@` and every segment |
| SpanOf.FoldComponentsCovers | src/ast/span.rs:214-220 | folding `join` over union components contains every component |
| SpanOf.UnionSpanCovers | src/ast/span.rs:214-220 | a union's span exists exactly when it has at least one component (each with a span), and then contains all of them |
| SpanOf.SegmentSpanCovers | src/ast/span.rs:199-209 | a `..` segment without a selector spans exactly the `..`; with one, the join of both; dot and bracket segments contain their token(s) and selector |
| SpanOf.FilterSpanCovers | src/ast/span.rs:300-307 | the span of a filter contains the `?`, both parentheses and the inner expression |
| SpanOf.FilterSpanOfTest | src/ast/tests.rs:6-25 | in `$[?(@ == true)]` the filter spans `?(@ == true)` and its expression `@ == true` |
| Ast.IsRoot | src/ast.rs:208-210 | exactly one of `is_root` and `is_relative` holds |
| Ast.StepOf | src/ast.rs:284-288 | the step is `Some` exactly when present, and then is non-zero and the literal's value |
| Ast.BracketLitIsInt | src/ast.rs:388-390 | exactly one of `is_int` and `is_str` holds |
| Ast.BracketLitAsInt | src/ast.rs:400-408 | `Some` exactly for an integer literal, with its value |
| Ast.BracketLitAsStr | src/ast.rs:410-417 | `Some` exactly for a string literal, with its text |
| Ast.ExprLitIsInt | src/ast.rs:450-452 | exactly one of `is_int`, `is_str`, `is_bool`, `is_null` holds |
| Ast.ExprLitAsInt | src/ast.rs:474-482 | `Some` exactly for an integer literal, with its value |
| Ast.ExprLitAsStr | src/ast.rs:484-492 | `Some` exactly for a string literal, with its text |
| Ast.ExprLitAsBool | src/ast.rs:494-501 | `Some` exactly for a boolean literal, with its value |
| Ast.TryIntoComponent | src/ast.rs:339-354 | conversion to a union component fails exactly for a union or a wildcard, and otherwise keeps the payload |
| Ast.ComponentRoundTrip | src/ast.rs:339-354 | every component converts back to itself |
| ParseFailures.MergeExpected | src/ast/error.rs:33-67 | merging two failure reasons unions their expected sets |
| ParseFailures.MergeParts | src/ast/error.rs:44-65 | apart from two `Unexpected`, merging gives a multi-reason whose parts are the first's then the second's, except that `x ⊕ MultiReason(b)` puts `b` first and `x` last |
| ParseFailures.CustomFail | src/ast/error.rs:80-86 | `custom` gives reason `Custom(message)`, the span, no label and no expected input |
| ParseFailures.ExpectedInputFound | src/ast/error.rs:98-111 | the reason is `Unexpected` with exactly the given expected inputs and the found input |
| ParseFailures.UnclosedDelimiter | src/ast/error.rs:113-130 | the reason records the unclosed delimiter and its span, the found input and `{expected}`, at the failure span |
| ParseFailures.WithLabel | src/ast/error.rs:132-135 | the label is set and nothing else changes |
| ParseFailures.MergeFails | src/ast/error.rs:137-144 | `merge` keeps the first span, takes the first present label and unions the expected sets |
| Parser.TakeWhile | src/ast/parse.rs:5-13 | the end of a run is at or after the start and is not followed by a character of the class |
| Parser.IdentP | src/ast/parse.rs:5-13 | an identifier always parses, possibly empty, as the text it spans, and stops before a non-identifier character |
| Parser.IdentLongestRun | src/ast/parse.rs:5-13 | every character of the identifier is alphanumeric, `-` or `_`, and so is not the next one |
| Parser.IntLitP | src/ast/parse.rs:16-28 | an integer literal never fails; with no digit run at the position it aborts with the unwrap of an empty conversion |
| ParserProperties.IntLitRoundTrip | src/ast/parse.rs:16-28 | the decimal text of an `i64` other than `i64::MIN`, followed by a non-digit, parses back to that value and span |
| ParserProperties.IntLitOutOfRangeAborts | src/ast/parse.rs:16-28 | the text of an integer outside `i64` (or `i64::MIN`, whose digits overflow before negation) aborts the parse |
| Parser.NonZeroIntLitP | src/ast/parse.rs:31-43 | aborts exactly when the integer literal does, fails exactly when it reads 0, and otherwise has the same value, span and end |
| ParserProperties.ZeroStepFails | src/ast/parse.rs:31-43 | a `0` step fails the non-zero literal, so the optional step is absent and nothing is read |
| Parser.StringContentP | src/ast/parse.rs:45-55 | the content runs to the first delimiter and never contains it, so a backslash is an ordinary character |
| Parser.QuotedP | src/ast/parse.rs:57-81 | a quoted string's content is the text between its quotes |
| Parser.StringLitP | src/ast/parse.rs:83-89 | a string literal never aborts and reads at least one character |
| Parser.BoolLitP | src/ast/parse.rs:91-100 | parses exactly at `true` or `false`, with that value |
| Parser.NullLitP | src/ast/parse.rs:102-107 | parses exactly at `null`, reading four characters |
| Parser.PathKindP | src/ast/parse.rs:126-132 | parses exactly at `$` or `@`, reading one character, and is a root exactly for `$` |
| Parser.SubPathP | src/ast/parse.rs:118-124 | fails exactly when neither `$` nor `@` is at the position; a parsed sub-path has no tilde |
| Parser.OperatorsP | src/ast/parse.rs:109-116 | the repetition of operators never fails: it stops where no operator parses, and an abort inside propagates |
| Parser.OperatorP | src/ast/parse.rs:134-147 | an operator that parses reads at least one character |
| Parser.DotSegmentP | src/ast/parse.rs:134-147 | the `.` alternative never aborts and reads at least the dot |
| Parser.RawSelectorP | src/ast/parse.rs:158-165 | a `DotIdent` always parses, since its name may be empty |
| ParserProperties.OperatorsAt | src/ast/parse.rs:134-165 | printed steps (`.name`, `.*`, `.^`, `..name`, `[i]`, `[a:b]`, `[a:b:c]`) are read back one operator per step, each spelling its step |
| Parser.BracketSelectorP | src/ast/parse.rs:167-193 | a bracket selector that parses reads at least one character |
| Parser.SliceSelectorP | src/ast/parse.rs:167-185 | the first two alternatives give a step range or a range |
| Parser.SymbolSelectorP | src/ast/parse.rs:187-188 | `*` and `^` read one character and give a wildcard or parent selector |
| Parser.BracketLitP | src/ast/parse.rs:195-201 | a bracket literal never fails, and a parsed one is always an integer |
| Parser.ExprLitP | src/ast/parse.rs:215-223 | an expression literal never fails, and a parsed one is always an integer |
| Parser.FilterP | src/ast/parse.rs:203-213 | fails unless `?` is at the position; a parsed filter's expression has the precedence shape |
| ParserProperties.BracketWithoutIntegerAborts | src/ast/parse.rs:167-193 | a `[` not followed by a digit or `-` aborts the operator and the repetition of operators |
| Parser.FirstToken | src/ast/parse.rs:284-291 | finds the first listed operator whose text is at the position, and fails exactly when none is |
| Parser.PaddedOpP | src/ast/parse.rs:239-255 | an operator with surrounding whitespace reads at least the operator, which has the level asked for |
| Parser.OpLevel | src/ast/parse.rs:270-300 | every binary operator has a precedence level from 1 to 5 |
| Parser.UnOpsP | src/ast/parse.rs:262-268 | the prefix operators are a greedy run of `-` and `!`, one character each |
| Parser.FoldUnary | src/ast/parse.rs:234-237 | the first prefix operator is outermost, and the result is a level-0 expression |
| Parser.LevelP | src/ast/parse.rs:239-255 | a level-`k` expression parses to a tree in which every binary node has a left operand no looser and a right operand strictly tighter than its operator (left associativity) |
| Parser.LevelTailP | src/ast/parse.rs:239-255 | the tail of a level never fails and keeps that shape; a trailing operator without an operand is given back |
| Parser.ExprP | src/ast/parse.rs:225-260 | a filter expression parses to a precedence-shaped tree of level at most 5 |
| Parser.UnaryP | src/ast/parse.rs:229-237 | prefixed atoms parse to level-0 expressions |
| Parser.AtomP | src/ast/parse.rs:229-233 | an atom that parses reads at least one character and is level 0 |
| Parser.ParensP | src/ast/parse.rs:232-233 | a parenthesised expression is level 0 |
| Parser.PathP | src/ast/parse.rs:109-116 | a parsed path starts with `$`, reads the whole input and has no tilde; without a leading `$` the parse fails |
| ParserProperties.PathRoundTrip | src/ast/parse.rs:109-116 | `$` followed by printed steps parses to segments that spell those steps |
| ParserProperties.PathTrailingTextFails | src/ast/parse.rs:109-116 | text after the operators that starts no operator makes the path fail where the operators end |
| ParserProperties.PathWithBracketWithoutIntegerAborts | src/ast/parse.rs:167-201 | after any printed steps, a `[` not followed by a digit or `-` aborts the whole path |
| Arena.Kids | src/eval.rs:51-56 | the children of an array node are its elements and of an object node its field values, in order; a scalar has none |
| Arena.ToJson | src/eval.rs:51-56 | the value a node stands for: a scalar node gives that scalar, a container node a container of the same kind and length (its slots are stated by `Arena.ToJsonKids`) |
| Arena.ToJsonKids | src/eval.rs:51-56 | the value of a container node has, at each slot, the value of the child node in that slot |
| Arena.ReachTransitive | src/eval.rs:51-56 | everything reachable from a reachable node is reachable |
| Arena.ParentReachable | src/eval.rs:51-56 | the container of a reachable node, other than the root, is reachable |
| EvalContext.New | src/eval.rs:35-41 | `new(root)` starts with working set `[root]` and an empty parent map |
| EvalContext.NewParents | src/eval.rs:43-49 | `new_parents` starts with working set `[root]` and the given parent map |
| EvalContext.ParentsRecurSpec | src/eval.rs:51-56 | the recursive walk records, for every node reachable below the start, the node it sits in, and adds exactly those keys |
| EvalContext.Prepopulate | src/eval.rs:58-60 | prepopulating changes only the parent map, which then has a key for every reachable node except the root |
| EvalContext.PrepopulatedParentOf | src/eval.rs:51-60 | after prepopulating, the parent of every child of every reachable node is that node, and the root has none |
| EvalContext.ParentOf | src/eval.rs:91-93 | a recorded parent is a node that holds the child |
| EvalContext.IdxOf | src/eval.rs:70-89 | `None` without a recorded parent; otherwise the position or key of a slot of the parent holding this very node |
| EvalContext.IdxOfSteps | src/eval.rs:70-89 | a node with a parent has an index, and stepping from the parent's value by it gives the node's value |
| EvalContext.IdentityNotValue | src/eval.rs:12-26 | two equal values in different slots are different nodes with different indices |
| EvalContext.SetThenGet | src/eval.rs:95-101 | `set_matched(m)` followed by `get_matched` or `into_matched` gives `m` |
| EvalContext.FlatMap | src/eval.rs:103-108 | panics exactly when `f` panics on an entry; otherwise holds exactly the nodes `f` yields for the entries |
| EvalContext.FlatMapConcat | src/eval.rs:103-108 | the flat map over `xs ++ ys` is the flat map over `xs` followed by the one over `ys` |
| EvalContext.ApplyMatched | src/eval.rs:103-108 | the working set becomes what `f` yields for each entry; document, root and parent map are unchanged |
| EvalContext.ApplyMatchedSingle | src/eval.rs:103-108 | on a one-entry working set, the result is exactly what `f` yields for that entry |
| EvalContext.PathTo | src/eval.rs:114-122 | a node without a recorded parent has the empty path |
| EvalContext.PathToParent | src/eval.rs:114-122 | a node's path is its parent's path followed by its own index |
| EvalContext.AncestorTop | src/eval.rs:114-122 | with a full parent map, the path of a reachable node resolves from the root to that node |
| EvalContext.PathsMatched | src/eval.rs:110-125 | one path per working-set entry, in the same order, each the path of that entry; a panic is the panic of the first entry whose path panics, every earlier entry having a path |
| Wrappers.Collect | src/eval.rs:110-125 | the loop shape of `paths_matched`: every result in order when no step panics, else the message of the first step that panics, with all earlier steps returning |
| EvalContext.NoParentsEmptyPaths | src/eval.rs:110-125 | with an empty parent map every matched node gets the empty path |
| EvalContext.PrepopulatedPathsResolve | src/eval.rs:110-125 | with prepopulated parents every matched path resolves from the root to its node |
| Selectors.Abs64 | src/ast/eval.rs:57-63 | the magnitude of an `i64`, panicking on `i64::MIN` as debug builds do |
| Selectors.StepHandle | src/ast/eval.rs:57-63 | `step_handle(v)` is whether `v` is negative together with its magnitude, panicking on `i64::MIN` |
| Selectors.IdxHandle | src/ast/eval.rs:65-71 | a non-negative index is itself; a negative one counts back from the length, and panics when it reaches past the start |
| Selectors.IdxHandleFromEnd | src/ast/eval.rs:65-71 | a negative index in range denotes the same position as `len + v` |
| Selectors.StepByIndex | src/ast/eval.rs:91-93 | the `j`-th element taken by `step_by(k)` is the `j·k`-th |
| Selectors.StepByLength | src/ast/eval.rs:91-93 | `step_by(k)` keeps exactly the positions that are multiples of `k` |
| Selectors.Reverse | src/ast/eval.rs:91 | reversal puts the `j`-th from last at position `j` |
| Selectors.WildcardValues | src/ast/eval.rs:31-36 | a wildcard yields the children of the node: array elements in order, object values |
| Selectors.ParentSel | src/ast/eval.rs:38-43 | `^` yields at most one node, exactly when a parent is recorded, and that node holds the entry |
| Selectors.NameValues | src/ast/eval.rs:45-51 | `.name` (and a string literal in brackets) on an object yields the member if present and nothing otherwise; on anything else nothing |
| Selectors.IntSel | src/ast/eval.rs:139-145 | an integer literal never panics off arrays, and yields at most one child of the node |
| Selectors.IntSelFromEnd | src/ast/eval.rs:139-145 | a negative literal on an array picks the element counted from the end, and panics when out of range |
| Selectors.IntSelObjectKey | src/ast/eval.rs:142 | `[0]` on `{"0": 5}` yields the member under the key `"0"` |
| Selectors.Slice | src/ast/eval.rs:88 | a slice that succeeds is a contiguous run of the children |
| Selectors.RangeValues | src/ast/eval.rs:99-111 | for non-negative bounds, `[a:b]` on an array succeeds exactly when `a <= b <= len`, and then yields `items[a..b]` |
| Selectors.StepRangeSel | src/ast/eval.rs:76-97 | a step range panics exactly when its plain slice does, and yields children of the node |
| Selectors.StepRangeElements | src/ast/eval.rs:76-97 | the `j`-th result is the `j·k`-th element of the slice, counted from the end when the step is negative |
| Selectors.KeySel | src/ast/eval.rs:217-245 | a string key selects exactly as `.name` with that key, and any key yields at most one child |
| Selectors.NegNumber | src/ast/eval.rs:274-283 | negation of an integer in range is its negation, and of a float the negated float |
| Selectors.NegWraps | src/ast/eval.rs:274-283 | an integer beyond `i64` wraps through the `as i64` cast before negation; `i64::MIN` panics |
| Selectors.LitValue | src/ast/eval.rs:377-383 | each literal becomes a value of the matching variant: an integer literal the integer number that `as_i64` reads back as the literal, a string literal the string with its content, a boolean literal that boolean, `null` null |
| Selectors.BinaryValue | src/ast/eval.rs:295-372 | `&&` and the double-bar or need two booleans, `==` is structural equality, comparisons compare the two numbers as reals, `-`, `*` and `/` give the float of the real result (`null` for division by zero), `+` adds exactly when both operands are float-stored numbers and concatenates two strings, and gives no value otherwise; `%` panics |
| Selectors.Compare | src/ast/eval.rs:312-335 | a comparison is defined exactly on two numbers and compares their `f64` values |
| Selectors.Arith | src/ast/eval.rs:352-369 | arithmetic is defined exactly on two numbers; its value is the float of the operation on their real values, or `null` when the operation has no finite result |
| Selectors.DivByZeroIsNull | src/ast/eval.rs:364-368 | division by zero gives `null` |
| Selectors.AddNeedsFloats | src/ast/eval.rs:337-351 | `1 + 1` and `1 + 1.5` give no value, because an integer is not float-stored; `1.0 + 1.0` is the float `2.0` |
| Selectors.ComparisonsMirror | src/ast/eval.rs:312-335 | `l < r` is `r > l` and `l <= r` is `r >= l` on every pair of values, including the pairs that give no value |
| Selectors.SubIsAddNegated | src/ast/eval.rs:274-357 | on two floats, `x - y` is `x + (-y)`, where `-y` is the unary negation |
| Evaluator.EvalPath | src/ast/eval.rs:7-15 | evaluation changes only the working set and keeps it inside the document; a path with a tilde panics |
| Evaluator.EvalSegment | src/ast/eval.rs:18-25 | likewise for one operator; a recursive operator panics |
| Evaluator.EvalRaw | src/ast/eval.rs:28-54 | a dot selector never panics and changes only the working set |
| Evaluator.StepRangeParts | src/ast/eval.rs:76-81 | the step is never 0, and a missing end is `i64::MAX` |
| Evaluator.EvalBracket | src/ast/eval.rs:73-133 | a bracket selector changes only the working set; a union panics |
| Evaluator.EvalMatch | src/ast/eval.rs:188-248 | a sub-path key selector changes only the working set |
| Evaluator.MatchKeys | src/ast/eval.rs:207-215 | without a tilde the keys are the matched values; with one, the indices of the matched nodes, and a node without an index panics |
| Evaluator.KeysSel | src/ast/eval.rs:217-245 | panics exactly when a key lookup panics, and yields nodes of the document |
| Evaluator.FilterSel | src/ast/eval.rs:251-264 | a filter keeps entries of the working set and nothing else |
| Evaluator.FilterOne | src/ast/eval.rs:253-263 | an entry is kept exactly when its expression evaluates to `Some(Bool(true))` |
| Evaluator.SubPathExpr | src/ast/eval.rs:157-186 | a sub-path has a value only when it matches exactly one node |
| Evaluator.ExprEval | src/ast/eval.rs:268-389 | a literal evaluates to its value, a parenthesised expression to its inside, a path to its sub-path value; `!` on a present boolean `b` gives `!b`, `-` on a present number gives its negation (with the `i64::MIN` panic), any other present operand gives no value, and a panicking or missing operand is passed on; a binary expression with both operands present gives the operator's value on them; `%` panics or gives no value |
| EvalProperties.EvalSegmentsConcat | src/ast/eval.rs:7-11 | evaluating `s1 ++ s2` is evaluating `s1` and then `s2` |
| EvalProperties.WildcardOnEntry | src/ast/eval.rs:31-36 | `.*` on one entry yields its children's values |
| EvalProperties.NameOnEntry | src/ast/eval.rs:45-51 | `.name` on one entry yields the member's value if present and nothing otherwise |
| EvalProperties.StringLitOnEntry | src/ast/eval.rs:146-151 | `['name']` on one entry never panics and yields the member's value if the entry is an object holding the key, and nothing otherwise |
| EvalProperties.ParentOfChildren | src/ast/eval.rs:38-43 | `.*.^` on a node whose children record it as parent yields that node once per child |
| EvalProperties.PrepopulatedParentOfChildren | src/ast/eval.rs:38-43 | after prepopulating, `.*.^` at the root yields the root once per child |
| EvalProperties.OpenEndPanics | src/ast/eval.rs:99-111 | a slice with the default end `i64::MAX` on any shorter array panics instead of clamping |
| EvalProperties.FilterKeeps | src/ast/eval.rs:251-264 | a filter panics exactly when an expression does, and otherwise keeps the in-order sub-sequence of entries whose expression is `Some(Bool(true))` |
| EvalProperties.FilterTestsTheEntry | src/ast/eval.rs:253-263 | `[?(@)]` on `[true]` keeps nothing: the test applies to the array itself, not to its element |
| EvalProperties.DoubleNot | src/ast/eval.rs:285-292 | `!!e` on an expression with a boolean value has that same value |
| EvalProperties.ComparisonFlip | src/ast/eval.rs:295-335 | with both operands present, `lhs < rhs` evaluates as `rhs > lhs` and `lhs <= rhs` as `rhs >= lhs` |
| EvalProperties.MissingLeftSkipsRight | src/ast/eval.rs:295-309 | a missing left operand makes any binary expression missing |
| EvalProperties.NoShortCircuit | src/ast/eval.rs:295-309 | the right operand is always evaluated: its panic or absence decides the result, and `false && 1` is missing rather than `false` |
| EvalProperties.SubPathExprSingle | src/ast/eval.rs:157-186 | a sub-path that matches one node has that node's value, or with a tilde its index as a value |
| EvalProperties.TildeValueWithoutParents | src/ast/eval.rs:178-179 | without recorded parents a tilde sub-path has no value |
| EvalProperties.TildeKeyWithoutParents | src/ast/eval.rs:207-209 | without recorded parents a tilde key selector that matches something panics |
| Mutation.PutAtHere | src/utils.rs:26-36 | after writing at a resolvable path, the path resolves to the written value |
| Mutation.PutAtElsewhere | src/utils.rs:26-36 | a path that diverges from the written one resolves as before |
| Mutation.PutAtKeepsRoute | src/utils.rs:27-36 | every node on the route keeps its shape: array lengths and object key lists |
| Mutation.Container | src/utils.rs:6-7 | the container of a path is the value at the path without its last index, and exists only for a non-empty path whose prefix resolves |
| Mutation.DeleteOne | src/utils.rs:5-17 | one deletion succeeds exactly when the path is non-empty, its prefix resolves, and the last index fits the container |
| Mutation.DeletePaths | src/utils.rs:4-19 | an empty batch leaves the document unchanged; one path is one deletion |
| Mutation.DeletePathsSnoc | src/utils.rs:4-19 | the batch deletes path by path, in order, stopping at the first panic |
| Mutation.DeleteArrayElement | src/utils.rs:10-12 | deleting a position removes that element from its array, shifts the rest down, and leaves every diverging path unchanged |
| Mutation.DeleteObjectKey | src/utils.rs:13-15 | deleting a key removes just that key from its object and leaves every diverging path unchanged |
| Mutation.ReplaceOneSpec | src/utils.rs:22-38 | one replacement succeeds exactly when the path is non-empty and resolves, and writes `f(old)` there |
| Mutation.ReplaceOneInArray | src/utils.rs:27-31 | in an array container the replacement succeeds exactly when the position resolves |
| Mutation.ReplaceOneInObject | src/utils.rs:32-36 | in an object container the replacement succeeds exactly when the key resolves |
| Mutation.ReplacePaths | src/utils.rs:21-40 | an empty batch leaves the document and `f`'s state unchanged; one path is one replacement |
| Mutation.ReplaceSingle | src/utils.rs:21-40 | after replacing one path it holds `f(old)`, diverging paths are unchanged, and the route keeps its shape |
| Mutation.ReplaceCallsOncePerPath | src/utils.rs:22-39 | `f` is called exactly once per path, in order |
| Mutation.ReplaceEveryElement | src/utils.rs:21-40 | replacing every position of an array by a constant fills the array with it and keeps its length |
| JsonPath.Compile | src/lib.rs:75-81 | compiling succeeds only when the path reads the whole pattern; an error carries the pattern; a pattern not starting with `$` is an error |
| JsonPath.CompileRoundTrip | src/lib.rs:75-81 | a pattern printed from steps compiles to segments that spell them |
| JsonPath.CompileRejectsTrailingText | src/lib.rs:75-81 | trailing text that starts no operator gives a parse error for the pattern |
| JsonPath.CompileBracketWithoutIntegerPanics | src/lib.rs:75-81 | compiling a pattern with a `[` not followed by a digit or `-` panics |
| JsonPath.Find | src/lib.rs:84-90 | the found nodes are nodes of the document; a tilde path panics |
| JsonPath.FindStartsAtRoot | src/lib.rs:84-90 | evaluation starts from the working set `[root]` |
| JsonPath.FindPattern | src/lib.rs:54-56 | a compile panic or parse error is passed on unchanged |
| JsonPath.ResolveStep | src/lib.rs:37-43 | one step of `resolve_path` returns exactly when a resolve step succeeds, with the same child; a scalar is `unreachable!` |
| JsonPath.ResolvePathAgrees | src/lib.rs:31-46 | `resolve_path` returns exactly when `resolve_on` succeeds, at the same value |
| JsonPath.DeleteAt | src/lib.rs:104-116 | an empty path underflows on `p.len() - 1` |
| JsonPath.DeleteAtAgrees | src/lib.rs:104-116 | for a non-empty path the loop body deletes exactly as `delete_paths` does |
| JsonPath.DeleteAll | src/lib.rs:104-116 | no paths leave the copy unchanged; an empty first path underflows |
| JsonPath.DeleteAllAgrees | src/lib.rs:104-116 | for non-empty paths the loop deletes exactly as `delete_paths` does |
| JsonPath.EmptyPathsDelete | src/lib.rs:104-116 | over empty paths the loop returns the copy only when there are none, and otherwise underflows |
| JsonPath.DeletePipeline | src/lib.rs:94-119 | `delete` returns the document unchanged when nothing matched, and underflows whenever something did |
| JsonPath.ReplaceAt | src/lib.rs:133-149 | an empty path underflows on `p.len() - 1` |
| JsonPath.ReplaceAtArrayCase | src/lib.rs:137-141 | in an array container, the position is replaced by `f(old)`, an out-of-range position panics, and a key index panics |
| JsonPath.ReplaceAtObjectCase | src/lib.rs:142-146 | in an object container, the key is replaced by `f(old)`, a missing key panics, and a position index panics |
| JsonPath.ReplaceAtNoContainer | src/lib.rs:134-147 | a prefix that does not resolve to a container panics |
| JsonPath.ReplaceAtAgrees | src/lib.rs:133-149 | for a non-empty path the loop body returns exactly when the path resolves, and then replaces as `replace_paths` does |
| JsonPath.ReplaceAll | src/lib.rs:133-149 | no paths leave the copy and `f`'s state unchanged; an empty first path underflows |
| JsonPath.ReplaceAllAgrees | src/lib.rs:133-149 | for non-empty paths the loop replaces exactly as `replace_paths` does |
| JsonPath.ReplaceAllFillsArray | src/lib.rs:123-152 | given the root-to-node paths of every element of an array, replacing with a constant fills the array with it and keeps its length |
| JsonPath.EmptyPathsReplace | src/lib.rs:133-149 | over empty paths the loop returns only when there are none, and otherwise underflows |
| JsonPath.ReplacePipeline | src/lib.rs:123-152 | `replace` returns the document unchanged when nothing matched, and underflows whenever something did |

## Left out

- I/O and deserialisation are not modelled. This covers `find_str`, `delete_str`, `replace_str`,
  the `ParseOrJsonError` plumbing and the command-line program (src/main.rs). They only read
  text and call the modelled functions.
- The adapters over external crates are not modelled: src/json/serde_impl.rs,
  src/json/json_impl.rs, and the `todo!` stubs of src/json/json_minimal_impl.rs. The model's
  `Json` stands for `serde_json::Value`.
- Floating point is not modelled as IEEE `f64`.
  - Numbers are integers or reals, and there is no rounding, NaN or infinity.
  - `-`, `*` and `/` give a float; `+` adds only two float-stored numbers, so `1 + 1` gives no
    value (`Selectors.AddNeedsFloats`).
  - The evaluator does not check for division by zero. The IEEE result is infinite or NaN, which
    serde's `Value::from(f64)` turns into `null`; the model gives `null` directly.
- Object iteration order is the order of the entry list. The backing map's order is
  implementation-defined, so no property depends on it beyond the snapshot order of the key list.
- Pointer identity (`RefKey`) is modelled as an arena index, and its hashing is not modelled.
  `ValueExt::iter`, used by `prepopulate_parents`, is taken to enumerate the children of arrays and
  objects, which is what `Arena.Kids` does.
- The evaluator's `FnMut` and in-place updates of the working set are modelled as passing a new
  context along.
- Chumsky's internals are not modelled: error recovery, the choice among alternative errors, and
  the rendering of `Simple<char>` diagnostics. A failed parse is `Failed(at)`.
- JsonPath.Compile: the parse error's list of diagnostics is always empty, because chumsky's
  diagnostics are not modelled.
- Character classes are ASCII. `char::is_alphanumeric` and `char::is_numeric` also accept other
  Unicode letters and digits, which the model does not.
- Integer overflow follows a debug build and panics. Examples are `abs` of `i64::MIN`,
  subtraction underflow in `idx_handle` and `p.len() - 1`, and negating `i64::MIN`.
- Library panic messages are representative: the map-lookup and index-out-of-bounds panics use a
  fixed text, and only the fact of the panic is stated.
- Recursive descent (`..`), a tilde on the top-level path, and `%` panic as the `todo!`s they are
  in the source. `Evaluator.EvalSegment` and `Selectors.BinaryValue` state this.
- The union selector has no case in the evaluator, so it panics (`Evaluator.EvalBracket`).
- Float-valued keys in a sub-path key selector (`n.to_string()` of an `f64`) are not modelled and
  select nothing.
- JsonPath.Delete and JsonPath.Replace require a well-formed arena document. The Rust value is
  always a tree, and the arena must say so.
- EvalContext.PathTo requires a well-formed context, so that parents lie strictly below their
  children. The source loop would not end on a cyclic parent map, which real references cannot
  form.
- Text.EscapeChar: only the ASCII and C1 control characters get a `\u{…}` escape. Rust's
  `{:?}` also escapes the other non-printable code points (unassigned, format and separator
  characters, by its printability tables) and grapheme extenders; the model leaves those
  characters as they are, because those Unicode tables are not modelled.
- Spans.GetSpan: the characters are counted as `char`s of a Dafny string. UTF-8 byte offsets are
  not modelled.
- The end-to-end tests that contradict the evaluator and parser as written are not proved.
  These cover slice clamping, `$[0]` on an object, filters over children, and every test path
  using `[*]`, `['…']` or `[?(…)]`, which abort in the parser. Lemmas that show the code's
  behaviour instead are named in the table.
