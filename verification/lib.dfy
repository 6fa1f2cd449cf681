/** The crate's entry points (`src/lib.rs`): compiling a pattern, finding its matches from the
    root, and deleting or replacing the matches in a copy of the document. The copy is a fresh
    `Json` value built from the arena, so the input document is never touched. */
module JsonPath {
  import opened Wrappers
  import opened JsonValue
  import opened Idx
  import opened IdxPaths
  import IdxOps = Idx
  import opened Arena
  import opened EvalContext
  import Evaluator
  import opened Tokens
  import Ast
  import Parser
  import ParserProperties
  import opened Errors
  import Mutation

  const UnwrapNone := "called `Option::unwrap()` on a `None` value"
  const SubOverflow := "attempt to subtract with overflow"
  const OutOfBounds := "index out of bounds"
  const KeyMissing := "key not found"

  /** `JsonPath::compile`: the whole pattern must parse as a path. A parse failure becomes a
      `ParseError` carrying the pattern; a panic inside the grammar propagates. */
  function Compile(pattern: string): (r: Outcome<Result<Ast.Path, ParseError>>)
    ensures r.Return? && r.value.Ok? ==> Parser.PathP(pattern).Parsed? && Parser.PathP(pattern).next == |pattern|
    ensures r.Return? && r.value.Ok? ==> r.value.value.tilde.None?
    ensures r.Return? && r.value.Err? ==> r.value.error.src == pattern
    ensures pattern == [] || pattern[0] != '$' ==> r.Return? && r.value.Err?
  {
    match Parser.PathP(pattern)
    case Parsed(p, _) => Return(Ok(p))
    case Failed(_) => Return(Err(ParseError(pattern, [])))
    case Aborted(m) => Panic(m)
  }

  /** A pattern spelled from printable steps compiles to a path with exactly those steps. */
  lemma CompileRoundTrip(steps: seq<ParserProperties.Step>)
    requires ParserProperties.AllPrintable(steps)
    ensures var r := Compile("$" + ParserProperties.PrintAll(steps));
      r.Return? && r.value.Ok? && ParserProperties.SpellsAll(r.value.value.segments, steps)
  {
    ParserProperties.PathRoundTrip(steps);
  }

  /** The end-of-input requirement: text after the last operator that starts no operator makes
      the pattern an error rather than a shorter path. */
  lemma CompileRejectsTrailingText(steps: seq<ParserProperties.Step>, t: string)
    requires ParserProperties.AllPrintable(steps)
    requires t != [] && !Parser.IsIdentChar(t[0]) && t[0] != '.' && t[0] != '['
    ensures var pattern := "$" + ParserProperties.PrintAll(steps) + t;
      Compile(pattern) == Return(Err(ParseError(pattern, [])))
  {
    ParserProperties.PathTrailingTextFails(steps, t);
  }

  /** A bracket that does not open with an integer literal panics while compiling, whatever
      printable steps come before it. */
  lemma CompileBracketWithoutIntegerPanics(steps: seq<ParserProperties.Step>, t: string)
    requires ParserProperties.AllPrintable(steps)
    requires t == [] || (!Text.IsDigit(t[0]) && t[0] != '-')
    ensures Compile("$" + ParserProperties.PrintAll(steps) + "[" + t).Panic?
  {
    ParserProperties.PathWithBracketWithoutIntegerAborts(steps, t);
  }

  /** `JsonPath::find`: evaluates the path from a working set holding just the root and returns
      the final working set. */
  function Find(p: Ast.Path, doc: Doc, root: NodeId): (r: Outcome<seq<NodeId>>)
    ensures Wf(doc) && root < |doc| && r.Return? ==> forall i :: 0 <= i < |r.value| ==> r.value[i] < |doc|
    ensures p.tilde.Some? ==> r.Panic?
  {
    match Evaluator.EvalPath(New(doc, root), p)
    case Panic(m) => Panic(m)
    case Return(ctx) => Return(IntoMatched(ctx))
  }

  /** A path without segments finds the root alone: evaluation starts from `[root]`. */
  lemma FindStartsAtRoot(p: Ast.Path, doc: Doc, root: NodeId)
    requires p.segments == [] && p.tilde.None?
    ensures Find(p, doc, root) == Return([root])
  {
  }

  /** The free function `find`: compile, then find. */
  function FindPattern(pattern: string, doc: Doc, root: NodeId): (r: Outcome<Result<seq<NodeId>, ParseError>>)
    ensures Compile(pattern).Panic? ==> r.Panic?
    ensures Compile(pattern).Return? && Compile(pattern).value.Err? ==> r == Return(Err(Compile(pattern).value.error))
  {
    match Compile(pattern)
    case Panic(m) => Panic(m)
    case Return(Err(e)) => Return(Err(e))
    case Return(Ok(p)) =>
      match Find(p, doc, root)
      case Panic(m) => Panic(m)
      case Return(ids) => Return(Ok(ids))
  }

  /** One step of `resolve_path`: arrays by position, objects by key. Indexing past the end or
      by a missing key panics, an index of the other kind fails its unwrap, and a scalar is
      unreachable. */
  function ResolveStep(cur: Json, idx: Idx): (r: Outcome<Json>)
    ensures !cur.Array? && !cur.Object? ==> r == Panic(Mutation.Unreachable)
    ensures r.Return? <==> Step(cur, idx).Ok?
    ensures r.Return? ==> r.value == Step(cur, idx).value
  {
    match cur
    case Array(items) =>
      (match IdxOps.AsArray(idx)
       case None => Panic(UnwrapNone)
       case Some(i) => if i < |items| then Return(items[i]) else Panic(OutOfBounds))
    case Object(es) =>
      (match IdxOps.AsObject(idx)
       case None => Panic(UnwrapNone)
       case Some(k) =>
         match ObjectGet(es, k)
         case None => Panic(KeyMissing)
         case Some(w) => Return(w))
    case _ => Panic(Mutation.Unreachable)
  }

  /** `resolve_path`: follows the indices one by one from `v`; the first step that cannot be
      taken panics. */
  function ResolvePath(path: IdxPath, v: Json): (r: Outcome<Json>)
    ensures path != [] && !v.Array? && !v.Object? ==> r == Panic(Mutation.Unreachable)
    decreases |path|
  {
    if path == [] then Return(v)
    else match ResolveStep(v, path[0])
      case Panic(m) => Panic(m)
      case Return(w) => ResolvePath(path[1..], w)
  }

  /** `resolve_path` returns exactly where `IdxPath::resolve_on` succeeds, and the same value. */
  lemma {:induction false} ResolvePathAgrees(path: IdxPath, v: Json)
    ensures ResolvePath(path, v).Return? <==> ResolveOn(path, v).Ok?
    ensures ResolvePath(path, v).Return? ==> ResolvePath(path, v).value == ResolveOn(path, v).value
    decreases |path|
  {
    if path != [] && Step(v, path[0]).Ok? {
      ResolvePathAgrees(path[1..], Step(v, path[0]).value);
    }
  }

  /** One iteration of `delete`'s loop on the copy `out`: resolve the path minus its last
      index, then remove that position from the array or that key from the object. The length
      `p.len() - 1` underflows on an empty path. */
  function DeleteAt(out: Json, p: IdxPath): (r: Outcome<Json>)
    ensures p == [] ==> r == Panic(SubOverflow)
  {
    if |p| == 0 then Panic(SubOverflow)
    else
      var prefix := p[..|p| - 1];
      var last := p[|p| - 1];
      match ResolvePath(prefix, out)
      case Panic(m) => Panic(m)
      case Return(c) =>
        match c
        case Array(items) =>
          (match IdxOps.AsArray(last)
           case None => Panic(UnwrapNone)
           case Some(i) =>
             (match VecRemove(items, i)
              case Panic(m) => Panic(m)
              case Return(rest) => Return(Mutation.PutAt(out, prefix, Json.Array(rest)))))
        case Object(es) =>
          (match IdxOps.AsObject(last)
           case None => Panic(UnwrapNone)
           case Some(k) => Return(Mutation.PutAt(out, prefix, Json.Object(ObjectRemove(es, k)))))
        case _ => Panic(Mutation.Unreachable)
  }

  /** On a non-empty path, `delete`'s loop body and `delete_paths` return on the same inputs
      and compute the same document. */
  lemma DeleteAtAgrees(out: Json, p: IdxPath)
    requires p != []
    ensures DeleteAt(out, p).Return? <==> Mutation.DeleteOne(out, p).Return?
    ensures DeleteAt(out, p).Return? ==> DeleteAt(out, p) == Mutation.DeleteOne(out, p)
  {
    var prefix := p[..|p| - 1];
    ResolvePathAgrees(prefix, out);
    var res := ResolveOn(prefix, out);
    if res.Ok? {
      assert ResolvePath(prefix, out) == Return(res.value);
      assert Mutation.Container(out, p) == Return(res.value);
      DeleteAtContainer(out, p, res.value);
    }
  }

  /** `DeleteAtAgrees` once both loops have found the same container. */
  lemma DeleteAtContainer(out: Json, p: IdxPath, c: Json)
    requires p != [] && ResolvePath(p[..|p| - 1], out) == Return(c) && Mutation.Container(out, p) == Return(c)
    ensures DeleteAt(out, p).Return? <==> Mutation.DeleteOne(out, p).Return?
    ensures DeleteAt(out, p).Return? ==> DeleteAt(out, p) == Mutation.DeleteOne(out, p)
  {
  }

  /** `delete`'s loop over all matched paths; the first panic ends it. */
  function DeleteAll(paths: seq<IdxPath>, out: Json): (r: Outcome<Json>)
    ensures paths == [] ==> r == Return(out)
    ensures paths != [] && paths[0] == [] ==> r == Panic(SubOverflow)
  {
    if paths == [] then Return(out)
    else match DeleteAt(out, paths[0])
      case Panic(m) => Panic(m)
      case Return(next) => DeleteAll(paths[1..], next)
  }

  /** With no empty path in the batch, `delete` removes what `delete_paths` removes. */
  lemma {:induction false} DeleteAllAgrees(paths: seq<IdxPath>, out: Json)
    requires forall i :: 0 <= i < |paths| ==> paths[i] != []
    ensures DeleteAll(paths, out).Return? <==> Mutation.DeletePaths(paths, out).Return?
    ensures DeleteAll(paths, out).Return? ==> DeleteAll(paths, out) == Mutation.DeletePaths(paths, out)
  {
    if paths != [] {
      DeleteAtAgrees(out, paths[0]);
      if DeleteAt(out, paths[0]).Return? {
        DeleteAllAgrees(paths[1..], DeleteAt(out, paths[0]).value);
      }
    }
  }

  /** `JsonPath::delete`: match on the document, take the matches' paths, and delete them one
      by one from a copy of the document. */
  function Delete(p: Ast.Path, doc: Doc, root: NodeId): (r: Outcome<Json>)
    requires Wf(doc) && root < |doc|
  {
    match Evaluator.EvalPath(New(doc, root), p)
    case Panic(m) => Panic(m)
    case Return(ctx) =>
      match PathsMatched(ctx)
      case Panic(m) => Panic(m)
      case Return(paths) => DeleteAll(paths, ToJson(doc, root))
  }

  /** A batch of empty paths: nothing to do when it is empty, the underflow otherwise. */
  lemma EmptyPathsDelete(paths: seq<IdxPath>, out: Json)
    requires forall i :: 0 <= i < |paths| ==> paths[i] == []
    ensures DeleteAll(paths, out) == if paths == [] then Return(out) else Panic(SubOverflow)
  {
  }

  /** The pipeline never records parents, so every match's path is empty: `delete` returns the
      document unchanged when nothing matched and panics on the underflow otherwise. */
  lemma DeletePipeline(p: Ast.Path, doc: Doc, root: NodeId)
    requires Wf(doc) && root < |doc|
    ensures match Evaluator.EvalPath(New(doc, root), p)
      case Panic(m) => Delete(p, doc, root) == Panic(m)
      case Return(ctx) =>
        Delete(p, doc, root) == if ctx.matched == [] then Return(ToJson(doc, root)) else Panic(SubOverflow)
  {
    var r := Evaluator.EvalPath(New(doc, root), p);
    if r.Return? {
      NoParentsEmptyPaths(r.value);
      EmptyPathsDelete(PathsMatched(r.value).value, ToJson(doc, root));
    }
  }

  /** One iteration of `replace`'s loop on the copy `out`: read the value at the path, hand it
      to `f`, and write `f`'s result back in its place. */
  function ReplaceAt<S>(out: Json, p: IdxPath, f: (S, Json) -> (S, Json), st: S): (r: Outcome<(S, Json)>)
    ensures p == [] ==> r == Panic(SubOverflow)
  {
    if |p| == 0 then Panic(SubOverflow)
    else
      var prefix := p[..|p| - 1];
      var last := p[|p| - 1];
      match ResolvePath(prefix, out)
      case Panic(m) => Panic(m)
      case Return(c) =>
        match c
        case Array(items) =>
          (match IdxOps.AsArray(last)
           case None => Panic(UnwrapNone)
           case Some(i) =>
             if i < |items| then
               var (st', nv) := f(st, items[i]);
               Return((st', Mutation.PutAt(out, prefix, Json.Array(items[i := nv]))))
             else Panic(OutOfBounds))
        case Object(es) =>
          (match IdxOps.AsObject(last)
           case None => Panic(UnwrapNone)
           case Some(k) =>
             (match ObjectGet(es, k)
              case None => Panic(KeyMissing)
              case Some(prev) =>
                var (st', nv) := f(st, prev);
                Return((st', Mutation.PutAt(out, prefix, Json.Object(ObjectSet(es, k, nv)))))))
        case _ => Panic(Mutation.Unreachable)
  }

  /** `replace`'s loop body when the path minus its last index names an array. */
  lemma ReplaceAtArrayCase<S>(out: Json, p: IdxPath, f: (S, Json) -> (S, Json), st: S)
    requires p != [] && ResolveOn(p[..|p| - 1], out).Ok? && ResolveOn(p[..|p| - 1], out).value.Array?
    ensures var items := ResolveOn(p[..|p| - 1], out).value.items;
      var last := p[|p| - 1];
      ReplaceAt(out, p, f, st) ==
        if last.ArrayIdx? && last.pos < |items| then
          Return((f(st, items[last.pos]).0,
                  Mutation.PutAt(out, p[..|p| - 1], Json.Array(items[last.pos := f(st, items[last.pos]).1]))))
        else if last.ArrayIdx? then Panic(OutOfBounds)
        else Panic(UnwrapNone)
  {
    ResolvePathAgrees(p[..|p| - 1], out);
  }

  /** `replace`'s loop body when the path minus its last index names an object. */
  lemma ReplaceAtObjectCase<S>(out: Json, p: IdxPath, f: (S, Json) -> (S, Json), st: S)
    requires p != [] && ResolveOn(p[..|p| - 1], out).Ok? && ResolveOn(p[..|p| - 1], out).value.Object?
    ensures var es := ResolveOn(p[..|p| - 1], out).value.entries;
      var last := p[|p| - 1];
      ReplaceAt(out, p, f, st) ==
        if last.ObjectIdx? && ObjectGet(es, last.key).Some? then
          Return((f(st, ObjectGet(es, last.key).value).0,
                  Mutation.PutAt(out, p[..|p| - 1],
                                 Json.Object(ObjectSet(es, last.key, f(st, ObjectGet(es, last.key).value).1)))))
        else if last.ObjectIdx? then Panic(KeyMissing)
        else Panic(UnwrapNone)
  {
    ResolvePathAgrees(p[..|p| - 1], out);
  }

  /** `replace`'s loop body when the path minus its last index does not resolve, or names a
      scalar: a panic. */
  lemma ReplaceAtNoContainer<S>(out: Json, p: IdxPath, f: (S, Json) -> (S, Json), st: S)
    requires p != []
    requires ResolveOn(p[..|p| - 1], out).Err?
      || (!ResolveOn(p[..|p| - 1], out).value.Array? && !ResolveOn(p[..|p| - 1], out).value.Object?)
    ensures ReplaceAt(out, p, f, st).Panic?
  {
    ResolvePathAgrees(p[..|p| - 1], out);
  }

  /** On a non-empty path, `replace`'s loop body succeeds exactly where the path resolves, and
      then agrees with `replace_paths`: `f` sees the value there and its result is written
      at the path. */
  lemma ReplaceAtAgrees<S>(out: Json, p: IdxPath, f: (S, Json) -> (S, Json), st: S)
    requires p != []
    ensures ReplaceAt(out, p, f, st).Return? <==> ResolveOn(p, out).Ok?
    ensures ReplaceAt(out, p, f, st).Return? ==> ReplaceAt(out, p, f, st) == Mutation.ReplaceOne(out, p, f, st)
  {
    Mutation.ResolveLast(p, out);
    Mutation.ReplaceOneSpec(out, p, f, st);
    var prefix := p[..|p| - 1];
    if ResolveOn(prefix, out).Ok? && ResolveOn(prefix, out).value.Array? {
      ReplaceAtArrayCase(out, p, f, st);
      Mutation.ReplaceOneArrayCase(out, p, f, st);
    } else if ResolveOn(prefix, out).Ok? && ResolveOn(prefix, out).value.Object? {
      ReplaceAtObjectCase(out, p, f, st);
      Mutation.ReplaceOneObjectCase(out, p, f, st);
    } else {
      ReplaceAtNoContainer(out, p, f, st);
    }
  }

  /** `replace`'s loop over all matched paths, threading `f`'s state. */
  function ReplaceAll<S>(paths: seq<IdxPath>, out: Json, f: (S, Json) -> (S, Json), st: S): (r: Outcome<(S, Json)>)
    ensures paths == [] ==> r == Return((st, out))
    ensures paths != [] && paths[0] == [] ==> r == Panic(SubOverflow)
  {
    if paths == [] then Return((st, out))
    else match ReplaceAt(out, paths[0], f, st)
      case Panic(m) => Panic(m)
      case Return((st', next)) => ReplaceAll(paths[1..], next, f, st')
  }

  /** With no empty path in the batch, `replace` computes what `replace_paths` computes. */
  lemma {:induction false} ReplaceAllAgrees<S>(paths: seq<IdxPath>, out: Json, f: (S, Json) -> (S, Json), st: S)
    requires forall i :: 0 <= i < |paths| ==> paths[i] != []
    ensures ReplaceAll(paths, out, f, st).Return? <==> Mutation.ReplacePaths(paths, out, f, st).Return?
    ensures ReplaceAll(paths, out, f, st).Return? ==> ReplaceAll(paths, out, f, st) == Mutation.ReplacePaths(paths, out, f, st)
  {
    if paths != [] {
      ReplaceAtAgrees(out, paths[0], f, st);
      Mutation.ReplaceOneSpec(out, paths[0], f, st);
      if ReplaceAt(out, paths[0], f, st).Return? {
        var (st', next) := ReplaceAt(out, paths[0], f, st).value;
        ReplaceAllAgrees(paths[1..], next, f, st');
      }
    }
  }

  /** Given the paths of every element of the array at `prefix`, replacing with a function
      that always yields `c` fills that array with `c` and keeps its length. */
  lemma ReplaceAllFillsArray<S>(out: Json, prefix: IdxPath, c: Json, f: (S, Json) -> (S, Json), st: S)
    requires ResolveOn(prefix, out).Ok? && ResolveOn(prefix, out).value.Array?
    requires forall s, x :: f(s, x).1 == c
    ensures var n := |ResolveOn(prefix, out).value.items|;
      var r := ReplaceAll(Mutation.PositionPaths(prefix, 0, n), out, f, st);
      r.Return? && ResolveOn(prefix, r.value.1) == Ok(Json.Array(Mutation.Fill(n, c)))
  {
    var n := |ResolveOn(prefix, out).value.items|;
    var ps := Mutation.PositionPaths(prefix, 0, n);
    forall i | 0 <= i < |ps| ensures ps[i] != [] {
      assert ps[i][|prefix|] == ArrayIdx(i);
    }
    Mutation.ReplaceEveryElement(out, prefix, c, f, st);
    ReplaceAllAgrees(ps, out, f, st);
  }

  /** `JsonPath::replace`: match on the document, take the matches' paths, and replace them
      one by one in a copy of the document. */
  function Replace<S>(p: Ast.Path, doc: Doc, root: NodeId, f: (S, Json) -> (S, Json), st: S): (r: Outcome<Json>)
    requires Wf(doc) && root < |doc|
  {
    match Evaluator.EvalPath(New(doc, root), p)
    case Panic(m) => Panic(m)
    case Return(ctx) =>
      match PathsMatched(ctx)
      case Panic(m) => Panic(m)
      case Return(paths) =>
        match ReplaceAll(paths, ToJson(doc, root), f, st)
        case Panic(m) => Panic(m)
        case Return((_, out)) => Return(out)
  }

  /** A batch of empty paths: nothing to do when it is empty, the underflow otherwise. */
  lemma EmptyPathsReplace<S>(paths: seq<IdxPath>, out: Json, f: (S, Json) -> (S, Json), st: S)
    requires forall i :: 0 <= i < |paths| ==> paths[i] == []
    ensures ReplaceAll(paths, out, f, st) == if paths == [] then Return((st, out)) else Panic(SubOverflow)
  {
  }

  /** As for `delete`: `replace` returns the document unchanged when nothing matched and
      panics on the underflow otherwise, without ever calling `f`. */
  lemma ReplacePipeline<S>(p: Ast.Path, doc: Doc, root: NodeId, f: (S, Json) -> (S, Json), st: S)
    requires Wf(doc) && root < |doc|
    ensures match Evaluator.EvalPath(New(doc, root), p)
      case Panic(m) => Replace(p, doc, root, f, st) == Panic(m)
      case Return(ctx) =>
        Replace(p, doc, root, f, st) == if ctx.matched == [] then Return(ToJson(doc, root)) else Panic(SubOverflow)
  {
    var r := Evaluator.EvalPath(New(doc, root), p);
    if r.Return? {
      NoParentsEmptyPaths(r.value);
      EmptyPathsReplace(PathsMatched(r.value).value, ToJson(doc, root), f, st);
    }
  }
}
