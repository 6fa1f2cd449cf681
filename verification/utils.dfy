/** Editing a document at index paths: `delete_paths` and `replace_paths` (src/utils.rs).
    The mutable reference `resolve_on_mut` hands out is modelled by `PutAt`, which rebuilds
    the document with a new value at a path. */
module Mutation {
  import opened Wrappers
  import opened JsonValue
  import opened Idx
  import opened IdxPaths
  import IdxOps = Idx

  const ResolveExpect := "Could resolve path"
  const KindExpect := "Provided path should resolve"
  const Unreachable := "internal error: entered unreachable code"

  /** The container `v` with the child its index `i` reaches replaced by `c`. */
  function SetChild(v: Json, i: Idx, c: Json): Json {
    match (v, i)
    case (Array(items), ArrayIdx(k)) => if k < |items| then Array(items[k := c]) else v
    case (Object(es), ObjectIdx(k)) => Object(ObjectSet(es, k, c))
    case (_, _) => v
  }

  /** The document with the value at `p` replaced by `w` (what writing through the reference
      `resolve_on_mut` returns amounts to); where `p` does not resolve nothing changes. */
  function PutAt(v: Json, p: IdxPath, w: Json): Json
    decreases |p|
  {
    if p == [] then w
    else match Step(v, p[0])
      case Err(_) => v
      case Ok(c) => SetChild(v, p[0], PutAt(c, p[1..], w))
  }

  /** Two paths part ways: at some position both have an index, and the indices differ. */
  predicate Diverges(p: IdxPath, q: IdxPath) {
    p != [] && q != [] && (p[0] != q[0] || Diverges(p[1..], q[1..]))
  }

  /** `q` is a proper prefix of `p`: it names a node on the route to `p`'s target. */
  predicate OnRoute(q: IdxPath, p: IdxPath) {
    |q| < |p| && q == p[..|q|]
  }

  /** Two values have the same shape: same kind, and the same length or key list. */
  predicate SameShape(x: Json, y: Json) {
    (x.Array? <==> y.Array?) && (x.Object? <==> y.Object?)
    && (x.Array? ==> |x.items| == |y.items|)
    && (x.Object? ==> Keys(x.entries) == Keys(y.entries))
  }

  /** `PutAt` one level down: rewrite the child the first index reaches, then put it back. */
  lemma PutAtCons(v: Json, p: IdxPath, w: Json)
    requires p != [] && Step(v, p[0]).Ok?
    ensures PutAt(v, p, w) == SetChild(v, p[0], PutAt(Step(v, p[0]).value, p[1..], w))
  {
  }

  /** After `SetChild`, index `i` reaches the new child. */
  lemma SetChildHere(v: Json, i: Idx, c: Json)
    requires Step(v, i).Ok?
    ensures Step(SetChild(v, i, c), i) == Ok(c)
  {
    if i.ObjectIdx? {
      ObjectSetSpec(v.entries, i.key, c);
    }
  }

  /** After `SetChild`, every other index reaches what it reached before. */
  lemma SetChildOther(v: Json, i: Idx, c: Json, j: Idx)
    requires Step(v, i).Ok? && j != i
    ensures Step(SetChild(v, i, c), j) == Step(v, j)
  {
    if i.ObjectIdx? {
      ObjectSetSpec(v.entries, i.key, c);
    }
  }

  /** `SetChild` keeps the container's shape. */
  lemma SetChildShape(v: Json, i: Idx, c: Json)
    requires Step(v, i).Ok?
    ensures SameShape(SetChild(v, i, c), v)
  {
    if i.ObjectIdx? {
      ObjectSetSpec(v.entries, i.key, c);
    }
  }

  /** One level of `PutAt`: the first step of `p` now reaches the rewritten child. */
  lemma PutAtStep(v: Json, p: IdxPath, w: Json)
    requires p != [] && Step(v, p[0]).Ok?
    ensures Step(PutAt(v, p, w), p[0]) == Ok(PutAt(Step(v, p[0]).value, p[1..], w))
  {
    SetChildHere(v, p[0], PutAt(Step(v, p[0]).value, p[1..], w));
  }

  /** One level of `PutAt`: every other first step reaches what it reached before. */
  lemma PutAtOtherStep(v: Json, p: IdxPath, w: Json, i: Idx)
    requires p != [] && Step(v, p[0]).Ok? && i != p[0]
    ensures Step(PutAt(v, p, w), i) == Step(v, i)
  {
    SetChildOther(v, p[0], PutAt(Step(v, p[0]).value, p[1..], w), i);
  }

  /** Writing strictly below a container keeps its shape. */
  lemma PutAtKeepsTop(v: Json, p: IdxPath, w: Json)
    requires p != [] && Step(v, p[0]).Ok?
    ensures SameShape(PutAt(v, p, w), v)
  {
    SetChildShape(v, p[0], PutAt(Step(v, p[0]).value, p[1..], w));
  }

  /** Writing at a path that resolves puts the new value there. */
  lemma {:induction false} PutAtHere(v: Json, p: IdxPath, w: Json)
    requires ResolveOn(p, v).Ok?
    ensures ResolveOn(p, PutAt(v, p, w)) == Ok(w)
    decreases |p|
  {
    if p != [] {
      PutAtStep(v, p, w);
      PutAtHere(Step(v, p[0]).value, p[1..], w);
    }
  }

  /** Resolving is decided step by step: two values whose first steps agree resolve alike. */
  lemma SameFirstStep(q: IdxPath, x: Json, y: Json)
    requires q != [] && Step(x, q[0]) == Step(y, q[0])
    ensures ResolveOn(q, x) == ResolveOn(q, y)
  {
  }

  /** Writing at `p` leaves every path that parts ways with `p` resolving as before. */
  lemma {:induction false} PutAtElsewhere(v: Json, p: IdxPath, w: Json, q: IdxPath)
    requires ResolveOn(p, v).Ok? && Diverges(p, q)
    ensures ResolveOn(q, PutAt(v, p, w)) == ResolveOn(q, v)
    decreases |p|
  {
    if p[0] == q[0] {
      PutAtStep(v, p, w);
      PutAtElsewhere(Step(v, p[0]).value, p[1..], w, q[1..]);
    } else {
      PutAtOtherStep(v, p, w, q[0]);
      SameFirstStep(q, PutAt(v, p, w), v);
    }
  }

  /** Writing at `p` keeps the shape of every node on the route to `p`. */
  lemma {:induction false} PutAtKeepsRoute(v: Json, p: IdxPath, w: Json, q: IdxPath)
    requires ResolveOn(p, v).Ok? && OnRoute(q, p)
    ensures ResolveOn(q, PutAt(v, p, w)).Ok? && ResolveOn(q, v).Ok?
    ensures SameShape(ResolveOn(q, PutAt(v, p, w)).value, ResolveOn(q, v).value)
    decreases |p|
  {
    if q == [] {
      PutAtKeepsTop(v, p, w);
    } else {
      PutAtStep(v, p, w);
      var c := Step(v, p[0]).value;
      var c' := PutAt(c, p[1..], w);
      assert q[0] == p[0] && q[1..] == p[1..][..|q| - 1];
      PutAtKeepsRoute(c, p[1..], w, q[1..]);
      assert ResolveOn(q, PutAt(v, p, w)) == ResolveOn(q[1..], c');
      assert ResolveOn(q, v) == ResolveOn(q[1..], c);
    }
  }

  /** Writing below a node that resolves is writing into the node, then putting it back. */
  lemma {:induction false} PutAtExtend(v: Json, p: IdxPath, q: IdxPath, w: Json)
    requires ResolveOn(p, v).Ok?
    ensures PutAt(v, p + q, w) == PutAt(v, p, PutAt(ResolveOn(p, v).value, q, w))
    decreases |p|
  {
    if p == [] {
      PathSplit(v, p, q, w);
    } else {
      var c := Step(v, p[0]).value;
      PathSplit(c, p, q, w);
      PutAtExtend(c, p[1..], q, w);
      PutAtCons(v, p + q, w);
      PutAtCons(v, p, PutAt(ResolveOn(p, v).value, q, w));
    }
  }

  /** How `p + q` splits at its head, stated about `PutAt` so that no sequence equality is
      left for the caller. */
  lemma PathSplit(c: Json, p: IdxPath, q: IdxPath, w: Json)
    ensures p == [] ==> PutAt(c, p + q, w) == PutAt(c, q, w)
    ensures p != [] ==> (p + q)[0] == p[0] && PutAt(c, (p + q)[1..], w) == PutAt(c, p[1..] + q, w)
  {
    if p == [] {
      assert p + q == q;
    } else {
      assert (p + q)[1..] == p[1..] + q;
    }
  }

  /** A non-empty path resolves as its prefix does, then one step by its last index. */
  lemma ResolveLast(path: IdxPath, v: Json)
    ensures path != [] ==>
              ResolveOn(path, v) ==
                match ResolveOn(path[..|path| - 1], v)
                case Err(e) => Err(e)
                case Ok(w) => Step(w, path[|path| - 1])
  {
    if path != [] {
      assert path == path[..|path| - 1] + [path[|path| - 1]];
      ResolveSnoc(path[..|path| - 1], path[|path| - 1], v);
    }
  }

  /** The container `path` minus its last index resolves to, as `resolve_on_mut(...).expect`
      yields it, or the panic of `remove(1)` or of `expect`. */
  function Container(out: Json, path: IdxPath): (r: Outcome<Json>)
    ensures r.Return? <==> path != [] && ResolveOn(path[..|path| - 1], out).Ok?
    ensures r.Return? ==> r.value == ResolveOn(path[..|path| - 1], out).value
  {
    match Remove(path, 1)
    case Panic(msg) => Panic(msg)
    case Return(prefix) =>
      ResolveOnMutAgrees(prefix, out);
      match ResolveOnMut(prefix, out)
      case Err(_) => Panic(ResolveExpect)
      case Ok(c) => Return(c)
  }

  /** One iteration of `delete_paths`: removes the last index of `path` from the container the
      rest of the path names. A missing object key is not an error; a position past the end,
      an index of the wrong kind, a scalar container, an empty path or a prefix that does not
      resolve is a panic. */
  function DeleteOne(out: Json, path: IdxPath): (r: Outcome<Json>)
    ensures r.Return? <==>
      path != [] && ResolveOn(path[..|path| - 1], out).Ok?
      && (var c := ResolveOn(path[..|path| - 1], out).value;
          var last := path[|path| - 1];
          (c.Array? && last.ArrayIdx? && last.pos < |c.items|) || (c.Object? && last.ObjectIdx?))
  {
    match Container(out, path)
    case Panic(msg) => Panic(msg)
    case Return(c) =>
      var prefix := path[..|path| - 1];
      var last := path[|path| - 1];
      match c
      case Array(items) =>
        (match IdxOps.AsArray(last)
         case None => Panic(KindExpect)
         case Some(i) =>
           (match VecRemove(items, i)
            case Panic(msg) => Panic(msg)
            case Return(rest) => Return(PutAt(out, prefix, Array(rest)))))
      case Object(es) =>
        (match IdxOps.AsObject(last)
         case None => Panic(KindExpect)
         case Some(k) => Return(PutAt(out, prefix, Object(ObjectRemove(es, k)))))
      case _ => Panic(Unreachable)
  }

  /** `delete_paths`: deletes at each path in turn, on the document the previous deletions
      left; the first panic ends the batch. */
  function DeletePaths(paths: seq<IdxPath>, out: Json): (r: Outcome<Json>)
    ensures paths == [] ==> r == Return(out)
    ensures |paths| == 1 ==> r == DeleteOne(out, paths[0])
  {
    if paths == [] then Return(out)
    else match DeleteOne(out, paths[0])
      case Panic(msg) => Panic(msg)
      case Return(next) => DeletePaths(paths[1..], next)
  }

  /** Deleting a batch and then one more path is deleting the longer batch. */
  lemma {:induction false} DeletePathsSnoc(paths: seq<IdxPath>, p: IdxPath, out: Json)
    ensures DeletePaths(paths + [p], out) ==
      match DeletePaths(paths, out)
      case Panic(msg) => Panic(msg)
      case Return(next) => DeleteOne(next, p)
  {
    if paths == [] {
      assert paths + [p] == [p];
    } else {
      assert (paths + [p])[1..] == paths[1..] + [p];
      assert (paths + [p])[0] == paths[0];
      match DeleteOne(out, paths[0])
      case Panic(_) =>
      case Return(next) => DeletePathsSnoc(paths[1..], p, next);
    }
  }

  /** `DeleteOne` at an array position that exists rewrites the array without it. */
  lemma DeleteOneArray(out: Json, prefix: IdxPath, i: nat)
    requires ResolveOn(prefix, out).Ok? && ResolveOn(prefix, out).value.Array?
    requires i < |ResolveOn(prefix, out).value.items|
    ensures var items := ResolveOn(prefix, out).value.items;
      DeleteOne(out, prefix + [ArrayIdx(i)]) == Return(PutAt(out, prefix, Array(items[..i] + items[i + 1..])))
  {
    var path := prefix + [ArrayIdx(i)];
    assert path[..|path| - 1] == prefix && path[|path| - 1] == ArrayIdx(i);
  }

  /** `DeleteOne` at an object key rewrites the object without that key. */
  lemma DeleteOneObject(out: Json, prefix: IdxPath, k: string)
    requires ResolveOn(prefix, out).Ok? && ResolveOn(prefix, out).value.Object?
    ensures var es := ResolveOn(prefix, out).value.entries;
      DeleteOne(out, prefix + [ObjectIdx(k)]) == Return(PutAt(out, prefix, Object(ObjectRemove(es, k))))
  {
    var path := prefix + [ObjectIdx(k)];
    assert path[..|path| - 1] == prefix && path[|path| - 1] == ObjectIdx(k);
  }

  /** Deleting one array element: the container loses exactly that element, later elements
      move down by one, and every path that parts ways with the container's path resolves as
      before. */
  lemma DeleteArrayElement(out: Json, prefix: IdxPath, i: nat, q: IdxPath)
    requires ResolveOn(prefix, out).Ok? && ResolveOn(prefix, out).value.Array?
    requires i < |ResolveOn(prefix, out).value.items|
    ensures DeletePaths([prefix + [ArrayIdx(i)]], out).Return?
    ensures var items := ResolveOn(prefix, out).value.items;
      var r := DeletePaths([prefix + [ArrayIdx(i)]], out).value;
      ResolveOn(prefix, r) == Ok(Array(items[..i] + items[i + 1..]))
      && (Diverges(prefix, q) ==> ResolveOn(q, r) == ResolveOn(q, out))
  {
    var items := ResolveOn(prefix, out).value.items;
    DeleteOneArray(out, prefix, i);
    PutAtHere(out, prefix, Array(items[..i] + items[i + 1..]));
    if Diverges(prefix, q) {
      PutAtElsewhere(out, prefix, Array(items[..i] + items[i + 1..]), q);
    }
  }

  /** Deleting one object key: the container loses exactly that key (a missing key changes
      nothing), and every path that parts ways with the container's path resolves as before. */
  lemma DeleteObjectKey(out: Json, prefix: IdxPath, k: string, q: IdxPath)
    requires ResolveOn(prefix, out).Ok? && ResolveOn(prefix, out).value.Object?
    ensures DeletePaths([prefix + [ObjectIdx(k)]], out).Return?
    ensures var es := ResolveOn(prefix, out).value.entries;
      var r := DeletePaths([prefix + [ObjectIdx(k)]], out).value;
      ResolveOn(prefix, r).Ok? && ResolveOn(prefix, r).value.Object?
      && k !in Keys(ResolveOn(prefix, r).value.entries)
      && (forall k' :: k' != k ==> ObjectGet(ResolveOn(prefix, r).value.entries, k') == ObjectGet(es, k'))
      && (Diverges(prefix, q) ==> ResolveOn(q, r) == ResolveOn(q, out))
  {
    var es := ResolveOn(prefix, out).value.entries;
    DeleteOneObject(out, prefix, k);
    ObjectRemoveSpec(es, k);
    PutAtHere(out, prefix, Object(ObjectRemove(es, k)));
    if Diverges(prefix, q) {
      PutAtElsewhere(out, prefix, Object(ObjectRemove(es, k)), q);
    }
  }

  /** One iteration of `replace_paths`: `f` maps the old value at `path` to the new one. `f` is
      an `FnMut`, so it is given the state it has reached and returns the next state. Panics
      where `remove(1)`, `expect`, indexing or `unreachable!` panic. */
  function ReplaceOne<S>(out: Json, path: IdxPath, f: (S, Json) -> (S, Json), st: S): Outcome<(S, Json)>
  {
    match Container(out, path)
    case Panic(msg) => Panic(msg)
    case Return(c) =>
      var prefix := path[..|path| - 1];
      var last := path[|path| - 1];
      match c
      case Array(items) =>
        (match IdxOps.AsArray(last)
         case None => Panic(KindExpect)
         case Some(i) =>
           if i < |items| then
             var (st', nv) := f(st, items[i]);
             Return((st', PutAt(out, prefix, Array(items[i := nv]))))
           else Panic("index out of bounds"))
      case Object(es) =>
        (match IdxOps.AsObject(last)
         case None => Panic(KindExpect)
         case Some(k) =>
           (match ObjectGet(es, k)
            case None => Panic("key not found")
            case Some(prev) =>
              var (st', nv) := f(st, prev);
              Return((st', PutAt(out, prefix, Object(ObjectSet(es, k, nv)))))))
      case _ => Panic(Unreachable)
  }

  /** `ReplaceOne` succeeds exactly on the non-empty paths that resolve; it hands `f` the
      value found there and writes `f`'s result at the path. */
  lemma ReplaceOneSpec<S>(out: Json, path: IdxPath, f: (S, Json) -> (S, Json), st: S)
    ensures ReplaceOne(out, path, f, st).Return? <==> path != [] && ResolveOn(path, out).Ok?
    ensures ReplaceOne(out, path, f, st).Return? ==>
      var (st', nv) := f(st, ResolveOn(path, out).value);
      ReplaceOne(out, path, f, st) == Return((st', PutAt(out, path, nv)))
  {
    ResolveLast(path, out);
    if path != [] && ResolveOn(path[..|path| - 1], out).Ok? {
      var prefix := path[..|path| - 1];
      var c := ResolveOn(prefix, out).value;
      if c.Array? {
        ReplaceOneInArray(out, path, f, st);
      } else if c.Object? {
        ReplaceOneInObject(out, path, f, st);
      }
    }
  }

  /** Writing at a non-empty path is writing, at its prefix, the container with its last
      slot rewritten. */
  lemma PutAtLast(v: Json, path: IdxPath, w: Json)
    requires path != [] && ResolveOn(path[..|path| - 1], v).Ok?
    ensures PutAt(v, path, w)
      == PutAt(v, path[..|path| - 1], PutAt(ResolveOn(path[..|path| - 1], v).value, [path[|path| - 1]], w))
  {
    assert path == path[..|path| - 1] + [path[|path| - 1]];
    PutAtExtend(v, path[..|path| - 1], [path[|path| - 1]], w);
  }

  /** Writing at one array position replaces that element. */
  lemma PutAtArraySlot(items: seq<Json>, i: nat, w: Json)
    requires i < |items|
    ensures PutAt(Array(items), [ArrayIdx(i)], w) == Array(items[i := w])
  {
    assert [ArrayIdx(i)][1..] == [];
  }

  /** Writing at a present object key replaces that entry's value. */
  lemma PutAtObjectKey(es: seq<(string, Json)>, k: string, w: Json)
    requires ObjectGet(es, k).Some?
    ensures PutAt(Object(es), [ObjectIdx(k)], w) == Object(ObjectSet(es, k, w))
  {
    assert [ObjectIdx(k)][1..] == [];
  }

  /** `ReplaceOne` on an array container: the element at a position that exists is handed to
      `f` and replaced by its result; any other last index panics. */
  lemma ReplaceOneArrayCase<S>(out: Json, path: IdxPath, f: (S, Json) -> (S, Json), st: S)
    requires path != [] && ResolveOn(path[..|path| - 1], out).Ok?
    requires ResolveOn(path[..|path| - 1], out).value.Array?
    ensures var items := ResolveOn(path[..|path| - 1], out).value.items;
      var last := path[|path| - 1];
      ReplaceOne(out, path, f, st) ==
        if last.ArrayIdx? && last.pos < |items| then
          Return((f(st, items[last.pos]).0,
                  PutAt(out, path[..|path| - 1], Array(items[last.pos := f(st, items[last.pos]).1]))))
        else if last.ArrayIdx? then Panic("index out of bounds")
        else Panic(KindExpect)
  {
  }

  /** `ReplaceOne` on an object container: the value under a present key is handed to `f` and
      replaced by its result; any other last index panics. */
  lemma ReplaceOneObjectCase<S>(out: Json, path: IdxPath, f: (S, Json) -> (S, Json), st: S)
    requires path != [] && ResolveOn(path[..|path| - 1], out).Ok?
    requires ResolveOn(path[..|path| - 1], out).value.Object?
    ensures var es := ResolveOn(path[..|path| - 1], out).value.entries;
      var last := path[|path| - 1];
      ReplaceOne(out, path, f, st) ==
        if last.ObjectIdx? && ObjectGet(es, last.key).Some? then
          Return((f(st, ObjectGet(es, last.key).value).0,
                  PutAt(out, path[..|path| - 1],
                        Object(ObjectSet(es, last.key, f(st, ObjectGet(es, last.key).value).1)))))
        else if last.ObjectIdx? then Panic("key not found")
        else Panic(KindExpect)
  {
  }

  /** `ReplaceOne` where the container is an array. */
  lemma ReplaceOneInArray<S>(out: Json, path: IdxPath, f: (S, Json) -> (S, Json), st: S)
    requires path != [] && ResolveOn(path[..|path| - 1], out).Ok?
    requires ResolveOn(path[..|path| - 1], out).value.Array?
    ensures ReplaceOne(out, path, f, st).Return? <==> ResolveOn(path, out).Ok?
    ensures ReplaceOne(out, path, f, st).Return? ==>
      var (st', nv) := f(st, ResolveOn(path, out).value);
      ReplaceOne(out, path, f, st) == Return((st', PutAt(out, path, nv)))
  {
    var last := path[|path| - 1];
    var items := ResolveOn(path[..|path| - 1], out).value.items;
    ResolveLast(path, out);
    ReplaceOneArrayCase(out, path, f, st);
    if last.ArrayIdx? && last.pos < |items| {
      var nv := f(st, items[last.pos]).1;
      PutAtLast(out, path, nv);
      PutAtArraySlot(items, last.pos, nv);
    }
  }

  /** `ReplaceOne` where the container is an object. */
  lemma ReplaceOneInObject<S>(out: Json, path: IdxPath, f: (S, Json) -> (S, Json), st: S)
    requires path != [] && ResolveOn(path[..|path| - 1], out).Ok?
    requires ResolveOn(path[..|path| - 1], out).value.Object?
    ensures ReplaceOne(out, path, f, st).Return? <==> ResolveOn(path, out).Ok?
    ensures ReplaceOne(out, path, f, st).Return? ==>
      var (st', nv) := f(st, ResolveOn(path, out).value);
      ReplaceOne(out, path, f, st) == Return((st', PutAt(out, path, nv)))
  {
    var last := path[|path| - 1];
    var es := ResolveOn(path[..|path| - 1], out).value.entries;
    ResolveLast(path, out);
    ReplaceOneObjectCase(out, path, f, st);
    if last.ObjectIdx? && ObjectGet(es, last.key).Some? {
      var nv := f(st, ObjectGet(es, last.key).value).1;
      PutAtLast(out, path, nv);
      PutAtObjectKey(es, last.key, nv);
    }
  }

  /** `replace_paths`: replaces at each path in turn, on the document the previous
      replacements left, threading `f`'s state; the first panic ends the batch. */
  function ReplacePaths<S>(paths: seq<IdxPath>, out: Json, f: (S, Json) -> (S, Json), st: S): (r: Outcome<(S, Json)>)
    ensures paths == [] ==> r == Return((st, out))
    ensures |paths| == 1 ==> r == ReplaceOne(out, paths[0], f, st)
  {
    if paths == [] then Return((st, out))
    else match ReplaceOne(out, paths[0], f, st)
      case Panic(msg) => Panic(msg)
      case Return((st', next)) => ReplacePaths(paths[1..], next, f, st')
  }

  /** After a first replacement that returns, the batch goes on from its result. */
  lemma ReplacePathsCons<S>(paths: seq<IdxPath>, out: Json, f: (S, Json) -> (S, Json), st: S, st': S, next: Json)
    requires paths != [] && ReplaceOne(out, paths[0], f, st) == Return((st', next))
    ensures ReplacePaths(paths, out, f, st) == ReplacePaths(paths[1..], next, f, st')
  {
  }

  /** Replacing at a single path: the new value is `f` of the old one, every path that parts
      ways with it resolves as before, and every node on the route keeps its shape. */
  lemma ReplaceSingle<S>(out: Json, path: IdxPath, f: (S, Json) -> (S, Json), st: S, q: IdxPath)
    requires path != [] && ResolveOn(path, out).Ok?
    ensures ReplacePaths([path], out, f, st).Return?
    ensures var r := ReplacePaths([path], out, f, st).value;
      var (st', nv) := f(st, ResolveOn(path, out).value);
      r.0 == st' && ResolveOn(path, r.1) == Ok(nv)
      && (Diverges(path, q) ==> ResolveOn(q, r.1) == ResolveOn(q, out))
      && (OnRoute(q, path) ==> ResolveOn(q, r.1).Ok? && ResolveOn(q, out).Ok? && SameShape(ResolveOn(q, r.1).value, ResolveOn(q, out).value))
  {
    ReplaceOneSpec(out, path, f, st);
    var nv := f(st, ResolveOn(path, out).value).1;
    PutAtHere(out, path, nv);
    if Diverges(path, q) { PutAtElsewhere(out, path, nv, q); }
    if OnRoute(q, path) { PutAtKeepsRoute(out, path, nv, q); }
  }

  /** `f` is called once per path, in order: with a state that logs every value `f` sees, a
      batch that completes has logged exactly one value per path. */
  lemma {:induction false} ReplaceCallsOncePerPath(paths: seq<IdxPath>, out: Json, f: (seq<Json>, Json) -> (seq<Json>, Json), log: seq<Json>)
    requires forall s, x :: f(s, x).0 == s + [x]
    ensures ReplacePaths(paths, out, f, log).Return? ==>
      |ReplacePaths(paths, out, f, log).value.0| == |log| + |paths|
      && ReplacePaths(paths, out, f, log).value.0[..|log|] == log
  {
    if paths != [] {
      ReplaceOneSpec(out, paths[0], f, log);
      match ReplaceOne(out, paths[0], f, log)
      case Panic(_) =>
      case Return((log', next)) =>
        ReplaceCallsOncePerPath(paths[1..], next, f, log');
        if ReplacePaths(paths, out, f, log).Return? {
          var fin := ReplacePaths(paths, out, f, log).value.0;
          assert log' == log + [ResolveOn(paths[0], out).value];
          assert fin[..|log|] == fin[..|log'|][..|log|];
        }
    }
  }

  /** The paths of positions `from`, `from + 1`, ... of `n` elements of the array at `prefix`. */
  function PositionPaths(prefix: IdxPath, from: nat, n: nat): (ps: seq<IdxPath>)
    ensures |ps| == n && forall j :: 0 <= j < n ==> ps[j] == prefix + [ArrayIdx(from + j)]
  {
    seq(n, j requires 0 <= j < n => prefix + [ArrayIdx(from + j)])
  }

  /** The first of the position paths from `k` is `k`'s, and the rest start at `k + 1`. */
  lemma PositionPathsCons(prefix: IdxPath, k: nat, n: nat)
    requires n > 0
    ensures PositionPaths(prefix, k, n)[0] == prefix + [ArrayIdx(k)]
    ensures PositionPaths(prefix, k, n)[1..] == PositionPaths(prefix, k + 1, n - 1)
  {
    var ps := PositionPaths(prefix, k, n);
    var rest := PositionPaths(prefix, k + 1, n - 1);
    forall j | 0 <= j < n - 1
      ensures ps[1..][j] == rest[j]
    {
      assert ps[1..][j] == ps[j + 1];
    }
  }

  /** `n` copies of `c`. */
  function Fill(n: nat, c: Json): (r: seq<Json>)
    ensures |r| == n && forall j :: 0 <= j < n ==> r[j] == c
  {
    seq(n, _ => c)
  }

  /** Overwriting the first not-yet-replaced element extends the replaced run by one. */
  lemma FillStep(items: seq<Json>, c: Json, k: nat)
    requires k < |items|
    ensures (Fill(k, c) + items[k..])[k := c] == Fill(k + 1, c) + items[k + 1..]
  {
  }

  /** Replacing every element of an array with a constant, one path per position in order,
      leaves an array of the same length holding only that constant (`$.list[*]` with the
      paths a prepopulated context gives). */
  lemma ReplaceEveryElement<S>(out: Json, prefix: IdxPath, c: Json, f: (S, Json) -> (S, Json), st: S)
    requires ResolveOn(prefix, out).Ok? && ResolveOn(prefix, out).value.Array?
    requires forall s, x :: f(s, x).1 == c
    ensures var n := |ResolveOn(prefix, out).value.items|;
      var r := ReplacePaths(PositionPaths(prefix, 0, n), out, f, st);
      r.Return? && ResolveOn(prefix, r.value.1) == Ok(Array(Fill(n, c)))
  {
    var items := ResolveOn(prefix, out).value.items;
    assert Fill(0, c) + items[0..] == items;
    ReplaceFrom(out, prefix, items, c, f, st, 0);
  }

  /** Writing at position `k` of the array at `prefix` changes that element alone. */
  lemma ReplaceAtPosition(out: Json, prefix: IdxPath, cur: seq<Json>, k: nat, nv: Json)
    requires ResolveOn(prefix, out) == Ok(Array(cur)) && k < |cur|
    ensures ResolveOn(prefix + [ArrayIdx(k)], out) == Ok(cur[k])
    ensures ResolveOn(prefix, PutAt(out, prefix + [ArrayIdx(k)], nv)) == Ok(Array(cur[k := nv]))
  {
    ResolveSnoc(prefix, ArrayIdx(k), out);
    PutAtExtend(out, prefix, [ArrayIdx(k)], nv);
    assert [ArrayIdx(k)][1..] == [];
    assert PutAt(Array(cur), [ArrayIdx(k)], nv) == Array(cur[k := nv]);
    PutAtHere(out, prefix, Array(cur[k := nv]));
  }

  /** One step of `ReplaceFrom`: position `k` gets the constant and the batch goes on. */
  lemma ReplaceFromStep<S>(out: Json, prefix: IdxPath, items: seq<Json>, c: Json, f: (S, Json) -> (S, Json), st: S, k: nat)
    returns (next: Json, st': S)
    requires k < |items|
    requires ResolveOn(prefix, out) == Ok(Array(Fill(k, c) + items[k..]))
    requires forall s, x :: f(s, x).1 == c
    ensures ReplacePaths(PositionPaths(prefix, k, |items| - k), out, f, st)
      == ReplacePaths(PositionPaths(prefix, k + 1, |items| - (k + 1)), next, f, st')
    ensures ResolveOn(prefix, next) == Ok(Array(Fill(k + 1, c) + items[k + 1..]))
  {
    var n := |items|;
    var paths := PositionPaths(prefix, k, n - k);
    var cur := Fill(k, c) + items[k..];
    var path := prefix + [ArrayIdx(k)];
    PositionPathsCons(prefix, k, n - k);
    ReplaceAtPosition(out, prefix, cur, k, c);
    ReplaceOneSpec(out, path, f, st);
    FillStep(items, c, k);
    st' := f(st, cur[k]).0;
    next := PutAt(out, path, c);
    ReplacePathsCons(paths, out, f, st, st', next);
  }

  /** The induction behind `ReplaceEveryElement`: positions `k..` still to do. */
  lemma {:induction false} ReplaceFrom<S>(out: Json, prefix: IdxPath, items: seq<Json>, c: Json, f: (S, Json) -> (S, Json), st: S, k: nat)
    requires k <= |items|
    requires ResolveOn(prefix, out) == Ok(Array(Fill(k, c) + items[k..]))
    requires forall s, x :: f(s, x).1 == c
    ensures var r := ReplacePaths(PositionPaths(prefix, k, |items| - k), out, f, st);
      r.Return? && ResolveOn(prefix, r.value.1) == Ok(Array(Fill(|items|, c)))
    decreases |items| - k
  {
    var n := |items|;
    var paths := PositionPaths(prefix, k, n - k);
    if k == n {
      assert Fill(k, c) + items[k..] == Fill(n, c);
    } else {
      var next, st' := ReplaceFromStep(out, prefix, items, c, f, st, k);
      ReplaceFrom(next, prefix, items, c, f, st', k + 1);
    }
  }
}
