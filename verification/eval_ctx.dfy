/** `EvalCtx` (src/eval.rs): the working set of matched nodes and the parent map, keyed by
    node identity. The document is an arena, so a reference `&'a Value` is a `NodeId` and the
    pointer equality behind `RefKey` is equality of ids. */
module EvalContext {
  import opened Wrappers
  import opened JsonValue
  import opened Idx
  import opened IdxPaths
  import opened Arena

  /** Every entry of the parent map is a real containment edge of the document. */
  predicate Consistent(a: Doc, m: map<NodeId, NodeId>) {
    forall c :: c in m ==> m[c] < |a| && c in Kids(a[m[c]])
  }

  datatype Ctx = Ctx(doc: Doc, root: NodeId, matched: seq<NodeId>, parents: map<NodeId, NodeId>)

  /** The invariant of a context: a well-formed document, ids that name nodes of it, and a
      parent map made of real edges (what references into one `Value` guarantee). */
  predicate CtxWf(ctx: Ctx) {
    Wf(ctx.doc) && ctx.root < |ctx.doc|
    && (forall i :: 0 <= i < |ctx.matched| ==> ctx.matched[i] < |ctx.doc|)
    && Consistent(ctx.doc, ctx.parents)
  }

  /** In a well-formed document a recorded parent is numbered below its child. */
  lemma ParentBelow(ctx: Ctx, c: NodeId)
    requires CtxWf(ctx) && c in ctx.parents
    ensures ctx.parents[c] < c < |ctx.doc|
  {
    var p := ctx.parents[c];
    var i :| 0 <= i < |Kids(ctx.doc[p])| && Kids(ctx.doc[p])[i] == c;
  }

  /** `EvalCtx::new`: the working set is the root alone, and no parent is known. */
  function New(doc: Doc, root: NodeId): (ctx: Ctx)
    ensures ctx.matched == [root] && ctx.parents == map[] && ctx.root == root && ctx.doc == doc
    ensures Wf(doc) && root < |doc| ==> CtxWf(ctx)
  {
    Ctx(doc, root, [root], map[])
  }

  /** `EvalCtx::new_parents`: as `New`, but sharing an existing parent map. */
  function NewParents(doc: Doc, root: NodeId, parents: map<NodeId, NodeId>): (ctx: Ctx)
    ensures ctx.matched == [root] && ctx.parents == parents && ctx.root == root && ctx.doc == doc
    ensures Wf(doc) && root < |doc| && Consistent(doc, parents) ==> CtxWf(ctx)
  {
    Ctx(doc, root, [root], parents)
  }

  /** `parents_recur` over the children `ks` of `p`: for each child in order, record `p` as
      its parent, then descend into it. */
  function RecurKids(a: Doc, m: map<NodeId, NodeId>, p: NodeId, ks: seq<NodeId>): map<NodeId, NodeId>
    decreases |a| - p, 0, |ks|
  {
    if ks == [] then m
    else
      var m1 := m[ks[0] := p];
      var m2 := if p < ks[0] < |a| then ParentsRecur(a, m1, ks[0]) else m1;
      RecurKids(a, m2, p, ks[1..])
  }

  /** `EvalCtx::parents_recur`: records the parent of every node below `p`. */
  function ParentsRecur(a: Doc, m: map<NodeId, NodeId>, p: NodeId): map<NodeId, NodeId>
    decreases |a| - p, 1
  {
    if p >= |a| then m else RecurKids(a, m, p, Kids(a[p]))
  }

  /** `RecurKids` records only real edges. */
  lemma {:induction false} RecurKidsConsistent(a: Doc, m: map<NodeId, NodeId>, p: NodeId, ks: seq<NodeId>)
    requires Forward(a) && p < |a| && Consistent(a, m)
    requires forall i :: 0 <= i < |ks| ==> ks[i] in Kids(a[p])
    ensures Consistent(a, RecurKids(a, m, p, ks))
    decreases |a| - p, 0, |ks|
  {
    if ks != [] {
      var c := ks[0];
      KidForward(a, p, c);
      ConsistentInsert(a, m, p, c);
      ParentsRecurConsistent(a, m[c := p], c);
      assert forall i :: 0 <= i < |ks[1..]| ==> ks[1..][i] == ks[i + 1];
      RecurKidsConsistent(a, ParentsRecur(a, m[c := p], c), p, ks[1..]);
    }
  }

  /** `ParentsRecur` records only real edges. */
  lemma {:induction false} ParentsRecurConsistent(a: Doc, m: map<NodeId, NodeId>, p: NodeId)
    requires Forward(a) && p < |a| && Consistent(a, m)
    ensures Consistent(a, ParentsRecur(a, m, p))
    decreases |a| - p, 1
  {
    RecurKidsConsistent(a, m, p, Kids(a[p]));
  }

  /** `RecurKids` adds exactly the nodes reachable through `ks` to the parent map. */
  lemma {:induction false} RecurKidsKeys(a: Doc, m: map<NodeId, NodeId>, p: NodeId, ks: seq<NodeId>)
    requires Forward(a) && forall i :: 0 <= i < |ks| ==> p < ks[i] < |a|
    ensures RecurKids(a, m, p, ks).Keys == m.Keys + ReachAll(a, p, ks)
    decreases |a| - p, 0, |ks|
  {
    if ks != [] {
      var c := ks[0];
      var m2 := ParentsRecur(a, m[c := p], c);
      ParentsRecurKeys(a, m[c := p], c);
      ReachBounds(a, c);
      assert forall i :: 0 <= i < |ks[1..]| ==> ks[1..][i] == ks[i + 1];
      RecurKidsKeys(a, m2, p, ks[1..]);
      assert c in Reach(a, c);
      KeysAdded(m.Keys, c, Reach(a, c), m2.Keys, ReachAll(a, p, ks[1..]), RecurKids(a, m, p, ks).Keys);
    }
  }

  /** `ParentsRecur` adds exactly the nodes strictly below `p` to the parent map. */
  lemma {:induction false} ParentsRecurKeys(a: Doc, m: map<NodeId, NodeId>, p: NodeId)
    requires Forward(a) && p < |a|
    ensures ParentsRecur(a, m, p).Keys == m.Keys + (Reach(a, p) - {p})
    decreases |a| - p, 1
  {
    RecurKidsKeys(a, m, p, Kids(a[p]));
    ReachAllBounds(a, p, Kids(a[p]));
  }

  /** What `ParentsRecur` does: it adds exactly the nodes strictly below `p`, with real edges. */
  lemma ParentsRecurSpec(a: Doc, m: map<NodeId, NodeId>, p: NodeId)
    requires Forward(a) && p < |a| && Consistent(a, m)
    ensures Consistent(a, ParentsRecur(a, m, p))
    ensures ParentsRecur(a, m, p).Keys == m.Keys + (Reach(a, p) - {p})
  {
    ParentsRecurConsistent(a, m, p);
    ParentsRecurKeys(a, m, p);
  }

  /** The set bookkeeping of one `RecurKids` step: the child, then everything below it, then
      the later children. */
  lemma KeysAdded<T>(before: set<T>, c: T, below: set<T>, mid: set<T>, later: set<T>, after: set<T>)
    requires c in below && mid == (before + {c}) + (below - {c}) && after == mid + later
    ensures after == before + (below + later)
  {
  }

  /** A child is numbered after its container and lies in the arena. */
  lemma KidForward(a: Doc, p: NodeId, c: NodeId)
    requires Forward(a) && p < |a| && c in Kids(a[p])
    ensures p < c < |a|
  {
    var i :| 0 <= i < |Kids(a[p])| && Kids(a[p])[i] == c;
  }

  /** Recording a real edge keeps the parent map consistent. */
  lemma ConsistentInsert(a: Doc, m: map<NodeId, NodeId>, p: NodeId, c: NodeId)
    requires Consistent(a, m) && p < |a| && c in Kids(a[p])
    ensures Consistent(a, m[c := p])
  {
  }

  /** `EvalCtx::prepopulate_parents`. */
  function Prepopulate(ctx: Ctx): (r: Ctx)
    ensures r.doc == ctx.doc && r.root == ctx.root && r.matched == ctx.matched
    ensures CtxWf(ctx) ==> CtxWf(r)
    ensures CtxWf(ctx) ==> r.parents.Keys == ctx.parents.Keys + (Reach(ctx.doc, ctx.root) - {ctx.root})
  {
    var m := ParentsRecur(ctx.doc, ctx.parents, ctx.root);
    if CtxWf(ctx) then
      ParentsRecurSpec(ctx.doc, ctx.parents, ctx.root);
      ctx.(parents := m)
    else
      ctx.(parents := m)
  }

  /** `EvalCtx::parent_of`. */
  function ParentOf(ctx: Ctx, v: NodeId): (r: Option<NodeId>)
    ensures CtxWf(ctx) && r.Some? ==> r.value < |ctx.doc| && v in Kids(ctx.doc[r.value])
  {
    if v in ctx.parents then Some(ctx.parents[v]) else None
  }

  /** After prepopulating a fresh context, the parent of a node below the root is the unique
      container holding it, and the root has none. */
  lemma PrepopulatedParentOf(doc: Doc, root: NodeId, p: NodeId, i: nat)
    requires Wf(doc) && root < |doc| && p in Reach(doc, root) && p < |doc| && i < |Kids(doc[p])|
    ensures ParentOf(Prepopulate(New(doc, root)), Kids(doc[p])[i]) == Some(p)
    ensures ParentOf(Prepopulate(New(doc, root)), root) == None
  {
    var ctx := Prepopulate(New(doc, root));
    var c := Kids(doc[p])[i];
    KidReachable(doc, root, p, i);
    ReachBounds(doc, root);
    assert c in ctx.parents;
    var q := ctx.parents[c];
    var j :| 0 <= j < |Kids(doc[q])| && Kids(doc[q])[j] == c;
  }

  /** The first slot of `ks` holding `v`. */
  function FindSlot(ks: seq<NodeId>, v: NodeId): (r: Option<nat>)
    ensures r.Some? ==> r.value < |ks| && ks[r.value] == v && forall j :: 0 <= j < r.value ==> ks[j] != v
    ensures r.None? <==> v !in ks
  {
    if ks == [] then None
    else if ks[0] == v then Some(0)
    else match FindSlot(ks[1..], v)
      case None => None
      case Some(j) => Some(j + 1)
  }

  /** `EvalCtx::idx_of`: where `v` sits in its recorded parent, by identity. */
  function IdxOf(ctx: Ctx, v: NodeId): (r: Option<Idx>)
    ensures ParentOf(ctx, v).None? ==> r.None?
    ensures r.Some? ==> ParentOf(ctx, v).Some? && ParentOf(ctx, v).value < |ctx.doc|
    ensures r.Some? && r.value.ArrayIdx? ==>
      (var p := ParentOf(ctx, v).value;
       ctx.doc[p].NArray? && r.value.pos < |ctx.doc[p].kids| && ctx.doc[p].kids[r.value.pos] == v)
    ensures r.Some? && r.value.ObjectIdx? ==>
      (var p := ParentOf(ctx, v).value;
       ctx.doc[p].NObject? && (r.value.key, v) in ctx.doc[p].fields)
  {
    match ParentOf(ctx, v)
    case None => None
    case Some(p) =>
      if p >= |ctx.doc| then None
      else match ctx.doc[p]
        case NArray(ks) =>
          (match FindSlot(ks, v)
           case None => None
           case Some(i) => Some(ArrayIdx(i)))
        case NObject(fs) =>
          (match FindSlot(Kids(ctx.doc[p]), v)
           case None => None
           case Some(i) => Some(ObjectIdx(fs[i].0)))
        case _ => None
  }

  /** A recorded child is found in its parent's slots, and its index names that slot. */
  lemma IdxOfSlot(ctx: Ctx, v: NodeId) returns (i: nat)
    requires CtxWf(ctx) && v in ctx.parents
    ensures var p := ctx.parents[v]; p < |ctx.doc| && i < |Kids(ctx.doc[p])| && Kids(ctx.doc[p])[i] == v
    ensures var n := ctx.doc[ctx.parents[v]];
      (n.NArray? && IdxOf(ctx, v) == Some(ArrayIdx(i)))
      || (n.NObject? && IdxOf(ctx, v) == Some(ObjectIdx(n.fields[i].0)))
  {
    var p := ctx.parents[v];
    i := FindSlot(Kids(ctx.doc[p]), v).value;
  }

  /** Stepping into array node `p` at slot `i` reaches the value of its `i`-th child. */
  lemma ArraySlotStep(a: Doc, p: NodeId, i: nat)
    requires Wf(a) && p < |a| && a[p].NArray? && i < |Kids(a[p])|
    ensures Step(ToJson(a, p), ArrayIdx(i)) == Ok(ToJson(a, Kids(a[p])[i]))
  {
    ToJsonKids(a, p, i);
  }

  /** Stepping into object node `p` by the key of field `i` reaches the value of that field. */
  lemma ObjectSlotStep(a: Doc, p: NodeId, i: nat)
    requires Wf(a) && p < |a| && a[p].NObject? && i < |Kids(a[p])|
    ensures Step(ToJson(a, p), ObjectIdx(a[p].fields[i].0)) == Ok(ToJson(a, Kids(a[p])[i]))
  {
    ToJsonKids(a, p, i);
    ToJsonUniqueKeys(a, p);
    FirstLookup(ToJson(a, p).entries, i);
  }

  /** With a consistent parent map, `idx_of` of a node with a parent is the index that steps
      from the parent's value to the node's value. */
  lemma IdxOfSteps(ctx: Ctx, v: NodeId)
    requires CtxWf(ctx) && v in ctx.parents
    ensures IdxOf(ctx, v).Some?
    ensures Step(ToJson(ctx.doc, ctx.parents[v]), IdxOf(ctx, v).value) == Ok(ToJson(ctx.doc, v))
  {
    var p := ctx.parents[v];
    var i := IdxOfSlot(ctx, v);
    if ctx.doc[p].NArray? {
      ArraySlotStep(ctx.doc, p, i);
    } else {
      ObjectSlotStep(ctx.doc, p, i);
    }
  }

  /** `RefKey` is identity, not value equality: in `[1, 1]` the two equal elements are two
      nodes, and each gets its own index. */
  lemma IdentityNotValue()
    ensures var doc := [NArray([1, 2]), NNumber(Int(1)), NNumber(Int(1))];
      var ctx := Ctx(doc, 0, [1, 2], map[1 := 0, 2 := 0]);
      ToJson(doc, 1) == ToJson(doc, 2)
      && IdxOf(ctx, 1) == Some(ArrayIdx(0)) && IdxOf(ctx, 2) == Some(ArrayIdx(1))
  {
    var ks: seq<NodeId> := [1, 2];
    assert FindSlot(ks, 2) == Some(1) by {
      assert ks[1..] == [2];
    }
  }

  /** `EvalCtx::get_matched`. */
  function GetMatched(ctx: Ctx): seq<NodeId> { ctx.matched }

  /** `EvalCtx::into_matched`. */
  function IntoMatched(ctx: Ctx): seq<NodeId> { ctx.matched }

  /** `EvalCtx::set_matched`: replaces the working set and nothing else. */
  function SetMatched(ctx: Ctx, m: seq<NodeId>): (r: Ctx)
    ensures r.doc == ctx.doc && r.root == ctx.root && r.parents == ctx.parents
  {
    ctx.(matched := m)
  }

  /** What is set is what is read back. */
  lemma SetThenGet(ctx: Ctx, m: seq<NodeId>)
    ensures GetMatched(SetMatched(ctx, m)) == m && IntoMatched(SetMatched(ctx, m)) == m
  {
  }

  /** The flat-map of `apply_matched`: `f` on each entry in order, results concatenated; the
      first panic of `f` is the panic of the whole. */
  function FlatMap(ctx: Ctx, f: (Ctx, NodeId) -> Outcome<seq<NodeId>>, xs: seq<NodeId>): (r: Outcome<seq<NodeId>>)
    ensures r.Panic? <==> exists i :: 0 <= i < |xs| && f(ctx, xs[i]).Panic?
    ensures r.Return? ==> forall w :: w in r.value <==>
      exists i :: 0 <= i < |xs| && f(ctx, xs[i]).Return? && w in f(ctx, xs[i]).value
  {
    if xs == [] then Return([])
    else match f(ctx, xs[0])
      case Panic(msg) => Panic(msg)
      case Return(ys) =>
        (match FlatMap(ctx, f, xs[1..])
         case Panic(msg) => Panic(msg)
         case Return(zs) =>
           assert forall i :: 1 <= i < |xs| ==> xs[i] == xs[1..][i - 1];
           Return(ys + zs))
  }

  /** The flat-map distributes over concatenation of the working set. */
  lemma {:induction false} FlatMapConcat(ctx: Ctx, f: (Ctx, NodeId) -> Outcome<seq<NodeId>>, xs: seq<NodeId>, ys: seq<NodeId>)
    ensures FlatMap(ctx, f, xs + ys) ==
      match FlatMap(ctx, f, xs)
      case Panic(msg) => Panic(msg)
      case Return(as1) =>
        (match FlatMap(ctx, f, ys)
         case Panic(msg) => Panic(msg)
         case Return(bs) => Return(as1 + bs))
  {
    if xs == [] {
      assert xs + ys == ys;
      match FlatMap(ctx, f, ys)
      case Panic(_) =>
      case Return(bs) => assert [] + bs == bs;
    } else {
      assert (xs + ys)[1..] == xs[1..] + ys;
      assert (xs + ys)[0] == xs[0];
      FlatMapConcat(ctx, f, xs[1..], ys);
      match f(ctx, xs[0])
      case Panic(_) =>
      case Return(r0) =>
        match FlatMap(ctx, f, xs[1..])
        case Panic(_) =>
        case Return(rs) =>
          match FlatMap(ctx, f, ys)
          case Panic(_) =>
          case Return(bs) =>
            assert r0 + (rs + bs) == (r0 + rs) + bs;
    }
  }

  /** `EvalCtx::apply_matched`: replaces the working set with the flat-map of `f` over it;
      the document, root and parent map stay as they are. */
  function ApplyMatched(ctx: Ctx, f: (Ctx, NodeId) -> Outcome<seq<NodeId>>): (r: Outcome<Ctx>)
    ensures r.Panic? <==> exists i :: 0 <= i < |ctx.matched| && f(ctx, ctx.matched[i]).Panic?
    ensures r.Return? ==>
      r.value.doc == ctx.doc && r.value.root == ctx.root && r.value.parents == ctx.parents
    ensures r.Return? ==> forall w :: w in r.value.matched <==>
      exists i :: 0 <= i < |ctx.matched| && f(ctx, ctx.matched[i]).Return?
        && w in f(ctx, ctx.matched[i]).value
  {
    match FlatMap(ctx, f, ctx.matched)
    case Panic(msg) => Panic(msg)
    case Return(m) => Return(ctx.(matched := m))
  }

  /** Applying `f` to a one-entry working set gives exactly `f`'s result. */
  lemma ApplyMatchedSingle(ctx: Ctx, f: (Ctx, NodeId) -> Outcome<seq<NodeId>>, v: NodeId)
    requires ctx.matched == [v]
    ensures f(ctx, v).Return? ==> ApplyMatched(ctx, f) == Return(ctx.(matched := f(ctx, v).value))
    ensures f(ctx, v).Panic? ==> ApplyMatched(ctx, f).Panic?
  {
    assert ctx.matched[1..] == [];
    assert FlatMap(ctx, f, ctx.matched[1..]) == Return([]);
    if f(ctx, v).Return? {
      assert f(ctx, v).value + [] == f(ctx, v).value;
    }
  }

  /** The path the loop of `paths_matched` builds for one node: the indices of the node in
      its parent, grandparent, … up to the first node without a recorded parent, outermost
      first; `unwrap` panics if a recorded parent does not hold the node. */
  function PathTo(ctx: Ctx, v: NodeId): (r: Outcome<IdxPath>)
    requires CtxWf(ctx)
    ensures ParentOf(ctx, v).None? ==> r == Return([])
    decreases v
  {
    match ParentOf(ctx, v)
    case None => Return([])
    case Some(p) =>
      ParentBelow(ctx, v);
      match IdxOf(ctx, v)
      case None => Panic("called `Option::unwrap()` on a `None` value")
      case Some(idx) =>
        (match PathTo(ctx, p)
         case Panic(msg) => Panic(msg)
         case Return(up) => Return(up + [idx]))
  }

  /** With the parents of a fresh context prepopulated, every node reachable from the root gets
      a root-to-node path: resolving it on the root's value yields the node's value. */
  lemma PrepopulatedPathResolves(doc: Doc, root: NodeId, v: NodeId)
    requires Wf(doc) && root < |doc| && v in Reach(doc, root)
    ensures CtxWf(Prepopulate(New(doc, root)))
    ensures PathTo(Prepopulate(New(doc, root)), v).Return?
    ensures ResolveOn(PathTo(Prepopulate(New(doc, root)), v).value, ToJson(doc, root)) == Ok(ToJson(doc, v))
  {
    var ctx := Prepopulate(New(doc, root));
    ReachBounds(doc, root);
    AncestorTop(ctx, v);
  }

  /** The path of a node with a recorded parent extends the parent's path by one index. */
  lemma PathToParent(ctx: Ctx, v: NodeId)
    requires CtxWf(ctx) && v in ctx.parents && PathTo(ctx, ctx.parents[v]).Return?
    ensures IdxOf(ctx, v).Some?
    ensures PathTo(ctx, v) == Return(PathTo(ctx, ctx.parents[v]).value + [IdxOf(ctx, v).value])
  {
    var i := IdxOfSlot(ctx, v);
  }

  /** Following recorded parents from a reachable node ends at the root, and the path is
      resolved from the root. */
  lemma {:induction false} AncestorTop(ctx: Ctx, v: NodeId)
    requires CtxWf(ctx) && ctx.parents.Keys == Reach(ctx.doc, ctx.root) - {ctx.root}
    requires v in Reach(ctx.doc, ctx.root)
    ensures PathTo(ctx, v).Return?
    ensures ResolveOn(PathTo(ctx, v).value, ToJson(ctx.doc, ctx.root)) == Ok(ToJson(ctx.doc, v))
    decreases v
  {
    if v in ctx.parents {
      var p := ctx.parents[v];
      var i := IdxOfSlot(ctx, v);
      ParentBelow(ctx, v);
      ParentReachable(ctx.doc, ctx.root, p, i, v);
      AncestorTop(ctx, p);
      PathToParent(ctx, v);
      IdxOfSteps(ctx, v);
      ResolveSnoc(PathTo(ctx, p).value, IdxOf(ctx, v).value, ToJson(ctx.doc, ctx.root));
    } else {
      assert v == ctx.root;
    }
  }

  /** `EvalCtx::paths_matched`: one path per working-set entry, in order; the first entry
      whose path panics makes the whole call panic with that message. */
  function PathsMatched(ctx: Ctx): (r: Outcome<seq<IdxPath>>)
    requires CtxWf(ctx)
    ensures r.Return? ==>
              (|r.value| == |ctx.matched|
               && forall i :: 0 <= i < |ctx.matched| ==> PathTo(ctx, ctx.matched[i]) == Return(r.value[i]))
    ensures r.Panic? ==>
              exists i :: 0 <= i < |ctx.matched| && PathTo(ctx, ctx.matched[i]) == Panic(r.message)
                          && forall j :: 0 <= j < i ==> PathTo(ctx, ctx.matched[j]).Return?
  {
    Collect((v: NodeId) requires CtxWf(ctx) => PathTo(ctx, v), ctx.matched)
  }

  /** Without recorded parents (a context that was never prepopulated), every matched node
      gets the empty path. */
  lemma NoParentsEmptyPaths(ctx: Ctx)
    requires CtxWf(ctx) && ctx.parents == map[]
    ensures PathsMatched(ctx).Return?
    ensures forall i :: 0 <= i < |ctx.matched| ==> PathsMatched(ctx).value[i] == []
  {
  }

  /** With parents prepopulated, every reachable matched node's path resolves on the root's
      value to that node's value. */
  lemma PrepopulatedPathsResolve(ctx: Ctx)
    requires CtxWf(ctx) && ctx.parents.Keys == Reach(ctx.doc, ctx.root) - {ctx.root}
    requires forall i :: 0 <= i < |ctx.matched| ==> ctx.matched[i] in Reach(ctx.doc, ctx.root)
    ensures PathsMatched(ctx).Return?
    ensures forall i :: 0 <= i < |ctx.matched| ==>
      ResolveOn(PathsMatched(ctx).value[i], ToJson(ctx.doc, ctx.root)) == Ok(ToJson(ctx.doc, ctx.matched[i]))
  {
    forall i | 0 <= i < |ctx.matched|
      ensures PathTo(ctx, ctx.matched[i]).Return?
      ensures ResolveOn(PathTo(ctx, ctx.matched[i]).value, ToJson(ctx.doc, ctx.root)) == Ok(ToJson(ctx.doc, ctx.matched[i]))
    {
      AncestorTop(ctx, ctx.matched[i]);
    }
  }
}
