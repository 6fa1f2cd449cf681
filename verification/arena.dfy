/** A document as an arena of nodes, so that node identity (`RefKey` of src/eval.rs:11-26,
    pointer equality `ptr::eq`) is explicit: a node is named by its index, and two nodes
    holding equal values are still two nodes. */
module Arena {
  import opened Wrappers
  import opened JsonValue

  type NodeId = nat

  /** A node: a scalar, or a container whose children are nodes of the same arena. */
  datatype Node =
    | NNull
    | NBool(b: bool)
    | NNumber(n: Num)
    | NString(s: string)
    | NArray(kids: seq<NodeId>)
    | NObject(fields: seq<(string, NodeId)>)

  type Doc = seq<Node>

  /** The children of a node, in order (array elements, or object values). */
  function Kids(n: Node): (ks: seq<NodeId>)
    ensures n.NArray? ==> ks == n.kids
    ensures n.NObject? ==> |ks| == |n.fields| && forall i :: 0 <= i < |ks| ==> ks[i] == n.fields[i].1
    ensures !n.NArray? && !n.NObject? ==> ks == []
  {
    match n
    case NArray(ks) => ks
    case NObject(fs) => seq(|fs|, i requires 0 <= i < |fs| => fs[i].1)
    case _ => []
  }

  /** `c` is held in slot `i` of node `p`. */
  predicate InSlot(a: Doc, p: NodeId, i: nat, c: NodeId) {
    p < |a| && i < |Kids(a[p])| && Kids(a[p])[i] == c
  }

  /** The arena is a forest whose every node lies in at most one slot of one container, with
      a child always numbered after its container (so there are no cycles), and no object
      repeats a key: what Rust ownership and `serde_json::Map` guarantee of a `Value`. */
  predicate Wf(a: Doc) {
    Forward(a) && SingleContainer(a) && FieldKeysUnique(a)
  }

  /** Every child lies in the arena and is numbered after its container. */
  predicate Forward(a: Doc) {
    forall p, i :: 0 <= p < |a| && 0 <= i < |Kids(a[p])| ==> p < Kids(a[p])[i] < |a|
  }

  /** No node sits in two slots. */
  predicate SingleContainer(a: Doc) {
    forall p, i, q, j ::
      0 <= p < |a| && 0 <= i < |Kids(a[p])| && 0 <= q < |a| && 0 <= j < |Kids(a[q])|
      && Kids(a[p])[i] == Kids(a[q])[j]
      ==> p == q && i == j
  }

  /** No object repeats a key. */
  predicate FieldKeysUnique(a: Doc) {
    forall p, i, j :: 0 <= p < |a| && a[p].NObject? && 0 <= i < j < |a[p].fields| ==>
      a[p].fields[i].0 != a[p].fields[j].0
  }

  /** The value a node stands for: a scalar node is that scalar, and a container has one
      element per child slot, an object keeping its keys in order. */
  function ToJson(a: Doc, id: NodeId): (v: Json)
    ensures id < |a| && a[id].NNull? <==> id < |a| && v.Null?
    ensures id < |a| && a[id].NBool? ==> v == Bool(a[id].b)
    ensures id < |a| && a[id].NNumber? ==> v == Number(a[id].n)
    ensures id < |a| && a[id].NString? ==> v == String(a[id].s)
    ensures id < |a| && a[id].NArray? ==> v.Array? && |v.items| == |a[id].kids|
    ensures id < |a| && a[id].NObject? ==> v.Object? && |v.entries| == |a[id].fields|
    ensures id >= |a| ==> v == Null
    decreases |a| - id
  {
    if id >= |a| then Null
    else match a[id]
      case NNull => Null
      case NBool(b) => Bool(b)
      case NNumber(n) => Number(n)
      case NString(s) => String(s)
      case NArray(ks) =>
        Array(seq(|ks|, i requires 0 <= i < |ks| =>
          if id < ks[i] then ToJson(a, ks[i]) else Null))
      case NObject(fs) =>
        Object(seq(|fs|, i requires 0 <= i < |fs| =>
          (fs[i].0, if id < fs[i].1 then ToJson(a, fs[i].1) else Null)))
  }

  /** The children of a container node's value are the values of its child nodes. */
  lemma ToJsonKids(a: Doc, p: NodeId, i: nat)
    requires Wf(a) && p < |a| && i < |Kids(a[p])|
    ensures a[p].NArray? ==>
              (ToJson(a, p).Array? && |ToJson(a, p).items| == |Kids(a[p])|
               && ToJson(a, p).items[i] == ToJson(a, Kids(a[p])[i]))
    ensures a[p].NObject? ==>
              (ToJson(a, p).Object? && |ToJson(a, p).entries| == |Kids(a[p])|
               && ToJson(a, p).entries[i] == (a[p].fields[i].0, ToJson(a, Kids(a[p])[i])))
    ensures a[p].NArray? || a[p].NObject?
  {
  }

  /** The object a node stands for never repeats a key. */
  lemma ToJsonUniqueKeys(a: Doc, p: NodeId)
    requires Wf(a) && p < |a| && a[p].NObject?
    ensures UniqueKeys(ToJson(a, p).entries)
  {
  }

  /** The nodes reachable from `r`, `r` included. */
  function Reach(a: Doc, r: NodeId): set<NodeId>
    decreases |a| - r, 1
  {
    if r >= |a| then {} else {r} + ReachAll(a, r, Kids(a[r]))
  }

  /** The nodes reachable from the children `ks` of `p`. */
  function ReachAll(a: Doc, p: NodeId, ks: seq<NodeId>): set<NodeId>
    decreases |a| - p, 0, |ks|
  {
    if ks == [] then {}
    else (if p < ks[0] < |a| then Reach(a, ks[0]) else {}) + ReachAll(a, p, ks[1..])
  }

  /** Every node reachable from `r` is numbered at least `r` and lies in the arena. */
  lemma {:induction false} ReachBounds(a: Doc, r: NodeId)
    ensures forall v :: v in Reach(a, r) ==> r <= v < |a|
    decreases |a| - r, 1
  {
    if r < |a| {
      ReachAllBounds(a, r, Kids(a[r]));
    }
  }

  lemma {:induction false} ReachAllBounds(a: Doc, p: NodeId, ks: seq<NodeId>)
    ensures forall v :: v in ReachAll(a, p, ks) ==> p < v < |a|
    decreases |a| - p, 0, |ks|
  {
    if ks != [] {
      if p < ks[0] < |a| { ReachBounds(a, ks[0]); }
      ReachAllBounds(a, p, ks[1..]);
    }
  }

  /** The nodes reachable through a list of children are those reachable from one of them. */
  lemma {:induction false} ReachAllMember(a: Doc, p: NodeId, ks: seq<NodeId>, v: NodeId)
    ensures v in ReachAll(a, p, ks) <==> exists i :: 0 <= i < |ks| && p < ks[i] < |a| && v in Reach(a, ks[i])
    decreases |ks|
  {
    if ks != [] {
      ReachAllMember(a, p, ks[1..], v);
      if v in ReachAll(a, p, ks[1..]) {
        var i :| 0 <= i < |ks[1..]| && p < ks[1..][i] < |a| && v in Reach(a, ks[1..][i]);
        assert ks[i + 1] == ks[1..][i];
      }
      if exists i :: 0 <= i < |ks| && p < ks[i] < |a| && v in Reach(a, ks[i]) {
        var i :| 0 <= i < |ks| && p < ks[i] < |a| && v in Reach(a, ks[i]);
        if i > 0 { assert ks[1..][i - 1] == ks[i]; }
      }
    }
  }

  /** A child of a reachable node is reachable. */
  lemma KidReachable(a: Doc, r: NodeId, p: NodeId, i: nat)
    requires Wf(a) && p in Reach(a, r) && p < |a| && i < |Kids(a[p])|
    ensures Kids(a[p])[i] in Reach(a, r)
  {
    ReachTransitive(a, r, p);
    ReachAllMember(a, p, Kids(a[p]), Kids(a[p])[i]);
    ReachBounds(a, Kids(a[p])[i]);
    assert Kids(a[p])[i] in Reach(a, Kids(a[p])[i]);
  }

  /** Reachability is transitive. */
  lemma {:induction false} ReachTransitive(a: Doc, r: NodeId, p: NodeId)
    requires p in Reach(a, r)
    ensures Reach(a, p) <= Reach(a, r)
    decreases |a| - r
  {
    ReachBounds(a, r);
    if p != r {
      ReachAllMember(a, r, Kids(a[r]), p);
      var i :| 0 <= i < |Kids(a[r])| && r < Kids(a[r])[i] < |a| && p in Reach(a, Kids(a[r])[i]);
      ReachTransitive(a, Kids(a[r])[i], p);
      forall v | v in Reach(a, Kids(a[r])[i]) ensures v in Reach(a, r) {
        ReachAllMember(a, r, Kids(a[r]), v);
      }
    }
  }

  /** The container of a reachable node other than `r` is reachable too. */
  lemma {:induction false} ParentReachable(a: Doc, r: NodeId, p: NodeId, i: nat, v: NodeId)
    requires Wf(a) && v in Reach(a, r) && v != r && InSlot(a, p, i, v)
    ensures p in Reach(a, r)
    decreases |a| - r
  {
    ReachBounds(a, r);
    ReachAllMember(a, r, Kids(a[r]), v);
    var j :| 0 <= j < |Kids(a[r])| && r < Kids(a[r])[j] < |a| && v in Reach(a, Kids(a[r])[j]);
    var k := Kids(a[r])[j];
    if v == k {
      assert p == r;
    } else {
      ParentReachable(a, k, p, i, v);
      ReachTransitive(a, r, k) by {
        ReachBounds(a, k);
        assert k in Reach(a, k);
        ReachAllMember(a, r, Kids(a[r]), k);
      }
    }
  }
}
