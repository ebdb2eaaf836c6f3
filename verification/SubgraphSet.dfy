/** The insertion-ordered node set that the traversals fill (mcp/types.go). */
module SubgraphSet {
  import opened Collections
  import opened Graph

  /** The two fields as a value: the order slots and the present nodes. */
  datatype View = View(order: seq<NodeId>, nodes: map<NodeId, Node>)

  function AfterSet(v: View, n: Node): View {
    View(if n.id in v.nodes then v.order else v.order + [n.id], v.nodes[n.id := n])
  }

  function AfterDelete(v: View, id: NodeId): View { v.(nodes := v.nodes - {id}) }

  /** The slots of present nodes, in order. */
  function Present(order: seq<NodeId>, nodes: map<NodeId, Node>): (ids: seq<NodeId>)
    ensures forall id | id in ids :: id in nodes
  {
    if order == [] then []
    else
      var n := |order| - 1;
      Present(order[..n], nodes) + if order[n] in nodes then [order[n]] else []
  }

  function Listed(v: View): seq<NodeId> { Present(v.order, v.nodes) }

  /** Every present node has an order slot. */
  ghost predicate Covered(v: View) { forall id | id in v.nodes :: id in v.order && v.nodes[id].id == id }

  /** No order slot repeats and none is stale: what holds while nothing is deleted. */
  ghost predicate Tidy(v: View) { Covered(v) && Distinct(v.order) && ToSet(v.order) == v.nodes.Keys }

  class Subgraph {
    var order: seq<NodeId>
    var nodes: map<NodeId, Node>
    var edges: seq<Edge>
    var roots: seq<NodeId>

    ghost function Viewed(): View reads this { View(order, nodes) }

    constructor ()
      ensures Viewed() == View([], map[]) && edges == [] && roots == []
    {
      order, nodes, edges, roots := [], map[], [], [];
    }

    /** Insert or update, keeping the first-insertion order. */
    method Set(n: Node)
      modifies this`order, this`nodes
      ensures Viewed() == AfterSet(old(Viewed()), n)
    {
      if n.id !in nodes { order := order + [n.id]; }
      nodes := nodes[n.id := n];
    }

    /** The order slot stays behind and is skipped on iteration. */
    method Delete(id: NodeId)
      modifies this`nodes
      ensures Viewed() == AfterDelete(old(Viewed()), id)
    {
      nodes := nodes - {id};
    }

    predicate Has(id: NodeId) reads this { id in nodes }

    function Len(): nat reads this { |nodes| }

    method IDs() returns (out: seq<NodeId>)
      ensures out == Listed(Viewed())
    {
      out := [];
      for k := 0 to |order|
        invariant out == Present(order[..k], nodes)
      {
        assert order[..k + 1][..k] == order[..k];
        if order[k] in nodes { out := out + [order[k]]; }
      }
      assert order[..|order|] == order;
    }

    method Values() returns (out: seq<Node>)
      ensures |out| == |Listed(Viewed())|
      ensures forall k | 0 <= k < |out| :: out[k] == nodes[Listed(Viewed())[k]]
    {
      var ids := IDs();
      out := [];
      for k := 0 to |ids|
        invariant |out| == k
        invariant forall j | 0 <= j < k :: out[j] == nodes[ids[j]]
      {
        out := out + [nodes[ids[k]]];
      }
    }
  }

  // ---------------------------------------------------------------- how often an id is listed

  datatype Op = SetOp(node: Node) | DeleteOp(id: NodeId)

  function Apply(v: View, op: Op): View {
    match op
    case SetOp(n) => AfterSet(v, n)
    case DeleteOp(id) => AfterDelete(v, id)
  }

  function ApplyAll(ops: seq<Op>): View {
    if ops == [] then View([], map[]) else Apply(ApplyAll(ops[..|ops| - 1]), ops[|ops| - 1])
  }

  /** How many of the operations set `id` while it was absent. */
  function Insertions(ops: seq<Op>, id: NodeId): nat {
    if ops == [] then 0
    else
      var op := ops[|ops| - 1];
      Insertions(ops[..|ops| - 1], id) +
      if op.SetOp? && op.node.id == id && id !in ApplyAll(ops[..|ops| - 1]).nodes then 1 else 0
  }

  lemma {:induction false} SlotsAreInsertions(ops: seq<Op>, id: NodeId)
    ensures multiset(ApplyAll(ops).order)[id] == Insertions(ops, id)
    ensures id in ApplyAll(ops).nodes ==> 0 < Insertions(ops, id) && ApplyAll(ops).nodes[id].id == id
  {
    if ops != [] {
      SlotsAreInsertions(ops[..|ops| - 1], id);
    }
  }

  lemma {:induction false} PresentMultiplicity(order: seq<NodeId>, nodes: map<NodeId, Node>, id: NodeId)
    ensures multiset(Present(order, nodes))[id] == if id in nodes then multiset(order)[id] else 0
  {
    if order != [] {
      var n := |order| - 1;
      PresentMultiplicity(order[..n], nodes, id);
      assert order == order[..n] + [order[n]];
    }
  }

  /** `IDs` lists a present id once for every time it was set while absent, and an absent id
      never: after a delete and a second set an id is listed twice. */
  lemma ListedMultiplicity(ops: seq<Op>, id: NodeId)
    ensures multiset(Listed(ApplyAll(ops)))[id] == if id in ApplyAll(ops).nodes then Insertions(ops, id) else 0
  {
    var v := ApplyAll(ops);
    SlotsAreInsertions(ops, id);
    PresentMultiplicity(v.order, v.nodes, id);
  }

  lemma SetKeepsTidy(v: View, n: Node)
    requires Tidy(v)
    ensures Tidy(AfterSet(v, n))
  {
    var w := AfterSet(v, n);
    if n.id !in v.nodes { assert n.id !in ToSet(v.order); }
    assert ToSet(w.order) == ToSet(v.order) + {n.id};
  }

  /** Without deletes the listing is the order itself, each present id once. */
  lemma TidyListing(v: View)
    requires Tidy(v)
    ensures Listed(v) == v.order
  {
    assert forall k | 0 <= k < |v.order| :: v.order[k] in ToSet(v.order);
    AllPresent(v.order, v.nodes);
  }

  lemma {:induction false} AllPresent(order: seq<NodeId>, nodes: map<NodeId, Node>)
    requires forall k | 0 <= k < |order| :: order[k] in nodes
    ensures Present(order, nodes) == order
  {
    if order != [] { AllPresent(order[..|order| - 1], nodes); }
  }
}
