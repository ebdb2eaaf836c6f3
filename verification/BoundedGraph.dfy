/** The bounded neighbourhood of a symbol (browserapi/graph.go): a level-by-level search with node and
    edge budgets whose `truncated` flag, when it stays down, certifies a complete answer. */
module BoundedGraph {
  import opened Collections
  import opened Graph
  import opened StringOrder

  /** One scope's database behind its two adjacency queries, each list in its query's order. */
  datatype Index = Index(nodes: map<NodeId, Node>, outgoing: map<NodeId, seq<Edge>>, incoming: map<NodeId, seq<Edge>>) {
    function Out(id: NodeId): seq<Edge> { if id in outgoing then outgoing[id] else [] }
    function In(id: NodeId): seq<Edge> { if id in incoming then incoming[id] else [] }

    ghost predicate Valid() {
      && (forall id, e | e in Out(id) :: e.source == id)
      && (forall id, e | e in In(id) :: e.target == id)
    }
  }

  /** A request after its parameters were checked: the three numbers are positive. */
  datatype Request = Request(stores: seq<Index>, direction: string, depth: nat, maxNodes: nat, maxEdges: nat) {
    ghost predicate Valid() {
      && 0 < depth && 0 < maxNodes && 0 < maxEdges
      && direction in {"incoming", "outgoing", "both"}
      && (forall i | 0 <= i < |stores| :: stores[i].Valid())
    }

    /** The row limit of each adjacency query. */
    function Limit(): Option<nat> { Some(maxEdges + 1) }
  }

  /** The first store that knows the id wins. */
  function Find(stores: seq<Index>, id: NodeId): Option<Node> {
    if stores == [] then None
    else if id in stores[0].nodes then Some(stores[0].nodes[id])
    else Find(stores[1..], id)
  }

  /** The node that the first store with this id has. */
  ghost predicate FirstHas(stores: seq<Index>, id: NodeId, n: Node, i: nat) {
    && i < |stores| && id in stores[i].nodes && stores[i].nodes[id] == n
    && forall j | 0 <= j < i :: id !in stores[j].nodes
  }

  lemma {:induction false} FindIs(stores: seq<Index>, id: NodeId)
    ensures Find(stores, id).None? <==> forall i | 0 <= i < |stores| :: id !in stores[i].nodes
    ensures Find(stores, id).Some? ==> exists i :: FirstHas(stores, id, Find(stores, id).value, i)
  {
    if stores != [] && id !in stores[0].nodes {
      FindIs(stores[1..], id);
      assert forall i | 0 < i < |stores| :: stores[1..][i - 1] == stores[i];
      if Find(stores, id).Some? {
        var k :| FirstHas(stores[1..], id, Find(stores, id).value, k);
        FirstHasLater(stores, id, Find(stores, id).value, k);
      }
    } else if stores != [] {
      assert FirstHas(stores, id, stores[0].nodes[id], 0);
    }
  }

  lemma FirstHasLater(stores: seq<Index>, id: NodeId, n: Node, k: nat)
    requires stores != [] && id !in stores[0].nodes && FirstHas(stores[1..], id, n, k)
    ensures FirstHas(stores, id, n, k + 1)
  {
    forall j | 0 <= j < k + 1 ensures id !in stores[j].nodes { if j > 0 { assert stores[j] == stores[1..][j - 1]; } }
  }

  /** Some store has the node. */
  ghost predicate Stored(rq: Request, id: NodeId) { exists i :: 0 <= i < |rq.stores| && id in rq.stores[i].nodes }

  lemma ResolvesMeans(rq: Request, e: Edge)
    ensures Resolves(rq.stores, e) <==> Stored(rq, e.source) && Stored(rq, e.target)
  {
    FindIs(rq.stores, e.source);
    FindIs(rq.stores, e.target);
  }

  predicate Resolves(stores: seq<Index>, e: Edge) { Find(stores, e.source).Some? && Find(stores, e.target).Some? }

  function Cut(rows: seq<Edge>, limit: Option<nat>): seq<Edge> {
    if limit.Some? && limit.value < |rows| then rows[..limit.value] else rows
  }

  /** The rows that one store yields at a node; without a limit, all its rows there. */
  function StoreRows(q: Index, direction: string, limit: Option<nat>, id: NodeId): seq<Edge> {
    (if direction != "incoming" then Cut(q.Out(id), limit) else []) +
    (if direction != "outgoing" then Cut(q.In(id), limit) else [])
  }

  function Rows(stores: seq<Index>, direction: string, limit: Option<nat>, id: NodeId): seq<Edge> {
    if stores == [] then []
    else
      var n := |stores| - 1;
      Rows(stores[..n], direction, limit, id) + StoreRows(stores[n], direction, limit, id)
  }

  function RowsAt(rq: Request, limit: Option<nat>, ids: set<NodeId>): set<Edge> {
    set x, e | x in ids && e in Rows(rq.stores, rq.direction, limit, x) :: e
  }

  function Resolved(rq: Request, rows: set<Edge>): set<Edge> { set e | e in rows && Resolves(rq.stores, e) }

  function Ends(edges: set<Edge>): set<NodeId> {
    (set e | e in edges :: e.source) + (set e | e in edges :: e.target)
  }

  /** Nodes at most `k` hops away over resolvable rows, each query cut at `limit`. */
  function Near(rq: Request, limit: Option<nat>, root: NodeId, k: nat): set<NodeId> {
    if k == 0 then {root} else {root} + Ends(Resolved(rq, RowsAt(rq, limit, Near(rq, limit, root, k - 1))))
  }

  /** A row that some store keeps at `x` and the direction asks for. */
  predicate Asked(rq: Request, i: nat, x: NodeId, e: Edge)
    requires i < |rq.stores|
  {
    var q := rq.stores[i];
    || (rq.direction in {"outgoing", "both"} && x in q.outgoing && e in q.outgoing[x])
    || (rq.direction in {"incoming", "both"} && x in q.incoming && e in q.incoming[x])
  }

  /** Without a limit a node's rows are those asked for, of every store. */
  lemma RowsAre(rq: Request, x: NodeId, e: Edge)
    requires rq.Valid()
    ensures e in Rows(rq.stores, rq.direction, None, x) <==> exists i :: 0 <= i < |rq.stores| && Asked(rq, i, x, e)
  {
    hide StoreRows;
    InSomeStore(rq.stores, rq.direction, None, x, e);
    forall i | 0 <= i < |rq.stores| ensures e in StoreRows(rq.stores[i], rq.direction, None, x) <==> Asked(rq, i, x, e) {
      StoreRowsAre(rq.stores[i], x, 0);
    }
  }

  lemma {:induction false} InSomeStore(stores: seq<Index>, direction: string, limit: Option<nat>, x: NodeId, e: Edge)
    ensures e in Rows(stores, direction, limit, x) <==> exists i :: 0 <= i < |stores| && e in StoreRows(stores[i], direction, limit, x)
  {
    hide StoreRows;
    if stores != [] {
      var n := |stores| - 1;
      InSomeStore(stores[..n], direction, limit, x, e);
      assert forall i | 0 <= i < n :: stores[..n][i] == stores[i];
    }
  }

  lemma WaysDiffer()
    ensures "outgoing" != "incoming" && "both" != "outgoing" && "both" != "incoming"
  {
    assert |"both"| == 4 && |"outgoing"| == 8 && "outgoing"[0] == 'o' && "incoming"[0] == 'i';
  }

  lemma CutIs(rows: seq<Edge>, n: nat)
    ensures Cut(rows, None) == rows && Cut(rows, Some(n)) <= rows && |Cut(rows, Some(n))| == if n < |rows| then n else |rows|
  {
  }

  /** The two queries of a store, outgoing rows first, and what a limit leaves of each. */
  lemma StoreRowsAre(q: Index, x: NodeId, n: nat)
    ensures StoreRows(q, "outgoing", None, x) == if x in q.outgoing then q.outgoing[x] else []
    ensures StoreRows(q, "incoming", None, x) == if x in q.incoming then q.incoming[x] else []
    ensures StoreRows(q, "both", None, x) == StoreRows(q, "outgoing", None, x) + StoreRows(q, "incoming", None, x)
    ensures StoreRows(q, "both", Some(n), x) == StoreRows(q, "outgoing", Some(n), x) + StoreRows(q, "incoming", Some(n), x)
    ensures forall way | way in {"outgoing", "incoming"} ::
              StoreRows(q, way, Some(n), x) <= StoreRows(q, way, None, x)
              && |StoreRows(q, way, Some(n), x)| == if n < |StoreRows(q, way, None, x)| then n else |StoreRows(q, way, None, x)|
  {
    hide Cut;
    WaysDiffer();
    CutIs(q.Out(x), n);
    CutIs(q.In(x), n);
  }

  lemma {:induction false} RowsTouch(rq: Request, limit: Option<nat>, id: NodeId, e: Edge)
    requires rq.Valid() && e in Rows(rq.stores, rq.direction, limit, id)
    ensures e.source == id || e.target == id
    decreases |rq.stores|
  {
    var n := |rq.stores| - 1;
    if e in Rows(rq.stores[..n], rq.direction, limit, id) {
      var fewer := rq.(stores := rq.stores[..n]);
      assert forall i | 0 <= i < n :: fewer.stores[i] == rq.stores[i];
      RowsTouch(fewer, limit, id, e);
    } else {
      var q := rq.stores[n];
      assert q.Valid();
      assert e in StoreRows(q, rq.direction, limit, id);
      assert e in q.Out(id) || e in q.In(id);
    }
  }

  // ---------------------------------------------------------------- one row

  datatype Progress = Progress(nodes: map<NodeId, Node>, edges: set<Edge>, truncated: bool)

  /** The ends of a row that are not returned yet. */
  function NewEnds(nodes: map<NodeId, Node>, e: Edge): set<NodeId> { {e.source, e.target} - nodes.Keys }

  predicate AllFound(stores: seq<Index>, ids: set<NodeId>) { forall id | id in ids :: Find(stores, id).Some? }

  function FoundNodes(stores: seq<Index>, ids: set<NodeId>): map<NodeId, Node>
    requires AllFound(stores, ids)
  {
    map id | id in ids :: Find(stores, id).value
  }

  function Consider(rq: Request, p: Progress, e: Edge): Progress {
    var ends := NewEnds(p.nodes, e);
    if e in p.edges then p
    else if rq.maxEdges <= |p.edges| then p.(truncated := true)
    else if !AllFound(rq.stores, ends) then p
    else if rq.maxNodes < |p.nodes| + |ends| then p.(truncated := true)
    else Progress(p.nodes + FoundNodes(rq.stores, ends), p.edges + {e}, p.truncated)
  }

  function ConsiderAll(rq: Request, p: Progress, rows: seq<Edge>): Progress {
    if rows == [] then p
    else
      var n := |rows| - 1;
      Consider(rq, ConsiderAll(rq, p, rows[..n]), rows[n])
  }

  predicate Known(stores: seq<Index>, nodes: map<NodeId, Node>) {
    forall id | id in nodes :: Find(stores, id) == Some(nodes[id])
  }

  /** Nodes are found ones, budgets are kept, and the nodes are the root and the ends of the edges. */
  ghost predicate Consistent(rq: Request, root: NodeId, p: Progress) {
    && Known(rq.stores, p.nodes)
    && |p.nodes| <= rq.maxNodes && |p.edges| <= rq.maxEdges
    && p.nodes.Keys == {root} + Ends(p.edges)
  }

  /** What the flag says about the rows considered so far. */
  ghost predicate FlagTrue(rq: Request, p: Progress, offered: set<Edge>) {
    && p.edges <= Resolved(rq, offered)
    && (!p.truncated ==> p.edges == Resolved(rq, offered))
    && (p.truncated ==> exists e :: Missed(rq, p, offered, e))
  }

  /** A row that was refused for want of budget: an edge too many, or a resolvable one to a node too many. */
  ghost predicate Missed(rq: Request, p: Progress, offered: set<Edge>, e: Edge) {
    && e in offered && e !in p.edges
    && (|p.edges| == rq.maxEdges || (Resolves(rq.stores, e) && |p.nodes| == rq.maxNodes && NewEnds(p.nodes, e) != {}))
  }

  lemma EndsGrow(edges: set<Edge>, e: Edge)
    ensures Ends(edges + {e}) == Ends(edges) + {e.source, e.target}
  {
    assert forall d :: d in edges + {e} <==> d in edges || d == e;
    assert e in edges + {e} && forall d | d in edges :: d in edges + {e};
  }

  lemma FoundIsKnown(stores: seq<Index>, nodes: map<NodeId, Node>, ids: set<NodeId>)
    requires Known(stores, nodes) && AllFound(stores, ids) && ids !! nodes.Keys
    ensures var more := nodes + FoundNodes(stores, ids);
            Known(stores, more) && more.Keys == nodes.Keys + ids && |more| == |nodes| + |ids|
  {
    hide Find;
    var more := nodes + FoundNodes(stores, ids);
    assert more.Keys == nodes.Keys + ids;
    assert |more| == |more.Keys| && |nodes| == |nodes.Keys|;
    assert |nodes.Keys + ids| == |nodes.Keys| + |ids|;
  }

  /** A row with a returned end brings at most one new node. */
  lemma OneNewEnd(nodes: map<NodeId, Node>, e: Edge)
    requires e.source in nodes || e.target in nodes
    ensures |NewEnds(nodes, e)| <= 1
    ensures nodes.Keys + NewEnds(nodes, e) == nodes.Keys + {e.source, e.target}
  {
    var ends := NewEnds(nodes, e);
    if e.source in nodes && e.target in nodes { assert ends == {}; }
    else if e.source in nodes { assert ends == {e.target}; }
    else { assert ends == {e.source}; }
  }

  /** Resolving is finding the ends that are not known yet. */
  lemma ResolvesIffFound(rq: Request, nodes: map<NodeId, Node>, e: Edge)
    requires Known(rq.stores, nodes)
    ensures Resolves(rq.stores, e) <==> AllFound(rq.stores, NewEnds(nodes, e))
  {
    hide Find;
    var ends := NewEnds(nodes, e);
    assert e.source in nodes || e.source in ends;
    assert e.target in nodes || e.target in ends;
  }

  lemma ResolvedGrows(rq: Request, offered: set<Edge>, e: Edge)
    ensures Resolved(rq, offered + {e}) == Resolved(rq, offered) + if Resolves(rq.stores, e) then {e} else {}
  {
    hide Find, Resolves;
  }

  /** Taking a row whose new ends were found and fit the budget. */
  lemma AdmitKeeps(rq: Request, root: NodeId, p: Progress, e: Edge)
    requires Consistent(rq, root, p) && (e.source in p.nodes || e.target in p.nodes)
    requires AllFound(rq.stores, NewEnds(p.nodes, e))
    requires |p.edges| < rq.maxEdges && |p.nodes| + |NewEnds(p.nodes, e)| <= rq.maxNodes
    ensures var more := p.nodes + FoundNodes(rq.stores, NewEnds(p.nodes, e));
            Consistent(rq, root, Progress(more, p.edges + {e}, p.truncated)) && p.nodes.Keys <= more.Keys
  {
    hide Find, Known, AllFound, FoundNodes, NewEnds, Ends;
    var ends := NewEnds(p.nodes, e);
    FreshEnds(p.nodes, e);
    FoundIsKnown(rq.stores, p.nodes, ends);
    OneNewEnd(p.nodes, e);
    EndsGrow(p.edges, e);
    assert |p.edges + {e}| <= |p.edges| + 1;
  }

  lemma ConsiderKeepsConsistent(rq: Request, root: NodeId, p: Progress, e: Edge)
    requires Consistent(rq, root, p) && (e.source in p.nodes || e.target in p.nodes)
    ensures Consistent(rq, root, Consider(rq, p, e)) && p.nodes.Keys <= Consider(rq, p, e).nodes.Keys
  {
    hide Consistent, AllFound, FoundNodes, NewEnds;
    FlagKeeps(rq, root, p);
    var ends := NewEnds(p.nodes, e);
    if AllFound(rq.stores, ends) && |p.edges| < rq.maxEdges && |p.nodes| + |ends| <= rq.maxNodes {
      AdmitKeeps(rq, root, p, e);
    }
  }

  lemma FlagKeeps(rq: Request, root: NodeId, p: Progress)
    requires Consistent(rq, root, p)
    ensures Consistent(rq, root, p.(truncated := true))
  {
  }

  lemma FreshEnds(nodes: map<NodeId, Node>, e: Edge)
    ensures NewEnds(nodes, e) !! nodes.Keys
  {
  }

  lemma StillMissed(rq: Request, root: NodeId, p: Progress, offered: set<Edge>, e: Edge)
    requires Consistent(rq, root, p) && FlagTrue(rq, p, offered) && p.truncated
    requires e.source in p.nodes || e.target in p.nodes
    ensures exists d :: Missed(rq, Consider(rq, p, e), offered + {e}, d)
  {
    hide Find, Known, AllFound, FoundNodes, Ends, NewEnds, Resolved, Resolves;
    var d :| Missed(rq, p, offered, d);
    var r := Consider(rq, p, e);
    ConsiderKeepsConsistent(rq, root, p, e);
    assert d in offered + {e};
    if r.edges != p.edges {
      FreshEnds(p.nodes, e);
      FoundIsKnown(rq.stores, p.nodes, NewEnds(p.nodes, e));
      assert |p.edges| < rq.maxEdges;
      assert |NewEnds(p.nodes, d)| > 0 && |NewEnds(p.nodes, e)| == 0;
      assert r.nodes.Keys == p.nodes.Keys;
      SameEnds(p.nodes, r.nodes, d);
    }
    assert Missed(rq, r, offered + {e}, d);
  }

  lemma SameEnds(nodes: map<NodeId, Node>, more: map<NodeId, Node>, e: Edge)
    requires nodes.Keys == more.Keys
    ensures NewEnds(nodes, e) == NewEnds(more, e)
  {
  }

  lemma ConsiderKeepsFlag(rq: Request, root: NodeId, p: Progress, offered: set<Edge>, e: Edge)
    requires Consistent(rq, root, p) && FlagTrue(rq, p, offered)
    requires e.source in p.nodes || e.target in p.nodes
    ensures FlagTrue(rq, Consider(rq, p, e), offered + {e})
  {
    hide Find, Known, AllFound, FoundNodes, Ends, NewEnds, Resolved, Resolves;
    var r := Consider(rq, p, e);
    ResolvesIffFound(rq, p.nodes, e);
    ResolvedGrows(rq, offered, e);
    if p.truncated {
      StillMissed(rq, root, p, offered, e);
    } else if r.truncated {
      NewlyMissed(rq, root, p, offered, e);
    }
  }

  lemma InResolved(rq: Request, offered: set<Edge>, e: Edge)
    ensures e in Resolved(rq, offered) <==> e in offered && Resolves(rq.stores, e)
  {
  }

  lemma NewlyMissed(rq: Request, root: NodeId, p: Progress, offered: set<Edge>, e: Edge)
    requires Consistent(rq, root, p) && FlagTrue(rq, p, offered) && !p.truncated
    requires e.source in p.nodes || e.target in p.nodes
    requires Consider(rq, p, e).truncated
    ensures Missed(rq, Consider(rq, p, e), offered + {e}, e)
  {
    hide Find, Known, AllFound, FoundNodes, Ends, NewEnds, Resolved, Resolves;
    ResolvesIffFound(rq, p.nodes, e);
    OneNewEnd(p.nodes, e);
  }

  lemma RoomIs(rq: Request, root: NodeId, p: Progress, e: Edge)
    requires Consistent(rq, root, p) && (e.source in p.nodes || e.target in p.nodes)
    ensures AllFound(rq.stores, NewEnds(p.nodes, e)) <==> Stored(rq, e.source) && Stored(rq, e.target)
    ensures |p.nodes| + |NewEnds(p.nodes, e)| == |p.nodes.Keys + {e.source, e.target}|
    ensures AllFound(rq.stores, NewEnds(p.nodes, e)) ==>
              FoundNodes(rq.stores, NewEnds(p.nodes, e)).Keys + p.nodes.Keys == p.nodes.Keys + {e.source, e.target}
    ensures |p.edges| <= rq.maxEdges && (e in p.edges ==> p.nodes.Keys + {e.source, e.target} == p.nodes.Keys)
  {
    hide Stored, Resolves, Find, FirstHas;
    ResolvesMeans(rq, e);
    ResolvesIffFound(rq, p.nodes, e);
    OneNewEnd(p.nodes, e);
    FreshEnds(p.nodes, e);
    NodesAndEnds(p.nodes, NewEnds(p.nodes, e));
    if e in p.edges { EdgesAreIn(rq, root, p, e); }
  }

  /** What becomes of one row: it is taken when it is new, there is room for an edge, both ends are
      stored and there is room for them; the flag rises when it is only for want of room that it is not. */
  lemma ConsiderIs(rq: Request, root: NodeId, p: Progress, e: Edge)
    requires Consistent(rq, root, p) && (e.source in p.nodes || e.target in p.nodes)
    ensures var r := Consider(rq, p, e);
            var ends := p.nodes.Keys + {e.source, e.target};
            var fits := |p.edges| < rq.maxEdges && Stored(rq, e.source) && Stored(rq, e.target) && |ends| <= rq.maxNodes;
            && r.edges == p.edges + (if fits then {e} else {})
            && r.nodes.Keys == (if fits && e !in p.edges then ends else p.nodes.Keys)
            && r.truncated == (p.truncated || (e !in p.edges
                 && (|p.edges| == rq.maxEdges || (Stored(rq, e.source) && Stored(rq, e.target) && rq.maxNodes < |ends|))))
  {
    hide Stored, AllFound, NewEnds, FoundNodes, Consistent;
    RoomIs(rq, root, p, e);
    assert e in p.edges ==> p.edges + {e} == p.edges;
  }

  /** Every returned node is as the first store has it. */
  lemma NodesAreFirst(rq: Request, root: NodeId, p: Progress)
    requires Consistent(rq, root, p)
    ensures forall id | id in p.nodes :: exists i :: FirstHas(rq.stores, id, p.nodes[id], i)
  {
    hide Find, FirstHas;
    forall id | id in p.nodes ensures exists i :: FirstHas(rq.stores, id, p.nodes[id], i) { FindIs(rq.stores, id); }
  }

  lemma NodesAndEnds(nodes: map<NodeId, Node>, ends: set<NodeId>)
    requires ends !! nodes.Keys
    ensures |nodes.Keys + ends| == |nodes| + |ends|
  {
    assert |nodes| == |nodes.Keys|;
  }

  lemma EdgesAreIn(rq: Request, root: NodeId, p: Progress, e: Edge)
    requires Consistent(rq, root, p) && e in p.edges
    ensures p.nodes.Keys + {e.source, e.target} == p.nodes.Keys && p.edges + {e} == p.edges
  {
  }

  /** All rows of a list of adjacency at a returned node, one after the other. */
  lemma {:induction false} ConsiderAllKeeps(rq: Request, root: NodeId, p: Progress, offered: set<Edge>, rows: seq<Edge>)
    requires Consistent(rq, root, p) && FlagTrue(rq, p, offered)
    requires forall e | e in rows :: e.source in p.nodes || e.target in p.nodes
    ensures var r := ConsiderAll(rq, p, rows);
            Consistent(rq, root, r) && FlagTrue(rq, r, offered + ToSet(rows)) && p.nodes.Keys <= r.nodes.Keys
  {
    hide Consistent, FlagTrue, Consider;
    if rows == [] {
      assert offered + ToSet(rows) == offered;
    } else {
      var n := |rows| - 1;
      ConsiderAllKeeps(rq, root, p, offered, rows[..n]);
      var r := ConsiderAll(rq, p, rows[..n]);
      assert rows[n] in rows;
      ConsiderKeepsConsistent(rq, root, r, rows[n]);
      ConsiderKeepsFlag(rq, root, r, offered + ToSet(rows[..n]), rows[n]);
      assert rows == rows[..n] + [rows[n]];
      assert offered + ToSet(rows[..n]) + {rows[n]} == offered + ToSet(rows);
    }
  }

  // ---------------------------------------------------------------- whole levels

  /** Before a level: every returned node is expanded or waits on the frontier, everything lies
      within the hops taken, and without truncation nothing within them is missing. */
  ghost predicate LevelInv(rq: Request, root: NodeId, p: Progress, expanded: set<NodeId>, frontier: set<NodeId>, k: nat) {
    && Consistent(rq, root, p) && FlagTrue(rq, p, RowsAt(rq, rq.Limit(), expanded))
    && p.nodes.Keys == expanded + frontier
    && p.nodes.Keys <= Near(rq, rq.Limit(), root, k)
    && (k == 0 ==> expanded == {} && p.edges == {})
    && (0 < k ==> expanded <= Near(rq, rq.Limit(), root, k - 1))
    && (0 < k && !p.truncated ==> expanded == Near(rq, rq.Limit(), root, k - 1))
  }

  lemma RowsAtGrows(rq: Request, limit: Option<nat>, ids: set<NodeId>, more: set<NodeId>)
    requires ids <= more
    ensures RowsAt(rq, limit, ids) <= RowsAt(rq, limit, more)
    ensures Resolved(rq, RowsAt(rq, limit, ids)) <= Resolved(rq, RowsAt(rq, limit, more))
    ensures Ends(Resolved(rq, RowsAt(rq, limit, ids))) <= Ends(Resolved(rq, RowsAt(rq, limit, more)))
  {
    hide Rows, Find, Resolves;
  }

  lemma EndsMonotone(a: set<Edge>, b: set<Edge>)
    requires a <= b
    ensures Ends(a) <= Ends(b)
  {
  }

  lemma NearStep(rq: Request, limit: Option<nat>, root: NodeId, k: nat)
    ensures Near(rq, limit, root, k + 1) == {root} + Ends(Resolved(rq, RowsAt(rq, limit, Near(rq, limit, root, k))))
  {
  }

  /** After all rows at the returned nodes were considered, one more level is finished. */
  lemma LevelDone(rq: Request, root: NodeId, before: Progress, expanded: set<NodeId>, frontier: set<NodeId>, k: nat, p: Progress)
    requires LevelInv(rq, root, before, expanded, frontier, k)
    requires Consistent(rq, root, p) && FlagTrue(rq, p, RowsAt(rq, rq.Limit(), before.nodes.Keys))
    requires before.nodes.Keys <= p.nodes.Keys && (before.truncated ==> p.truncated)
    ensures LevelInv(rq, root, p, before.nodes.Keys, p.nodes.Keys - before.nodes.Keys, k + 1)
  {
    hide Rows, Find, Resolves, RowsAt, Resolved, Ends, Near, Known;
    var limit := rq.Limit();
    NearStep(rq, limit, root, k);
    RowsAtGrows(rq, limit, before.nodes.Keys, Near(rq, limit, root, k));
    EndsMonotone(p.edges, Resolved(rq, RowsAt(rq, limit, before.nodes.Keys)));
    if !p.truncated {
      if k == 0 { NearZero(rq, limit, root); NoEnds(); } else { NearStep(rq, limit, root, k - 1); }
    }
  }

  lemma NearZero(rq: Request, limit: Option<nat>, root: NodeId)
    ensures Near(rq, limit, root, 0) == {root}
  {
  }

  lemma NoEnds()
    ensures Ends({}) == {}
  {
  }

  /** Once a level adds nothing, no later level does. */
  lemma {:induction false} NearStops(rq: Request, limit: Option<nat>, root: NodeId, j: nat, k: nat)
    requires j <= k && Near(rq, limit, root, j) == Near(rq, limit, root, j + 1)
    ensures Near(rq, limit, root, k) == Near(rq, limit, root, j)
  {
    hide Near, RowsAt, Resolved, Ends;
    if j < k {
      NearStops(rq, limit, root, j, k - 1);
      NearStep(rq, limit, root, k - 1);
      NearStep(rq, limit, root, j);
    }
  }

  lemma {:induction false} NearGrows(rq: Request, limit: Option<nat>, root: NodeId, j: nat, k: nat)
    requires j <= k
    ensures Near(rq, limit, root, j) <= Near(rq, limit, root, k)
  {
    hide Near, RowsAt, Resolved, Ends;
    if j < k {
      if j == 0 {
        NearZero(rq, limit, root);
        NearStep(rq, limit, root, k - 1);
      } else {
        NearGrows(rq, limit, root, j - 1, k - 1);
        NearStep(rq, limit, root, j - 1);
        NearStep(rq, limit, root, k - 1);
        RowsAtGrows(rq, limit, Near(rq, limit, root, j - 1), Near(rq, limit, root, k - 1));
      }
    }
  }

  /** The answer: within budgets and within the depth; exact for the fetched rows unless truncated,
      and with a refused row to show for it when truncated. */
  ghost predicate Outcome(rq: Request, root: NodeId, p: Progress)
    requires 0 < rq.depth
  {
    var limit := rq.Limit();
    var offered := RowsAt(rq, limit, Near(rq, limit, root, rq.depth - 1));
    && Consistent(rq, root, p)
    && p.nodes.Keys <= Near(rq, limit, root, rq.depth)
    && FlagTrue(rq, p, offered)
    && (!p.truncated ==> p.nodes.Keys == Near(rq, limit, root, rq.depth))
  }

  lemma FlagGrows(rq: Request, p: Progress, offered: set<Edge>, more: set<Edge>)
    requires FlagTrue(rq, p, offered) && offered <= more && p.truncated
    ensures FlagTrue(rq, p, more)
  {
    hide Resolves;
    var e :| Missed(rq, p, offered, e);
    assert Missed(rq, p, more, e);
  }

  lemma OutcomeAtEnd(rq: Request, root: NodeId, p: Progress, expanded: set<NodeId>, frontier: set<NodeId>, k: nat)
    requires rq.Valid() && LevelInv(rq, root, p, expanded, frontier, k)
    requires k <= rq.depth && (k == rq.depth || frontier == {})
    ensures Outcome(rq, root, p)
  {
    hide LevelInv, FlagTrue, RowsAt, Resolved, Ends, Near, Consistent, Rows, Find, Resolves, Known;
    var limit := rq.Limit();
    LevelMeans(rq, root, p, expanded, frontier, k);
    var last := Near(rq, limit, root, rq.depth - 1);
    NearGrows(rq, limit, root, k, rq.depth);
    NearGrows(rq, limit, root, k - 1, rq.depth - 1);
    RowsAtGrows(rq, limit, expanded, last);
    if p.truncated {
      FlagGrows(rq, p, RowsAt(rq, limit, expanded), RowsAt(rq, limit, last));
    } else if k < rq.depth {
      NearStops(rq, limit, root, k - 1, rq.depth - 1);
      NearStops(rq, limit, root, k - 1, rq.depth);
      NearStops(rq, limit, root, k - 1, k);
    }
  }

  lemma LevelMeans(rq: Request, root: NodeId, p: Progress, expanded: set<NodeId>, frontier: set<NodeId>, k: nat)
    requires LevelInv(rq, root, p, expanded, frontier, k) && (0 < k || frontier == {})
    ensures 0 < k && Consistent(rq, root, p) && FlagTrue(rq, p, RowsAt(rq, rq.Limit(), expanded))
    ensures p.nodes.Keys == expanded + frontier && p.nodes.Keys <= Near(rq, rq.Limit(), root, k)
    ensures expanded <= Near(rq, rq.Limit(), root, k - 1)
    ensures !p.truncated ==> expanded == Near(rq, rq.Limit(), root, k - 1) && p.nodes.Keys == Near(rq, rq.Limit(), root, k)
  {
    hide FlagTrue, RowsAt, Resolved, Near;
    StartIsReturned(rq, root, p);
    if !p.truncated { ExactLevel(rq, root, p, expanded, frontier, k); }
  }

  lemma StartIsReturned(rq: Request, root: NodeId, p: Progress)
    requires Consistent(rq, root, p)
    ensures root in p.nodes.Keys
  {
  }

  /** Without truncation a finished level is exact. */
  lemma ExactLevel(rq: Request, root: NodeId, p: Progress, expanded: set<NodeId>, frontier: set<NodeId>, k: nat)
    requires LevelInv(rq, root, p, expanded, frontier, k) && 0 < k && !p.truncated
    ensures p.nodes.Keys == Near(rq, rq.Limit(), root, k)
    ensures p.edges == Resolved(rq, RowsAt(rq, rq.Limit(), Near(rq, rq.Limit(), root, k - 1)))
  {
    hide Rows, Find, Resolves, RowsAt, Resolved, Ends, Near, Known;
    NearStep(rq, rq.Limit(), root, k - 1);
  }

  // ---------------------------------------------------------------- the frontier

  /** Duplicates are squeezed out within the array, then the kept prefix is sorted. */
  method UniqueStrings(values: array<string>) returns (n: nat)
    modifies values
    ensures n <= values.Length
    ensures Distinct(values[..n]) && Ordered(values[..n]) && ToSet(values[..n]) == ToSet(old(values[..]))
  {
    var seen: set<string> := {};
    n := 0;
    for i := 0 to values.Length
      invariant n <= i && seen == ToSet(values[..n]) == ToSet(old(values[..i])) && Distinct(values[..n])
      invariant values[i..] == old(values[i..])
    {
      var value := values[i];
      assert old(values[..i + 1]) == old(values[..i]) + [value];
      assert ToSet(old(values[..i + 1])) == ToSet(old(values[..i])) + {value};
      if value !in seen {
        seen := seen + {value};
        ghost var kept := values[..n];
        values[n] := value;
        n := n + 1;
        assert values[..n] == kept + [value];
        assert ToSet(kept + [value]) == ToSet(kept) + {value};
      }
    }
    assert old(values[..values.Length]) == old(values[..]);
    SortPrefix(values, n);
  }

  // ---------------------------------------------------------------- the search

  method FindNode(stores: seq<Index>, id: NodeId) returns (node: Option<Node>)
    ensures node == Find(stores, id)
  {
    for i := 0 to |stores|
      invariant Find(stores, id) == Find(stores[i..], id)
    {
      assert stores[i..][1..] == stores[i + 1..];
      if id in stores[i].nodes { return Some(stores[i].nodes[id]); }
    }
    return None;
  }

  /** The variables of the search; a row is its own deduplication key. */
  class Search {
    var nodes: map<NodeId, Node>
    var edgeMap: set<Edge>
    var next: seq<NodeId>
    var truncated: bool

    ghost function Value(): Progress reads this { Progress(nodes, edgeMap, truncated) }

    constructor (rootId: NodeId, root: Node)
      ensures Value() == Progress(map[rootId := root], {}, false) && next == []
    {
      nodes, edgeMap, next, truncated := map[rootId := root], {}, [], false;
    }

    /** The nodes that a row would add, or none when an end is in no store. */
    method Candidates(rq: Request, edge: Edge) returns (candidates: map<NodeId, Node>, complete: bool)
      ensures complete <==> AllFound(rq.stores, NewEnds(nodes, edge))
      ensures complete ==> candidates == FoundNodes(rq.stores, NewEnds(nodes, edge)) && candidates.Keys == NewEnds(nodes, edge)
    {
      candidates, complete := map[], true;
      var ids := [edge.source, edge.target];
      for i := 0 to 2
        invariant complete && AllFound(rq.stores, candidates.Keys)
        invariant candidates.Keys == ToSet(ids[..i]) - nodes.Keys
        invariant candidates == FoundNodes(rq.stores, candidates.Keys)
      {
        var id := ids[i];
        assert ids[..i + 1] == ids[..i] + [id];
        if id !in nodes && id !in candidates {
          var node := FindNode(rq.stores, id);
          if node.None? {
            assert id in NewEnds(nodes, edge);
            return candidates, false;
          }
          candidates := candidates[id := node.value];
        }
      }
      assert ids[..2] == ids && ToSet(ids) == {edge.source, edge.target};
    }

    method ConsiderRow(rq: Request, edge: Edge)
      requires edge.source in nodes || edge.target in nodes
      modifies this
      ensures Value() == Consider(rq, old(Value()), edge)
      ensures ToSet(next) == ToSet(old(next)) + (nodes.Keys - old(nodes.Keys))
    {
      hide AllFound, NewEnds, FoundNodes;
      FreshEnds(nodes, edge);
      if edge in edgeMap { return; }
      if |edgeMap| >= rq.maxEdges {
        truncated := true;
        return;
      }
      var candidates, complete := Candidates(rq, edge);
      if !complete { return; }
      assert |candidates| == |candidates.Keys| && candidates.Keys == NewEnds(nodes, edge);
      if |nodes| + |candidates| > rq.maxNodes {
        truncated := true;
        return;
      }
      edgeMap := edgeMap + {edge};
      nodes := nodes + candidates;
      Enqueue(candidates.Keys);
    }

    /** Map keys in no particular order. */
    method Enqueue(more: set<NodeId>)
      modifies this`next
      ensures ToSet(next) == ToSet(old(next)) + more
    {
      var ids := more;
      while ids != {}
        invariant ids <= more && ToSet(next) == ToSet(old(next)) + (more - ids)
      {
        var id :| id in ids;
        ghost var before := next;
        next := next + [id];
        assert ToSet(next) == ToSet(before) + {id};
        ids := ids - {id};
      }
    }

    /** All rows of every store at one node. */
    method Expand(rq: Request, ghost root: NodeId, ghost offered: set<Edge>, current: NodeId)
      requires rq.Valid() && current in nodes
      requires Consistent(rq, root, Value()) && FlagTrue(rq, Value(), offered)
      modifies this
      ensures Consistent(rq, root, Value())
      ensures FlagTrue(rq, Value(), offered + ToSet(Rows(rq.stores, rq.direction, rq.Limit(), current)))
      ensures Value() == ConsiderAll(rq, old(Value()), Rows(rq.stores, rq.direction, rq.Limit(), current))
      ensures old(nodes.Keys) <= nodes.Keys && ToSet(next) == ToSet(old(next)) + (nodes.Keys - old(nodes.Keys))
      ensures old(truncated) ==> truncated
    {
      hide Consistent, FlagTrue, ConsiderAll, Rows, ToSet, Request.Valid, AllRowsUpTo;
      ghost var start := Value();
      NoRowsYet(rq, root, start, current);
      for i := 0 to |rq.stores|
        invariant Consistent(rq, root, Value())
        invariant AllRowsUpTo(rq, start, Value(), current, i)
        invariant old(nodes.Keys) <= nodes.Keys && ToSet(next) == ToSet(old(next)) + (nodes.Keys - old(nodes.Keys))
        invariant old(truncated) ==> truncated
      {
        var edges := FetchRows(rq, i, current);
        ghost var before := Value();
        ConsiderRows(rq, root, edges);
        OneMoreStore(rq, start, before, Value(), current, i);
      }
      AllStores(rq, root, start, Value(), current, offered);
    }

    /** The outgoing and the incoming query of one store, as far as the direction asks for them. */
    method FetchRows(rq: Request, i: nat, current: NodeId) returns (edges: seq<Edge>)
      requires rq.Valid() && i < |rq.stores|
      ensures edges == StoreRows(rq.stores[i], rq.direction, rq.Limit(), current)
      ensures forall e | e in edges :: e.source == current || e.target == current
    {
      assert rq.stores[i].Valid();
      edges := [];
      if rq.direction != "incoming" { edges := edges + Cut(rq.stores[i].Out(current), Some(rq.maxEdges + 1)); }
      if rq.direction != "outgoing" { edges := edges + Cut(rq.stores[i].In(current), Some(rq.maxEdges + 1)); }
    }

    method ConsiderRows(rq: Request, ghost root: NodeId, edges: seq<Edge>)
      requires Consistent(rq, root, Value())
      requires forall e | e in edges :: e.source in nodes || e.target in nodes
      modifies this
      ensures Value() == ConsiderAll(rq, old(Value()), edges)
      ensures Consistent(rq, root, Value())
      ensures old(nodes.Keys) <= nodes.Keys && ToSet(next) == ToSet(old(next)) + (nodes.Keys - old(nodes.Keys))
      ensures old(truncated) ==> truncated
    {
      hide Consistent;
      ghost var start := Value();
      for k := 0 to |edges|
        invariant Value() == ConsiderAll(rq, start, edges[..k]) && start == old(Value())
        invariant Consistent(rq, root, Value())
        invariant old(nodes.Keys) <= nodes.Keys && ToSet(next) == ToSet(old(next)) + (nodes.Keys - old(nodes.Keys))
        invariant old(truncated) ==> truncated
      {
        assert edges[k] in edges;
        assert edges[..k + 1][..k] == edges[..k];
        ConsiderKeepsConsistent(rq, root, Value(), edges[k]);
        ConsiderRow(rq, edges[k]);
      }
      assert edges[..|edges|] == edges;
    }
  }

  /** The rows of the first `i` stores at a node have been considered. */
  ghost predicate AllRowsUpTo(rq: Request, start: Progress, now: Progress, x: NodeId, i: nat)
    requires i <= |rq.stores|
  {
    now == ConsiderAll(rq, start, Rows(rq.stores[..i], rq.direction, rq.Limit(), x))
  }

  lemma NoRowsYet(rq: Request, root: NodeId, start: Progress, x: NodeId)
    ensures AllRowsUpTo(rq, start, start, x, 0)
    ensures forall s: set<NodeId>, t: set<NodeId> :: s + (t - t) == s
  {
    assert rq.stores[..0] == [];
  }

  lemma OneMoreStore(rq: Request, start: Progress, before: Progress, now: Progress, x: NodeId, i: nat)
    requires i < |rq.stores| && AllRowsUpTo(rq, start, before, x, i)
    requires now == ConsiderAll(rq, before, StoreRows(rq.stores[i], rq.direction, rq.Limit(), x))
    ensures AllRowsUpTo(rq, start, now, x, i + 1)
  {
    hide ConsiderAll, StoreRows;
    RowsOfStoresUpTo(rq, rq.Limit(), i, x);
    ConsiderBoth(rq, start, Rows(rq.stores[..i], rq.direction, rq.Limit(), x), StoreRows(rq.stores[i], rq.direction, rq.Limit(), x));
  }

  lemma AllStores(rq: Request, root: NodeId, start: Progress, now: Progress, x: NodeId, offered: set<Edge>)
    requires rq.Valid() && AllRowsUpTo(rq, start, now, x, |rq.stores|) && x in start.nodes
    requires Consistent(rq, root, start) && FlagTrue(rq, start, offered)
    ensures now == ConsiderAll(rq, start, Rows(rq.stores, rq.direction, rq.Limit(), x))
    ensures FlagTrue(rq, now, offered + ToSet(Rows(rq.stores, rq.direction, rq.Limit(), x)))
  {
    hide ConsiderAll, Consistent, FlagTrue, Rows, Request.Valid;
    assert rq.stores[..|rq.stores|] == rq.stores;
    var rows := Rows(rq.stores, rq.direction, rq.Limit(), x);
    forall e | e in rows ensures e.source in start.nodes || e.target in start.nodes { RowsTouch(rq, rq.Limit(), x, e); }
    ConsiderAllKeeps(rq, root, start, offered, rows);
  }

  /** The rows considered in one level: node by node, store by store. */
  function LevelRows(rq: Request, frontier: seq<NodeId>): seq<Edge> {
    if frontier == [] then []
    else
      var n := |frontier| - 1;
      LevelRows(rq, frontier[..n]) + Rows(rq.stores, rq.direction, rq.Limit(), frontier[n])
  }

  /** What a search is: every level considers the rows at the frontier, and the nodes that it brings are
      the next frontier, in order. */
  ghost predicate IsSearch(rq: Request, p: Progress, frontier: seq<NodeId>, levels: nat, result: Progress)
    decreases levels
  {
    if levels == 0 || frontier == [] then result == p
    else
      var q := ConsiderAll(rq, p, LevelRows(rq, frontier));
      exists next :: Ordered(next) && Distinct(next) && ToSet(next) == q.nodes.Keys - p.nodes.Keys && IsSearch(rq, q, next, levels - 1, result)
  }

  lemma {:induction false} ConsiderBoth(rq: Request, p: Progress, a: seq<Edge>, b: seq<Edge>)
    ensures ConsiderAll(rq, p, a + b) == ConsiderAll(rq, ConsiderAll(rq, p, a), b)
    decreases |b|
  {
    hide Consider;
    if b == [] {
      assert a + b == a;
    } else {
      var n := |b| - 1;
      assert (a + b)[..|a| + n] == a + b[..n];
      ConsiderBoth(rq, p, a, b[..n]);
    }
  }

  lemma RowsOfStoresUpTo(rq: Request, limit: Option<nat>, i: nat, id: NodeId)
    requires i < |rq.stores|
    ensures Rows(rq.stores[..i + 1], rq.direction, limit, id) ==
            Rows(rq.stores[..i], rq.direction, limit, id) + StoreRows(rq.stores[i], rq.direction, limit, id)
  {
    hide StoreRows;
    assert rq.stores[..i + 1][..i] == rq.stores[..i];
  }

  /** Within a level, when the rows at the nodes of `done` have been considered. */
  ghost predicate Midway(rq: Request, root: NodeId, before: Progress, now: Progress, next: set<NodeId>, done: set<NodeId>) {
    && Consistent(rq, root, now) && FlagTrue(rq, now, RowsAt(rq, rq.Limit(), done))
    && before.nodes.Keys <= now.nodes.Keys && (before.truncated ==> now.truncated)
    && next == now.nodes.Keys - before.nodes.Keys
  }

  method ExpandNext(rq: Request, ghost root: NodeId, search: Search, ghost before: Progress, ghost done: set<NodeId>, x: NodeId)
    requires rq.Valid() && x in before.nodes && Midway(rq, root, before, search.Value(), ToSet(search.next), done)
    modifies search
    ensures Midway(rq, root, before, search.Value(), ToSet(search.next), done + {x})
    ensures search.Value() == ConsiderAll(rq, old(search.Value()), Rows(rq.stores, rq.direction, rq.Limit(), x))
  {
    hide Consistent, FlagTrue, RowsAt, Rows, ToSet, Request.Valid, ConsiderAll;
    RowsAtOneMore(rq, rq.Limit(), done, x);
    search.Expand(rq, root, RowsAt(rq, rq.Limit(), done), x);
  }

  /** One level: every node of the frontier is expanded. */
  method Level(rq: Request, ghost root: NodeId, search: Search, frontier: seq<NodeId>, ghost expanded: set<NodeId>, ghost k: nat)
    returns (next: seq<NodeId>)
    requires rq.Valid() && LevelInv(rq, root, search.Value(), expanded, ToSet(frontier), k)
    modifies search
    ensures LevelInv(rq, root, search.Value(), old(search.nodes.Keys), ToSet(next), k + 1)
    ensures search.Value() == ConsiderAll(rq, old(search.Value()), LevelRows(rq, frontier))
    ensures Ordered(next) && Distinct(next) && ToSet(next) == search.nodes.Keys - old(search.nodes.Keys)
  {
    hide LevelInv, Midway, ToSet, Request.Valid, Distinct, Ordered, Rows, ConsiderAll;
    ghost var before := search.Value();
    search.next := [];
    NothingExpanded(frontier);
    MidwayAtFirst(rq, root, before, expanded, ToSet(frontier), k);
    NothingConsidered(rq, before);
    for j := 0 to |frontier|
      invariant Midway(rq, root, before, search.Value(), ToSet(search.next), expanded + ToSet(frontier[..j]))
      invariant search.Value() == ConsiderAll(rq, before, LevelRows(rq, frontier[..j]))
    {
      LevelRowsStep(rq, frontier, j);
      ConsiderBoth(rq, before, LevelRows(rq, frontier[..j]), Rows(rq.stores, rq.direction, rq.Limit(), frontier[j]));
      InToSet(frontier, j);
      ExpandNext(rq, root, search, before, expanded + ToSet(frontier[..j]), frontier[j]);
      assert expanded + ToSet(frontier[..j]) + {frontier[j]} == expanded + (ToSet(frontier[..j]) + {frontier[j]});
    }
    assert frontier[..|frontier|] == frontier;
    MidwayAtLast(rq, root, before, expanded, ToSet(frontier), k, search.Value(), ToSet(search.next));
    MidwayNext(rq, root, before, search.Value(), ToSet(search.next), expanded + ToSet(frontier));
    next := Unique(search.next);
  }

  lemma NothingConsidered(rq: Request, p: Progress)
    ensures ConsiderAll(rq, p, LevelRows(rq, [])) == p
  {
  }

  lemma LevelRowsStep(rq: Request, frontier: seq<NodeId>, j: nat)
    requires j < |frontier|
    ensures LevelRows(rq, frontier[..j + 1]) ==
            LevelRows(rq, frontier[..j]) + Rows(rq.stores, rq.direction, rq.Limit(), frontier[j])
  {
    assert frontier[..j + 1][..j] == frontier[..j];
  }

  lemma MidwayNext(rq: Request, root: NodeId, before: Progress, now: Progress, next: set<NodeId>, done: set<NodeId>)
    requires Midway(rq, root, before, now, next, done)
    ensures next == now.nodes.Keys - before.nodes.Keys
  {
  }

  lemma MidwayAtFirst(rq: Request, root: NodeId, p: Progress, expanded: set<NodeId>, frontier: set<NodeId>, k: nat)
    requires LevelInv(rq, root, p, expanded, frontier, k)
    ensures Midway(rq, root, p, p, {}, expanded) && p.nodes.Keys == expanded + frontier
  {
    hide Consistent, FlagTrue, RowsAt, Near;
  }

  lemma MidwayAtLast(rq: Request, root: NodeId, before: Progress, expanded: set<NodeId>, frontier: set<NodeId>, k: nat, p: Progress, next: set<NodeId>)
    requires LevelInv(rq, root, before, expanded, frontier, k) && Midway(rq, root, before, p, next, expanded + frontier)
    ensures LevelInv(rq, root, p, before.nodes.Keys, next, k + 1)
  {
    hide Consistent, FlagTrue, RowsAt, Near;
    LevelDone(rq, root, before, expanded, frontier, k, p);
  }

  lemma NothingExpanded(frontier: seq<NodeId>)
    ensures ToSet<NodeId>([]) == {} && ToSet(frontier[..0]) == {}
    ensures forall s: set<NodeId> :: s + {} == s
  {
  }

  lemma InToSet(frontier: seq<NodeId>, j: nat)
    requires j < |frontier|
    ensures frontier[j] in ToSet(frontier) && ToSet(frontier[..j + 1]) == ToSet(frontier[..j]) + {frontier[j]}
  {
    assert frontier[..j + 1] == frontier[..j] + [frontier[j]];
  }

  method Unique(values: seq<NodeId>) returns (out: seq<NodeId>)
    ensures Distinct(out) && Ordered(out) && ToSet(out) == ToSet(values)
  {
    var a := new NodeId[|values|](i requires 0 <= i < |values| => values[i]);
    assert a[..] == values;
    var n := UniqueStrings(a);
    out := a[..n];
  }

  lemma RowsAtOneMore(rq: Request, limit: Option<nat>, ids: set<NodeId>, x: NodeId)
    ensures RowsAt(rq, limit, ids + {x}) == RowsAt(rq, limit, ids) + ToSet(Rows(rq.stores, rq.direction, limit, x))
  {
    hide Rows;
    forall e | e in RowsAt(rq, limit, ids) + ToSet(Rows(rq.stores, rq.direction, limit, x))
      ensures e in RowsAt(rq, limit, ids + {x})
    {
      if e in RowsAt(rq, limit, ids) {
        var y :| y in ids && e in Rows(rq.stores, rq.direction, limit, y);
        assert y in ids + {x};
      } else {
        assert x in ids + {x} && e in Rows(rq.stores, rq.direction, limit, x);
      }
    }
  }

  lemma RootAlone(rq: Request, root: NodeId, node: Node)
    requires rq.Valid() && Find(rq.stores, root) == Some(node)
    ensures LevelInv(rq, root, Progress(map[root := node], {}, false), {}, {root}, 0)
  {
    assert RowsAt(rq, rq.Limit(), {}) == {};
    assert Ends({}) == {};
    assert |map[root := node]| == |map[root := node].Keys| && map[root := node].Keys == {root};
  }

  lemma SearchGoesOn(rq: Request, p: Progress, frontier: seq<NodeId>, next: seq<NodeId>, levels: nat)
    requires 0 < levels && frontier != [] && Ordered(next) && Distinct(next)
    requires ToSet(next) == ConsiderAll(rq, p, LevelRows(rq, frontier)).nodes.Keys - p.nodes.Keys
    ensures forall result :: IsSearch(rq, ConsiderAll(rq, p, LevelRows(rq, frontier)), next, levels - 1, result) ==>
              IsSearch(rq, p, frontier, levels, result)
  {
    hide ConsiderAll, LevelRows, Ordered, Distinct;
  }

  lemma SearchEnds(rq: Request, p: Progress, frontier: seq<NodeId>, levels: nat)
    requires levels == 0 || frontier == []
    ensures IsSearch(rq, p, frontier, levels, p)
  {
  }

  /** The body of the handler between the checks of its parameters and the rendering of the answer. */
  method Neighbourhood(rq: Request, rootId: NodeId, root: Node) returns (p: Progress)
    requires rq.Valid() && Find(rq.stores, rootId) == Some(root)
    ensures Outcome(rq, rootId, p)
    ensures IsSearch(rq, Progress(map[rootId := root], {}, false), [rootId], rq.depth, p)
  {
    hide LevelInv, Outcome, IsSearch, ConsiderAll, LevelRows;
    var search := new Search(rootId, root);
    var frontier := [rootId];
    ghost var start := search.Value();
    ghost var expanded: set<NodeId> := {};
    RootAlone(rq, rootId, root);
    assert ToSet(frontier) == {rootId};
    var level := 0;
    while level < rq.depth && |frontier| > 0
      invariant fresh(search) && level <= rq.depth
      invariant LevelInv(rq, rootId, search.Value(), expanded, ToSet(frontier), level)
      invariant forall result :: IsSearch(rq, search.Value(), frontier, rq.depth - level, result) ==>
                  IsSearch(rq, start, [rootId], rq.depth, result)
    {
      ghost var returned := search.nodes.Keys;
      ghost var before, here := search.Value(), frontier;
      frontier := Level(rq, rootId, search, frontier, expanded, level);
      expanded := returned;
      SearchGoesOn(rq, before, here, frontier, rq.depth - level);
      level := level + 1;
    }
    p := Progress(search.nodes, search.edgeMap, search.truncated);
    SearchEnds(rq, p, frontier, rq.depth - level);
    assert |frontier| == 0 ==> ToSet(frontier) == {};
    OutcomeAtEnd(rq, rootId, p, expanded, ToSet(frontier), level);
  }

  // ---------------------------------------------------------------- the neighbourhood over the stored rows

  /** A row that leads on from `y`: asked for, and with both ends in some store. */
  ghost predicate LeadsOn(rq: Request, y: NodeId, e: Edge) {
    Stored(rq, e.source) && Stored(rq, e.target) && exists i :: 0 <= i < |rq.stores| && Asked(rq, i, y, e)
  }

  /** At most `k` such rows lead from the root to `x`. */
  ghost predicate Hops(rq: Request, root: NodeId, k: nat, x: NodeId)
    decreases k
  {
    x == root || (k > 0 && exists y, e :: Hops(rq, root, k - 1, y) && LeadsOn(rq, y, e) && x in {e.source, e.target})
  }

  lemma LeadsOnIs(rq: Request, y: NodeId, e: Edge)
    requires rq.Valid()
    ensures LeadsOn(rq, y, e) <==> e in Rows(rq.stores, rq.direction, None, y) && Resolves(rq.stores, e)
  {
    hide Rows, Resolves, Stored, Asked;
    RowsAre(rq, y, e);
    ResolvesMeans(rq, e);
  }

  lemma RowsLeadOn(rq: Request, ids: set<NodeId>, e: Edge)
    requires rq.Valid()
    ensures e in Resolved(rq, RowsAt(rq, None, ids)) <==> exists y :: y in ids && LeadsOn(rq, y, e)
  {
    hide Rows, Resolves, LeadsOn;
    forall y ensures LeadsOn(rq, y, e) <==> e in Rows(rq.stores, rq.direction, None, y) && Resolves(rq.stores, e) { LeadsOnIs(rq, y, e); }
    InResolved(rq, RowsAt(rq, None, ids), e);
    if e in RowsAt(rq, None, ids) { var y := FromRowsAt(rq, None, ids, e); }
    if y :| y in ids && LeadsOn(rq, y, e) { InRowsAt(rq, None, ids, y, e); }
  }

  lemma InEnds(edges: set<Edge>, x: NodeId)
    ensures x in Ends(edges) <==> exists e :: e in edges && x in {e.source, e.target}
  {
  }

  lemma {:induction false} NearIsHops(rq: Request, root: NodeId, k: nat, x: NodeId)
    requires rq.Valid()
    ensures x in Near(rq, None, root, k) <==> Hops(rq, root, k, x)
  {
    hide Near, RowsAt, Resolved, LeadsOn, Ends;
    if k == 0 {
      NearZero(rq, None, root);
    } else {
      var near := Near(rq, None, root, k - 1);
      var all := Resolved(rq, RowsAt(rq, None, near));
      NearStep(rq, None, root, k - 1);
      InEnds(all, x);
      forall y ensures y in near <==> Hops(rq, root, k - 1, y) { NearIsHops(rq, root, k - 1, y); }
      if e :| e in all && x in {e.source, e.target} {
        RowsLeadOn(rq, near, e);
        var y :| y in near && LeadsOn(rq, y, e);
        assert Hops(rq, root, k - 1, y) && LeadsOn(rq, y, e);
      }
      if y, e :| Hops(rq, root, k - 1, y) && LeadsOn(rq, y, e) && x in {e.source, e.target} {
        RowsLeadOn(rq, near, e);
        assert e in all;
      }
    }
  }

  // ---------------------------------------------------------------- what an untruncated answer certifies

  /** The whole neighbourhood, as if no query were cut. */
  ghost predicate Complete(rq: Request, root: NodeId, p: Progress)
    requires 0 < rq.depth
  {
    && p.nodes.Keys == Near(rq, None, root, rq.depth)
    && p.edges == Resolved(rq, RowsAt(rq, None, Near(rq, None, root, rq.depth - 1)))
  }

  /** A complete answer, over the stored rows: the nodes within `depth` hops, as the first store has them,
      and every row that leads on from a node within `depth - 1` hops. */
  lemma CompleteMeans(rq: Request, root: NodeId, p: Progress)
    requires rq.Valid()
    ensures Complete(rq, root, p) <==>
              && (forall x :: x in p.nodes <==> Hops(rq, root, rq.depth, x))
              && (forall e :: e in p.edges <==> exists y :: Hops(rq, root, rq.depth - 1, y) && LeadsOn(rq, y, e))
  {
    hide Near, RowsAt, Resolved, Hops, LeadsOn, Stored;
    var near := Near(rq, None, root, rq.depth - 1);
    forall x ensures x in Near(rq, None, root, rq.depth) <==> Hops(rq, root, rq.depth, x) { NearIsHops(rq, root, rq.depth, x); }
    forall y ensures y in near <==> Hops(rq, root, rq.depth - 1, y) { NearIsHops(rq, root, rq.depth - 1, y); }
    forall e ensures e in Resolved(rq, RowsAt(rq, None, near)) <==> exists y :: Hops(rq, root, rq.depth - 1, y) && LeadsOn(rq, y, e) {
      RowsLeadOn(rq, near, e);
    }
    assert forall x :: x in p.nodes <==> x in p.nodes.Keys;
  }

  /** The cut queries lose no resolvable row at this node. */
  ghost predicate Covers(rq: Request, x: NodeId) {
    forall e | e in Rows(rq.stores, rq.direction, None, x) && Resolves(rq.stores, e) ::
      e in Rows(rq.stores, rq.direction, rq.Limit(), x)
  }

  ghost predicate AllCovered(rq: Request, ids: set<NodeId>) { forall x | x in ids :: Covers(rq, x) }

  lemma {:induction false} CutRowsArePart(stores: seq<Index>, direction: string, limit: Option<nat>, x: NodeId)
    ensures ToSet(Rows(stores, direction, limit, x)) <= ToSet(Rows(stores, direction, None, x))
  {
    if stores != [] {
      var n := |stores| - 1;
      CutRowsArePart(stores[..n], direction, limit, x);
      var q := stores[n];
      assert forall e | e in StoreRows(q, direction, limit, x) :: e in StoreRows(q, direction, None, x) by {
        assert forall e | e in Cut(q.Out(x), limit) :: e in q.Out(x);
        assert forall e | e in Cut(q.In(x), limit) :: e in q.In(x);
      }
      forall e | e in ToSet(Rows(stores, direction, limit, x)) ensures e in Rows(stores, direction, None, x) {
        assert e in Rows(stores[..n], direction, limit, x) ==> e in ToSet(Rows(stores[..n], direction, limit, x));
      }
    }
  }

  lemma SameResolvedRows(rq: Request, ids: set<NodeId>)
    requires AllCovered(rq, ids)
    ensures Resolved(rq, RowsAt(rq, rq.Limit(), ids)) == Resolved(rq, RowsAt(rq, None, ids))
  {
    hide Rows, Resolves;
    var cut, all := RowsAt(rq, rq.Limit(), ids), RowsAt(rq, None, ids);
    forall e | e in Resolved(rq, cut) ensures e in all {
      var x :| x in ids && e in Rows(rq.stores, rq.direction, rq.Limit(), x);
      CutRowsArePart(rq.stores, rq.direction, rq.Limit(), x);
      assert e in ToSet(Rows(rq.stores, rq.direction, None, x));
    }
    forall e | e in Resolved(rq, all) ensures e in cut {
      var x :| x in ids && e in Rows(rq.stores, rq.direction, None, x);
      assert Covers(rq, x);
    }
  }

  lemma {:induction false} CoveredNear(rq: Request, root: NodeId, k: nat)
    requires 0 < rq.depth && k <= rq.depth && AllCovered(rq, Near(rq, rq.Limit(), root, rq.depth - 1))
    ensures Near(rq, rq.Limit(), root, k) == Near(rq, None, root, k)
  {
    hide RowsAt, Resolved, Ends, Covers, Near;
    if k == 0 {
      NearZero(rq, None, root);
      NearZero(rq, rq.Limit(), root);
    } else {
      CoveredNear(rq, root, k - 1);
      NearGrows(rq, rq.Limit(), root, k - 1, rq.depth - 1);
      SameResolvedRows(rq, Near(rq, rq.Limit(), root, k - 1));
      NearStep(rq, None, root, k - 1);
      NearStep(rq, rq.Limit(), root, k - 1);
    }
  }

  /** An untruncated answer is complete when the cut queries lose nothing. */
  lemma CoveredIsComplete(rq: Request, root: NodeId, p: Progress)
    requires rq.Valid() && Outcome(rq, root, p) && !p.truncated
    requires AllCovered(rq, Near(rq, rq.Limit(), root, rq.depth - 1))
    ensures Complete(rq, root, p)
  {
    hide RowsAt, Resolved, Ends, Covers, Near;
    CoveredNear(rq, root, rq.depth);
    CoveredNear(rq, root, rq.depth - 1);
    SameResolvedRows(rq, Near(rq, rq.Limit(), root, rq.depth - 1));
  }

  lemma {:induction false} OneWayRows(rq: Request, limit: Option<nat>, x: NodeId, e: Edge)
    requires rq.Valid() && e in Rows(rq.stores, rq.direction, limit, x)
    ensures rq.direction == "outgoing" ==> e.source == x
    ensures rq.direction == "incoming" ==> e.target == x
    decreases |rq.stores|
  {
    var n := |rq.stores| - 1;
    if e in Rows(rq.stores[..n], rq.direction, limit, x) {
      var fewer := rq.(stores := rq.stores[..n]);
      assert forall i | 0 <= i < n :: fewer.stores[i] == rq.stores[i];
      OneWayRows(fewer, limit, x, e);
    } else {
      assert rq.stores[n].Valid() && e in StoreRows(rq.stores[n], rq.direction, limit, x);
    }
  }

  lemma {:induction false} CutIsNearer(rq: Request, root: NodeId, k: nat)
    ensures Near(rq, rq.Limit(), root, k) <= Near(rq, None, root, k)
  {
    hide Rows, Resolves;
    if k > 0 {
      CutIsNearer(rq, root, k - 1);
      var cut, all := Near(rq, rq.Limit(), root, k - 1), Near(rq, None, root, k - 1);
      forall e | e in RowsAt(rq, rq.Limit(), cut) ensures e in RowsAt(rq, None, all) {
        var x :| x in cut && e in Rows(rq.stores, rq.direction, rq.Limit(), x);
        CutRowsArePart(rq.stores, rq.direction, rq.Limit(), x);
        assert e in ToSet(Rows(rq.stores, rq.direction, None, x));
      }
      EndsMonotone(Resolved(rq, RowsAt(rq, rq.Limit(), cut)), Resolved(rq, RowsAt(rq, None, all)));
    }
  }

  lemma InRowsAt(rq: Request, limit: Option<nat>, ids: set<NodeId>, x: NodeId, e: Edge)
    requires x in ids && e in Rows(rq.stores, rq.direction, limit, x)
    ensures e in RowsAt(rq, limit, ids)
  {
  }

  lemma FromRowsAt(rq: Request, limit: Option<nat>, ids: set<NodeId>, e: Edge) returns (x: NodeId)
    requires e in RowsAt(rq, limit, ids)
    ensures x in ids && e in Rows(rq.stores, rq.direction, limit, x)
  {
    x :| x in ids && e in Rows(rq.stores, rq.direction, limit, x);
  }

  /** In one direction an untruncated answer is complete exactly when the cut queries lose nothing. */
  lemma OneWayCompleteIffCovered(rq: Request, root: NodeId, p: Progress)
    requires rq.Valid() && rq.direction != "both" && Outcome(rq, root, p) && !p.truncated
    ensures Complete(rq, root, p) <==> AllCovered(rq, Near(rq, rq.Limit(), root, rq.depth - 1))
  {
    hide RowsAt, Near, Rows, Consistent, Resolves;
    var near := Near(rq, rq.Limit(), root, rq.depth - 1);
    if AllCovered(rq, near) { CoveredIsComplete(rq, root, p); }
    if Complete(rq, root, p) {
      CutIsNearer(rq, root, rq.depth - 1);
      forall x, e | x in near && e in Rows(rq.stores, rq.direction, None, x) && Resolves(rq.stores, e)
        ensures e in Rows(rq.stores, rq.direction, rq.Limit(), x)
      {
        InRowsAt(rq, None, Near(rq, None, root, rq.depth - 1), x, e);
        InResolved(rq, RowsAt(rq, None, Near(rq, None, root, rq.depth - 1)), e);
        InResolved(rq, RowsAt(rq, rq.Limit(), near), e);
        var y := FromRowsAt(rq, rq.Limit(), near, e);
        OneWayRows(rq, None, x, e);
        OneWayRows(rq, rq.Limit(), y, e);
      }
    }
  }

  /** Every resolvable row at a node within `depth - 1` hops is fetched at some node that is expanded. */
  ghost predicate NothingLost(rq: Request, root: NodeId)
    requires 0 < rq.depth
  {
    Resolved(rq, RowsAt(rq, None, Near(rq, None, root, rq.depth - 1))) <=
      RowsAt(rq, rq.Limit(), Near(rq, rq.Limit(), root, rq.depth - 1))
  }

  lemma CutRowsAt(rq: Request, root: NodeId, k: nat)
    ensures RowsAt(rq, rq.Limit(), Near(rq, rq.Limit(), root, k)) <= RowsAt(rq, None, Near(rq, None, root, k))
  {
    hide RowsAt, Near, Rows;
    var cut, all := Near(rq, rq.Limit(), root, k), Near(rq, None, root, k);
    CutIsNearer(rq, root, k);
    forall e | e in RowsAt(rq, rq.Limit(), cut) ensures e in RowsAt(rq, None, all) {
      var x := FromRowsAt(rq, rq.Limit(), cut, e);
      CutRowsArePart(rq.stores, rq.direction, rq.Limit(), x);
      assert e in ToSet(Rows(rq.stores, rq.direction, rq.Limit(), x));
      InRowsAt(rq, None, all, x, e);
    }
  }

  /** In every direction an untruncated answer is complete exactly when no row is lost.  A row that
      is cut at one end may still be fetched at the other. */
  lemma CompleteIffNothingLost(rq: Request, root: NodeId, p: Progress)
    requires rq.Valid() && Outcome(rq, root, p) && !p.truncated
    ensures Complete(rq, root, p) <==> NothingLost(rq, root)
  {
    hide RowsAt, Near, Rows, Resolves, Ends, Consistent;
    var k := rq.depth - 1;
    var all, cut := RowsAt(rq, None, Near(rq, None, root, k)), RowsAt(rq, rq.Limit(), Near(rq, rq.Limit(), root, k));
    CutRowsAt(rq, root, k);
    NearStep(rq, None, root, k);
    NearStep(rq, rq.Limit(), root, k);
    assert Resolved(rq, all) <= cut <==> Resolved(rq, all) == Resolved(rq, cut);
  }

  function AllRows(rq: Request, root: NodeId): set<Edge>
    requires 0 < rq.depth
  {
    Resolved(rq, RowsAt(rq, None, Near(rq, None, root, rq.depth - 1)))
  }

  lemma EndsAreNear(rq: Request, root: NodeId, e: Edge)
    requires 0 < rq.depth && e in AllRows(rq, root)
    ensures {e.source, e.target} <= Near(rq, None, root, rq.depth)
  {
    hide Near, RowsAt, Resolved;
    NearStep(rq, None, root, rq.depth - 1);
  }

  /** What a refused row means for the whole neighbourhood: it does not fit, or all its edges are here. */
  lemma RefusedMeansFull(rq: Request, root: NodeId, p: Progress, e: Edge)
    requires rq.Valid() && Outcome(rq, root, p)
    requires Missed(rq, p, RowsAt(rq, rq.Limit(), Near(rq, rq.Limit(), root, rq.depth - 1)), e)
    requires |AllRows(rq, root)| <= rq.maxEdges && |Near(rq, None, root, rq.depth)| <= rq.maxNodes
    ensures p.edges == AllRows(rq, root)
  {
    hide RowsAt, Near, Rows, Resolves, Ends;
    var k := rq.depth - 1;
    CutRowsAt(rq, root, k);
    CutIsNearer(rq, root, rq.depth);
    SubsetIsSmaller(p.edges, AllRows(rq, root));
    if |p.edges| != rq.maxEdges {
      InResolved(rq, RowsAt(rq, None, Near(rq, None, root, k)), e);
      EndsAreNear(rq, root, e);
      SubsetIsSmaller(p.nodes.Keys, Near(rq, None, root, rq.depth));
      assert |p.nodes| == |p.nodes.Keys|;
      NewEndIsOutside(p.nodes, e, Near(rq, None, root, rq.depth));
      assert false;
    }
  }

  lemma NewEndIsOutside(nodes: map<NodeId, Node>, e: Edge, near: set<NodeId>)
    requires NewEnds(nodes, e) != {} && {e.source, e.target} <= near
    ensures nodes.Keys != near
  {
  }

  /** An answer, truncated or not, is complete exactly when no row is lost and the whole neighbourhood
      fits into the budgets. */
  lemma CompleteIffItFits(rq: Request, root: NodeId, p: Progress)
    requires rq.Valid() && Outcome(rq, root, p)
    ensures Complete(rq, root, p) <==>
              && NothingLost(rq, root)
              && |AllRows(rq, root)| <= rq.maxEdges && |Near(rq, None, root, rq.depth)| <= rq.maxNodes
  {
    hide RowsAt, Near, Rows, Resolves, Ends;
    var k := rq.depth - 1;
    CutRowsAt(rq, root, k);
    NearStep(rq, None, root, k);
    assert |p.nodes| == |p.nodes.Keys|;
    if |AllRows(rq, root)| <= rq.maxEdges && |Near(rq, None, root, rq.depth)| <= rq.maxNodes && NothingLost(rq, root) {
      if p.truncated {
        var e :| Missed(rq, p, RowsAt(rq, rq.Limit(), Near(rq, rq.Limit(), root, k)), e);
        RefusedMeansFull(rq, root, p, e);
      } else {
        CompleteIffNothingLost(rq, root, p);
      }
    }
    if Complete(rq, root, p) { OnlyOffered(rq, root, p); }
  }

  lemma OnlyOffered(rq: Request, root: NodeId, p: Progress)
    requires rq.Valid() && Outcome(rq, root, p)
    ensures p.edges <= RowsAt(rq, rq.Limit(), Near(rq, rq.Limit(), root, rq.depth - 1))
  {
    hide RowsAt, Near;
  }

  /** Every stored edge is listed once and has both ends in some store. */
  ghost predicate CleanRows(rq: Request) { forall i, x | 0 <= i < |rq.stores| :: CleanAt(rq, rq.stores[i], x) }

  ghost predicate CleanAt(rq: Request, q: Index, x: NodeId) {
    && Distinct(q.Out(x)) && (forall e | e in q.Out(x) :: Resolves(rq.stores, e))
    && Distinct(q.In(x)) && (forall e | e in q.In(x) :: Resolves(rq.stores, e))
  }

  lemma {:induction false} StoreRowsArePart(stores: seq<Index>, direction: string, limit: Option<nat>, x: NodeId, i: nat)
    requires i < |stores|
    ensures ToSet(StoreRows(stores[i], direction, limit, x)) <= ToSet(Rows(stores, direction, limit, x))
  {
    hide StoreRows;
    var n := |stores| - 1;
    if i < n { StoreRowsArePart(stores[..n], direction, limit, x, i); }
  }

  lemma {:induction false} UncutEverywhere(stores: seq<Index>, direction: string, limit: Option<nat>, x: NodeId)
    requires forall i | 0 <= i < |stores| :: StoreRows(stores[i], direction, limit, x) == StoreRows(stores[i], direction, None, x)
    ensures Rows(stores, direction, limit, x) == Rows(stores, direction, None, x)
  {
    hide StoreRows;
    if stores != [] {
      var n := |stores| - 1;
      assert forall i | 0 <= i < n :: stores[..n][i] == stores[i];
      UncutEverywhere(stores[..n], direction, limit, x);
    }
  }

  /** The pigeonhole: a cut list would hold more distinct rows than there are returned edges. */
  lemma NoCutList(rows: seq<Edge>, maxEdges: nat, edges: set<Edge>)
    requires Distinct(rows) && |edges| <= maxEdges && ToSet(Cut(rows, Some(maxEdges + 1))) <= edges
    ensures Cut(rows, Some(maxEdges + 1)) == rows
  {
    if maxEdges + 1 < |rows| {
      var cut := rows[..maxEdges + 1];
      DistinctCardinality(cut);
      SubsetIsSmaller(ToSet(cut), edges);
      assert false;
    }
  }

  lemma UntruncatedIsUncut(rq: Request, root: NodeId, p: Progress, x: NodeId, i: nat)
    requires rq.Valid() && Outcome(rq, root, p) && !p.truncated && CleanRows(rq)
    requires x in Near(rq, rq.Limit(), root, rq.depth - 1) && i < |rq.stores|
    ensures StoreRows(rq.stores[i], rq.direction, rq.Limit(), x) == StoreRows(rq.stores[i], rq.direction, None, x)
  {
    hide RowsAt, Near, Rows, Distinct, Resolves, Known, Ends;
    var limit := rq.Limit();
    var near := Near(rq, limit, root, rq.depth - 1);
    var rows := StoreRows(rq.stores[i], rq.direction, limit, x);
    var o, n := rq.stores[i].Out(x), rq.stores[i].In(x);
    assert CleanAt(rq, rq.stores[i], x);
    StoreRowsArePart(rq.stores, rq.direction, limit, x, i);
    forall e | e in rows ensures e in p.edges {
      assert e in ToSet(rows);
      InRowsAt(rq, limit, near, x, e);
      assert e in o || e in n;
      InResolved(rq, RowsAt(rq, limit, near), e);
    }
    if rq.direction != "incoming" { NoCutList(o, rq.maxEdges, p.edges); }
    if rq.direction != "outgoing" { NoCutList(n, rq.maxEdges, p.edges); }
  }

  /** When stored edges are distinct and resolvable, an untruncated answer is the whole neighbourhood. */
  lemma UntruncatedIsComplete(rq: Request, root: NodeId, p: Progress)
    requires rq.Valid() && Outcome(rq, root, p) && !p.truncated && CleanRows(rq)
    ensures Complete(rq, root, p)
  {
    hide Outcome, RowsAt, Near, Rows, StoreRows, CleanRows, Complete;
    forall x | x in Near(rq, rq.Limit(), root, rq.depth - 1) ensures Covers(rq, x) {
      forall i | 0 <= i < |rq.stores|
        ensures StoreRows(rq.stores[i], rq.direction, rq.Limit(), x) == StoreRows(rq.stores[i], rq.direction, None, x)
      {
        UntruncatedIsUncut(rq, root, p, x, i);
      }
      UncutEverywhere(rq.stores, rq.direction, rq.Limit(), x);
    }
    CoveredIsComplete(rq, root, p);
  }

  /** Over the stored rows: it has the nodes within `depth` hops, and a row exactly when some store keeps
      it, for the direction asked for, at a node within `depth - 1` hops. */
  lemma UntruncatedHasEveryRow(rq: Request, root: NodeId, p: Progress)
    requires rq.Valid() && Outcome(rq, root, p) && !p.truncated && CleanRows(rq)
    ensures forall x :: x in p.nodes <==> Hops(rq, root, rq.depth, x)
    ensures forall e :: e in p.edges <==>
              exists y, i :: Hops(rq, root, rq.depth - 1, y) && 0 <= i < |rq.stores| && Asked(rq, i, y, e)
  {
    hide Outcome, Hops, CleanRows;
    UntruncatedIsComplete(rq, root, p);
    CompleteMeans(rq, root, p);
    forall y, i, e | 0 <= i < |rq.stores| && Asked(rq, i, y, e) ensures LeadsOn(rq, y, e) { CleanLeadsOn(rq, i, y, e); }
  }

  lemma CleanLeadsOn(rq: Request, i: nat, y: NodeId, e: Edge)
    requires CleanRows(rq) && i < |rq.stores| && Asked(rq, i, y, e)
    ensures LeadsOn(rq, y, e)
  {
    hide Resolves, Stored, Distinct;
    assert CleanAt(rq, rq.stores[i], y);
    ResolvesMeans(rq, e);
  }

  // ---------------------------------------------------------------- repeated rows

  const ROOT_ID: NodeId := "r"
  const CALL := Edge("r", "a", "calls", 1, 0, "", "")
  const OTHER := Edge("r", "b", "references", 2, 0, "", "")

  function Named(id: NodeId): Node { Node(id, "function", id, "", "", "", "", "", [], 0) }

  /** One store whose root calls `a` in two identical rows and refers to `b` in a third. */
  function Repeated(): Request {
    var nodes := map["r" := Named("r"), "a" := Named("a"), "b" := Named("b")];
    Request([Index(nodes, map["r" := [CALL, CALL, OTHER]], map["a" := [CALL, CALL], "b" := [OTHER]])], "outgoing", 1, 10, 1)
  }

  lemma RepeatedRows(limit: Option<nat>)
    ensures Rows(Repeated().stores, "outgoing", limit, ROOT_ID) == Cut([CALL, CALL, OTHER], limit)
  {
    var rq := Repeated();
    assert Rows(rq.stores[..0], "outgoing", limit, ROOT_ID) == [];
    assert StoreRows(rq.stores[0], "outgoing", limit, ROOT_ID) == Cut([CALL, CALL, OTHER], limit);
  }

  lemma RepeatedResolves()
    ensures Repeated().Valid() && Find(Repeated().stores, ROOT_ID) == Some(Named(ROOT_ID))
    ensures Resolves(Repeated().stores, CALL) && Resolves(Repeated().stores, OTHER)
  {
    var q := Repeated().stores[0];
    assert Repeated().stores == [q] && q.Valid();
    assert forall id | id in q.nodes :: Find([q], id) == Some(q.nodes[id]);
  }

  /** With repeated rows an untruncated answer can miss an edge: every run on this store ends with
      the flag down and without the third row. */
  lemma RepeatedRowsHideAnEdge(p: Progress)
    requires Repeated().Valid() && Outcome(Repeated(), ROOT_ID, p)
    ensures !p.truncated && OTHER !in p.edges && !Complete(Repeated(), ROOT_ID, p)
  {
    hide Rows, Near, Find, Resolves, Known, Repeated, RowsAt, Ends;
    var rq := Repeated();
    assert rq.direction == "outgoing" && rq.depth == 1 && rq.maxEdges == 1 && rq.maxNodes == 10 by { RepeatedShape(); }
    NearZero(rq, rq.Limit(), ROOT_ID);
    NearZero(rq, None, ROOT_ID);
    RepeatedRows(rq.Limit());
    RepeatedRows(None);
    RepeatedResolves();
    assert Cut([CALL, CALL, OTHER], rq.Limit()) == [CALL, CALL];
    assert CALL in [CALL, CALL];
    InRowsAt(rq, rq.Limit(), {ROOT_ID}, ROOT_ID, CALL);
    forall e | e in RowsAt(rq, rq.Limit(), {ROOT_ID}) ensures e == CALL {
      var x := FromRowsAt(rq, rq.Limit(), {ROOT_ID}, e);
    }
    assert OTHER in [CALL, CALL, OTHER];
    InRowsAt(rq, None, {ROOT_ID}, ROOT_ID, OTHER);
    assert p.edges <= {CALL};
    NoEnds();
    assert |p.nodes| == |p.nodes.Keys| && (p.edges == {} ==> p.nodes.Keys == {ROOT_ID});
  }

  lemma RepeatedShape()
    ensures Repeated().direction == "outgoing" && Repeated().depth == 1
    ensures Repeated().maxEdges == 1 && Repeated().maxNodes == 10
  {
  }
}
