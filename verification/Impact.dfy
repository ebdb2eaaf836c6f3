/** The impact of a symbol: a depth-first walk along dependents, in which the step from a container
    to its members is free. Written twice in the program, over maps (query/query.go) and over the
    insertion-ordered node set (mcp/backend.go); both are proved against `Visit`. */
module Impact {
  import opened Collections
  import opened Graph
  import opened SubgraphSet

  const CONTAINER_KINDS: set<string> := {"class", "interface", "struct", "trait", "protocol", "module", "enum"}

  /** The members of a container; other nodes have none. */
  function ChildEdges(g: Store, id: NodeId): seq<Edge> {
    if id in g.nodes && g.nodes[id].kind in CONTAINER_KINDS then g.Outgoing(id, ["contains"]) else []
  }

  /** Whatever depends on the node: incoming edges of every kind but containment. */
  function DependentEdges(g: Store, id: NodeId): seq<Edge> {
    Select(g.Incoming(id, []), (e: Edge) => e.kind != "contains")
  }

  /** A step of the walk over the stored rows: from a container down to a member, or from a node up to
      whatever refers to it. */
  ghost predicate Hop(g: Store, x: NodeId, e: Edge) {
    && e in g.edges
    && if e.kind == "contains"
       then e.source == x && x in g.nodes && g.nodes[x].kind in {"class", "interface", "struct", "trait", "protocol", "module", "enum"}
       else e.target == x
  }

  lemma ChildEdgesMembers(g: Store, id: NodeId)
    ensures forall e :: e in ChildEdges(g, id) <==> Hop(g, id, e) && e.kind == "contains"
  {
    OutgoingMembers(g, id, ["contains"]);
  }

  lemma DependentEdgesMembers(g: Store, id: NodeId)
    ensures forall e :: e in DependentEdges(g, id) <==> e in g.edges && e.target == id && e.kind != "contains"
    ensures forall e :: e in DependentEdges(g, id) <==> Hop(g, id, e) && e.kind != "contains"
  {
    IncomingMembers(g, id, []);
    SelectMembers(g.Incoming(id, []), (e: Edge) => e.kind != "contains");
  }

  /** The walk's two lists at a node are its hops, each list in row order. */
  lemma HopsAre(g: Store, id: NodeId)
    ensures forall e :: Hop(g, id, e) <==> e in ChildEdges(g, id) || e in DependentEdges(g, id)
    ensures forall e | e in ChildEdges(g, id) :: e.kind == "contains" && e.source == id
    ensures forall e | e in DependentEdges(g, id) :: e.kind != "contains" && e.target == id
  {
    hide ChildEdges, DependentEdges;
    ChildEdgesMembers(g, id);
    DependentEdgesMembers(g, id);
  }

  // ---------------------------------------------------------------- the walk as a function

  datatype Found = Found(nodes: map<NodeId, Node>, edges: seq<Edge>, visited: set<NodeId>) {
    function Report(n: Node, e: Edge): Found { Found(nodes[n.id := n], edges + [e], visited) }
  }

  function Visit(g: Store, id: NodeId, maxDepth: int, depth: int, f: Found): (r: Found)
    requires g.Valid() && id in g.nodes
    ensures f.visited <= r.visited
    decreases g.nodes.Keys - f.visited, 0, 0
  {
    if depth >= maxDepth || id in f.visited then f
    else
      var marked := f.(visited := f.visited + {id});
      Dependents(g, DependentEdges(g, id), maxDepth, depth,
                 Children(g, ChildEdges(g, id), maxDepth, depth, marked))
  }

  /** Members are reached at their container's depth, unless they were expanded before. */
  function Children(g: Store, es: seq<Edge>, maxDepth: int, depth: int, f: Found): (r: Found)
    requires g.Valid()
    ensures f.visited <= r.visited
    decreases g.nodes.Keys - f.visited, 1, |es|
  {
    if es == [] then f
    else
      var n := |es| - 1;
      var r := Children(g, es[..n], maxDepth, depth, f);
      var child := es[n].target;
      if child !in g.nodes || child in r.visited then r
      else Visit(g, child, maxDepth, depth, r.Report(g.nodes[child], es[n]))
  }

  /** Dependents are reached one level deeper, unless they were reported before. */
  function Dependents(g: Store, es: seq<Edge>, maxDepth: int, depth: int, f: Found): (r: Found)
    requires g.Valid()
    ensures f.visited <= r.visited
    decreases g.nodes.Keys - f.visited, 1, |es|
  {
    if es == [] then f
    else
      var n := |es| - 1;
      var r := Dependents(g, es[..n], maxDepth, depth, f);
      var source := es[n].source;
      if source !in g.nodes || source in r.nodes then r
      else Visit(g, source, maxDepth, depth + 1, r.Report(g.nodes[source], es[n]))
  }

  function Radius(g: Store, start: NodeId, maxDepth: int): Found
    requires g.Valid() && start in g.nodes
  {
    Visit(g, start, maxDepth, 0, Found(map[start := g.nodes[start]], [], {}))
  }

  // ---------------------------------------------------------------- what may be reported

  /** A walk from the start: down containment edges, up all others. */
  datatype Trail = Here | Via(prev: Trail, edge: Edge) {
    function Cost(): nat {
      if Here? then 0 else prev.Cost() + if edge.kind == "contains" then 0 else 1
    }

    function End(start: NodeId): NodeId { if Here? then start else NewEnd(edge) }

    ghost predicate Valid(g: Store, start: NodeId) {
      Via? ==>
        && prev.Valid(g, start) && End(start) in g.nodes
        && Hop(g, prev.End(start), edge)
    }

    /** Every step starts below the bound. */
    predicate Under(maxDepth: int) { Via? ==> prev.Cost() < maxDepth }
  }

  /** The end of an edge that the walk arrives at. */
  function NewEnd(e: Edge): NodeId { if e.kind == "contains" then e.target else e.source }

  ghost predicate Leads(g: Store, start: NodeId, t: Trail, maxDepth: int, x: NodeId) {
    t.Valid(g, start) && t.Under(maxDepth) && t.End(start) == x
  }

  ghost predicate Impacted(g: Store, start: NodeId, maxDepth: int, x: NodeId) {
    exists t :: Leads(g, start, t, maxDepth, x)
  }

  /** Reported nodes are the store's and impacted; reported edges are the store's and join reported nodes. */
  ghost predicate Sound(g: Store, start: NodeId, maxDepth: int, f: Found) {
    && f.visited <= f.nodes.Keys
    && (forall x | x in f.nodes :: x in g.nodes && f.nodes[x] == g.nodes[x] && Impacted(g, start, maxDepth, x))
    && (forall e | e in f.edges :: e in g.edges && e.source in f.nodes && e.target in f.nodes)
  }

  lemma ReportIsSound(g: Store, start: NodeId, maxDepth: int, f: Found, t: Trail, e: Edge)
    requires g.Valid() && Sound(g, start, maxDepth, f) && t.Valid(g, start) && t.Cost() < maxDepth
    requires t.End(start) in f.nodes && NewEnd(e) in g.nodes
    requires Hop(g, t.End(start), e)
    ensures Sound(g, start, maxDepth, f.Report(g.nodes[NewEnd(e)], e))
    ensures Leads(g, start, Via(t, e), maxDepth, NewEnd(e))
  {
    assert Leads(g, start, Via(t, e), maxDepth, NewEnd(e));
    var r := f.Report(g.nodes[NewEnd(e)], e);
    assert forall d | d in r.edges :: d in f.edges || d == e;
  }

  lemma {:induction false} VisitSound(g: Store, start: NodeId, id: NodeId, maxDepth: int, depth: int, f: Found, t: Trail)
    requires g.Valid() && id in f.nodes && Sound(g, start, maxDepth, f)
    requires t.Valid(g, start) && t.End(start) == id && t.Cost() == depth
    ensures var r := Visit(g, id, maxDepth, depth, f); Sound(g, start, maxDepth, r) && f.nodes.Keys <= r.nodes.Keys
    decreases g.nodes.Keys - f.visited, 0, 0
  {
    hide Impacted, ChildEdges, DependentEdges;
    if depth < maxDepth && id !in f.visited {
      var marked := f.(visited := f.visited + {id});
      assert g.nodes.Keys - marked.visited < g.nodes.Keys - f.visited by {
        assert id in g.nodes.Keys - f.visited;
      }
      ChildrenSound(g, start, ChildEdges(g, id), maxDepth, depth, marked, t);
      var r := Children(g, ChildEdges(g, id), maxDepth, depth, marked);
      DependentsSound(g, start, DependentEdges(g, id), maxDepth, depth, r, t);
    }
  }

  lemma {:induction false} ChildrenSound(g: Store, start: NodeId, es: seq<Edge>, maxDepth: int, depth: int, f: Found, t: Trail)
    requires g.Valid() && Sound(g, start, maxDepth, f) && depth < maxDepth
    requires t.Valid(g, start) && t.Cost() == depth && t.End(start) in f.nodes
    requires forall e | e in es :: e in ChildEdges(g, t.End(start))
    ensures var r := Children(g, es, maxDepth, depth, f); Sound(g, start, maxDepth, r) && f.nodes.Keys <= r.nodes.Keys
    decreases g.nodes.Keys - f.visited, 1, |es|
  {
    hide Impacted, ChildEdges, DependentEdges, Sound;
    if es != [] {
      var n := |es| - 1;
      ChildrenSound(g, start, es[..n], maxDepth, depth, f, t);
      var r := Children(g, es[..n], maxDepth, depth, f);
      var child := es[n].target;
      assert es[n] in es;
      HopsAre(g, t.End(start));
      if child in g.nodes && child !in r.visited {
        ReportIsSound(g, start, maxDepth, r, t, es[n]);
        VisitSound(g, start, child, maxDepth, depth, r.Report(g.nodes[child], es[n]), Via(t, es[n]));
      }
    }
  }

  lemma {:induction false} DependentsSound(g: Store, start: NodeId, es: seq<Edge>, maxDepth: int, depth: int, f: Found, t: Trail)
    requires g.Valid() && Sound(g, start, maxDepth, f) && depth < maxDepth
    requires t.Valid(g, start) && t.Cost() == depth && t.End(start) in f.nodes
    requires forall e | e in es :: e in DependentEdges(g, t.End(start))
    ensures var r := Dependents(g, es, maxDepth, depth, f); Sound(g, start, maxDepth, r) && f.nodes.Keys <= r.nodes.Keys
    decreases g.nodes.Keys - f.visited, 1, |es|
  {
    hide Impacted, ChildEdges, DependentEdges, Sound;
    if es != [] {
      var n := |es| - 1;
      DependentsSound(g, start, es[..n], maxDepth, depth, f, t);
      var r := Dependents(g, es[..n], maxDepth, depth, f);
      var source := es[n].source;
      assert es[n] in es;
      HopsAre(g, t.End(start));
      if source in g.nodes && source !in r.nodes {
        ReportIsSound(g, start, maxDepth, r, t, es[n]);
        VisitSound(g, start, source, maxDepth, depth + 1, r.Report(g.nodes[source], es[n]), Via(t, es[n]));
      }
    }
  }

  /** Everything reported is impacted within the bound, at the cost of at most `maxDepth` dependency
      steps, and every reported edge joins two reported nodes. */
  lemma RadiusIsSound(g: Store, start: NodeId, maxDepth: int)
    requires g.Valid() && start in g.nodes
    ensures Sound(g, start, maxDepth, Radius(g, start, maxDepth)) && start in Radius(g, start, maxDepth).nodes
    ensures forall t: Trail | t.Under(maxDepth) && t.Via? :: t.Cost() <= maxDepth
  {
    assert Leads(g, start, Here, maxDepth, start);
    VisitSound(g, start, start, maxDepth, 0, Found(map[start := g.nodes[start]], [], {}), Here);
  }

  // ---------------------------------------------------------------- what must be reported

  /** All known members are expanded and all known dependents reported. */
  ghost predicate Expanded(g: Store, v: NodeId, f: Found) {
    && (forall e | e in ChildEdges(g, v) && e.target in g.nodes :: e.target in f.visited)
    && (forall e | e in DependentEdges(g, v) && e.source in g.nodes :: e.source in f.nodes)
  }

  ghost predicate AllExpanded(g: Store, ids: set<NodeId>, f: Found) { forall v | v in ids :: Expanded(g, v, f) }

  lemma ExpandedGrows(g: Store, ids: set<NodeId>, f: Found, r: Found)
    requires AllExpanded(g, ids, f) && f.nodes.Keys <= r.nodes.Keys && f.visited <= r.visited
    ensures AllExpanded(g, ids, r)
  {
    hide ChildEdges, DependentEdges;
    forall v | v in ids ensures Expanded(g, v, r) { assert Expanded(g, v, f); }
  }

  lemma ExpandedTogether(g: Store, a: set<NodeId>, b: set<NodeId>, c: set<NodeId>, f: Found)
    requires AllExpanded(g, b - a, f) && AllExpanded(g, c - b, f)
    ensures AllExpanded(g, c - a, f)
  {
    hide Expanded;
  }

  lemma {:induction false} VisitExpands(g: Store, id: NodeId, maxDepth: int, depth: int, f: Found)
    requires g.Valid() && id in g.nodes
    ensures var r := Visit(g, id, maxDepth, depth, f);
            && f.nodes.Keys <= r.nodes.Keys && (depth < maxDepth ==> id in r.visited)
            && AllExpanded(g, r.visited - f.visited, r)
    decreases g.nodes.Keys - f.visited, 0, 0
  {
    hide AllExpanded;
    if depth < maxDepth && id !in f.visited {
      var marked := f.(visited := f.visited + {id});
      assert g.nodes.Keys - marked.visited < g.nodes.Keys - f.visited by {
        assert id in g.nodes.Keys - f.visited;
      }
      var c := Children(g, ChildEdges(g, id), maxDepth, depth, marked);
      var r := Dependents(g, DependentEdges(g, id), maxDepth, depth, c);
      ChildrenExpand(g, ChildEdges(g, id), maxDepth, depth, marked);
      DependentsExpand(g, DependentEdges(g, id), maxDepth, depth, c);
      ExpandedGrows(g, c.visited - marked.visited, c, r);
      ExpandedTogether(g, marked.visited, c.visited, r.visited, r);
      AlsoExpanded(g, id, r.visited - marked.visited, r);
      assert r.visited - marked.visited + {id} == r.visited - f.visited;
    } else {
      NoneExpanded(g, f);
      assert f.visited - f.visited == {};
    }
  }

  lemma NoneExpanded(g: Store, f: Found)
    ensures AllExpanded(g, {}, f)
  {
  }

  lemma AlsoExpanded(g: Store, id: NodeId, ids: set<NodeId>, f: Found)
    requires Expanded(g, id, f) && AllExpanded(g, ids, f)
    ensures AllExpanded(g, ids + {id}, f)
  {
    hide Expanded;
  }

  lemma {:induction false} ChildrenExpand(g: Store, es: seq<Edge>, maxDepth: int, depth: int, f: Found)
    requires g.Valid() && depth < maxDepth
    ensures var r := Children(g, es, maxDepth, depth, f);
            && f.nodes.Keys <= r.nodes.Keys && AllExpanded(g, r.visited - f.visited, r)
            && (forall e | e in es && e.target in g.nodes :: e.target in r.visited)
    decreases g.nodes.Keys - f.visited, 1, |es|
  {
    hide AllExpanded;
    if es == [] {
      NoneExpanded(g, f);
      assert f.visited - f.visited == {};
    } else {
      var n := |es| - 1;
      ChildrenExpand(g, es[..n], maxDepth, depth, f);
      var r := Children(g, es[..n], maxDepth, depth, f);
      var child := es[n].target;
      if child in g.nodes && child !in r.visited {
        var reported := r.Report(g.nodes[child], es[n]);
        VisitExpands(g, child, maxDepth, depth, reported);
        var q := Visit(g, child, maxDepth, depth, reported);
        ExpandedGrows(g, r.visited - f.visited, r, q);
        ExpandedTogether(g, f.visited, r.visited, q.visited, q);
      }
      assert es == es[..n] + [es[n]];
    }
  }

  lemma {:induction false} DependentsExpand(g: Store, es: seq<Edge>, maxDepth: int, depth: int, f: Found)
    requires g.Valid()
    ensures var r := Dependents(g, es, maxDepth, depth, f);
            && f.nodes.Keys <= r.nodes.Keys && AllExpanded(g, r.visited - f.visited, r)
            && (forall e | e in es && e.source in g.nodes :: e.source in r.nodes)
    decreases g.nodes.Keys - f.visited, 1, |es|
  {
    hide AllExpanded;
    if es == [] {
      NoneExpanded(g, f);
      assert f.visited - f.visited == {};
    } else {
      var n := |es| - 1;
      DependentsExpand(g, es[..n], maxDepth, depth, f);
      var r := Dependents(g, es[..n], maxDepth, depth, f);
      var source := es[n].source;
      if source in g.nodes && source !in r.nodes {
        var reported := r.Report(g.nodes[source], es[n]);
        VisitExpands(g, source, maxDepth, depth + 1, reported);
        var q := Visit(g, source, maxDepth, depth + 1, reported);
        ExpandedGrows(g, r.visited - f.visited, r, q);
        ExpandedTogether(g, f.visited, r.visited, q.visited, q);
      }
      assert es == es[..n] + [es[n]];
    }
  }

  /** Members at no cost are all expanded, so their direct dependents are all reported. */
  lemma {:induction false} FreeTrailsAreExpanded(g: Store, start: NodeId, maxDepth: int, t: Trail)
    requires g.Valid() && start in g.nodes && 0 < maxDepth && t.Valid(g, start) && t.Cost() == 0
    ensures t.End(start) in Radius(g, start, maxDepth).visited
  {
    VisitExpands(g, start, maxDepth, 0, Found(map[start := g.nodes[start]], [], {}));
    var r := Radius(g, start, maxDepth);
    if t.Via? {
      FreeTrailsAreExpanded(g, start, maxDepth, t.prev);
      assert Expanded(g, t.prev.End(start), r);
      HopsAre(g, t.prev.End(start));
    }
  }

  /** Whatever the bound, what the symbol and its members directly affect is reported. */
  lemma DirectImpactIsReported(g: Store, start: NodeId, maxDepth: int, x: NodeId)
    requires g.Valid() && start in g.nodes && 0 < maxDepth && Impacted(g, start, 1, x)
    ensures x in Radius(g, start, maxDepth).nodes
  {
    var init := Found(map[start := g.nodes[start]], [], {});
    var r := Radius(g, start, maxDepth);
    var t :| Leads(g, start, t, 1, x);
    VisitExpands(g, start, maxDepth, 0, init);
    RadiusIsSound(g, start, maxDepth);
    if t.Via? {
      var v := t.prev.End(start);
      FreeTrailsAreExpanded(g, start, maxDepth, t.prev);
      assert Expanded(g, v, r);
      HopsAre(g, v);
    }
  }

  /** If no reported node was left unexpanded, the bound cut nothing: the full closure is reported. */
  lemma {:induction false} UncutIsComplete(g: Store, start: NodeId, maxDepth: int, t: Trail)
    requires g.Valid() && start in g.nodes && t.Valid(g, start)
    requires Radius(g, start, maxDepth).nodes.Keys <= Radius(g, start, maxDepth).visited
    ensures t.End(start) in Radius(g, start, maxDepth).nodes
  {
    var init := Found(map[start := g.nodes[start]], [], {});
    var r := Radius(g, start, maxDepth);
    VisitExpands(g, start, maxDepth, 0, init);
    RadiusIsSound(g, start, maxDepth);
    if t.Via? {
      var v := t.prev.End(start);
      UncutIsComplete(g, start, maxDepth, t.prev);
      assert Expanded(g, v, r);
      HopsAre(g, v);
    }
  }

  /** Nothing lies beyond a node that the bound left unexpanded. */
  ghost predicate NothingBeyond(g: Store, f: Found, v: NodeId) {
    forall e | Hop(g, v, e) && NewEnd(e) in g.nodes :: NewEnd(e) in f.nodes
  }

  lemma {:induction false} ClosedReportReaches(g: Store, start: NodeId, maxDepth: int, t: Trail)
    requires g.Valid() && start in g.nodes && t.Valid(g, start)
    requires forall v | v in Radius(g, start, maxDepth).nodes.Keys - Radius(g, start, maxDepth).visited ::
               NothingBeyond(g, Radius(g, start, maxDepth), v)
    ensures t.End(start) in Radius(g, start, maxDepth).nodes
  {
    var r := Radius(g, start, maxDepth);
    VisitExpands(g, start, maxDepth, 0, Found(map[start := g.nodes[start]], [], {}));
    RadiusIsSound(g, start, maxDepth);
    if t.Via? {
      var v := t.prev.End(start);
      ClosedReportReaches(g, start, maxDepth, t.prev);
      HopsAre(g, v);
      assert v in r.visited ==> Expanded(g, v, r);
      assert v !in r.visited ==> NothingBeyond(g, r, v);
    }
  }

  /** On one store, with any bound: the report is the full closure exactly when nothing unreported lies
      beyond the nodes that were reported but not expanded. */
  lemma FullIffNothingBeyond(g: Store, start: NodeId, maxDepth: int)
    requires g.Valid() && start in g.nodes
    ensures var r := Radius(g, start, maxDepth);
            (forall x :: x in r.nodes <==> exists t: Trail :: t.Valid(g, start) && t.End(start) == x) <==>
              forall v | v in r.nodes.Keys - r.visited :: NothingBeyond(g, r, v)
  {
    hide Radius, ChildEdges, DependentEdges;
    var r := Radius(g, start, maxDepth);
    RadiusIsSound(g, start, maxDepth);
    if forall v | v in r.nodes.Keys - r.visited :: NothingBeyond(g, r, v) {
      forall t: Trail | t.Valid(g, start) ensures t.End(start) in r.nodes { ClosedReportReaches(g, start, maxDepth, t); }
      forall x | x in r.nodes ensures exists t: Trail :: t.Valid(g, start) && t.End(start) == x {
        var t :| Leads(g, start, t, maxDepth, x);
      }
    }
    if forall x :: x in r.nodes <==> exists t: Trail :: t.Valid(g, start) && t.End(start) == x {
      forall v, e | v in r.nodes && Hop(g, v, e) && NewEnd(e) in g.nodes
        ensures NewEnd(e) in r.nodes
      {
        var t: Trail :| t.Valid(g, start) && t.End(start) == v;
        assert Via(t, e).Valid(g, start) && Via(t, e).End(start) == NewEnd(e);
      }
    }
  }

  // ---------------------------------------------------------------- a bound that never cuts

  /** The depth never exceeds the number of expanded nodes, so a bound as large as the store
      leaves no newly reported node unexpanded. */
  lemma {:induction false} DeepVisit(g: Store, id: NodeId, maxDepth: int, depth: int, f: Found)
    requires g.Valid() && id in g.nodes && |g.nodes| <= maxDepth
    requires f.visited <= g.nodes.Keys && depth <= |f.visited|
    ensures var r := Visit(g, id, maxDepth, depth, f);
            id in r.visited && r.visited <= g.nodes.Keys && r.nodes.Keys <= f.nodes.Keys + r.visited
    decreases g.nodes.Keys - f.visited, 0, 0
  {
    hide ChildEdges, DependentEdges;
    if id !in f.visited {
      var marked := f.(visited := f.visited + {id});
      SubsetIsSmaller(f.visited, g.nodes.Keys);
      assert g.nodes.Keys - marked.visited < g.nodes.Keys - f.visited by {
        assert id in g.nodes.Keys - f.visited;
      }
      var c := Children(g, ChildEdges(g, id), maxDepth, depth, marked);
      DeepChildren(g, ChildEdges(g, id), maxDepth, depth, marked);
      SubsetIsSmaller(marked.visited, c.visited);
      DeepDependents(g, DependentEdges(g, id), maxDepth, depth, c);
    }
  }

  lemma {:induction false} DeepChildren(g: Store, es: seq<Edge>, maxDepth: int, depth: int, f: Found)
    requires g.Valid() && |g.nodes| <= maxDepth
    requires f.visited <= g.nodes.Keys && depth <= |f.visited|
    ensures var r := Children(g, es, maxDepth, depth, f);
            r.visited <= g.nodes.Keys && r.nodes.Keys <= f.nodes.Keys + r.visited
    decreases g.nodes.Keys - f.visited, 1, |es|
  {
    hide Visit, Dependents;
    if es != [] {
      var n := |es| - 1;
      DeepChildren(g, es[..n], maxDepth, depth, f);
      var r := Children(g, es[..n], maxDepth, depth, f);
      SubsetIsSmaller(f.visited, r.visited);
      DeepMember(g, es[n], maxDepth, depth, r);
    }
  }

  lemma {:induction false} DeepMember(g: Store, e: Edge, maxDepth: int, depth: int, r: Found)
    requires g.Valid() && |g.nodes| <= maxDepth
    requires r.visited <= g.nodes.Keys && depth <= |r.visited|
    ensures e.target in g.nodes && e.target !in r.visited ==>
              var q := Visit(g, e.target, maxDepth, depth, r.Report(g.nodes[e.target], e));
              q.visited <= g.nodes.Keys && q.nodes.Keys <= r.nodes.Keys + q.visited
    decreases g.nodes.Keys - r.visited, 1, 0
  {
    hide Visit, Children, Dependents;
    if e.target in g.nodes && e.target !in r.visited {
      var reported := r.Report(g.nodes[e.target], e);
      assert reported.visited == r.visited && reported.nodes.Keys == r.nodes.Keys + {e.target};
      DeepVisit(g, e.target, maxDepth, depth, reported);
    }
  }

  lemma {:induction false} DeepDependents(g: Store, es: seq<Edge>, maxDepth: int, depth: int, f: Found)
    requires g.Valid() && |g.nodes| <= maxDepth
    requires f.visited <= g.nodes.Keys && depth + 1 <= |f.visited|
    ensures var r := Dependents(g, es, maxDepth, depth, f);
            r.visited <= g.nodes.Keys && r.nodes.Keys <= f.nodes.Keys + r.visited
    decreases g.nodes.Keys - f.visited, 1, |es|
  {
    hide Visit, Children;
    if es != [] {
      var n := |es| - 1;
      DeepDependents(g, es[..n], maxDepth, depth, f);
      var r := Dependents(g, es[..n], maxDepth, depth, f);
      SubsetIsSmaller(f.visited, r.visited);
      DeepArrival(g, es[n], maxDepth, depth, r);
    }
  }

  lemma {:induction false} DeepArrival(g: Store, e: Edge, maxDepth: int, depth: int, r: Found)
    requires g.Valid() && |g.nodes| <= maxDepth
    requires r.visited <= g.nodes.Keys && depth + 1 <= |r.visited|
    ensures e.source in g.nodes && e.source !in r.nodes ==>
              var q := Visit(g, e.source, maxDepth, depth + 1, r.Report(g.nodes[e.source], e));
              q.visited <= g.nodes.Keys && q.nodes.Keys <= r.nodes.Keys + q.visited
    decreases g.nodes.Keys - r.visited, 1, 0
  {
    hide Visit, Children, Dependents;
    if e.source in g.nodes && e.source !in r.nodes {
      var reported := r.Report(g.nodes[e.source], e);
      assert reported.visited == r.visited && reported.nodes.Keys == r.nodes.Keys + {e.source};
      DeepVisit(g, e.source, maxDepth, depth + 1, reported);
    }
  }

  /** With a bound of at least the number of nodes the report is exactly the full closure. */
  lemma LargeBoundIsExact(g: Store, start: NodeId, maxDepth: int, x: NodeId)
    requires g.Valid() && start in g.nodes && |g.nodes| <= maxDepth
    ensures x in Radius(g, start, maxDepth).nodes <==> exists t: Trail :: t.Valid(g, start) && t.End(start) == x
  {
    DeepVisit(g, start, maxDepth, 0, Found(map[start := g.nodes[start]], [], {}));
    RadiusIsSound(g, start, maxDepth);
    if x in Radius(g, start, maxDepth).nodes {
      var t :| Leads(g, start, t, maxDepth, x);
    }
    forall t: Trail | t.Valid(g, start) && t.End(start) == x ensures x in Radius(g, start, maxDepth).nodes {
      UncutIsComplete(g, start, maxDepth, t);
    }
  }

  // ---------------------------------------------------------------- which edges are reported, in what order

  /** The node at which an edge is followed. */
  function Parent(e: Edge): NodeId { if e.kind == "contains" then e.source else e.target }

  /** `d` is followed before `e` at one node: members come before dependents, rows in storage order. */
  ghost predicate Earlier(g: Store, d: Edge, e: Edge) {
    || (d.kind == "contains" && e.kind != "contains")
    || ((d.kind == "contains" <==> e.kind == "contains") && exists p, q :: 0 <= p < q < |g.edges| && g.edges[p] == d && g.edges[q] == e)
  }

  ghost predicate InRowOrder(g: Store, edges: seq<Edge>) {
    forall i, k | 0 <= i < k < |edges| && Parent(edges[i]) == Parent(edges[k]) :: Earlier(g, edges[i], edges[k])
  }

  /** Dependents are reported once, members are followed once, and every node but the start is reported. */
  ghost predicate ReportedOnce(start: NodeId, nodes: map<NodeId, Node>, edges: seq<Edge>) {
    && nodes.Keys == {start} + (set e | e in edges :: NewEnd(e))
    && (forall i, k | 0 <= i < k < |edges| && NewEnd(edges[i]) == NewEnd(edges[k]) ::
          edges[i].kind != "contains" && edges[k].kind == "contains")
    && (forall e | e in edges && NewEnd(e) == start :: e.kind == "contains")
  }

  /** What the walk keeps: its edges hang from expanded nodes and its members are expanded or next. */
  ghost predicate Tracked(g: Store, start: NodeId, f: Found, next: set<NodeId>) {
    && InRowOrder(g, f.edges) && ReportedOnce(start, f.nodes, f.edges)
    && (forall e | e in f.edges :: Parent(e) in f.visited)
    && (forall e | e in f.edges && e.kind == "contains" :: NewEnd(e) in f.visited + next)
  }

  lemma MembersInRowOrder(g: Store, id: NodeId, i: nat, j: nat)
    requires i < j < |ChildEdges(g, id)|
    ensures Earlier(g, ChildEdges(g, id)[i], ChildEdges(g, id)[j])
  {
    HopsAre(g, id);
    assert ChildEdges(g, id)[i] in ChildEdges(g, id) && ChildEdges(g, id)[j] in ChildEdges(g, id);
    SelectKeepsOrder(g.edges, (e: Edge) => e.source == id && KindAllowed(e, ["contains"]), i, j);
  }

  lemma DependentsInRowOrder(g: Store, id: NodeId, i: nat, j: nat)
    requires i < j < |DependentEdges(g, id)|
    ensures Earlier(g, DependentEdges(g, id)[i], DependentEdges(g, id)[j])
  {
    HopsAre(g, id);
    var d, e := DependentEdges(g, id)[i], DependentEdges(g, id)[j];
    assert d in DependentEdges(g, id) && e in DependentEdges(g, id);
    var rows := g.Incoming(id, []);
    SelectKeepsOrder(rows, (e: Edge) => e.kind != "contains", i, j);
    var p, q :| 0 <= p < q < |rows| && rows[p] == d && rows[q] == e;
    SelectKeepsOrder(g.edges, (e: Edge) => e.target == id && KindAllowed(e, []), p, q);
  }

  lemma OneMoreInOrder(g: Store, edges: seq<Edge>, e: Edge)
    requires InRowOrder(g, edges) && forall d | d in edges && Parent(d) == Parent(e) :: Earlier(g, d, e)
    ensures InRowOrder(g, edges + [e])
  {
    hide Earlier, Parent;
    var more := edges + [e];
    forall i, k | 0 <= i < k < |more| && Parent(more[i]) == Parent(more[k]) ensures Earlier(g, more[i], more[k]) {
      if k < |edges| { assert more[i] == edges[i] && more[k] == edges[k]; } else { assert more[i] in edges; }
    }
  }

  lemma OneMoreOnce(start: NodeId, nodes: map<NodeId, Node>, edges: seq<Edge>, e: Edge, n: Node)
    requires ReportedOnce(start, nodes, edges) && n.id == NewEnd(e)
    requires if e.kind == "contains" then forall d | d in edges && d.kind == "contains" :: NewEnd(d) != NewEnd(e) else NewEnd(e) !in nodes
    ensures ReportedOnce(start, nodes[n.id := n], edges + [e])
  {
    hide NewEnd;
    var more := edges + [e];
    forall i, k | 0 <= i < k < |more| && NewEnd(more[i]) == NewEnd(more[k])
      ensures more[i].kind != "contains" && more[k].kind == "contains"
    {
      if k < |edges| { assert more[i] == edges[i] && more[k] == edges[k]; } else { assert more[i] in edges; }
    }
    assert forall d | d in more :: d in edges || d == e;
    assert (set d | d in more :: NewEnd(d)) == (set d | d in edges :: NewEnd(d)) + {NewEnd(e)} by {
      assert forall d | d in edges :: d in more;
      assert e in more;
    }
  }

  /** Reporting one more edge at an expanded node. */
  lemma ReportIsTracked(g: Store, start: NodeId, f: Found, e: Edge)
    requires g.Valid() && Tracked(g, start, f, {}) && NewEnd(e) in g.nodes && Parent(e) in f.visited
    requires forall d | d in f.edges && Parent(d) == Parent(e) :: Earlier(g, d, e)
    requires if e.kind == "contains" then NewEnd(e) !in f.visited else NewEnd(e) !in f.nodes
    ensures Tracked(g, start, f.Report(g.nodes[NewEnd(e)], e), {NewEnd(e)})
    ensures e.kind != "contains" ==> Tracked(g, start, f.Report(g.nodes[NewEnd(e)], e), {})
  {
    hide Earlier, InRowOrder, ReportedOnce, Parent, NewEnd;
    OneMoreInOrder(g, f.edges, e);
    OneMoreOnce(start, f.nodes, f.edges, e, g.nodes[NewEnd(e)]);
    assert forall d | d in f.edges + [e] :: d in f.edges || d == e;
  }

  /** New edges hang from nodes that were expanded meanwhile. */
  ghost predicate Extends(f: Found, r: Found) { f.edges <= r.edges && Fresh(f, r) && f.visited <= r.visited }

  ghost predicate Fresh(f: Found, r: Found)
  {
    forall e | e in r.edges :: e in f.edges || Parent(e) in r.visited - f.visited
  }

  lemma {:induction false} VisitIsTracked(g: Store, start: NodeId, id: NodeId, maxDepth: int, depth: int, f: Found)
    requires g.Valid() && id in g.nodes && Tracked(g, start, f, {id})
    ensures var r := Visit(g, id, maxDepth, depth, f);
            && Extends(f, r) && Tracked(g, start, r, {id})
            && (depth < maxDepth || Tracked(g, start, f, {}) ==> Tracked(g, start, r, {}))
    decreases g.nodes.Keys - f.visited, 0, 0
  {
    hide InRowOrder, ReportedOnce, ChildEdges, DependentEdges;
    if depth < maxDepth && id !in f.visited {
      var marked := f.(visited := f.visited + {id});
      assert g.nodes.Keys - marked.visited < g.nodes.Keys - f.visited by { assert id in g.nodes.Keys - f.visited; }
      var c := Children(g, ChildEdges(g, id), maxDepth, depth, marked);
      var r := Dependents(g, DependentEdges(g, id), maxDepth, depth, c);
      assert Tracked(g, start, marked, {});
      assert ChildEdges(g, id)[..|ChildEdges(g, id)|] == ChildEdges(g, id);
      assert DependentEdges(g, id)[..|DependentEdges(g, id)|] == DependentEdges(g, id);
      HopsAre(g, id);
      ChildrenAreTracked(g, start, id, |ChildEdges(g, id)|, maxDepth, depth, marked);
      DependentsAreTracked(g, start, id, |DependentEdges(g, id)|, maxDepth, depth, c);
    }
  }

  lemma {:induction false} ChildrenAreTracked(g: Store, start: NodeId, id: NodeId, k: nat, maxDepth: int, depth: int, f: Found)
    requires g.Valid() && Tracked(g, start, f, {}) && id in f.visited && depth < maxDepth && k <= |ChildEdges(g, id)|
    requires forall e | e in f.edges :: Parent(e) != id
    ensures var r := Children(g, ChildEdges(g, id)[..k], maxDepth, depth, f);
            && f.edges <= r.edges && f.visited <= r.visited && Tracked(g, start, r, {})
            && (forall e | e in r.edges :: e in f.edges || e in ChildEdges(g, id)[..k] || Parent(e) in r.visited - f.visited)
    decreases g.nodes.Keys - f.visited, 1, k
  {
    hide Tracked, ChildEdges, Earlier, Hop;
    var all := ChildEdges(g, id);
    HopsAre(g, id);
    if k > 0 {
      ChildrenAreTracked(g, start, id, k - 1, maxDepth, depth, f);
      assert all[..k][..k - 1] == all[..k - 1];
      var e := all[k - 1];
      assert e in all;
      var r := Children(g, all[..k - 1], maxDepth, depth, f);
      if e.target in g.nodes && e.target !in r.visited {
        var reported := r.Report(g.nodes[e.target], e);
        forall d | d in r.edges && Parent(d) == Parent(e) ensures Earlier(g, d, e) {
          assert d in all[..k - 1];
          var i :| 0 <= i < k - 1 && all[..k - 1][i] == d;
          MembersInRowOrder(g, id, i, k - 1);
        }
        ReportIsTracked(g, start, r, e);
        VisitIsTracked(g, start, e.target, maxDepth, depth, reported);
        assert reported.edges == r.edges + [e];
      }
      assert forall d | d in all[..k - 1] :: d in all[..k];
      assert all[..k][k - 1] == e;
    }
  }

  lemma {:induction false} DependentsAreTracked(g: Store, start: NodeId, id: NodeId, k: nat, maxDepth: int, depth: int, f: Found)
    requires g.Valid() && Tracked(g, start, f, {}) && id in f.visited && k <= |DependentEdges(g, id)|
    requires forall e | e in f.edges && Parent(e) == id :: e.kind == "contains"
    ensures var r := Dependents(g, DependentEdges(g, id)[..k], maxDepth, depth, f);
            && f.edges <= r.edges && f.visited <= r.visited && Tracked(g, start, r, {})
            && (forall e | e in r.edges :: e in f.edges || e in DependentEdges(g, id)[..k] || Parent(e) in r.visited - f.visited)
    decreases g.nodes.Keys - f.visited, 1, k
  {
    hide Tracked, DependentEdges, Earlier, Hop;
    var all := DependentEdges(g, id);
    HopsAre(g, id);
    if k > 0 {
      DependentsAreTracked(g, start, id, k - 1, maxDepth, depth, f);
      assert all[..k][..k - 1] == all[..k - 1];
      var e := all[k - 1];
      assert e in all;
      var r := Dependents(g, all[..k - 1], maxDepth, depth, f);
      if e.source in g.nodes && e.source !in r.nodes {
        var reported := r.Report(g.nodes[e.source], e);
        forall d | d in r.edges && Parent(d) == Parent(e) ensures Earlier(g, d, e) {
          if d in f.edges {
            MembersFirst(g, d, e);
          } else {
            assert d in all[..k - 1];
            var i :| 0 <= i < k - 1 && all[..k - 1][i] == d;
            DependentsInRowOrder(g, id, i, k - 1);
          }
        }
        ReportIsTracked(g, start, r, e);
        VisitIsTracked(g, start, e.source, maxDepth, depth + 1, reported);
        assert reported.edges == r.edges + [e];
      }
      assert forall d | d in all[..k - 1] :: d in all[..k];
      assert all[..k][k - 1] == e;
    }
  }

  lemma MembersFirst(g: Store, d: Edge, e: Edge)
    requires d.kind == "contains" && e.kind != "contains"
    ensures Earlier(g, d, e)
  {
  }

  /** The reported edges: one for every reported node but the start, a second only where a member had
      been reported as a dependent before, and at each node in order. */
  lemma RadiusEdges(g: Store, start: NodeId, maxDepth: int)
    requires g.Valid() && start in g.nodes
    ensures var r := Radius(g, start, maxDepth);
            ReportedOnce(start, r.nodes, r.edges) && InRowOrder(g, r.edges)
  {
    var init := Found(map[start := g.nodes[start]], [], {});
    assert Tracked(g, start, init, {});
    VisitIsTracked(g, start, start, maxDepth, 0, init);
  }

  // ---------------------------------------------------------------- which bounds are exact

  /** The report is exactly what is impacted within the bound, on every store. */
  ghost predicate ExactBound(maxDepth: int) {
    forall g: Store, start, x | g.Valid() && start in g.nodes ::
      x in Radius(g, start, maxDepth).nodes <==> Impacted(g, start, maxDepth, x)
  }

  /** Node `k` of a chain of dependents. */
  function Link(k: nat): NodeId { seq(k, _ => 'n') }

  const LAST: NodeId := "last"

  function Plain(id: NodeId): Node { Node(id, "function", "", "", "", "", "", "", [], 0) }

  function Call(source: NodeId, target: NodeId): Edge { Edge(source, target, "calls", 0, 0, "", "") }

  function ChainEdges(k: nat): seq<Edge> {
    if k == 0 then [] else ChainEdges(k - 1) + [Call(Link(k), Link(k - 1))]
  }

  function ChainNodes(k: nat): map<NodeId, Node> {
    if k == 0 then map[Link(0) := Plain(Link(0)), LAST := Plain(LAST)]
    else ChainNodes(k - 1)[Link(k) := Plain(Link(k))]
  }

  /** Link d depends on the start through the whole chain and also directly; LAST depends on link d. */
  function Shortcut(d: nat): Store {
    Store(ChainNodes(d), ChainEdges(d) + [Call(Link(d), Link(0)), Call(LAST, Link(d))])
  }

  lemma LinksDiffer(j: nat, k: nat)
    ensures Link(j) == Link(k) ==> j == k
    ensures Link(k) != LAST
  {
    assert |Link(j)| == j && |Link(k)| == k;
    if k == 4 { assert Link(k)[0] == 'n' && LAST[0] == 'l'; }
  }

  lemma {:induction false} ChainNodesAre(k: nat, j: nat)
    requires j <= k
    ensures Link(j) in ChainNodes(k) && LAST in ChainNodes(k)
    ensures forall id | id in ChainNodes(k) :: ChainNodes(k)[id] == Plain(id)
  {
    if k > 0 { ChainNodesAre(k - 1, if j < k then j else 0); }
  }

  lemma {:induction false} ChainIncoming(k: nat, j: nat, keep: Edge -> bool)
    requires forall e :: keep(e) <==> e.target == Link(j) && KindAllowed(e, [])
    ensures Select(ChainEdges(k), keep) == if j < k then [Call(Link(j + 1), Link(j))] else []
  {
    if k > 0 {
      ChainIncoming(k - 1, j, keep);
      LinksDiffer(k - 1, j);
      var n := |ChainEdges(k)| - 1;
      assert ChainEdges(k)[..n] == ChainEdges(k - 1);
    }
  }

  lemma DependentsOf(d: nat, id: NodeId, j: nat)
    requires id == Link(j) && j < d
    ensures DependentEdges(Shortcut(d), id) ==
            [Call(Link(j + 1), id)] + if j == 0 then [Call(Link(d), Link(0))] else []
  {
    var g := Shortcut(d);
    var last := [Call(Link(d), Link(0)), Call(LAST, Link(d))];
    var keep := (e: Edge) => e.target == id && KindAllowed(e, []);
    ChainIncoming(d, j, keep);
    SelectAppend(ChainEdges(d), last, keep);
    LinksDiffer(0, j);
    LinksDiffer(d, j);
    assert last[..1] == [Call(Link(d), Link(0))] && last[..1][..0] == [];
    assert Select(last[..1], keep) == if j == 0 then [Call(Link(d), Link(0))] else [];
    assert Select(last, keep) == Select(last[..1], keep);
    assert g.Incoming(id, []) == Select(ChainEdges(d), keep) + Select(last, keep);
    SelectAll(g.Incoming(id, []), (e: Edge) => e.kind != "contains");
  }

  /** From link `j` at depth `j` the walk runs up the chain and stops on arriving at link `d`. */
  lemma {:induction false} ChainRun(d: nat, j: nat, f: Found)
    requires 0 < j <= d && Shortcut(d).Valid() && Link(j) in Shortcut(d).nodes
    requires Link(j) in f.nodes && Link(j) !in f.visited && LAST !in f.nodes
    requires forall i | j < i <= d :: Link(i) !in f.nodes && Link(i) !in f.visited
    ensures var r := Visit(Shortcut(d), Link(j), d, j, f); LAST !in r.nodes && Link(d) in r.nodes
    decreases d - j
  {
    hide ChildEdges, DependentEdges, Link, Shortcut, LAST;
    if j < d {
      var g := Shortcut(d);
      var e := Call(Link(j + 1), Link(j));
      NoMembers(d, j);
      DependentsOf(d, Link(j), j);
      NodesOf(d, j + 1);
      LinksDiffer(j, j + 1);
      LinksDiffer(0, j + 1);
      var marked := f.(visited := f.visited + {Link(j)});
      assert Children(g, [], d, j, marked) == marked;
      var reported := marked.Report(g.nodes[Link(j + 1)], e);
      forall i | j + 1 < i <= d ensures Link(i) !in reported.nodes && Link(i) !in reported.visited {
        LinksDiffer(i, j + 1);
        LinksDiffer(i, j);
      }
      assert [e][..0] == [];
      assert Dependents(g, [], d, j, marked) == marked;
      assert Dependents(g, [e], d, j, marked) == Visit(g, Link(j + 1), d, j + 1, reported);
      ChainRun(d, j + 1, reported);
    }
  }

  lemma NodesOf(d: nat, j: nat)
    requires j <= d
    ensures Shortcut(d).Valid() && Link(j) in Shortcut(d).nodes && LAST in Shortcut(d).nodes
    ensures Shortcut(d).nodes[Link(j)].id == Link(j)
  {
    ChainNodesAre(d, j);
  }

  lemma NoMembers(d: nat, j: nat)
    requires j <= d
    ensures ChildEdges(Shortcut(d), Link(j)) == []
  {
    ChainNodesAre(d, j);
    assert "function" !in CONTAINER_KINDS;
  }

  /** The whole run: link d is first met at depth d, is never expanded, and LAST stays unreported. */
  lemma ShortcutRun(d: nat)
    requires 1 < d && Shortcut(d).Valid() && Link(0) in Shortcut(d).nodes
    ensures LAST !in Radius(Shortcut(d), Link(0), d).nodes
  {
    hide ChildEdges, DependentEdges, Link, Shortcut, LAST;
    var g := Shortcut(d);
    var init := Found(map[Link(0) := g.nodes[Link(0)]], [], {});
    var marked := init.(visited := {Link(0)});
    var e, short := Call(Link(1), Link(0)), Call(Link(d), Link(0));
    NoMembers(d, 0);
    DependentsOf(d, Link(0), 0);
    NodesOf(d, 1);
    LinksDiffer(0, 1);
    LinksDiffer(1, 0);
    assert init.visited + {Link(0)} == {Link(0)};
    assert Children(g, [], d, 0, marked) == marked;
    var reported := marked.Report(g.nodes[Link(1)], e);
    forall i | 0 < i <= d ensures Link(i) !in marked.nodes && Link(i) !in marked.visited && (i != 1 ==> Link(i) !in reported.nodes) {
      LinksDiffer(i, 0);
      LinksDiffer(i, 1);
    }
    ChainRun(d, 1, reported);
    assert [e][..0] == [] && [e, short][..1] == [e];
    assert [e] + [short] == [e, short];
    assert Dependents(g, [], d, 0, marked) == marked;
    assert Dependents(g, [e], d, 0, marked) == Visit(g, Link(1), d, 1, reported);
    assert Dependents(g, [e, short], d, 0, marked) == Dependents(g, [e], d, 0, marked);
  }

  /** LAST costs two steps, through the direct edge. */
  lemma LastIsImpacted(d: nat)
    requires 1 < d
    ensures Impacted(Shortcut(d), Link(0), d, LAST)
  {
    var g := Shortcut(d);
    var short, last := Call(Link(d), Link(0)), Call(LAST, Link(d));
    NodesOf(d, d);
    assert g.edges[|g.edges| - 2] == short && g.edges[|g.edges| - 1] == last;
    TwoSteps(g, Link(0), short, last, d);
  }

  lemma TwoSteps(g: Store, start: NodeId, a: Edge, b: Edge, maxDepth: int)
    requires Hop(g, start, a) && Hop(g, a.source, b) && 1 < maxDepth
    requires a.kind != "contains" && b.kind != "contains" && a.source in g.nodes && b.source in g.nodes
    ensures Impacted(g, start, maxDepth, b.source)
  {
    var t := Via(Here, a);
    assert t.prev.Valid(g, start) && t.prev.End(start) == start;
    assert t.End(start) == a.source && t.Valid(g, start);
    assert Leads(g, start, Via(t, b), maxDepth, b.source);
  }

  /** The walk is exact on every store for the bounds up to one and for no other: a node first met
      at the bound is not expanded when it is met again nearer. */
  lemma ExactBoundsAreUpToOne(maxDepth: int)
    ensures ExactBound(maxDepth) <==> maxDepth <= 1
  {
    if maxDepth <= 1 {
      forall g: Store, start, x | g.Valid() && start in g.nodes
        ensures x in Radius(g, start, maxDepth).nodes <==> Impacted(g, start, maxDepth, x)
      {
        RadiusIsSound(g, start, maxDepth);
        if Impacted(g, start, maxDepth, x) {
          if maxDepth == 1 { DirectImpactIsReported(g, start, maxDepth, x); } else { OnlyStart(g, start, maxDepth, x); }
        }
      }
    } else {
      NodesOf(maxDepth, 0);
      ShortcutRun(maxDepth);
      LastIsImpacted(maxDepth);
    }
  }

  lemma OnlyStart(g: Store, start: NodeId, maxDepth: int, x: NodeId)
    requires maxDepth <= 0 && Impacted(g, start, maxDepth, x)
    ensures x == start
  {
    var t :| Leads(g, start, t, maxDepth, x);
  }

  // ---------------------------------------------------------------- the two implementations

  function Targets(es: seq<Edge>): seq<NodeId> { seq(|es|, i requires 0 <= i < |es| => es[i].target) }

  function Sources(es: seq<Edge>): seq<NodeId> { seq(|es|, i requires 0 <= i < |es| => es[i].source) }

  lemma FetchedTargets(g: Store, es: seq<Edge>)
    ensures forall k | 0 <= k < |es| ::
              && (es[k].target in g.NodesByIds(Targets(es)) <==> es[k].target in g.nodes)
              && (es[k].target in g.nodes ==> g.NodesByIds(Targets(es))[es[k].target] == g.nodes[es[k].target])
  {
    assert forall k | 0 <= k < |es| :: Targets(es)[k] == es[k].target;
  }

  lemma FetchedSources(g: Store, es: seq<Edge>)
    ensures forall k | 0 <= k < |es| ::
              && (es[k].source in g.NodesByIds(Sources(es)) <==> es[k].source in g.nodes)
              && (es[k].source in g.nodes ==> g.NodesByIds(Sources(es))[es[k].source] == g.nodes[es[k].source])
  {
    assert forall k | 0 <= k < |es| :: Sources(es)[k] == es[k].source;
  }

  /** The maps and the edge list that the recursion of query/query.go shares. */
  class Collected {
    var nodes: map<NodeId, Node>
    var edges: seq<Edge>
    var visited: set<NodeId>

    ghost function Value(): Found reads this { Found(nodes, edges, visited) }

    constructor ()
      ensures Value() == Found(map[], [], {})
    {
      nodes, edges, visited := map[], [], {};
    }

    method ImpactRecursive(g: Store, nodeId: NodeId, maxDepth: int, currentDepth: int)
      requires g.Valid() && nodeId in g.nodes
      modifies this
      ensures Value() == Visit(g, nodeId, maxDepth, currentDepth, old(Value()))
      decreases g.nodes.Keys - visited, 0
    {
      if currentDepth >= maxDepth || nodeId in visited { return; }
      assert g.nodes.Keys - (visited + {nodeId}) < g.nodes.Keys - visited by { assert nodeId in g.nodes.Keys - visited; }
      visited := visited + {nodeId};
      if g.nodes[nodeId].kind in CONTAINER_KINDS {
        IntoChildren(g, g.Outgoing(nodeId, ["contains"]), maxDepth, currentDepth);
      }
      IntoDependents(g, DependentEdges(g, nodeId), maxDepth, currentDepth);
    }

    method IntoChildren(g: Store, containsEdges: seq<Edge>, maxDepth: int, currentDepth: int)
      requires g.Valid()
      modifies this
      ensures Value() == Children(g, containsEdges, maxDepth, currentDepth, old(Value()))
      decreases g.nodes.Keys - visited, 1
    {
      var childMap := g.NodesByIds(Targets(containsEdges));
      FetchedTargets(g, containsEdges);
      for k := 0 to |containsEdges|
        invariant Value() == Children(g, containsEdges[..k], maxDepth, currentDepth, old(Value()))
        invariant old(visited) <= visited
      {
        var e := containsEdges[k];
        assert containsEdges[..k + 1][..k] == containsEdges[..k];
        if e.target in childMap && childMap[e.target].id !in visited {
          var child := childMap[e.target];
          nodes := nodes[child.id := child];
          edges := edges + [e];
          ImpactRecursive(g, child.id, maxDepth, currentDepth);
        }
      }
      assert containsEdges[..|containsEdges|] == containsEdges;
    }

    method IntoDependents(g: Store, incoming: seq<Edge>, maxDepth: int, currentDepth: int)
      requires g.Valid()
      modifies this
      ensures Value() == Dependents(g, incoming, maxDepth, currentDepth, old(Value()))
      decreases g.nodes.Keys - visited, 1
    {
      var sources := g.NodesByIds(Sources(incoming));
      FetchedSources(g, incoming);
      for k := 0 to |incoming|
        invariant Value() == Dependents(g, incoming[..k], maxDepth, currentDepth, old(Value()))
        invariant old(visited) <= visited
      {
        var e := incoming[k];
        assert incoming[..k + 1][..k] == incoming[..k];
        if e.source in sources && sources[e.source].id !in nodes {
          var n := sources[e.source];
          nodes := nodes[n.id := n];
          edges := edges + [e];
          ImpactRecursive(g, n.id, maxDepth, currentDepth + 1);
        }
      }
      assert incoming[..|incoming|] == incoming;
    }
  }

  /** The implementation over maps. */
  method GetImpactRadius(g: Store, nodeId: NodeId, maxDepth: int) returns (nodes: map<NodeId, Node>, edges: seq<Edge>)
    requires g.Valid()
    ensures nodeId !in g.nodes ==> nodes == map[] && edges == []
    ensures nodeId in g.nodes ==>
              nodes == Radius(g, nodeId, maxDepth).nodes && edges == Radius(g, nodeId, maxDepth).edges
  {
    var c := new Collected();
    if nodeId !in g.nodes { return c.nodes, c.edges; }
    c.nodes := c.nodes[nodeId := g.nodes[nodeId]];
    c.ImpactRecursive(g, nodeId, maxDepth, 0);
    return c.nodes, c.edges;
  }

  /** The order of first report: the start, then the new end of each edge unless listed before. */
  function ReportOrder(start: NodeId, edges: seq<Edge>): seq<NodeId> {
    if edges == [] then [start]
    else
      var n := |edges| - 1;
      var earlier := ReportOrder(start, edges[..n]);
      if NewEnd(edges[n]) in earlier then earlier else earlier + [NewEnd(edges[n])]
  }

  ghost predicate InReportOrder(start: NodeId, sg: Subgraph)
    reads sg
  {
    Tidy(sg.Viewed()) && sg.order == ReportOrder(start, sg.edges)
  }

  ghost function Value(sg: Subgraph, visited: set<NodeId>): Found reads sg { Found(sg.nodes, sg.edges, visited) }

  method Report(ghost start: NodeId, sg: Subgraph, n: Node, e: Edge)
    requires InReportOrder(start, sg) && NewEnd(e) == n.id
    modifies sg`order, sg`nodes, sg`edges
    ensures InReportOrder(start, sg)
    ensures sg.nodes == old(sg.nodes)[n.id := n] && sg.edges == old(sg.edges) + [e]
  {
    assert n.id in sg.order <==> n.id in sg.nodes by { assert n.id in sg.order <==> n.id in ToSet(sg.order); }
    SetKeepsTidy(sg.Viewed(), n);
    sg.Set(n);
    assert (sg.edges + [e])[..|sg.edges|] == sg.edges;
    sg.edges := sg.edges + [e];
  }

  method ImpactRecursive(g: Store, ghost start: NodeId, nodeId: NodeId, maxDepth: int, currentDepth: int,
                         sg: Subgraph, visited: set<NodeId>)
    returns (seen: set<NodeId>)
    requires g.Valid() && nodeId in g.nodes && InReportOrder(start, sg)
    modifies sg`order, sg`nodes, sg`edges
    ensures InReportOrder(start, sg)
    ensures Value(sg, seen) == Visit(g, nodeId, maxDepth, currentDepth, old(Value(sg, visited)))
    decreases g.nodes.Keys - visited, 0
  {
    hide InReportOrder;
    seen := visited;
    if currentDepth >= maxDepth || nodeId in visited { return; }
    assert g.nodes.Keys - (visited + {nodeId}) < g.nodes.Keys - visited by { assert nodeId in g.nodes.Keys - visited; }
    seen := seen + {nodeId};
    if g.nodes[nodeId].kind in CONTAINER_KINDS {
      seen := ImpactChildren(g, start, nodeId, maxDepth, currentDepth, sg, seen);
    }
    seen := ImpactDependents(g, start, nodeId, maxDepth, currentDepth, sg, seen);
  }

  method ImpactChildren(g: Store, ghost start: NodeId, nodeId: NodeId, maxDepth: int, currentDepth: int,
                        sg: Subgraph, visited: set<NodeId>)
    returns (seen: set<NodeId>)
    requires g.Valid() && InReportOrder(start, sg)
    modifies sg`order, sg`nodes, sg`edges
    ensures InReportOrder(start, sg)
    ensures Value(sg, seen) == Children(g, g.Outgoing(nodeId, ["contains"]), maxDepth, currentDepth, old(Value(sg, visited)))
    decreases g.nodes.Keys - visited, 1
  {
    hide InReportOrder, Visit;
    seen := visited;
    var containsEdges := g.Outgoing(nodeId, ["contains"]);
    var childMap := g.NodesByIds(Targets(containsEdges));
    FetchedTargets(g, containsEdges);
    OutgoingMembers(g, nodeId, ["contains"]);
    for k := 0 to |containsEdges|
      invariant InReportOrder(start, sg) && visited <= seen
      invariant Value(sg, seen) == Children(g, containsEdges[..k], maxDepth, currentDepth, old(Value(sg, visited)))
    {
      var e := containsEdges[k];
      assert containsEdges[..k + 1][..k] == containsEdges[..k];
      if e.target in childMap && childMap[e.target].id !in seen {
        var child := childMap[e.target];
        Report(start, sg, child, e);
        seen := ImpactRecursive(g, start, child.id, maxDepth, currentDepth, sg, seen);
      }
    }
    assert containsEdges[..|containsEdges|] == containsEdges;
  }

  method ImpactDependents(g: Store, ghost start: NodeId, nodeId: NodeId, maxDepth: int, currentDepth: int,
                          sg: Subgraph, visited: set<NodeId>)
    returns (seen: set<NodeId>)
    requires g.Valid() && InReportOrder(start, sg)
    modifies sg`order, sg`nodes, sg`edges
    ensures InReportOrder(start, sg)
    ensures Value(sg, seen) == Dependents(g, DependentEdges(g, nodeId), maxDepth, currentDepth, old(Value(sg, visited)))
    decreases g.nodes.Keys - visited, 1
  {
    hide InReportOrder, Visit;
    seen := visited;
    var incoming := DependentEdges(g, nodeId);
    var sources := g.NodesByIds(Sources(incoming));
    FetchedSources(g, incoming);
    DependentEdgesMembers(g, nodeId);
    for k := 0 to |incoming|
      invariant InReportOrder(start, sg) && visited <= seen
      invariant Value(sg, seen) == Dependents(g, incoming[..k], maxDepth, currentDepth, old(Value(sg, visited)))
    {
      var e := incoming[k];
      assert incoming[..k + 1][..k] == incoming[..k];
      if e.source in sources && !sg.Has(sources[e.source].id) {
        var n := sources[e.source];
        Report(start, sg, n, e);
        seen := ImpactRecursive(g, start, n.id, maxDepth, currentDepth + 1, sg, seen);
      }
    }
    assert incoming[..|incoming|] == incoming;
  }

  /** The implementation over the insertion-ordered set: the same nodes and edges, in report order. */
  method GetImpactSubgraph(g: Store, nodeId: NodeId, depth: int) returns (sg: Subgraph)
    requires g.Valid()
    ensures fresh(sg)
    ensures nodeId !in g.nodes ==> sg.Viewed() == View([], map[]) && sg.edges == [] && sg.roots == []
    ensures nodeId in g.nodes ==>
              && sg.nodes == Radius(g, nodeId, depth).nodes && sg.edges == Radius(g, nodeId, depth).edges
              && sg.roots == [nodeId] && InReportOrder(nodeId, sg)
  {
    sg := new Subgraph();
    if nodeId !in g.nodes { return; }
    assert ToSet<NodeId>([]) == {};
    SetKeepsTidy(sg.Viewed(), g.nodes[nodeId]);
    sg.Set(g.nodes[nodeId]);
    sg.roots := [nodeId];
    assert sg.nodes == map[nodeId := g.nodes[nodeId]];
    var seen := ImpactRecursive(g, nodeId, nodeId, depth, 0, sg, {});
  }
}
