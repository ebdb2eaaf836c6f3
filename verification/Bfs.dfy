/** Breadth-first traversal with a node limit and edge priorities (mcp/backend.go).

    A node is marked visited when it leaves the queue, so it may wait there several times; the
    first time it leaves, it leaves at its true distance from the start. */
module Bfs {
  import opened Collections
  import opened Graph
  import opened SubgraphSet
  import StableSort

  /** Stands for an unbounded depth, as in the program. */
  const MAX_INT: nat := 0x7FFF_FFFF_FFFF_FFFF

  const DEFAULT_LIMIT: nat := 1000

  datatype Options = Options(maxDepth: int, edgeKinds: seq<string>, nodeKinds: seq<string>, direction: string, limit: int) {
    function Depth(): nat { if maxDepth <= 0 then MAX_INT else maxDepth }
    function Limit(): nat { if limit <= 0 then DEFAULT_LIMIT else limit }
    function Direction(): string { if direction == "" then "outgoing" else direction }
  }

  // ---------------------------------------------------------------- neighbourhoods

  function Adjacent(g: Store, opts: Options, id: NodeId): seq<Edge> {
    if opts.Direction() == "outgoing" then g.Outgoing(id, opts.edgeKinds)
    else if opts.Direction() == "incoming" then g.Incoming(id, opts.edgeKinds)
    else g.Outgoing(id, opts.edgeKinds) + g.Incoming(id, opts.edgeKinds)
  }

  /** The other end of an adjacent edge. */
  function Across(e: Edge, id: NodeId): NodeId { if e.source != id then e.source else e.target }

  predicate Admitted(g: Store, opts: Options, id: NodeId) {
    id in g.nodes && (opts.nodeKinds == [] || g.nodes[id].kind in opts.nodeKinds)
  }

  ghost predicate Link(g: Store, opts: Options, x: NodeId, y: NodeId) {
    Admitted(g, opts, y) && exists e :: e in Adjacent(g, opts, x) && Across(e, x) == y
  }

  /** An edge that leads from `x` to `y` in the direction asked for; both ways unless one is named. */
  predicate Runs(opts: Options, e: Edge, x: NodeId, y: NodeId) {
    if opts.direction in {"", "outgoing"} then e.source == x && e.target == y
    else if opts.direction == "incoming" then e.target == x && e.source == y
    else (e.source == x && e.target == y) || (e.target == x && e.source == y)
  }

  lemma AdjacentIs(g: Store, opts: Options, x: NodeId, e: Edge, y: NodeId)
    ensures e in Adjacent(g, opts, x) && Across(e, x) == y <==>
              e in g.edges && (opts.edgeKinds == [] || e.kind in opts.edgeKinds) && Runs(opts, e, x, y)
  {
    OutgoingMembers(g, x, opts.edgeKinds);
    IncomingMembers(g, x, opts.edgeKinds);
    assert "outgoing" != "incoming" && "outgoing" != "" && "incoming" != "" by { assert "outgoing"[0] != "incoming"[0]; }
  }

  /** A link over the stored rows: an edge of a kind asked for to a node of a kind asked for. */
  lemma LinkIs(g: Store, opts: Options, x: NodeId, y: NodeId)
    ensures Link(g, opts, x, y) <==>
              && y in g.nodes && (opts.nodeKinds == [] || g.nodes[y].kind in opts.nodeKinds)
              && exists e :: e in g.edges && (opts.edgeKinds == [] || e.kind in opts.edgeKinds) && Runs(opts, e, x, y)
  {
    hide Adjacent, Across, Runs;
    forall e ensures e in Adjacent(g, opts, x) && Across(e, x) == y <==>
              e in g.edges && (opts.edgeKinds == [] || e.kind in opts.edgeKinds) && Runs(opts, e, x, y)
    {
      AdjacentIs(g, opts, x, e, y);
    }
  }

  /** Missing options: no bound on the depth, a thousand nodes, outgoing edges. */
  lemma DefaultOptions(opts: Options)
    ensures opts.maxDepth <= 0 ==> opts.Depth() == 9223372036854775807
    ensures opts.maxDepth > 0 ==> opts.Depth() == opts.maxDepth
    ensures opts.Limit() == opts.(limit := if opts.limit <= 0 then 1000 else opts.limit).limit
  {
  }

  ghost predicate LinkedFrom(g: Store, opts: Options, near: set<NodeId>, y: NodeId) {
    exists x :: x in near && Link(g, opts, x, y)
  }

  /** Nodes at most `k` hops from the start along admitted edges through admitted nodes. */
  ghost function Within(g: Store, opts: Options, start: NodeId, k: nat): set<NodeId> {
    if k == 0 then {start}
    else
      var near := Within(g, opts, start, k - 1);
      near + set y | y in g.nodes && LinkedFrom(g, opts, near, y)
  }

  ghost predicate AtDistance(g: Store, opts: Options, start: NodeId, x: NodeId, d: nat) {
    x in Within(g, opts, start, d) && (d == 0 || x !in Within(g, opts, start, d - 1))
  }

  lemma {:induction false} WithinGrows(g: Store, opts: Options, start: NodeId, j: nat, k: nat)
    requires j <= k
    ensures Within(g, opts, start, j) <= Within(g, opts, start, k)
  {
    if j < k { WithinGrows(g, opts, start, j, k - 1); }
  }

  lemma {:induction false} DistanceExists(g: Store, opts: Options, start: NodeId, x: NodeId, k: nat) returns (d: nat)
    requires x in Within(g, opts, start, k)
    ensures d <= k && AtDistance(g, opts, start, x, d)
  {
    if k == 0 || x !in Within(g, opts, start, k - 1) { d := k; }
    else { d := DistanceExists(g, opts, start, x, k - 1); }
  }

  lemma DistanceIsUnique(g: Store, opts: Options, start: NodeId, x: NodeId, c: nat, d: nat)
    requires AtDistance(g, opts, start, x, c) && AtDistance(g, opts, start, x, d)
    ensures c == d
  {
    hide Within;
    if c < d { WithinGrows(g, opts, start, c, d - 1); }
    if d < c { WithinGrows(g, opts, start, d, c - 1); }
  }

  // ---------------------------------------------------------------- the queue

  datatype Step = Step(node: Node, via: Option<Edge>, depth: nat)

  /** The steps queued while visiting `s`, one for each adjacent edge to an unvisited admitted node. */
  function Expand(g: Store, opts: Options, visited: set<NodeId>, s: Step, adj: seq<Edge>): seq<Step> {
    if adj == [] then []
    else
      var n := |adj| - 1;
      var rest := Expand(g, opts, visited, s, adj[..n]);
      var y := Across(adj[n], s.node.id);
      if y !in visited && Admitted(g, opts, y) then rest + [Step(g.nodes[y], Some(adj[n]), s.depth + 1)] else rest
  }

  lemma {:induction false} ExpandMembers(g: Store, opts: Options, visited: set<NodeId>, s: Step, adj: seq<Edge>)
    requires g.Valid()
    ensures forall t | t in Expand(g, opts, visited, s, adj) ::
              && t.depth == s.depth + 1 && t.via.Some? && t.via.value in adj
              && Across(t.via.value, s.node.id) == t.node.id
              && Admitted(g, opts, t.node.id) && t.node == g.nodes[t.node.id]
    ensures forall e | e in adj && Across(e, s.node.id) !in visited && Admitted(g, opts, Across(e, s.node.id)) ::
              Step(g.nodes[Across(e, s.node.id)], Some(e), s.depth + 1) in Expand(g, opts, visited, s, adj)
  {
    if adj != [] {
      var n := |adj| - 1;
      ExpandMembers(g, opts, visited, s, adj[..n]);
      assert adj == adj[..n] + [adj[n]];
    }
  }

  /** Visited nodes with their hop counts. */
  type Distances = map<NodeId, nat>

  /** The edge of a queued step hangs it below a visited node one hop nearer. */
  predicate HangsFrom(g: Store, opts: Options, dist: Distances, x: NodeId, s: Step) {
    && x in dist && dist[x] + 1 == s.depth
    && s.via.Some? && s.via.value in Adjacent(g, opts, x) && Across(s.via.value, x) == s.node.id
  }

  ghost predicate StepSound(g: Store, opts: Options, start: NodeId, dist: Distances, s: Step) {
    && s.node.id in g.nodes && s.node == g.nodes[s.node.id] && s.depth <= opts.Depth()
    && (if s.depth == 0 then s.node.id == start && s.via.None?
        else Admitted(g, opts, s.node.id) && exists x :: HangsFrom(g, opts, dist, x, s))
  }

  ghost predicate Queued(queue: seq<Step>, y: NodeId, d: nat) {
    exists i :: 0 <= i < |queue| && queue[i].node.id == y && queue[i].depth <= d
  }

  /** Depths in the queue never decrease and differ by at most one. */
  predicate Layered(queue: seq<Step>) {
    forall i, j | 0 <= i < j < |queue| :: queue[i].depth <= queue[j].depth <= queue[i].depth + 1
  }

  /** Every recorded distance is true and no larger than the depth of anything still queued. */
  ghost predicate DistancesTrue(g: Store, opts: Options, start: NodeId, dist: Distances, queue: seq<Step>) {
    forall x | x in dist ::
      && x in g.nodes && AtDistance(g, opts, start, x, dist[x]) && dist[x] <= opts.Depth()
      && (queue != [] ==> dist[x] <= queue[0].depth)
  }

  /** What is linked to a visited node above the depth bound is visited or queued in time. */
  ghost predicate NothingForgotten(g: Store, opts: Options, dist: Distances, queue: seq<Step>) {
    forall x, y | x in dist && dist[x] < opts.Depth() && Link(g, opts, x, y) ::
      y in dist || Queued(queue, y, dist[x] + 1)
  }

  ghost predicate Inv(g: Store, opts: Options, start: NodeId, dist: Distances, queue: seq<Step>) {
    && (forall i | 0 <= i < |queue| :: StepSound(g, opts, start, dist, queue[i]))
    && Layered(queue)
    && DistancesTrue(g, opts, start, dist, queue)
    && NothingForgotten(g, opts, dist, queue)
    && (if dist == map[] then |queue| == 1 && queue[0].depth == 0 else start in dist)
  }

  // ---------------------------------------------------------------- why the queue finds distances

  lemma WithinZero(g: Store, opts: Options, start: NodeId)
    ensures Within(g, opts, start, 0) == {start}
  {
  }

  lemma LinkExtends(g: Store, opts: Options, start: NodeId, x: NodeId, y: NodeId, d: nat)
    requires x in Within(g, opts, start, d) && Link(g, opts, x, y)
    ensures y in Within(g, opts, start, d + 1)
  {
    assert LinkedFrom(g, opts, Within(g, opts, start, d), y);
  }

  lemma WithinStep(g: Store, opts: Options, start: NodeId, y: NodeId, d: nat)
    requires y in Within(g, opts, start, d + 1) && y !in Within(g, opts, start, d)
    ensures exists x :: x in Within(g, opts, start, d) && Link(g, opts, x, y)
  {
    assert LinkedFrom(g, opts, Within(g, opts, start, d), y);
  }

  lemma LinkedIsVisited(g: Store, opts: Options, dist: Distances, queue: seq<Step>, x: NodeId, y: NodeId)
    requires Layered(queue) && NothingForgotten(g, opts, dist, queue)
    requires x in dist && dist[x] < opts.Depth() && Link(g, opts, x, y)
    requires queue != [] ==> dist[x] + 1 < queue[0].depth
    ensures y in dist
  {
    hide Link;
  }

  lemma RecordedDistance(g: Store, opts: Options, start: NodeId, dist: Distances, queue: seq<Step>, x: NodeId, k: nat)
    requires DistancesTrue(g, opts, start, dist, queue) && x in dist && x in Within(g, opts, start, k)
    ensures dist[x] <= k
  {
    hide Within;
    var d := DistanceExists(g, opts, start, x, k);
    DistanceIsUnique(g, opts, start, x, d, dist[x]);
  }

  /** Everything nearer than the front of the queue has been visited. */
  lemma {:induction false} NearerIsVisited(g: Store, opts: Options, start: NodeId, dist: Distances, queue: seq<Step>, k: nat, y: NodeId)
    requires Layered(queue) && DistancesTrue(g, opts, start, dist, queue) && NothingForgotten(g, opts, dist, queue)
    requires start in dist && y in Within(g, opts, start, k) && k <= opts.Depth()
    requires queue != [] ==> k < queue[0].depth
    ensures y in dist
  {
    hide Layered, DistancesTrue, NothingForgotten, Within, Link;
    if k == 0 {
      WithinZero(g, opts, start);
    } else {
      if y in Within(g, opts, start, k - 1) {
        NearerIsVisited(g, opts, start, dist, queue, k - 1, y);
      } else {
        WithinStep(g, opts, start, y, k - 1);
        var x :| x in Within(g, opts, start, k - 1) && Link(g, opts, x, y);
        NearerIsVisited(g, opts, start, dist, queue, k - 1, x);
        RecordedDistance(g, opts, start, dist, queue, x, k - 1);
        LinkedIsVisited(g, opts, dist, queue, x, y);
      }
    }
  }

  lemma FrontIsNear(g: Store, opts: Options, start: NodeId, dist: Distances, queue: seq<Step>, s: Step)
    requires DistancesTrue(g, opts, start, dist, queue) && StepSound(g, opts, start, dist, s)
    ensures s.node.id in Within(g, opts, start, s.depth)
  {
    hide Within, Adjacent, Admitted;
    if s.depth == 0 {
      WithinZero(g, opts, start);
    } else {
      var x :| HangsFrom(g, opts, dist, x, s);
      assert Link(g, opts, x, s.node.id);
      assert AtDistance(g, opts, start, x, dist[x]);
      LinkExtends(g, opts, start, x, s.node.id, s.depth - 1);
    }
  }

  lemma FrontAtDistance(g: Store, opts: Options, start: NodeId, dist: Distances, queue: seq<Step>)
    requires Inv(g, opts, start, dist, queue) && queue != [] && queue[0].node.id !in dist
    ensures AtDistance(g, opts, start, queue[0].node.id, queue[0].depth)
  {
    hide Layered, DistancesTrue, NothingForgotten, Within, Link;
    var y, d := queue[0].node.id, queue[0].depth;
    FrontIsNear(g, opts, start, dist, queue, queue[0]);
    if d > 0 && y in Within(g, opts, start, d - 1) {
      NearerIsVisited(g, opts, start, dist, queue, d - 1, y);
    }
  }

  // ---------------------------------------------------------------- one turn of the loop

  /** Dropping the front entry of an already visited node. */
  lemma SkipKeepsInv(g: Store, opts: Options, start: NodeId, dist: Distances, queue: seq<Step>)
    requires Inv(g, opts, start, dist, queue) && queue != [] && queue[0].node.id in dist
    ensures Inv(g, opts, start, dist, queue[1..])
  {
    hide Link, HangsFrom, AtDistance;
    var rest := queue[1..];
    assert StepSound(g, opts, start, dist, queue[0]);
    forall x, y | x in dist && dist[x] < opts.Depth() && Link(g, opts, x, y)
      ensures y in dist || Queued(rest, y, dist[x] + 1)
    {
      if y !in dist {
        var i :| 0 <= i < |queue| && queue[i].node.id == y && queue[i].depth <= dist[x] + 1;
        assert rest[i - 1] == queue[i];
      }
    }
  }

  /** What a visit to `s` appends to the queue, for its adjacent edges in any order. */
  function Appended(g: Store, opts: Options, visited: set<NodeId>, s: Step, adj: seq<Edge>): seq<Step> {
    if s.depth < opts.Depth() then Expand(g, opts, visited, s, adj) else []
  }

  lemma VisitKeepsSteps(g: Store, opts: Options, start: NodeId, dist: Distances, queue: seq<Step>, adj: seq<Edge>)
    requires g.Valid() && Inv(g, opts, start, dist, queue) && queue != [] && queue[0].node.id !in dist
    requires forall e :: e in adj <==> e in Adjacent(g, opts, queue[0].node.id)
    ensures var s := queue[0];
            var dist' := dist[s.node.id := s.depth];
            var queue' := queue[1..] + Appended(g, opts, dist'.Keys, s, adj);
            Layered(queue') && forall i | 0 <= i < |queue'| :: StepSound(g, opts, start, dist', queue'[i])
  {
    hide Link, AtDistance, Adjacent, Admitted;
    var s := queue[0];
    var id := s.node.id;
    var dist' := dist[id := s.depth];
    var more := Appended(g, opts, dist'.Keys, s, adj);
    var queue' := queue[1..] + more;
    ExpandMembers(g, opts, dist'.Keys, s, adj);
    forall i | 0 <= i < |queue'| ensures StepSound(g, opts, start, dist', queue'[i]) {
      var t := queue'[i];
      if i < |queue| - 1 {
        assert t == queue[i + 1] && StepSound(g, opts, start, dist, queue[i + 1]);
        if t.depth != 0 {
          var x :| HangsFrom(g, opts, dist, x, t);
          assert HangsFrom(g, opts, dist', x, t);
        }
      } else {
        assert t == more[i - (|queue| - 1)] && t in more;
        assert HangsFrom(g, opts, dist', id, t);
        assert t.node.id in g.nodes by { AdmittedExists(g, opts, t.node.id); }
      }
    }
    assert forall t | t in more :: t.depth == s.depth + 1;
    assert forall i | 0 <= i < |more| :: more[i] in more;
  }

  lemma AdmittedExists(g: Store, opts: Options, id: NodeId)
    requires Admitted(g, opts, id)
    ensures id in g.nodes
  {
  }

  lemma VisitForgetsNothing(g: Store, opts: Options, start: NodeId, dist: Distances, queue: seq<Step>, adj: seq<Edge>)
    requires g.Valid() && Inv(g, opts, start, dist, queue) && queue != [] && queue[0].node.id !in dist
    requires forall e :: e in adj <==> e in Adjacent(g, opts, queue[0].node.id)
    ensures var s := queue[0];
            var dist' := dist[s.node.id := s.depth];
            NothingForgotten(g, opts, dist', queue[1..] + Appended(g, opts, dist'.Keys, s, adj))
  {
    hide StepSound, Layered, DistancesTrue, Adjacent, Admitted;
    var s := queue[0];
    var id := s.node.id;
    var dist' := dist[id := s.depth];
    var more := Appended(g, opts, dist'.Keys, s, adj);
    var queue' := queue[1..] + more;
    ExpandMembers(g, opts, dist'.Keys, s, adj);
    forall x, y | x in dist' && dist'[x] < opts.Depth() && Link(g, opts, x, y)
      ensures y in dist' || Queued(queue', y, dist'[x] + 1)
    {
      if x == id {
        var e :| e in Adjacent(g, opts, id) && Across(e, id) == y;
        if y !in dist' {
          AdmittedExists(g, opts, y);
          var t := Step(g.nodes[y], Some(e), s.depth + 1);
          assert t in more;
          var j :| 0 <= j < |more| && more[j] == t;
          assert queue'[|queue| - 1 + j] == t;
        }
      } else if y !in dist' {
        var i :| 0 <= i < |queue| && queue[i].node.id == y && queue[i].depth <= dist[x] + 1;
        assert queue'[i - 1] == queue[i];
      }
    }
  }

  lemma VisitKeepsDistances(g: Store, opts: Options, start: NodeId, dist: Distances, queue: seq<Step>, more: seq<Step>)
    requires Inv(g, opts, start, dist, queue) && queue != [] && queue[0].node.id !in dist
    requires forall i | 0 <= i < |more| :: more[i].depth == queue[0].depth + 1
    ensures var dist' := dist[queue[0].node.id := queue[0].depth];
            start in dist' && DistancesTrue(g, opts, start, dist', queue[1..] + more)
  {
    FrontAtDistance(g, opts, start, dist, queue);
    assert StepSound(g, opts, start, dist, queue[0]);
    hide NothingForgotten, AtDistance, HangsFrom;
    var queue' := queue[1..] + more;
    assert queue' != [] ==> queue[0].depth <= queue'[0].depth;
  }

  /** Visiting the front of the queue keeps the invariant, in whatever order edges are taken. */
  lemma VisitKeepsInv(g: Store, opts: Options, start: NodeId, dist: Distances, queue: seq<Step>, adj: seq<Edge>)
    requires g.Valid() && Inv(g, opts, start, dist, queue) && queue != [] && queue[0].node.id !in dist
    requires forall e :: e in adj <==> e in Adjacent(g, opts, queue[0].node.id)
    ensures var s := queue[0];
            var dist' := dist[s.node.id := s.depth];
            Inv(g, opts, start, dist', queue[1..] + Appended(g, opts, dist'.Keys, s, adj))
  {
    var s := queue[0];
    var dist' := dist[s.node.id := s.depth];
    VisitKeepsSteps(g, opts, start, dist, queue, adj);
    VisitForgetsNothing(g, opts, start, dist, queue, adj);
    AppendedDepth(g, opts, dist'.Keys, s, adj);
    VisitKeepsDistances(g, opts, start, dist, queue, Appended(g, opts, dist'.Keys, s, adj));
    hide NothingForgotten, DistancesTrue, StepSound, Layered, Appended;
  }

  lemma AppendedDepth(g: Store, opts: Options, visited: set<NodeId>, s: Step, adj: seq<Edge>)
    requires g.Valid()
    ensures forall i | 0 <= i < |Appended(g, opts, visited, s, adj)| :: Appended(g, opts, visited, s, adj)[i].depth == s.depth + 1
  {
    ExpandMembers(g, opts, visited, s, adj);
    assert forall i | 0 <= i < |Appended(g, opts, visited, s, adj)| ::
        Appended(g, opts, visited, s, adj)[i] in Appended(g, opts, visited, s, adj);
  }

  // ---------------------------------------------------------------- the tree of edges

  /** `e` leads from `x` to `y`, which is one hop further from the start. */
  predicate Joins(g: Store, opts: Options, dist: Distances, e: Edge, x: NodeId, y: NodeId) {
    && x in dist && y in dist && dist[y] == dist[x] + 1
    && e in Adjacent(g, opts, x) && Across(e, x) == y
  }

  /** The edge that brought the `k`-th visited node in comes from an earlier one. */
  ghost predicate Branch(g: Store, opts: Options, dist: Distances, visit: seq<NodeId>, edges: seq<Edge>, k: nat)
    requires 0 < k < |visit| && k <= |edges|
  {
    exists j :: 0 <= j < k && Joins(g, opts, dist, edges[k - 1], visit[j], visit[k])
  }

  /** One edge for every visited node but the first, joining it to an earlier, nearer one. */
  ghost predicate SpanningTree(g: Store, opts: Options, dist: Distances, visit: seq<NodeId>, edges: seq<Edge>) {
    && |edges| == (if visit == [] then 0 else |visit| - 1)
    && (forall k | 0 < k < |visit| :: Branch(g, opts, dist, visit, edges, k))
  }

  /** `visit` lists the visited nodes once each, nearest first. */
  ghost predicate VisitOrder(dist: Distances, visit: seq<NodeId>) {
    && Distinct(visit) && ToSet(visit) == dist.Keys
    && (forall i, j | 0 <= i < j < |visit| :: visit[i] in dist && visit[j] in dist && dist[visit[i]] <= dist[visit[j]])
  }

  lemma OrderGrows(g: Store, opts: Options, start: NodeId, dist: Distances, visit: seq<NodeId>, queue: seq<Step>)
    requires VisitOrder(dist, visit) && Inv(g, opts, start, dist, queue) && queue != [] && queue[0].node.id !in dist
    ensures VisitOrder(dist[queue[0].node.id := queue[0].depth], visit + [queue[0].node.id])
  {
    hide StepSound, NothingForgotten, AtDistance;
    var id := queue[0].node.id;
    var visit' := visit + [id];
    assert ToSet(visit') == ToSet(visit) + {id};
    assert forall i | 0 <= i < |visit| :: visit[i] in ToSet(visit);
  }

  lemma TreeGrows(g: Store, opts: Options, start: NodeId, dist: Distances, visit: seq<NodeId>, edges: seq<Edge>, queue: seq<Step>)
    requires VisitOrder(dist, visit) && SpanningTree(g, opts, dist, visit, edges)
    requires Inv(g, opts, start, dist, queue) && queue != [] && queue[0].node.id !in dist
    ensures var s := queue[0];
            SpanningTree(g, opts, dist[s.node.id := s.depth], visit + [s.node.id],
                         if s.via.Some? then edges + [s.via.value] else edges)
    ensures queue[0].via.Some? <==> visit != []
  {
    hide Layered, DistancesTrue, NothingForgotten, Adjacent, Admitted;
    var s := queue[0];
    var dist' := dist[s.node.id := s.depth];
    var visit' := visit + [s.node.id];
    assert StepSound(g, opts, start, dist, s);
    if visit == [] {
      assert dist.Keys == {};
    } else {
      assert visit[0] in ToSet(visit);
      var edges' := edges + [s.via.value];
      var x :| HangsFrom(g, opts, dist, x, s);
      assert x in ToSet(visit);
      var j :| 0 <= j < |visit| && visit[j] == x;
      assert Joins(g, opts, dist', edges'[|visit| - 1], visit'[j], visit'[|visit|]);
      forall k | 0 < k < |visit'| ensures Branch(g, opts, dist', visit', edges', k) {
        if k < |visit| {
          assert Branch(g, opts, dist, visit, edges, k);
          var i :| 0 <= i < k && Joins(g, opts, dist, edges[k - 1], visit[i], visit[k]);
          assert Joins(g, opts, dist', edges'[k - 1], visit'[i], visit'[k]);
        }
      }
    }
  }

  // ---------------------------------------------------------------- what has been seen, and when to stop

  ghost predicate SeenAt(g: Store, opts: Options, dist: Distances, x: NodeId, y: NodeId) {
    x in dist && dist[x] < opts.Depth() && Link(g, opts, x, y)
  }

  /** The start and whatever is linked to a visited node above the depth bound. */
  ghost function Seen(g: Store, opts: Options, start: NodeId, dist: Distances, visit: seq<NodeId>): set<NodeId> {
    {start} + set y | y in g.nodes && exists j :: 0 <= j < |visit| && SeenAt(g, opts, dist, visit[j], y)
  }

  /** Before every visit fewer nodes than the limit had been seen. */
  ghost predicate WithinLimit(g: Store, opts: Options, start: NodeId, dist: Distances, visit: seq<NodeId>) {
    forall k | 0 <= k < |visit| :: |Seen(g, opts, start, dist, visit[..k])| < opts.Limit()
  }

  lemma SeenStays(g: Store, opts: Options, start: NodeId, dist: Distances, visit: seq<NodeId>, id: NodeId, d: nat)
    requires id !in dist && forall x | x in visit :: x in dist
    ensures Seen(g, opts, start, dist[id := d], visit) == Seen(g, opts, start, dist, visit)
  {
    hide Link;
    forall j, y | 0 <= j < |visit| && y in g.nodes
      ensures SeenAt(g, opts, dist[id := d], visit[j], y) == SeenAt(g, opts, dist, visit[j], y)
    {
      assert visit[j] in visit;
    }
  }

  lemma SeenOneMore(g: Store, opts: Options, start: NodeId, dist: Distances, visit: seq<NodeId>, id: NodeId)
    ensures Seen(g, opts, start, dist, visit + [id]) ==
            Seen(g, opts, start, dist, visit) + set y | y in g.nodes && SeenAt(g, opts, dist, id, y)
  {
    hide SeenAt;
    var more := visit + [id];
    forall y | y in g.nodes
      ensures (exists j :: 0 <= j < |more| && SeenAt(g, opts, dist, more[j], y)) <==>
              (exists j :: 0 <= j < |visit| && SeenAt(g, opts, dist, visit[j], y)) || SeenAt(g, opts, dist, id, y)
    {
      if j :| 0 <= j < |visit| && SeenAt(g, opts, dist, visit[j], y) { assert more[j] == visit[j]; }
      assert more[|visit|] == id;
    }
  }

  lemma LimitStays(g: Store, opts: Options, start: NodeId, dist: Distances, visit: seq<NodeId>, id: NodeId, d: nat)
    requires id !in dist && (forall x | x in visit :: x in dist) && WithinLimit(g, opts, start, dist, visit)
    requires |Seen(g, opts, start, dist, visit)| < opts.Limit()
    ensures WithinLimit(g, opts, start, dist[id := d], visit + [id])
  {
    hide Seen;
    var more := visit + [id];
    forall k | 0 <= k < |more| ensures |Seen(g, opts, start, dist[id := d], more[..k])| < opts.Limit() {
      assert more[..k] == visit[..k] && visit[..|visit|] == visit;
      SeenStays(g, opts, start, dist, visit[..k], id, d);
    }
  }

  // ---------------------------------------------------------------- in which order

  /** What a visited node offers: its adjacent edges in order of priority, above the depth bound. */
  ghost function Offer(g: Store, opts: Options, dist: Distances, x: NodeId): seq<Edge> {
    if x in dist && dist[x] < opts.Depth() then StableSort.StableSorted(Adjacent(g, opts, x), Priority) else []
  }

  /** An offer by its place: the `at`-th visited node and the row among its edges. */
  datatype Place = Place(at: nat, row: nat)

  predicate Sooner(a: Place, b: Place) { a.at < b.at || (a.at == b.at && a.row < b.row) }

  ghost predicate Offers(g: Store, opts: Options, dist: Distances, visit: seq<NodeId>, k: Place, y: NodeId) {
    && k.at < |visit| && k.row < |Offer(g, opts, dist, visit[k.at])|
    && Across(Offer(g, opts, dist, visit[k.at])[k.row], visit[k.at]) == y && Admitted(g, opts, y)
  }

  /** The offer at `k` is the first that leads anywhere outside `known`. */
  ghost predicate FirstOutside(g: Store, opts: Options, dist: Distances, visit: seq<NodeId>, known: seq<NodeId>, k: Place) {
    forall b, y | Offers(g, opts, dist, visit, b, y) && Sooner(b, k) :: y in known
  }

  /** The `k`-th visit takes the first offer that leads to an unvisited node, along that edge. */
  ghost predicate TakesFirst(g: Store, opts: Options, dist: Distances, visit: seq<NodeId>, edges: seq<Edge>, k: nat, from: Place)
    requires 0 < k < |visit| && k <= |edges|
  {
    && from.at < k && Offers(g, opts, dist, visit, from, visit[k])
    && edges[k - 1] == Offer(g, opts, dist, visit[from.at])[from.row]
    && FirstOutside(g, opts, dist, visit, visit[..k], from)
  }

  ghost predicate NextInLine(g: Store, opts: Options, dist: Distances, visit: seq<NodeId>, edges: seq<Edge>, k: nat)
    requires 0 < k < |visit| && k <= |edges|
  {
    exists from :: TakesFirst(g, opts, dist, visit, edges, k, from)
  }

  ghost predicate InLine(g: Store, opts: Options, dist: Distances, visit: seq<NodeId>, edges: seq<Edge>) {
    |visit| - 1 <= |edges| && forall k | 0 < k < |visit| :: NextInLine(g, opts, dist, visit, edges, k)
  }

  /** Nodes enter the subgraph in the order of their first offers. */
  ghost predicate EnterInLine(g: Store, opts: Options, dist: Distances, visit: seq<NodeId>, order: seq<NodeId>) {
    forall i | 0 < i < |order| :: EntersNext(g, opts, dist, visit, order, i)
  }

  ghost predicate EntersNext(g: Store, opts: Options, dist: Distances, visit: seq<NodeId>, order: seq<NodeId>, i: nat)
    requires i < |order|
  {
    exists k :: Offers(g, opts, dist, visit, k, order[i]) && FirstOutside(g, opts, dist, visit, order[..i], k)
  }

  /** The queue is the offers that lead to unvisited nodes, in order; `places` are where they came from. */
  ghost predicate Line(g: Store, opts: Options, dist: Distances, visit: seq<NodeId>, queue: seq<Step>, places: seq<Place>) {
    && |places| == |queue|
    && (forall i | 0 <= i < |queue| :: InPlace(g, opts, dist, visit, queue[i], places[i]))
    && (forall i, j | 0 <= i < j < |places| :: Sooner(places[i], places[j]))
    && (forall b, y | Offers(g, opts, dist, visit, b, y) :: y in dist || b in places)
  }

  ghost predicate InPlace(g: Store, opts: Options, dist: Distances, visit: seq<NodeId>, s: Step, k: Place) {
    && Offers(g, opts, dist, visit, k, s.node.id)
    && s.via == Some(Offer(g, opts, dist, visit[k.at])[k.row])
  }

  /** The places of what `Expand` queues. */
  function ExpandPlaces(g: Store, opts: Options, visited: set<NodeId>, s: Step, adj: seq<Edge>, at: nat): seq<Place> {
    if adj == [] then []
    else
      var n := |adj| - 1;
      var rest := ExpandPlaces(g, opts, visited, s, adj[..n], at);
      var y := Across(adj[n], s.node.id);
      if y !in visited && Admitted(g, opts, y) then rest + [Place(at, n)] else rest
  }

  lemma {:induction false} ExpandPlacesAre(g: Store, opts: Options, visited: set<NodeId>, s: Step, adj: seq<Edge>, at: nat)
    requires g.Valid()
    ensures var places, more := ExpandPlaces(g, opts, visited, s, adj, at), Expand(g, opts, visited, s, adj);
            && |places| == |more|
            && (forall i | 0 <= i < |more| :: places[i].at == at && places[i].row < |adj| && more[i].via == Some(adj[places[i].row])
                  && Across(adj[places[i].row], s.node.id) == more[i].node.id && Admitted(g, opts, more[i].node.id))
            && (forall i, j | 0 <= i < j < |places| :: places[i].row < places[j].row)
    ensures forall p | 0 <= p < |adj| && Across(adj[p], s.node.id) !in visited && Admitted(g, opts, Across(adj[p], s.node.id)) ::
              Place(at, p) in ExpandPlaces(g, opts, visited, s, adj, at)
  {
    hide Across;
    if adj != [] {
      var n := |adj| - 1;
      ExpandPlacesAre(g, opts, visited, s, adj[..n], at);
      if Admitted(g, opts, Across(adj[n], s.node.id)) { AdmittedIs(g, opts, Across(adj[n], s.node.id)); }
    }
  }

  lemma AdmittedIs(g: Store, opts: Options, y: NodeId)
    requires g.Valid() && Admitted(g, opts, y)
    ensures y in g.nodes && g.nodes[y].id == y
  {
  }

  /** A further visit changes no earlier offer. */
  lemma OffersStay(g: Store, opts: Options, dist: Distances, visit: seq<NodeId>, id: NodeId, d: nat, k: Place)
    requires id !in dist && (forall x | x in visit :: x in dist) && k.at < |visit|
    ensures Offer(g, opts, dist[id := d], (visit + [id])[k.at]) == Offer(g, opts, dist, visit[k.at])
    ensures forall y :: Offers(g, opts, dist[id := d], visit + [id], k, y) == Offers(g, opts, dist, visit, k, y)
  {
    assert visit[k.at] in visit && (visit + [id])[k.at] == visit[k.at];
  }

  lemma NewOffer(g: Store, opts: Options, dist: Distances, visit: seq<NodeId>, id: NodeId, d: nat)
    ensures Offer(g, opts, dist[id := d], (visit + [id])[|visit|]) ==
            if d < opts.Depth() then StableSort.StableSorted(Adjacent(g, opts, id), Priority) else []
  {
  }

  lemma OneTarget(g: Store, opts: Options, dist: Distances, visit: seq<NodeId>, k: Place, y: NodeId, z: NodeId)
    requires Offers(g, opts, dist, visit, k, y) && Offers(g, opts, dist, visit, k, z)
    ensures y == z
  {
  }

  lemma LineSkips(g: Store, opts: Options, dist: Distances, visit: seq<NodeId>, queue: seq<Step>, places: seq<Place>)
    requires Line(g, opts, dist, visit, queue, places) && queue != [] && queue[0].node.id in dist
    ensures Line(g, opts, dist, visit, queue[1..], places[1..])
  {
    hide Offers, Offer;
    forall b, y | Offers(g, opts, dist, visit, b, y) ensures y in dist || b in places[1..] {
      if b == places[0] {
        assert InPlace(g, opts, dist, visit, queue[0], places[0]);
        OneTarget(g, opts, dist, visit, b, y, queue[0].node.id);
      }
    }
    forall i | 0 <= i < |queue| - 1 ensures InPlace(g, opts, dist, visit, queue[1..][i], places[1..][i]) {
      assert InPlace(g, opts, dist, visit, queue[i + 1], places[i + 1]);
    }
  }

  /** The front of the queue is the first offer that leads to an unvisited node. */
  lemma FrontIsFirst(g: Store, opts: Options, dist: Distances, visit: seq<NodeId>, queue: seq<Step>, places: seq<Place>)
    requires Line(g, opts, dist, visit, queue, places) && queue != [] && ToSet(visit) == dist.Keys
    ensures FirstOutside(g, opts, dist, visit, visit, places[0])
  {
    hide Offers, InPlace;
    forall b | b in places ensures !Sooner(b, places[0]) {
      var i :| 0 <= i < |places| && places[i] == b;
      assert i > 0 ==> Sooner(places[0], places[i]);
    }
    forall b, y | Offers(g, opts, dist, visit, b, y) && Sooner(b, places[0]) ensures y in visit {
      assert y in dist;
      assert y in ToSet(visit);
    }
  }

  lemma TakesFirstStays(g: Store, opts: Options, dist: Distances, visit: seq<NodeId>, edges: seq<Edge>, id: NodeId, d: nat,
                        more: seq<Edge>, k: nat, from: Place)
    requires id !in dist && (forall x | x in visit :: x in dist) && 0 < k < |visit| && k <= |edges|
    requires TakesFirst(g, opts, dist, visit, edges, k, from)
    ensures TakesFirst(g, opts, dist[id := d], visit + [id], edges + more, k, from)
  {
    hide Offers, Offer;
    OffersStay(g, opts, dist, visit, id, d, from);
    assert (visit + [id])[..k] == visit[..k] && (visit + [id])[k] == visit[k];
    forall b, y | Offers(g, opts, dist[id := d], visit + [id], b, y) && Sooner(b, from) ensures y in visit[..k] {
      OffersStay(g, opts, dist, visit, id, d, b);
    }
  }

  lemma FirstStays(g: Store, opts: Options, dist: Distances, visit: seq<NodeId>, id: NodeId, d: nat, known: seq<NodeId>, k: Place)
    requires id !in dist && (forall x | x in visit :: x in dist) && k.at < |visit| && FirstOutside(g, opts, dist, visit, known, k)
    ensures FirstOutside(g, opts, dist[id := d], visit + [id], known, k)
  {
    hide Offers;
    forall b, y | Offers(g, opts, dist[id := d], visit + [id], b, y) && Sooner(b, k) ensures y in known {
      OffersStay(g, opts, dist, visit, id, d, b);
    }
  }

  /** A visit that is not the first takes the front of the line. */
  lemma VisitTakesFirst(g: Store, opts: Options, dist: Distances, visit: seq<NodeId>, edges: seq<Edge>, queue: seq<Step>, places: seq<Place>)
    requires Line(g, opts, dist, visit, queue, places) && InLine(g, opts, dist, visit, edges) && visit != [] && |edges| == |visit| - 1
    requires queue != [] && queue[0].node.id !in dist && ToSet(visit) == dist.Keys
    ensures queue[0].via.Some?
    ensures InLine(g, opts, dist[queue[0].node.id := queue[0].depth], visit + [queue[0].node.id], edges + [queue[0].via.value])
  {
    hide Offers, Offer;
    var s, from := queue[0], places[0];
    var id := s.node.id;
    var dist', visit', edges' := dist[id := s.depth], visit + [id], edges + [s.via.value];
    assert InPlace(g, opts, dist, visit, s, from);
    forall x | x in visit ensures x in dist { assert x in ToSet(visit); }
    InRange(g, opts, dist, visit, from, id);
    FrontIsFirst(g, opts, dist, visit, queue, places);
    OffersStay(g, opts, dist, visit, id, s.depth, from);
    FirstStays(g, opts, dist, visit, id, s.depth, visit, from);
    forall k | 0 < k < |visit'| ensures NextInLine(g, opts, dist', visit', edges', k) {
      if k < |visit| {
        assert NextInLine(g, opts, dist, visit, edges, k);
        var f :| TakesFirst(g, opts, dist, visit, edges, k, f);
        TakesFirstStays(g, opts, dist, visit, edges, id, s.depth, [s.via.value], k, f);
      } else {
        assert visit'[..k] == visit && edges'[k - 1] == s.via.value;
        assert TakesFirst(g, opts, dist', visit', edges', k, from);
      }
    }
  }

  lemma InRange(g: Store, opts: Options, dist: Distances, visit: seq<NodeId>, k: Place, y: NodeId)
    requires Offers(g, opts, dist, visit, k, y)
    ensures k.at < |visit| && k.row < |Offer(g, opts, dist, visit[k.at])|
  {
  }

  /** The places of what a visit appends. */
  function NewPlaces(g: Store, opts: Options, visited: set<NodeId>, s: Step, adj: seq<Edge>, at: nat): seq<Place> {
    if s.depth < opts.Depth() then ExpandPlaces(g, opts, visited, s, adj, at) else []
  }

  /** What a visit appends, as offers of the new node. */
  lemma NewInPlace(g: Store, opts: Options, dist: Distances, visit: seq<NodeId>, s: Step)
    requires g.Valid() && s.node.id !in dist
    ensures var dist', visit' := dist[s.node.id := s.depth], visit + [s.node.id];
            var adj := StableSort.StableSorted(Adjacent(g, opts, s.node.id), Priority);
            var more, places := Appended(g, opts, dist'.Keys, s, adj), NewPlaces(g, opts, dist'.Keys, s, adj, |visit|);
            && |more| == |places|
            && (forall i | 0 <= i < |more| :: InPlace(g, opts, dist', visit', more[i], places[i]) && places[i].at == |visit|)
            && (forall i, j | 0 <= i < j < |places| :: Sooner(places[i], places[j]))
            && (forall b: Place, y | b.at == |visit| && Offers(g, opts, dist', visit', b, y) :: y in dist' || b in places)
  {
    hide Across, Admitted, Adjacent, StableSort.StableSorted;
    var dist', visit' := dist[s.node.id := s.depth], visit + [s.node.id];
    var adj := StableSort.StableSorted(Adjacent(g, opts, s.node.id), Priority);
    assert visit'[|visit|] == s.node.id;
    ExpandPlacesAre(g, opts, dist'.Keys, s, adj, |visit|);
    NewOffer(g, opts, dist, visit, s.node.id, s.depth);
    forall b: Place, y | b.at == |visit| && Offers(g, opts, dist', visit', b, y)
      ensures y in dist' || b in NewPlaces(g, opts, dist'.Keys, s, adj, |visit|)
    {
      assert b == Place(|visit|, b.row);
    }
  }

  lemma OldInPlace(g: Store, opts: Options, dist: Distances, visit: seq<NodeId>, id: NodeId, d: nat, s: Step, k: Place)
    requires id !in dist && (forall x | x in visit :: x in dist) && InPlace(g, opts, dist, visit, s, k)
    ensures InPlace(g, opts, dist[id := d], visit + [id], s, k) && k.at < |visit|
  {
    hide Offer;
    InRange(g, opts, dist, visit, k, s.node.id);
    OffersStay(g, opts, dist, visit, id, d, k);
  }

  lemma LineTogether(g: Store, opts: Options, dist: Distances, visit: seq<NodeId>, q: seq<Step>, p: seq<Place>,
                     more: seq<Step>, new_: seq<Place>, at: nat)
    requires |q| == |p| && |more| == |new_|
    requires forall i | 0 <= i < |q| :: InPlace(g, opts, dist, visit, q[i], p[i]) && p[i].at < at
    requires forall i | 0 <= i < |more| :: InPlace(g, opts, dist, visit, more[i], new_[i]) && new_[i].at == at
    requires forall i, j | 0 <= i < j < |p| :: Sooner(p[i], p[j])
    requires forall i, j | 0 <= i < j < |new_| :: Sooner(new_[i], new_[j])
    requires forall b, y | Offers(g, opts, dist, visit, b, y) :: y in dist || b in p || b in new_
    ensures Line(g, opts, dist, visit, q + more, p + new_)
  {
    hide Offers, InPlace;
  }

  /** A visit keeps the queue in line. */
  lemma LineAfterVisit(g: Store, opts: Options, dist: Distances, visit: seq<NodeId>, queue: seq<Step>, places: seq<Place>)
    requires g.Valid() && queue != [] && queue[0].node.id !in dist && ToSet(visit) == dist.Keys
    requires if visit == [] then |queue| == |places| == 1 else Line(g, opts, dist, visit, queue, places)
    ensures var s := queue[0];
            var dist', visit' := dist[s.node.id := s.depth], visit + [s.node.id];
            var adj := StableSort.StableSorted(Adjacent(g, opts, s.node.id), Priority);
            Line(g, opts, dist', visit', queue[1..] + Appended(g, opts, dist'.Keys, s, adj),
                 places[1..] + NewPlaces(g, opts, dist'.Keys, s, adj, |visit|))
  {
    hide Offers, InPlace, Appended, NewPlaces, Adjacent, StableSort.StableSorted;
    var s := queue[0];
    var id := s.node.id;
    var dist', visit' := dist[id := s.depth], visit + [id];
    var adj := StableSort.StableSorted(Adjacent(g, opts, id), Priority);
    var more, new_ := Appended(g, opts, dist'.Keys, s, adj), NewPlaces(g, opts, dist'.Keys, s, adj, |visit|);
    forall x | x in visit ensures x in dist { assert x in ToSet(visit); }
    NewInPlace(g, opts, dist, visit, s);
    forall i | 0 <= i < |queue| - 1
      ensures InPlace(g, opts, dist', visit', queue[1..][i], places[1..][i]) && places[1..][i].at < |visit|
    {
      OldInPlace(g, opts, dist, visit, id, s.depth, queue[i + 1], places[i + 1]);
    }
    forall b, y | Offers(g, opts, dist', visit', b, y) ensures y in dist' || b in places[1..] || b in new_ {
      OfferedBefore(g, opts, dist, visit, id, s.depth, b, y);
      if b.at < |visit| && y !in dist' {
        NotTheFront(g, opts, dist, visit, s, places[0], b, y);
        assert places == [places[0]] + places[1..];
      }
    }
    LineTogether(g, opts, dist', visit', queue[1..], places[1..], more, new_, |visit|);
  }

  lemma OfferedBefore(g: Store, opts: Options, dist: Distances, visit: seq<NodeId>, id: NodeId, d: nat, b: Place, y: NodeId)
    requires id !in dist && (forall x | x in visit :: x in dist) && Offers(g, opts, dist[id := d], visit + [id], b, y)
    ensures b.at <= |visit| && (b.at < |visit| ==> Offers(g, opts, dist, visit, b, y))
  {
    if b.at < |visit| { OffersStay(g, opts, dist, visit, id, d, b); }
  }

  lemma NotTheFront(g: Store, opts: Options, dist: Distances, visit: seq<NodeId>, s: Step, k: Place, b: Place, y: NodeId)
    requires InPlace(g, opts, dist, visit, s, k) && Offers(g, opts, dist, visit, b, y) && y != s.node.id
    ensures b != k
  {
  }

  /** The order of the subgraph's nodes after some steps were queued. */
  function Entered(order: seq<NodeId>, steps: seq<Step>): seq<NodeId> {
    if steps == [] then order
    else
      var n := |steps| - 1;
      var r := Entered(order, steps[..n]);
      if steps[n].node.id in r then r else r + [steps[n].node.id]
  }

  lemma {:induction false} EnteredMembers(order: seq<NodeId>, steps: seq<Step>)
    ensures order <= Entered(order, steps)
    ensures forall t | t in steps :: t.node.id in Entered(order, steps)
    ensures forall y | y in Entered(order, steps) :: y in order || y in QueueIds(steps)
  {
    if steps != [] {
      var n := |steps| - 1;
      EnteredMembers(order, steps[..n]);
      assert steps == steps[..n] + [steps[n]] && steps[n] in steps;
      assert forall t | t in steps[..n] :: t in steps;
    }
  }

  /** A new node enters with the first step to it. */
  lemma {:induction false} EnteredAt(order: seq<NodeId>, steps: seq<Step>, i: nat) returns (m: nat)
    requires |order| <= i < |Entered(order, steps)|
    ensures m < |steps| && steps[m].node.id == Entered(order, steps)[i] && Entered(order, steps[..m]) == Entered(order, steps)[..i]
  {
    var n := |steps| - 1;
    var r := Entered(order, steps[..n]);
    if i < |r| {
      m := EnteredAt(order, steps[..n], i);
      assert steps[..n][..m] == steps[..m] && r[..i] == Entered(order, steps)[..i];
    } else {
      m := n;
    }
  }

  /** Whatever was offered has entered. */
  ghost predicate AllEntered(g: Store, opts: Options, dist: Distances, visit: seq<NodeId>, order: seq<NodeId>) {
    && (forall b, y | Offers(g, opts, dist, visit, b, y) :: y in order)
    && (forall y | y in dist :: y in order)
  }

  lemma FirstOfNew(g: Store, opts: Options, dist: Distances, visit: seq<NodeId>, more: seq<Step>, new_: seq<Place>, at: nat,
                   order: seq<NodeId>, m: nat)
    requires |more| == |new_| && m < |more|
    requires forall i | 0 <= i < |more| :: InPlace(g, opts, dist, visit, more[i], new_[i]) && new_[i].at == at
    requires forall i, j | 0 <= i < j < |new_| :: Sooner(new_[i], new_[j])
    requires forall b, y | Offers(g, opts, dist, visit, b, y) :: y in order || b in new_
    ensures FirstOutside(g, opts, dist, visit, Entered(order, more[..m]), new_[m])
  {
    hide Offers, Offer, Entered;
    EnteredMembers(order, more[..m]);
    assert forall i | m <= i < |new_| :: !Sooner(new_[i], new_[m]);
    forall b, y | Offers(g, opts, dist, visit, b, y) && Sooner(b, new_[m]) ensures y in Entered(order, more[..m]) {
      if y !in order {
        var i :| 0 <= i < |new_| && new_[i] == b;
        assert i < m && InPlace(g, opts, dist, visit, more[i], new_[i]);
        OneTarget(g, opts, dist, visit, b, y, more[i].node.id);
        assert more[..m][i] == more[i] && more[i] in more[..m];
      }
    }
  }

  /** A visit keeps the order in which nodes enter. */
  lemma EnterAfterVisit(g: Store, opts: Options, dist: Distances, visit: seq<NodeId>, order: seq<NodeId>, s: Step)
    requires g.Valid() && s.node.id !in dist && s.node.id in order && ToSet(visit) == dist.Keys
    requires EnterInLine(g, opts, dist, visit, order) && AllEntered(g, opts, dist, visit, order)
    ensures var dist', visit' := dist[s.node.id := s.depth], visit + [s.node.id];
            var adj := StableSort.StableSorted(Adjacent(g, opts, s.node.id), Priority);
            var order' := Entered(order, Appended(g, opts, dist'.Keys, s, adj));
            EnterInLine(g, opts, dist', visit', order') && AllEntered(g, opts, dist', visit', order')
  {
    hide Offers, InPlace, Appended, NewPlaces, Adjacent, StableSort.StableSorted, Entered, FirstOutside;
    var id := s.node.id;
    var dist', visit' := dist[id := s.depth], visit + [id];
    var adj := StableSort.StableSorted(Adjacent(g, opts, id), Priority);
    var more, new_ := Appended(g, opts, dist'.Keys, s, adj), NewPlaces(g, opts, dist'.Keys, s, adj, |visit|);
    var order' := Entered(order, more);
    forall x | x in visit ensures x in dist { assert x in ToSet(visit); }
    NewInPlace(g, opts, dist, visit, s);
    EnteredMembers(order, more);
    assert order' == order + order'[|order|..];
    forall b, y | Offers(g, opts, dist', visit', b, y) ensures y in order || b in new_ {
      OfferedBefore(g, opts, dist, visit, id, s.depth, b, y);
    }
    forall b, y | Offers(g, opts, dist', visit', b, y) ensures y in order' {
      if y !in order {
        var i :| 0 <= i < |new_| && new_[i] == b;
        SameTarget(g, opts, dist', visit', more[i], b, y);
        assert more[i] in more;
      }
    }
    forall i | 0 < i < |order'| ensures EntersNext(g, opts, dist', visit', order', i) {
      if i < |order| {
        assert EntersNext(g, opts, dist, visit, order, i);
        assert order'[i] == order[i] && order'[..i] == order[..i];
        var k :| Offers(g, opts, dist, visit, k, order[i]) && FirstOutside(g, opts, dist, visit, order[..i], k);
        InRange(g, opts, dist, visit, k, order[i]);
        OffersStay(g, opts, dist, visit, id, s.depth, k);
        FirstStays(g, opts, dist, visit, id, s.depth, order[..i], k);
      } else {
        var m := EnteredAt(order, more, i);
        FirstOfNew(g, opts, dist', visit', more, new_, |visit|, order, m);
        AtItsPlace(g, opts, dist', visit', more[m], new_[m]);
      }
    }
    forall y | y in dist' ensures y in order' { assert y in order; }
  }

  lemma SameTarget(g: Store, opts: Options, dist: Distances, visit: seq<NodeId>, s: Step, b: Place, y: NodeId)
    requires InPlace(g, opts, dist, visit, s, b) && Offers(g, opts, dist, visit, b, y)
    ensures y == s.node.id
  {
  }

  lemma AtItsPlace(g: Store, opts: Options, dist: Distances, visit: seq<NodeId>, s: Step, k: Place)
    requires InPlace(g, opts, dist, visit, s, k)
    ensures Offers(g, opts, dist, visit, k, s.node.id)
  {
  }

  /** The nodes that a visit queues are those it has linked to and that were not visited. */
  lemma AppendedIds(g: Store, opts: Options, visited: set<NodeId>, s: Step, adj: seq<Edge>)
    requires g.Valid() && forall e :: e in adj <==> e in Adjacent(g, opts, s.node.id)
    ensures QueueIds(Appended(g, opts, visited, s, adj)) ==
            if s.depth < opts.Depth() then set y | y in g.nodes && y !in visited && Link(g, opts, s.node.id, y) else {}
  {
    hide Across, Admitted, Adjacent;
    var more := Expand(g, opts, visited, s, adj);
    ExpandMembers(g, opts, visited, s, adj);
    forall y ensures (exists t :: t in more && t.node.id == y) <==> y in g.nodes && y !in visited && Link(g, opts, s.node.id, y) {
      if t :| t in more && t.node.id == y {
        AdmittedExists(g, opts, y);
        NotVisited(g, opts, visited, s, adj, t);
      }
      if y in g.nodes && y !in visited && Link(g, opts, s.node.id, y) {
        var e :| e in Adjacent(g, opts, s.node.id) && Across(e, s.node.id) == y;
        assert Step(g.nodes[y], Some(e), s.depth + 1) in more && g.nodes[y].id == y;
      }
    }
  }

  lemma {:induction false} NotVisited(g: Store, opts: Options, visited: set<NodeId>, s: Step, adj: seq<Edge>, t: Step)
    requires g.Valid() && t in Expand(g, opts, visited, s, adj)
    ensures t.node.id !in visited
  {
    if adj != [] && t in Expand(g, opts, visited, s, adj[..|adj| - 1]) { NotVisited(g, opts, visited, s, adj[..|adj| - 1], t); }
  }

  /** What the run has established when the loop's condition is looked at. */
  ghost predicate RunInv(g: Store, opts: Options, start: NodeId, dist: Distances, visit: seq<NodeId>, edges: seq<Edge>,
                         order: seq<NodeId>, nodes: set<NodeId>, queue: seq<Step>, places: seq<Place>)
  {
    && |places| == |queue|
    && ToSet(visit) == dist.Keys && dist.Keys <= nodes && |edges| == (if visit == [] then 0 else |visit| - 1)
    && InLine(g, opts, dist, visit, edges)
    && order != [] && order[0] == start && ToSet(order) == nodes
    && EnterInLine(g, opts, dist, visit, order) && AllEntered(g, opts, dist, visit, order)
    && (if visit == [] then |queue| == 1 && queue[0].via.None? else Line(g, opts, dist, visit, queue, places))
    && nodes == Seen(g, opts, start, dist, visit) && WithinLimit(g, opts, start, dist, visit)
  }

  lemma RunStarts(g: Store, opts: Options, start: NodeId, s: Step)
    requires s.via.None?
    ensures RunInv(g, opts, start, map[], [], [], [start], {start}, [s], [Place(0, 0)])
  {
    hide Link;
    assert ToSet<NodeId>([]) == {} && ToSet([start]) == {start};
    assert Seen(g, opts, start, map[], []) == {start};
  }

  lemma RunSkips(g: Store, opts: Options, start: NodeId, dist: Distances, visit: seq<NodeId>, edges: seq<Edge>,
                 order: seq<NodeId>, nodes: set<NodeId>, queue: seq<Step>, places: seq<Place>)
    requires RunInv(g, opts, start, dist, visit, edges, order, nodes, queue, places) && queue != [] && queue[0].node.id in dist
    ensures |places| == |queue|
    ensures RunInv(g, opts, start, dist, visit, edges, order, nodes, queue[1..], places[1..])
  {
    hide InLine, EnterInLine, AllEntered, Line, Seen, WithinLimit;
    VisitedSome(dist, visit, queue[0].node.id);
    LineSkips(g, opts, dist, visit, queue, places);
  }

  lemma VisitedSome(dist: Distances, visit: seq<NodeId>, id: NodeId)
    requires ToSet(visit) == dist.Keys && id in dist
    ensures visit != []
  {
    assert id in ToSet(visit);
  }

  lemma FirstVisit(g: Store, opts: Options, dist: Distances, id: NodeId)
    ensures InLine(g, opts, dist, [id], [])
  {
  }

  lemma RunVisits(g: Store, opts: Options, start: NodeId, dist: Distances, visit: seq<NodeId>, edges: seq<Edge>,
                  order: seq<NodeId>, nodes: set<NodeId>, queue: seq<Step>, places: seq<Place>)
    requires g.Valid() && RunInv(g, opts, start, dist, visit, edges, order, nodes, queue, places)
    requires queue != [] && queue[0].node.id !in dist && queue[0].node.id in nodes && |nodes| < opts.Limit()
    ensures |places| == |queue|
    ensures var s := queue[0];
            var dist', visit' := dist[s.node.id := s.depth], visit + [s.node.id];
            var adj := StableSort.StableSorted(Adjacent(g, opts, s.node.id), Priority);
            var more := Appended(g, opts, dist'.Keys, s, adj);
            RunInv(g, opts, start, dist', visit', if s.via.Some? then edges + [s.via.value] else edges,
                   Entered(order, more), nodes + QueueIds(more), queue[1..] + more,
                   places[1..] + NewPlaces(g, opts, dist'.Keys, s, adj, |visit|))
  {
    hide InLine, EnterInLine, AllEntered, Line, Seen, WithinLimit, Appended, NewPlaces, Adjacent, Entered, QueueIds, StableSort.StableSorted;
    var s := queue[0];
    var id := s.node.id;
    var dist', visit' := dist[id := s.depth], visit + [id];
    var adj := StableSort.StableSorted(Adjacent(g, opts, id), Priority);
    var more := Appended(g, opts, dist'.Keys, s, adj);
    forall x | x in visit ensures x in dist { assert x in ToSet(visit); }
    assert ToSet(visit') == ToSet(visit) + {id};
    assert id in ToSet(order);
    LineAfterVisit(g, opts, dist, visit, queue, places);
    LineIsParallel(g, opts, dist', visit', queue[1..] + more, places[1..] + NewPlaces(g, opts, dist'.Keys, s, adj, |visit|));
    EnterAfterVisit(g, opts, dist, visit, order, s);
    EnteredSet(order, more);
    SortedMembers(g, opts, id);
    SeenAfterVisit(g, opts, start, dist, visit, s, nodes, adj);
    LimitStays(g, opts, start, dist, visit, id, s.depth);
    if visit == [] {
      assert edges == [] && visit' == [id];
      FirstVisit(g, opts, dist', id);
    } else {
      VisitTakesFirst(g, opts, dist, visit, edges, queue, places);
    }
  }

  lemma LineIsParallel(g: Store, opts: Options, dist: Distances, visit: seq<NodeId>, queue: seq<Step>, places: seq<Place>)
    requires Line(g, opts, dist, visit, queue, places)
    ensures |places| == |queue|
  {
  }

  lemma EnteredSet(order: seq<NodeId>, steps: seq<Step>)
    ensures ToSet(Entered(order, steps)) == ToSet(order) + QueueIds(steps)
    ensures order != [] ==> Entered(order, steps) != [] && Entered(order, steps)[0] == order[0]
  {
    hide Entered;
    EnteredMembers(order, steps);
    var r := Entered(order, steps);
    assert r == order + r[|order|..];
  }

  lemma SortedMembers(g: Store, opts: Options, id: NodeId)
    ensures forall e :: e in StableSort.StableSorted(Adjacent(g, opts, id), Priority) <==> e in Adjacent(g, opts, id)
  {
    hide Adjacent;
    var rows := Adjacent(g, opts, id);
    StableSort.StableSortedLaws(rows, Priority);
    assert forall e :: e in StableSort.StableSorted(rows, Priority) <==> e in multiset(StableSort.StableSorted(rows, Priority));
    assert forall e :: e in rows <==> e in multiset(rows);
  }

  lemma SeenAfterVisit(g: Store, opts: Options, start: NodeId, dist: Distances, visit: seq<NodeId>, s: Step, nodes: set<NodeId>, adj: seq<Edge>)
    requires g.Valid() && s.node.id !in dist && ToSet(visit) == dist.Keys && dist.Keys <= nodes && s.node.id in nodes
    requires nodes == Seen(g, opts, start, dist, visit) && forall e :: e in adj <==> e in Adjacent(g, opts, s.node.id)
    ensures var dist' := dist[s.node.id := s.depth];
            nodes + QueueIds(Appended(g, opts, dist'.Keys, s, adj)) == Seen(g, opts, start, dist', visit + [s.node.id])
  {
    hide Seen, Appended, QueueIds, Link, Adjacent;
    var id := s.node.id;
    var dist' := dist[id := s.depth];
    forall x | x in visit ensures x in dist { assert x in ToSet(visit); }
    SeenStays(g, opts, start, dist, visit, id, s.depth);
    SeenOneMore(g, opts, start, dist', visit, id);
    AppendedIds(g, opts, dist'.Keys, s, adj);
  }

  /** Two adjacent edges in the order of the adjacency: outgoing rows come first, rows in storage order. */
  ghost predicate RowBefore(g: Store, x: NodeId, d: Edge, e: Edge) {
    (d.source == x && e.target == x) || exists i, j :: 0 <= i < j < |g.edges| && g.edges[i] == d && g.edges[j] == e
  }

  lemma OutgoingOrder(g: Store, kinds: seq<string>, x: NodeId, i: nat, j: nat)
    requires i < j < |g.Outgoing(x, kinds)|
    ensures RowBefore(g, x, g.Outgoing(x, kinds)[i], g.Outgoing(x, kinds)[j])
  {
    SelectKeepsOrder(g.edges, (e: Edge) => e.source == x && KindAllowed(e, kinds), i, j);
  }

  lemma IncomingOrder(g: Store, kinds: seq<string>, x: NodeId, i: nat, j: nat)
    requires i < j < |g.Incoming(x, kinds)|
    ensures RowBefore(g, x, g.Incoming(x, kinds)[i], g.Incoming(x, kinds)[j])
  {
    SelectKeepsOrder(g.edges, (e: Edge) => e.target == x && KindAllowed(e, kinds), i, j);
  }

  lemma OutgoingFirst(g: Store, kinds: seq<string>, x: NodeId, d: Edge, e: Edge)
    requires d in g.Outgoing(x, kinds) && e in g.Incoming(x, kinds)
    ensures RowBefore(g, x, d, e)
  {
    OutgoingMembers(g, x, kinds);
    IncomingMembers(g, x, kinds);
  }

  lemma AdjacentOrder(g: Store, opts: Options, x: NodeId, i: nat, j: nat)
    requires i < j < |Adjacent(g, opts, x)|
    ensures RowBefore(g, x, Adjacent(g, opts, x)[i], Adjacent(g, opts, x)[j])
  {
    hide RowBefore, Store.Outgoing, Store.Incoming;
    var kinds := opts.edgeKinds;
    var out, into := g.Outgoing(x, kinds), g.Incoming(x, kinds);
    var n := |out|;
    if opts.Direction() == "incoming" {
      IncomingOrder(g, kinds, x, i, j);
    } else if j < n {
      OutgoingOrder(g, kinds, x, i, j);
    } else if i < n {
      assert out[i] in out && into[j - n] in into;
      OutgoingFirst(g, kinds, x, out[i], into[j - n]);
    } else {
      IncomingOrder(g, kinds, x, i - n, j - n);
    }
  }

  /** Offers come in this order: containment, then calls, then the rest, and rows in order within each. */
  lemma OffersInOrder(g: Store, opts: Options, dist: Distances, x: NodeId, p: nat, q: nat)
    requires p < q < |Offer(g, opts, dist, x)|
    ensures var d, e := Offer(g, opts, dist, x)[p], Offer(g, opts, dist, x)[q];
            && (e.kind == "contains" ==> d.kind == "contains")
            && (e.kind == "calls" ==> d.kind in {"contains", "calls"})
            && (d.kind == e.kind || (d.kind !in {"contains", "calls"} && e.kind !in {"contains", "calls"}) ==> RowBefore(g, x, d, e))
  {
    hide Adjacent, RowBefore;
    var rows := Adjacent(g, opts, x);
    StableSort.StableOrder(rows, Priority, p, q);
    var d, e := Offer(g, opts, dist, x)[p], Offer(g, opts, dist, x)[q];
    if Priority(d) == Priority(e) {
      var i, j :| 0 <= i < j < |rows| && rows[i] == d && rows[j] == e;
      AdjacentOrder(g, opts, x, i, j);
    }
  }

  // ---------------------------------------------------------------- the traversal

  /** Structural edges first: contains, then calls, then the rest. */
  function Priority(e: Edge): real {
    if e.kind == "contains" then 0.0 else if e.kind == "calls" then 1.0 else 2.0
  }

  method StableSortEdges(edges: array<Edge>)
    modifies edges
    ensures edges[..] == StableSort.StableSorted(old(edges[..]), Priority)
  {
    StableSort.InsertionSort(edges, Priority);
  }

  function QueueIds(queue: seq<Step>): set<NodeId> { set t | t in queue :: t.node.id }

  /** Every entry of the subgraph's node set is the store's node. */
  predicate Faithful(g: Store, nodes: map<NodeId, Node>) {
    forall id | id in nodes :: id in g.nodes && nodes[id] == g.nodes[id]
  }

  method SortedAdjacency(g: Store, opts: Options, id: NodeId) returns (adj: seq<Edge>)
    ensures forall e :: e in adj <==> e in Adjacent(g, opts, id)
    ensures adj == StableSort.StableSorted(Adjacent(g, opts, id), Priority)
  {
    var rows := Adjacent(g, opts, id);
    var a := new Edge[|rows|](i requires 0 <= i < |rows| => rows[i]);
    assert a[..] == rows;
    StableSortEdges(a);
    adj := a[..];
    StableSort.StableSortedLaws(rows, Priority);
    assert forall e :: e in adj <==> e in multiset(adj);
    assert forall e :: e in rows <==> e in multiset(rows);
  }

  /** The nodes behind adjacent edges that are not visited yet, fetched in one batch. */
  method Neighbours(g: Store, visited: set<NodeId>, id: NodeId, adj: seq<Edge>) returns (found: map<NodeId, Node>)
    ensures Faithful(g, found)
    ensures forall e | e in adj && Across(e, id) !in visited :: Across(e, id) in found <==> Across(e, id) in g.nodes
  {
    var wantIds: seq<NodeId> := [];
    for k := 0 to |adj|
      invariant forall i | 0 <= i < k && Across(adj[i], id) !in visited :: Across(adj[i], id) in wantIds
    {
      var next := Across(adj[k], id);
      if next !in visited { wantIds := wantIds + [next]; }
    }
    found := g.NodesByIds(wantIds);
  }

  lemma NothingQueued()
    ensures QueueIds([]) == {}
  {
  }

  lemma QueueIdsAppend(queue: seq<Step>, t: Step)
    ensures QueueIds(queue + [t]) == QueueIds(queue) + {t.node.id}
  {
    assert forall u | u in queue + [t] :: u in queue || u == t;
    assert t in queue + [t] && forall u | u in queue :: u in queue + [t];
  }

  /** The loop over adjacent edges: neighbours enter the subgraph when they are queued. */
  method Enqueue(g: Store, opts: Options, visited: set<NodeId>, s: Step, adj: seq<Edge>, sg: Subgraph)
    returns (more: seq<Step>)
    requires g.Valid() && Tidy(sg.Viewed()) && Faithful(g, sg.nodes)
    modifies sg`order, sg`nodes
    ensures more == Expand(g, opts, visited, s, adj)
    ensures Tidy(sg.Viewed()) && Faithful(g, sg.nodes)
    ensures sg.nodes.Keys == old(sg.nodes.Keys) + QueueIds(more) && sg.order == Entered(old(sg.order), more)
  {
    hide Tidy, QueueIds, Entered, Expand, Across;
    NothingEntered(sg.order);
    NothingExpanded(g, opts, visited, s, adj);
    var neighbours := Neighbours(g, visited, s.node.id, adj);
    assert QueueIds([]) == {} by { NothingQueued(); }
    more := [];
    for k := 0 to |adj|
      invariant more == Expand(g, opts, visited, s, adj[..k])
      invariant Tidy(sg.Viewed()) && Faithful(g, sg.nodes)
      invariant sg.nodes.Keys == old(sg.nodes.Keys) + QueueIds(more) && sg.order == Entered(old(sg.order), more)
    {
      ExpandStep(g, opts, visited, s, adj, k);
      assert adj[k] in adj;
      var nextId := Across(adj[k], s.node.id);
      if nextId !in visited && nextId in neighbours {
        var next := neighbours[nextId];
        if opts.nodeKinds == [] || next.kind in opts.nodeKinds {
          SetKeepsTidy(sg.Viewed(), next);
          TidyOrder(sg.Viewed(), next.id);
          OneMoreEntered(old(sg.order), more, Step(next, Some(adj[k]), s.depth + 1));
          sg.Set(next);
          QueueIdsAppend(more, Step(next, Some(adj[k]), s.depth + 1));
          more := more + [Step(next, Some(adj[k]), s.depth + 1)];
        }
      }
    }
    assert adj[..|adj|] == adj;
  }

  lemma NothingExpanded(g: Store, opts: Options, visited: set<NodeId>, s: Step, adj: seq<Edge>)
    ensures Expand(g, opts, visited, s, adj[..0]) == []
  {
  }

  lemma ExpandStep(g: Store, opts: Options, visited: set<NodeId>, s: Step, adj: seq<Edge>, k: nat)
    requires k < |adj|
    ensures var y := Across(adj[k], s.node.id);
            Expand(g, opts, visited, s, adj[..k + 1]) == Expand(g, opts, visited, s, adj[..k]) +
              if y !in visited && Admitted(g, opts, y) then [Step(g.nodes[y], Some(adj[k]), s.depth + 1)] else []
  {
    assert adj[..k + 1][..k] == adj[..k];
  }

  lemma NothingEntered(order: seq<NodeId>)
    ensures Entered(order, []) == order
  {
  }

  lemma OneMoreEntered(order: seq<NodeId>, steps: seq<Step>, s: Step)
    ensures var r := Entered(order, steps);
            Entered(order, steps + [s]) == if s.node.id in r then r else r + [s.node.id]
  {
    assert (steps + [s])[..|steps|] == steps;
  }

  lemma TidyOrder(v: View, id: NodeId)
    requires Tidy(v)
    ensures id in v.order <==> id in v.nodes
  {
    assert id in v.order <==> id in ToSet(v.order);
  }

  lemma StartInv(g: Store, opts: Options, start: NodeId)
    requires g.Valid() && start in g.nodes
    ensures Inv(g, opts, start, map[], [Step(g.nodes[start], None, 0)])
    ensures VisitOrder(map[], []) && SpanningTree(g, opts, map[], [], [])
  {
    assert ToSet<NodeId>([]) == {};
  }

  /** What is in the subgraph: the start, the visited nodes and the queued ones. */
  predicate Accounted(start: NodeId, dist: Distances, queue: seq<Step>, nodes: map<NodeId, Node>) {
    nodes.Keys == {start} + dist.Keys + QueueIds(queue)
  }

  lemma AccountedAfter(g: Store, opts: Options, start: NodeId, dist: Distances, queue: seq<Step>, more: seq<Step>, keys: set<NodeId>)
    requires queue != [] && keys == {start} + dist.Keys + QueueIds(queue)
    ensures keys + QueueIds(more) ==
            {start} + dist[queue[0].node.id := queue[0].depth].Keys + QueueIds(queue[1..] + more)
    ensures queue[0].node.id in dist ==> keys == {start} + dist.Keys + QueueIds(queue[1..])
  {
    var rest := queue[1..];
    assert queue == [queue[0]] + rest;
    assert QueueIds(queue) == {queue[0].node.id} + QueueIds(rest) by {
      assert queue[0] in queue;
      assert forall t :: t in queue <==> t == queue[0] || t in rest;
    }
    assert QueueIds(rest + more) == QueueIds(rest) + QueueIds(more) by {
      assert forall t :: t in rest + more <==> t in rest || t in more;
    }
  }

  /** Everything in the subgraph is within the depth bound. */
  lemma AccountedIsNear(g: Store, opts: Options, start: NodeId, dist: Distances, queue: seq<Step>, id: NodeId)
    requires Inv(g, opts, start, dist, queue) && id in {start} + dist.Keys + QueueIds(queue)
    ensures id in Within(g, opts, start, opts.Depth())
  {
    hide Within, Layered, NothingForgotten;
    WithinZero(g, opts, start);
    if id == start {
      WithinGrows(g, opts, start, 0, opts.Depth());
    } else if id in dist {
      WithinGrows(g, opts, start, dist[id], opts.Depth());
    } else {
      var t :| t in queue && t.node.id == id;
      var i :| 0 <= i < |queue| && queue[i] == t;
      assert StepSound(g, opts, start, dist, queue[i]);
      FrontIsNear(g, opts, start, dist, queue, t);
      WithinGrows(g, opts, start, t.depth, opts.Depth());
    }
  }

  /** When the queue has run empty, the visited nodes are all nodes within the depth bound. */
  lemma EmptyQueueIsComplete(g: Store, opts: Options, start: NodeId, dist: Distances, queue: seq<Step>)
    requires Inv(g, opts, start, dist, queue) && queue == []
    ensures dist.Keys == Within(g, opts, start, opts.Depth())
  {
    hide Within, Link, NothingForgotten, DistancesTrue;
    forall y | y in Within(g, opts, start, opts.Depth()) ensures y in dist {
      NearerIsVisited(g, opts, start, dist, queue, opts.Depth(), y);
    }
    forall y | y in dist ensures y in Within(g, opts, start, opts.Depth()) {
      AccountedIsNear(g, opts, start, dist, queue, y);
    }
  }

  lemma FaithfulOne(g: Store, id: NodeId)
    requires id in g.nodes
    ensures Faithful(g, map[id := g.nodes[id]])
  {
  }

  lemma FrontInGraph(g: Store, opts: Options, start: NodeId, dist: Distances, queue: seq<Step>)
    requires Inv(g, opts, start, dist, queue) && queue != []
    ensures queue[0].node.id in g.nodes
  {
    assert StepSound(g, opts, start, dist, queue[0]);
  }

  lemma AppendedIs(g: Store, opts: Options, visited: set<NodeId>, s: Step, adj: seq<Edge>)
    ensures Appended(g, opts, visited, s, adj) == if s.depth < opts.Depth() then Expand(g, opts, visited, s, adj) else []
  {
  }

  /** The invariant with the loop's exit condition gives the outcome. */
  lemma OutcomeAtExit(g: Store, opts: Options, start: NodeId, nodes: map<NodeId, Node>, edges: seq<Edge>,
                      visit: seq<NodeId>, dist: Distances, queue: seq<Step>)
    requires Inv(g, opts, start, dist, queue) && VisitOrder(dist, visit) && SpanningTree(g, opts, dist, visit, edges)
    requires Faithful(g, nodes) && Accounted(start, dist, queue, nodes)
    requires queue == [] || opts.Limit() <= |nodes|
    ensures Outcome(g, opts, start, nodes, edges, visit, dist)
  {
    hide Within, SpanningTree, VisitOrder, NothingForgotten, Layered, Faithful, AtDistance, StepSound;
    forall id | id in nodes ensures id in Within(g, opts, start, opts.Depth()) {
      AccountedIsNear(g, opts, start, dist, queue, id);
    }
    assert dist.Keys <= nodes.Keys;
    if queue == [] {
      EmptyQueueIsComplete(g, opts, start, dist, queue);
      assert nodes.Keys == dist.Keys;
    }
  }

  /** What a finished traversal has established, whether or not it hit the node limit. */
  ghost predicate Outcome(g: Store, opts: Options, start: NodeId, nodes: map<NodeId, Node>, edges: seq<Edge>,
                          visit: seq<NodeId>, dist: Distances)
  {
    && Faithful(g, nodes)
    && dist.Keys <= nodes.Keys <= Within(g, opts, start, opts.Depth())
    && VisitOrder(dist, visit)
    && (forall x | x in dist :: AtDistance(g, opts, start, x, dist[x]))
    && SpanningTree(g, opts, dist, visit, edges)
    && (|nodes| < opts.Limit() ==> dist.Keys == nodes.Keys == Within(g, opts, start, opts.Depth()))
  }

  /** The state of the loop: the subgraph built so far agrees with the visited nodes and queue. */
  ghost predicate LoopInv(g: Store, opts: Options, start: NodeId, sg: Subgraph, visit: seq<NodeId>, dist: Distances, queue: seq<Step>)
    reads sg
  {
    && Tidy(sg.Viewed()) && Faithful(g, sg.nodes) && sg.roots == [start]
    && dist.Keys <= g.nodes.Keys
    && Inv(g, opts, start, dist, queue)
    && VisitOrder(dist, visit) && SpanningTree(g, opts, dist, visit, sg.edges)
    && Accounted(start, dist, queue, sg.nodes)
  }

  /** One turn of the loop for a node that leaves the queue for the first time. */
  method VisitFront(g: Store, opts: Options, start: NodeId, sg: Subgraph, visited: set<NodeId>,
                    ghost visit: seq<NodeId>, ghost dist: Distances, queue: seq<Step>)
    returns (rest: seq<Step>)
    requires g.Valid() && LoopInv(g, opts, start, sg, visit, dist, queue)
    requires queue != [] && queue[0].node.id !in dist && visited == dist.Keys
    modifies sg`order, sg`nodes, sg`edges
    ensures LoopInv(g, opts, start, sg, visit + [queue[0].node.id], dist[queue[0].node.id := queue[0].depth], rest)
    ensures var more := Appended(g, opts, dist[queue[0].node.id := queue[0].depth].Keys, queue[0],
                                 StableSort.StableSorted(Adjacent(g, opts, queue[0].node.id), Priority));
            && rest == queue[1..] + more
            && sg.nodes.Keys == old(sg.nodes.Keys) + QueueIds(more) && sg.order == Entered(old(sg.order), more)
            && sg.edges == if queue[0].via.Some? then old(sg.edges) + [queue[0].via.value] else old(sg.edges)
  {
    hide Tidy, SpanningTree, VisitOrder, Inv, Faithful, Appended, Expand, QueueIds, Adjacent, Entered;
    NothingEntered(sg.order);
    var s := queue[0];
    var adj := SortedAdjacency(g, opts, s.node.id);
    FrontInGraph(g, opts, start, dist, queue);
    VisitKeepsInv(g, opts, start, dist, queue, adj);
    OrderGrows(g, opts, start, dist, visit, queue);
    TreeGrows(g, opts, start, dist, visit, sg.edges, queue);
    var visited' := visited + {s.node.id};
    assert visited' == dist[s.node.id := s.depth].Keys;
    if s.via.Some? { sg.edges := sg.edges + [s.via.value]; }
    ghost var before := sg.nodes.Keys;
    var more: seq<Step> := [];
    NothingQueued();
    if s.depth < opts.Depth() {
      more := Enqueue(g, opts, visited', s, adj, sg);
    }
    AppendedIs(g, opts, visited', s, adj);
    AccountedAfter(g, opts, start, dist, queue, more, before);
    rest := queue[1..] + more;
  }

  /** The subgraph before the first turn: the start node, queued but not visited. */
  method Begin(g: Store, opts: Options, start: NodeId) returns (sg: Subgraph, queue: seq<Step>)
    requires g.Valid() && start in g.nodes
    ensures fresh(sg) && LoopInv(g, opts, start, sg, [], map[], queue)
    ensures sg.edges == [] && sg.order == [start] && sg.nodes.Keys == {start} && queue == [Step(g.nodes[start], None, 0)]
  {
    sg := new Subgraph();
    queue := [Step(g.nodes[start], None, 0)];
    TidyEmpty();
    SetKeepsTidy(sg.Viewed(), g.nodes[start]);
    hide Tidy, SpanningTree, VisitOrder, Inv, Faithful;
    StartInv(g, opts, start);
    sg.Set(g.nodes[start]);
    sg.roots := [start];
    assert sg.nodes == map[start := g.nodes[start]];
    FaithfulOne(g, start);
    assert QueueIds(queue) == {start};
  }

  lemma TidyEmpty()
    ensures Tidy(View([], map[]))
  {
    assert ToSet<NodeId>([]) == {};
  }

  lemma SkipTurn(g: Store, opts: Options, start: NodeId, sg: Subgraph, visit: seq<NodeId>, dist: Distances, queue: seq<Step>)
    requires LoopInv(g, opts, start, sg, visit, dist, queue) && queue != [] && queue[0].node.id in dist
    ensures LoopInv(g, opts, start, sg, visit, dist, queue[1..])
  {
    hide Tidy, SpanningTree, VisitOrder, Inv, Faithful;
    SkipKeepsInv(g, opts, start, dist, queue);
    AccountedAfter(g, opts, start, dist, queue, [], sg.nodes.Keys);
    assert queue[1..] + [] == queue[1..];
  }

  lemma FrontOfLoop(g: Store, opts: Options, start: NodeId, sg: Subgraph, visit: seq<NodeId>, dist: Distances, queue: seq<Step>)
    requires LoopInv(g, opts, start, sg, visit, dist, queue) && queue != []
    ensures queue[0].node.id in g.nodes && dist.Keys <= g.nodes.Keys
  {
    hide Tidy, SpanningTree, VisitOrder, Inv, Faithful;
    FrontInGraph(g, opts, start, dist, queue);
  }

  lemma ExitTurn(g: Store, opts: Options, start: NodeId, sg: Subgraph, visit: seq<NodeId>, dist: Distances, queue: seq<Step>)
    requires LoopInv(g, opts, start, sg, visit, dist, queue)
    requires queue == [] || opts.Limit() <= |sg.nodes|
    ensures Tidy(sg.Viewed()) && start in sg.nodes && sg.roots == [start]
    ensures Outcome(g, opts, start, sg.nodes, sg.edges, visit, dist)
  {
    hide Tidy, SpanningTree, VisitOrder, Inv, Faithful, Outcome;
    OutcomeAtExit(g, opts, start, sg.nodes, sg.edges, visit, dist, queue);
  }

  /** `visit` lists the nodes in the order they left the queue and `dist` gives their hop counts. */
  method TraverseBFS(g: Store, startId: NodeId, opts: Options)
    returns (sg: Subgraph, ghost visit: seq<NodeId>, ghost dist: Distances)
    requires g.Valid()
    ensures fresh(sg) && Tidy(sg.Viewed())
    ensures startId !in g.nodes ==> sg.Viewed() == View([], map[]) && sg.edges == [] && sg.roots == []
    ensures startId in g.nodes ==>
              startId in sg.nodes && sg.roots == [startId] &&
              Outcome(g, opts, startId, sg.nodes, sg.edges, visit, dist)
    ensures startId in g.nodes ==>
              && sg.nodes.Keys == Seen(g, opts, startId, dist, visit) && WithinLimit(g, opts, startId, dist, visit)
              && InLine(g, opts, dist, visit, sg.edges)
              && sg.order != [] && sg.order[0] == startId && EnterInLine(g, opts, dist, visit, sg.order)
  {
    hide Tidy, Outcome, LoopInv, RunInv, InLine, EnterInLine, Seen, WithinLimit, Appended, NewPlaces, Adjacent, QueueIds, Entered, StableSort.StableSorted;
    visit, dist := [], map[];
    if startId !in g.nodes {
      sg := new Subgraph();
      TidyEmpty();
      return;
    }
    var queue;
    sg, queue := Begin(g, opts, startId);
    ghost var places := [Place(0, 0)];
    RunStarts(g, opts, startId, queue[0]);
    var visited: set<NodeId> := {};

    while |queue| > 0 && sg.Len() < opts.Limit()
      invariant fresh(sg) && visited == dist.Keys
      invariant LoopInv(g, opts, startId, sg, visit, dist, queue)
      invariant RunInv(g, opts, startId, dist, visit, sg.edges, sg.order, sg.nodes.Keys, queue, places)
      decreases g.nodes.Keys - visited, |queue|
    {
      var s := queue[0];
      FrontOfLoop(g, opts, startId, sg, visit, dist, queue);
      if s.node.id in visited {
        SkipTurn(g, opts, startId, sg, visit, dist, queue);
        RunSkips(g, opts, startId, dist, visit, sg.edges, sg.order, sg.nodes.Keys, queue, places);
        queue, places := queue[1..], places[1..];
      } else {
        FrontIsIn(g, opts, startId, sg, visit, dist, queue);
        RunVisits(g, opts, startId, dist, visit, sg.edges, sg.order, sg.nodes.Keys, queue, places);
        places := places[1..] + NewPlaces(g, opts, dist[s.node.id := s.depth].Keys, s,
                                          StableSort.StableSorted(Adjacent(g, opts, s.node.id), Priority), |visit|);
        queue := VisitFront(g, opts, startId, sg, visited, visit, dist, queue);
        visit, dist := visit + [s.node.id], dist[s.node.id := s.depth];
        visited := visited + {s.node.id};
      }
    }
    ExitTurn(g, opts, startId, sg, visit, dist, queue);
    RunMeans(g, opts, startId, dist, visit, sg.edges, sg.order, sg.nodes.Keys, queue, places);
  }

  lemma RunMeans(g: Store, opts: Options, start: NodeId, dist: Distances, visit: seq<NodeId>, edges: seq<Edge>,
                 order: seq<NodeId>, nodes: set<NodeId>, queue: seq<Step>, places: seq<Place>)
    requires RunInv(g, opts, start, dist, visit, edges, order, nodes, queue, places)
    ensures nodes == Seen(g, opts, start, dist, visit) && WithinLimit(g, opts, start, dist, visit)
    ensures InLine(g, opts, dist, visit, edges) && order != [] && order[0] == start && EnterInLine(g, opts, dist, visit, order)
  {
  }

  lemma FrontIsIn(g: Store, opts: Options, start: NodeId, sg: Subgraph, visit: seq<NodeId>, dist: Distances, queue: seq<Step>)
    requires LoopInv(g, opts, start, sg, visit, dist, queue) && queue != []
    ensures queue[0].node.id in sg.nodes
  {
    hide Tidy, SpanningTree, VisitOrder, Inv, Faithful;
    assert queue[0] in queue;
  }

  // ---------------------------------------------------------------- no depth bound

  lemma {:induction false} WithinInGraph(g: Store, opts: Options, start: NodeId, k: nat)
    requires start in g.nodes
    ensures Within(g, opts, start, k) <= g.nodes.Keys
  {
    if k > 0 { WithinInGraph(g, opts, start, k - 1); }
  }

  lemma SameFrontSameNext(g: Store, opts: Options, start: NodeId, j: nat, k: nat)
    requires Within(g, opts, start, j) == Within(g, opts, start, k)
    ensures Within(g, opts, start, j + 1) == Within(g, opts, start, k + 1)
  {
    hide Link, LinkedFrom;
  }

  /** Each further hop finds a new node or finds nothing ever again. */
  lemma {:induction false} GrowsOrStops(g: Store, opts: Options, start: NodeId, k: nat)
    ensures Within(g, opts, start, k) == Within(g, opts, start, k + 1) || k + 2 <= |Within(g, opts, start, k + 1)|
  {
    hide Link, LinkedFrom, Within;
    WithinGrows(g, opts, start, k, k + 1);
    if k > 0 {
      GrowsOrStops(g, opts, start, k - 1);
      if Within(g, opts, start, k - 1) == Within(g, opts, start, k) { SameFrontSameNext(g, opts, start, k - 1, k); }
    } else {
      WithinZero(g, opts, start);
    }
    if Within(g, opts, start, k) != Within(g, opts, start, k + 1) {
      SubsetIsSmaller(Within(g, opts, start, k), Within(g, opts, start, k + 1));
    }
  }

  lemma {:induction false} StoppedForever(g: Store, opts: Options, start: NodeId, j: nat, k: nat)
    requires j <= k && Within(g, opts, start, j) == Within(g, opts, start, j + 1)
    ensures Within(g, opts, start, k) == Within(g, opts, start, j)
  {
    hide Link, LinkedFrom, Within;
    if j < k {
      StoppedForever(g, opts, start, j, k - 1);
      SameFrontSameNext(g, opts, start, k - 1, j);
    }
  }

  /** A bound no smaller than the number of nodes bounds nothing; in particular the unbounded
      depth is unbounded on every store of at most MAX_INT nodes. */
  lemma LargeDepthReachesAll(g: Store, opts: Options, start: NodeId, k: nat)
    requires start in g.nodes && |g.nodes| <= opts.Depth()
    ensures Within(g, opts, start, k) <= Within(g, opts, start, opts.Depth())
  {
    hide Within;
    var n := |g.nodes|;
    GrowsOrStops(g, opts, start, n);
    WithinInGraph(g, opts, start, n + 1);
    if Within(g, opts, start, n) != Within(g, opts, start, n + 1) {
      SubsetIsSmaller(Within(g, opts, start, n + 1), g.nodes.Keys);
    }
    StoppedForever(g, opts, start, n, opts.Depth());
    if n <= k { StoppedForever(g, opts, start, n, k); } else { WithinGrows(g, opts, start, k, n); }
  }
}
