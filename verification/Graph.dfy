/** The code graph that the traversals read: nodes by id and edge rows in storage order
    (model/types.go, store/nodes.go, store/edges.go). */
module Graph {
  import opened Collections

  type NodeId = string

  datatype Node = Node(
    id: NodeId,
    kind: string,
    name: string,
    qualifiedName: string,
    filePath: string,
    language: string,
    signature: string,
    returnType: string,
    typeParameters: seq<string>,
    startLine: int)

  datatype Edge = Edge(
    source: NodeId,
    target: NodeId,
    kind: string,
    line: int,
    column: int,
    metadata: string,
    provenance: string)

  /** One scope's database; rows of `edges` may repeat. */
  datatype Store = Store(nodes: map<NodeId, Node>, edges: seq<Edge>) {

    /** Nodes are stored under their own id. */
    ghost predicate Valid() { forall id | id in nodes :: nodes[id].id == id }

    /** The batch lookup: missing ids are simply absent. */
    function NodesByIds(ids: seq<NodeId>): map<NodeId, Node> {
      map id | id in ids && id in nodes :: nodes[id]
    }

    /** Edges leaving `id`, filtered by kind when any kind is given. */
    function Outgoing(id: NodeId, kinds: seq<string>): seq<Edge> {
      Select(edges, (e: Edge) => e.source == id && KindAllowed(e, kinds))
    }

    function Incoming(id: NodeId, kinds: seq<string>): seq<Edge> {
      Select(edges, (e: Edge) => e.target == id && KindAllowed(e, kinds))
    }
  }

  predicate KindAllowed(e: Edge, kinds: seq<string>) { kinds == [] || e.kind in kinds }

  lemma OutgoingMembers(g: Store, id: NodeId, kinds: seq<string>)
    ensures forall e :: e in g.Outgoing(id, kinds) <==> e in g.edges && e.source == id && KindAllowed(e, kinds)
  {
    SelectMembers(g.edges, (e: Edge) => e.source == id && KindAllowed(e, kinds));
  }

  lemma IncomingMembers(g: Store, id: NodeId, kinds: seq<string>)
    ensures forall e :: e in g.Incoming(id, kinds) <==> e in g.edges && e.target == id && KindAllowed(e, kinds)
  {
    SelectMembers(g.edges, (e: Edge) => e.target == id && KindAllowed(e, kinds));
  }
}
