/** Re-extracting changed files in one store (indexer/sync.go, indexer/store.go, store/edges.go, store/nodes.go).
    Replacing a file deletes its nodes, which cascades to every edge that touches them; edges from
    unchanged files are saved before and put back on the nodes that took their targets' place. */
module IncrementalIndex {
  import opened Collections
  import opened Graph
  import StableSort

  type Path = string
  type Hash = string

  /** The three tables; edge rows may repeat, node ids may not. */
  datatype Table = Table(nodes: seq<Node>, edges: seq<Edge>, files: map<Path, Hash>)

  // ---------------------------------------------------------------- table operations

  function IdsOf(nodes: seq<Node>): set<NodeId> { set n | n in nodes :: n.id }

  function Outside(ids: set<NodeId>): Node -> bool { (n: Node) => n.id !in ids }

  function Apart(ids: set<NodeId>): Edge -> bool { (e: Edge) => e.source !in ids && e.target !in ids }

  function Joining(ids: set<NodeId>): Edge -> bool { (e: Edge) => e.source in ids && e.target in ids }

  function InFile(path: Path): Node -> bool { (n: Node) => n.filePath == path }

  /** Deleting nodes cascades to the edges at them. */
  function DeleteNodes(t: Table, ids: set<NodeId>): Table {
    Table(Select(t.nodes, Outside(ids)), Select(t.edges, Apart(ids)), t.files)
  }

  function DeleteFile(t: Table, path: Path): Table {
    DeleteNodes(t, IdsOf(Select(t.nodes, InFile(path)))).(files := t.files - {path})
  }

  /** Insert or replace: a row with the same id is deleted first, with its edges. */
  function InsertNode(t: Table, n: Node): Table {
    var cleared := if n.id in IdsOf(t.nodes) then DeleteNodes(t, {n.id}) else t;
    cleared.(nodes := cleared.nodes + [Qualified(n)])
  }

  /** A node without a qualified name is stored under its plain one. */
  function Qualified(n: Node): Node { if n.qualifiedName == "" then n.(qualifiedName := n.name) else n }

  function InsertNodes(t: Table, nodes: seq<Node>): Table {
    if nodes == [] then t else InsertNode(InsertNodes(t, nodes[..|nodes| - 1]), nodes[|nodes| - 1])
  }

  /** Edges without both ends are skipped; rows are not deduplicated. */
  function InsertEdges(t: Table, edges: seq<Edge>): Table {
    t.(edges := t.edges + Select(edges, Joining(IdsOf(t.nodes))))
  }

  function NodesByFile(t: Table, path: Path): seq<Node> {
    StableSort.StableSorted(Select(t.nodes, InFile(path)), (n: Node) => n.startLine as real)
  }

  // ---------------------------------------------------------------- storing one file

  /** What extraction made of a file: nothing, a fingerprint only, or nodes and edges. */
  datatype Outcome = Unread | TooLarge(hash: Hash) | Extracted(hash: Hash, nodes: seq<Node>, edges: seq<Edge>)

  datatype Job = Job(path: Path, outcome: Outcome)

  function Complete(): Node -> bool {
    (n: Node) => n.id != "" && n.kind != "" && n.name != "" && n.filePath != "" && n.language != ""
  }

  function StoreExtraction(t: Table, path: Path, hash: Hash, nodes: seq<Node>, edges: seq<Edge>): Table {
    if path in t.files && t.files[path] == hash then t
    else
      var cleared := if path in t.files then DeleteFile(t, path) else t;
      var valid := Select(nodes, Complete());
      var filled := InsertEdges(InsertNodes(cleared, valid), Select(edges, Joining(IdsOf(valid))));
      filled.(files := filled.files[path := hash])
  }

  function RunJob(t: Table, job: Job): Table {
    match job.outcome
    case Unread => t
    case TooLarge(hash) => var r := DeleteFile(t, job.path); r.(files := r.files[job.path := hash])
    case Extracted(hash, nodes, edges) => StoreExtraction(t, job.path, hash, nodes, edges)
  }

  function RunJobs(t: Table, jobs: seq<Job>): Table {
    if jobs == [] then t else RunJob(RunJobs(t, jobs[..|jobs| - 1]), jobs[|jobs| - 1])
  }

  // ---------------------------------------------------------------- well-formed tables

  /** Which file a node id belongs to; ids are made from the path of their file. */
  type Owner = NodeId -> Path

  /** Nodes lie in the file that owns their id, in a tracked file, and edges have both ends. */
  ghost predicate Valid(t: Table, owner: Owner) {
    && (forall n | n in t.nodes :: owner(n.id) == n.filePath && n.filePath in t.files)
    && (forall e | e in t.edges :: e.source in IdsOf(t.nodes) && e.target in IdsOf(t.nodes))
  }

  /** Nodes of other files stay. */
  ghost predicate Retains(t: Table, r: Table, paths: set<Path>) {
    forall n | n in t.nodes && n.filePath !in paths :: n in r.nodes
  }

  /** Extraction of a file yields nodes of that file. */
  ghost predicate Owned(job: Job, owner: Owner) {
    job.outcome.Extracted? ==> forall n | n in job.outcome.nodes :: n.filePath == job.path && owner(n.id) == job.path
  }

  predicate Replaces(files: map<Path, Hash>, job: Job) {
    match job.outcome
    case Unread => false
    case TooLarge(_) => true
    case Extracted(hash, _, _) => job.path !in files || files[job.path] != hash
  }

  /** Edges with no end in any of the files. */
  function Avoiding(owner: Owner, paths: set<Path>): Edge -> bool {
    (e: Edge) => owner(e.source) !in paths && owner(e.target) !in paths
  }

  /** The edges that a job adds: those between the complete nodes it extracted. */
  function Added(job: Job): seq<Edge> {
    if job.outcome.Extracted? then
      Select(job.outcome.edges, Joining(IdsOf(Select(job.outcome.nodes, Complete()))))
    else []
  }

  // ---------------------------------------------------------------- one job on the tables

  lemma DeleteFileIs(t: Table, owner: Owner, path: Path)
    requires Valid(t, owner)
    ensures var r := DeleteFile(t, path);
            && Valid(r, owner) && r.edges == Select(t.edges, Avoiding(owner, {path}))
            && (forall n :: n in r.nodes <==> n in t.nodes && n.filePath != path)
  {
    var gone := IdsOf(Select(t.nodes, InFile(path)));
    SelectMembers(t.nodes, InFile(path));
    SelectMembers(t.nodes, Outside(gone));
    SelectMembers(t.edges, Apart(gone));
    forall id | id in IdsOf(t.nodes) ensures id in gone <==> owner(id) == path {
      var n :| n in t.nodes && n.id == id;
      if owner(id) == path { assert n in Select(t.nodes, InFile(path)); }
    }
    SelectSame(t.edges, Apart(gone), Avoiding(owner, {path}));
    forall n | n in t.nodes ensures n.id in gone <==> n.filePath == path { assert n.id in IdsOf(t.nodes); }
  }

  lemma InsertNodeIs(t: Table, n: Node)
    requires forall e | e in t.edges :: e.source != n.id && e.target != n.id
    ensures var r := InsertNode(t, n);
            && r.edges == t.edges && r.files == t.files
            && IdsOf(r.nodes) == IdsOf(t.nodes) + {n.id}
            && (forall m :: m in r.nodes <==> m == Qualified(n) || (m in t.nodes && m.id != n.id))
  {
    SelectMembers(t.nodes, Outside({n.id}));
    SelectAll(t.edges, Apart({n.id}));
    var r := InsertNode(t, n);
    assert forall m :: m in r.nodes <==> m == Qualified(n) || (m in t.nodes && m.id != n.id) by {
      assert forall m | m in t.nodes && m.id == n.id :: n.id in IdsOf(t.nodes);
    }
    assert IdsOf(t.nodes) + {n.id} <= IdsOf(r.nodes) by {
      assert Qualified(n) in r.nodes && Qualified(n).id == n.id;
    }
  }

  /** Inserting nodes of a file that no edge touches leaves the edges alone. */
  lemma {:induction false} InsertNodesIs(t: Table, owner: Owner, path: Path, nodes: seq<Node>)
    requires forall e | e in t.edges :: owner(e.source) != path && owner(e.target) != path
    requires forall n | n in nodes :: owner(n.id) == path && n.filePath == path
    ensures var r := InsertNodes(t, nodes);
            && r.edges == t.edges && r.files == t.files
            && IdsOf(r.nodes) == IdsOf(t.nodes) + IdsOf(nodes)
            && (forall n | n in r.nodes :: n in t.nodes || (owner(n.id) == path && n.filePath == path))
            && (forall n | n in t.nodes && owner(n.id) != path :: n in r.nodes)
  {
    hide InsertNode;
    if nodes == [] {
      assert IdsOf(nodes) == {};
    } else {
      var k := |nodes| - 1;
      InsertNodesIs(t, owner, path, nodes[..k]);
      assert nodes[k] in nodes && nodes == nodes[..k] + [nodes[k]];
      InsertNodeIs(InsertNodes(t, nodes[..k]), nodes[k]);
      assert IdsOf(nodes) == IdsOf(nodes[..k]) + {nodes[k].id};
    }
  }

  /** Before a file is filled it has no nodes and no edge touches it. */
  lemma ClearedIs(t: Table, owner: Owner, path: Path)
    requires Valid(t, owner)
    ensures var r := if path in t.files then DeleteFile(t, path) else t;
            && Valid(r, owner) && r.edges == Select(t.edges, Avoiding(owner, {path}))
            && Retains(t, r, {path}) && r.files == t.files - {path}
            && (forall e | e in r.edges :: owner(e.source) != path && owner(e.target) != path)
  {
    hide Select;
    DeleteFileIs(t, owner, path);
    SelectMembers(t.edges, Avoiding(owner, {path}));
    if path !in t.files {
      forall e | e in t.edges ensures owner(e.source) != path && owner(e.target) != path {
        OwnerTracked(t, owner, e.source);
        OwnerTracked(t, owner, e.target);
      }
      SelectAll(t.edges, Avoiding(owner, {path}));
    }
  }

  /** Filling a cleared file. */
  lemma FilledIs(t: Table, owner: Owner, job: Job)
    requires Valid(t, owner) && Owned(job, owner) && job.outcome.Extracted? && job.path !in t.files
    requires forall e | e in t.edges :: owner(e.source) != job.path && owner(e.target) != job.path
    ensures var valid := Select(job.outcome.nodes, Complete());
            var r := InsertEdges(InsertNodes(t, valid), Added(job));
            && Valid(r.(files := r.files[job.path := job.outcome.hash]), owner)
            && Retains(t, r, {job.path}) && r.files == t.files && r.edges == t.edges + Added(job)
  {
    hide InsertNodes, Complete;
    var valid := Select(job.outcome.nodes, Complete());
    SelectMembers(job.outcome.nodes, Complete());
    InsertNodesIs(t, owner, job.path, valid);
    SelectMembers(job.outcome.edges, Joining(IdsOf(valid)));
    SelectAll(Added(job), Joining(IdsOf(InsertNodes(t, valid).nodes)));
  }

  lemma StoreExtractionIs(t: Table, owner: Owner, job: Job)
    requires Valid(t, owner) && Owned(job, owner) && job.outcome.Extracted? && Replaces(t.files, job)
    ensures var r := RunJob(t, job);
            && Valid(r, owner) && r.files == t.files[job.path := job.outcome.hash]
            && Retains(t, r, {job.path})
            && r.edges == Select(t.edges, Avoiding(owner, {job.path})) + Added(job)
  {
    hide Valid, Owned, InsertNodes, InsertEdges, DeleteFile, Select;
    var path := job.path;
    var cleared := if path in t.files then DeleteFile(t, path) else t;
    ClearedIs(t, owner, path);
    FilledIs(cleared, owner, job);
  }

  lemma OwnerTracked(t: Table, owner: Owner, id: NodeId)
    requires Valid(t, owner) && id in IdsOf(t.nodes)
    ensures owner(id) in t.files
  {
    var n :| n in t.nodes && n.id == id;
  }

  /** One job: the edges at its file go if it replaces the file, and its own come. */
  lemma RunJobIs(t: Table, owner: Owner, job: Job)
    requires Valid(t, owner) && Owned(job, owner)
    ensures var r := RunJob(t, job);
            && Valid(r, owner)
            && (forall p | p != job.path :: (p in r.files <==> p in t.files) && (p in t.files ==> r.files[p] == t.files[p]))
            && (if Replaces(t.files, job)
                then r.edges == Select(t.edges, Avoiding(owner, {job.path})) + Added(job) && Retains(t, r, {job.path})
                else r == t)
  {
    if job.outcome.TooLarge? {
      DeleteFileIs(t, owner, job.path);
    } else if Replaces(t.files, job) {
      StoreExtractionIs(t, owner, job);
    }
  }

  // ---------------------------------------------------------------- all jobs

  function Paths(jobs: seq<Job>): set<Path> { set j | j in jobs :: j.path }

  predicate OncePerFile(jobs: seq<Job>) { forall i, j | 0 <= i < j < |jobs| :: jobs[i].path != jobs[j].path }

  /** The files whose old nodes are gone afterwards. */
  function ReplacedBy(files: map<Path, Hash>, jobs: seq<Job>): set<Path> {
    set j | j in jobs && Replaces(files, j) :: j.path
  }

  function AddedBy(files: map<Path, Hash>, jobs: seq<Job>): seq<Edge> {
    if jobs == [] then []
    else
      var n := |jobs| - 1;
      AddedBy(files, jobs[..n]) + if Replaces(files, jobs[n]) then Added(jobs[n]) else []
  }

  ghost predicate AllOwned(jobs: seq<Job>, owner: Owner) { forall j | j in jobs :: Owned(j, owner) }

  lemma AddedIsOwned(job: Job, owner: Owner)
    requires Owned(job, owner)
    ensures forall e | e in Added(job) :: owner(e.source) == job.path && owner(e.target) == job.path
  {
    if job.outcome.Extracted? {
      var valid := Select(job.outcome.nodes, Complete());
      SelectMembers(job.outcome.nodes, Complete());
      SelectMembers(job.outcome.edges, Joining(IdsOf(valid)));
    }
  }

  lemma {:induction false} AddedByIsOwned(files: map<Path, Hash>, jobs: seq<Job>, owner: Owner)
    requires AllOwned(jobs, owner)
    ensures forall e | e in AddedBy(files, jobs) :: owner(e.source) == owner(e.target) && owner(e.source) in ReplacedBy(files, jobs)
  {
    hide Added, Owned, Replaces;
    if jobs != [] {
      var n := |jobs| - 1;
      assert jobs == jobs[..n] + [jobs[n]] && jobs[n] in jobs;
      AddedByIsOwned(files, jobs[..n], owner);
      AddedIsOwned(jobs[n], owner);
      assert forall p | p in ReplacedBy(files, jobs[..n]) :: p in ReplacedBy(files, jobs);
    }
  }

  lemma PathsOfMore(jobs: seq<Job>)
    requires jobs != []
    ensures Paths(jobs) == Paths(jobs[..|jobs| - 1]) + {jobs[|jobs| - 1].path}
  {
    var n := |jobs| - 1;
    assert jobs == jobs[..n] + [jobs[n]];
  }

  lemma ReplacedByMore(files: map<Path, Hash>, jobs: seq<Job>)
    requires jobs != []
    ensures var n := |jobs| - 1;
            ReplacedBy(files, jobs) == ReplacedBy(files, jobs[..n]) + if Replaces(files, jobs[n]) then {jobs[n].path} else {}
  {
    hide Replaces;
    var n := |jobs| - 1;
    assert jobs == jobs[..n] + [jobs[n]];
  }

  /** What the jobs together leave of the old edges, and what they add. */
  ghost predicate JobsRan(t: Table, owner: Owner, jobs: seq<Job>, r: Table) {
    && Valid(r, owner) && Retains(t, r, ReplacedBy(t.files, jobs))
    && r.edges == Select(t.edges, Avoiding(owner, ReplacedBy(t.files, jobs))) + AddedBy(t.files, jobs)
    && (forall p | p !in Paths(jobs) :: (p in r.files <==> p in t.files) && (p in t.files ==> r.files[p] == t.files[p]))
  }

  /** One job after others that left the file of this one alone. */
  lemma OneMoreJob(t: Table, owner: Owner, jobs: seq<Job>, r: Table)
    requires jobs != [] && AllOwned(jobs, owner) && OncePerFile(jobs) && JobsRan(t, owner, jobs[..|jobs| - 1], r)
    ensures JobsRan(t, owner, jobs, RunJob(r, jobs[|jobs| - 1]))
  {
    hide Valid, Owned, Replaces, Added, RunJob, AddedBy, Retains, Select;
    var n := |jobs| - 1;
    var job := jobs[n];
    var r' := RunJob(r, job);
    assert job in jobs;
    PathsOfMore(jobs);
    assert job.path !in Paths(jobs[..n]);
    ReplacedByMore(t.files, jobs);
    AddedByMore(t.files, jobs);
    hide ReplacedBy, Paths, OncePerFile, AllOwned;
    RunJobIs(r, owner, job);
    SameReplaces(t, r, job);
    var before := ReplacedBy(t.files, jobs[..n]);
    if Replaces(t.files, job) {
      RemainingEdges(t, owner, jobs);
      RetainsTrans(t, r, r', before, {job.path});
    } else {
      assert before + {} == before && AddedBy(t.files, jobs[..n]) + [] == AddedBy(t.files, jobs[..n]);
    }
  }

  lemma RetainsTrans(t: Table, r: Table, q: Table, a: set<Path>, b: set<Path>)
    requires Retains(t, r, a) && Retains(r, q, b)
    ensures Retains(t, q, a + b)
  {
  }

  lemma AddedByMore(files: map<Path, Hash>, jobs: seq<Job>)
    requires jobs != []
    ensures var n := |jobs| - 1;
            AddedBy(files, jobs) == AddedBy(files, jobs[..n]) + if Replaces(files, jobs[n]) then Added(jobs[n]) else []
  {
  }

  lemma {:induction false} RunJobsIs(t: Table, owner: Owner, jobs: seq<Job>)
    requires Valid(t, owner) && AllOwned(jobs, owner) && OncePerFile(jobs)
    ensures JobsRan(t, owner, jobs, RunJobs(t, jobs))
  {
    if jobs == [] {
      SelectAll(t.edges, Avoiding(owner, {}));
      assert ReplacedBy(t.files, []) == {};
    } else {
      hide Valid, Owned, JobsRan, RunJob;
      assert forall j | j in jobs[..|jobs| - 1] :: j in jobs;
      RunJobsIs(t, owner, jobs[..|jobs| - 1]);
      OneMoreJob(t, owner, jobs, RunJobs(t, jobs[..|jobs| - 1]));
    }
  }

  lemma SameReplaces(t: Table, r: Table, job: Job)
    requires (job.path in r.files <==> job.path in t.files) && (job.path in t.files ==> r.files[job.path] == t.files[job.path])
    ensures Replaces(r.files, job) == Replaces(t.files, job)
  {
  }

  lemma RemainingEdges(t: Table, owner: Owner, jobs: seq<Job>)
    requires jobs != [] && AllOwned(jobs, owner) && OncePerFile(jobs) && Replaces(t.files, jobs[|jobs| - 1])
    ensures var n := |jobs| - 1;
            Select(Select(t.edges, Avoiding(owner, ReplacedBy(t.files, jobs[..n]))) + AddedBy(t.files, jobs[..n]),
                   Avoiding(owner, {jobs[n].path})) ==
            Select(t.edges, Avoiding(owner, ReplacedBy(t.files, jobs))) + AddedBy(t.files, jobs[..n])
  {
    hide Owned, Replaces, Added;
    var n := |jobs| - 1;
    var path := jobs[n].path;
    var before := ReplacedBy(t.files, jobs[..n]);
    ReplacedByMore(t.files, jobs);
    SelectAppend(Select(t.edges, Avoiding(owner, before)), AddedBy(t.files, jobs[..n]), Avoiding(owner, {path}));
    SelectTwice(t.edges, Avoiding(owner, before), Avoiding(owner, {path}), Avoiding(owner, before + {path}));
    assert forall j | j in jobs[..n] :: j in jobs;
    AddedByIsOwned(t.files, jobs[..n], owner);
    assert path !in before;
    SelectAll(AddedBy(t.files, jobs[..n]), Avoiding(owner, {path}));
  }

  // ---------------------------------------------------------------- saving and restoring edges

  /** An edge from an unchanged file, with the node that it points to. */
  datatype Backup = Backup(target: Node, edge: Edge)

  function Lookup(nodes: seq<Node>, id: NodeId): Option<Node> {
    if nodes == [] then None else if nodes[0].id == id then Some(nodes[0]) else Lookup(nodes[1..], id)
  }

  lemma {:induction false} LookupIs(nodes: seq<Node>, id: NodeId)
    ensures Lookup(nodes, id).Some? <==> id in IdsOf(nodes)
    ensures Lookup(nodes, id).Some? ==> Lookup(nodes, id).value in nodes && Lookup(nodes, id).value.id == id
  {
    if nodes != [] {
      LookupIs(nodes[1..], id);
      assert nodes == [nodes[0]] + nodes[1..];
      assert IdsOf(nodes) == {nodes[0].id} + IdsOf(nodes[1..]);
    }
  }

  /** Edges into changed files whose source lies in no changed file, in row order. */
  function Saved(nodes: seq<Node>, edges: seq<Edge>, changed: set<Path>): seq<Backup> {
    if edges == [] then []
    else
      var n := |edges| - 1;
      var source, target := Lookup(nodes, edges[n].source), Lookup(nodes, edges[n].target);
      Saved(nodes, edges[..n], changed) +
      if source.Some? && target.Some? && target.value.filePath in changed && source.value.filePath !in changed
      then [Backup(target.value, edges[n])] else []
  }

  function Joined(parts: seq<string>): string {
    if parts == [] then "" else if |parts| == 1 then parts[0] else parts[0] + "\0" + Joined(parts[1..])
  }

  /** The same symbol: all but its position and id agree. */
  predicate SameSymbol(a: Node, b: Node) {
    && a.kind == b.kind && a.name == b.name && a.qualifiedName == b.qualifiedName
    && a.signature == b.signature && a.returnType == b.returnType && Joined(a.typeParameters) == Joined(b.typeParameters)
  }

  function FirstSame(candidates: seq<Node>, target: Node): Option<Node> {
    if candidates == [] then None
    else if SameSymbol(candidates[0], target) then Some(candidates[0])
    else FirstSame(candidates[1..], target)
  }

  datatype Key = Key(source: NodeId, target: NodeId, kind: string, line: int, column: int, provenance: string)

  function EdgeKey(e: Edge): Key { Key(e.source, e.target, e.kind, e.line, e.column, e.provenance) }

  function Keys(edges: seq<Edge>): set<Key> { set e | e in edges :: EdgeKey(e) }

  /** The row that an edge becomes when its target was replaced: the same edge to the first node of
      the file that is still the same symbol. */
  function Carried(t: Table, b: Backup): seq<Edge> {
    match FirstSame(NodesByFile(t, b.target.filePath), b.target)
    case Some(n) => [b.edge.(target := n.id)]
    case None => []
  }

  function Restorable(t: Table, backups: seq<Backup>): seq<Edge> {
    if backups == [] then []
    else
      var n := |backups| - 1;
      Restorable(t, backups[..n]) + if EdgeKey(backups[n].edge) in Keys(t.edges) then [] else Carried(t, backups[n])
  }

  function Restore(t: Table, backups: seq<Backup>): Table { InsertEdges(t, Restorable(t, backups)) }

  /** Save, re-extract, restore. */
  function Synced(t: Table, jobs: seq<Job>): Table {
    Restore(RunJobs(t, jobs), Saved(t.nodes, t.edges, Paths(jobs)))
  }

  // ---------------------------------------------------------------- which rows come back

  /** From an unchanged file into a changed one. */
  function Crossing(owner: Owner, changed: set<Path>): Edge -> bool {
    (e: Edge) => owner(e.source) !in changed && owner(e.target) in changed
  }

  /** From an unchanged file into a replaced one. */
  function Into(owner: Owner, changed: set<Path>, replaced: set<Path>): Edge -> bool {
    (e: Edge) => owner(e.source) !in changed && owner(e.target) in replaced
  }

  ghost predicate Grounded(nodes: seq<Node>, edges: seq<Edge>) {
    forall e | e in edges :: e.source in IdsOf(nodes) && e.target in IdsOf(nodes)
  }

  /** What becomes of the edges `es` of the old table, whose targets are all replaced. */
  function CarryAll(r: Table, nodes: seq<Node>, es: seq<Edge>): seq<Edge>
    requires Grounded(nodes, es)
  {
    if es == [] then []
    else
      var n := |es| - 1;
      CarryAll(r, nodes, es[..n]) + Carried(r, BackupOf(nodes, es[n]))
  }

  function BackupOf(nodes: seq<Node>, e: Edge): Backup
    requires e.target in IdsOf(nodes)
  {
    LookupIs(nodes, e.target);
    Backup(Lookup(nodes, e.target).value, e)
  }

  lemma OwnedNode(t: Table, owner: Owner, id: NodeId)
    requires Valid(t, owner) && id in IdsOf(t.nodes)
    ensures Lookup(t.nodes, id).Some? && Lookup(t.nodes, id).value.filePath == owner(id)
    ensures Lookup(t.nodes, id).value in t.nodes && Lookup(t.nodes, id).value.id == id
  {
    LookupIs(t.nodes, id);
  }

  /** An edge is still stored after the jobs exactly when the file of its target was not replaced. */
  lemma KeyTellsReplaced(t: Table, owner: Owner, jobs: seq<Job>, r: Table, e: Edge)
    requires Valid(t, owner) && AllOwned(jobs, owner) && JobsRan(t, owner, jobs, r)
    requires e in t.edges && Crossing(owner, Paths(jobs))(e)
    ensures EdgeKey(e) in Keys(r.edges) <==> owner(e.target) !in ReplacedBy(t.files, jobs)
  {
    hide Valid, Owned, Added, Replaces;
    var replaced := ReplacedBy(t.files, jobs);
    assert replaced <= Paths(jobs);
    SelectMembers(t.edges, Avoiding(owner, replaced));
    AddedByIsOwned(t.files, jobs, owner);
    if owner(e.target) !in replaced {
      assert e in r.edges;
    } else {
      forall d | d in r.edges ensures EdgeKey(d) != EdgeKey(e) {
        assert d in Select(t.edges, Avoiding(owner, replaced)) || d in AddedBy(t.files, jobs);
      }
    }
  }

  /** Of the saved edges exactly those into replaced files are carried over. */
  lemma {:induction false} RestorableIs(t: Table, owner: Owner, jobs: seq<Job>, r: Table, edges: seq<Edge>)
    requires Valid(t, owner) && AllOwned(jobs, owner) && JobsRan(t, owner, jobs, r)
    requires forall e | e in edges :: e in t.edges
    ensures var into := Select(edges, Into(owner, Paths(jobs), ReplacedBy(t.files, jobs)));
            && Grounded(t.nodes, into)
            && Restorable(r, Saved(t.nodes, edges, Paths(jobs))) == CarryAll(r, t.nodes, into)
  {
    hide Valid, Owned, Added, Replaces, JobsRan, Carried, Lookup, ReplacedBy, Keys;
    if edges != [] {
      var n := |edges| - 1;
      var e := edges[n];
      var changed, replaced := Paths(jobs), ReplacedBy(t.files, jobs);
      RestorableIs(t, owner, jobs, r, edges[..n]);
      assert e in edges && e in t.edges;
      EndsExist(t, owner, e);
      OwnedNode(t, owner, e.source);
      OwnedNode(t, owner, e.target);
      ReplacedAreJobs(t.files, jobs);
      var earlier := Saved(t.nodes, edges[..n], changed);
      if Crossing(owner, changed)(e) {
        KeyTellsReplaced(t, owner, jobs, r, e);
        var b := Backup(Lookup(t.nodes, e.target).value, e);
        assert b == BackupOf(t.nodes, e);
        assert Saved(t.nodes, edges, changed) == earlier + [b];
        assert (earlier + [b])[..|earlier|] == earlier;
        var before := Select(edges[..n], Into(owner, changed, replaced));
        assert (before + [e])[..|before|] == before;
      } else {
        assert Saved(t.nodes, edges, changed) == earlier;
      }
    }
  }

  lemma ReplacedAreJobs(files: map<Path, Hash>, jobs: seq<Job>)
    ensures ReplacedBy(files, jobs) <= Paths(jobs)
  {
  }

  lemma EndsExist(t: Table, owner: Owner, e: Edge)
    requires Valid(t, owner) && e in t.edges
    ensures e.source in IdsOf(t.nodes) && e.target in IdsOf(t.nodes)
  {
  }

  lemma {:induction false} FirstSameIs(candidates: seq<Node>, target: Node)
    ensures var f := FirstSame(candidates, target);
            && (f.Some? <==> exists n :: n in candidates && SameSymbol(n, target))
            && (f.Some? ==> f.value in candidates && SameSymbol(f.value, target))
  {
    if candidates != [] { FirstSameIs(candidates[1..], target); }
  }

  lemma NodesByFileIs(t: Table, path: Path)
    ensures forall n :: n in NodesByFile(t, path) <==> n in t.nodes && n.filePath == path
  {
    var rows := Select(t.nodes, InFile(path));
    var rank := (n: Node) => n.startLine as real;
    StableSort.StableSortedLaws(rows, rank);
    SelectMembers(t.nodes, InFile(path));
    assert forall n :: n in NodesByFile(t, path) <==> n in multiset(NodesByFile(t, path));
    assert forall n :: n in rows <==> n in multiset(rows);
  }

  /** A carried row keeps everything but its target, which is the same symbol in the same file. */
  ghost predicate CarriedFrom(r: Table, nodes: seq<Node>, e: Edge, row: Edge) {
    && e.target in IdsOf(nodes) && Lookup(nodes, e.target).Some?
    && row == e.(target := row.target)
    && exists n :: n in r.nodes && n.id == row.target && SamePlace(n, Lookup(nodes, e.target).value)
  }

  /** The same symbol in the same file. */
  predicate SamePlace(a: Node, b: Node) { SameSymbol(a, b) && a.filePath == b.filePath }

  lemma CarriedIs(r: Table, nodes: seq<Node>, e: Edge)
    requires e.target in IdsOf(nodes)
    ensures var rows := Carried(r, BackupOf(nodes, e));
            && |rows| <= 1 && (forall row | row in rows :: CarriedFrom(r, nodes, e, row))
            && (rows != [] <==> exists n :: n in r.nodes && SamePlace(n, BackupOf(nodes, e).target))
  {
    LookupIs(nodes, e.target);
    var target := BackupOf(nodes, e).target;
    var candidates := NodesByFile(r, target.filePath);
    NodesByFileIs(r, target.filePath);
    FirstSameIs(candidates, target);
    forall n | n in candidates && SameSymbol(n, target) ensures n in r.nodes && SamePlace(n, target) {}
    forall n | n in r.nodes && SamePlace(n, target) ensures n in candidates && SameSymbol(n, target) {}
  }

  ghost predicate StillThere(r: Table, nodes: seq<Node>, e: Edge) {
    e.target in IdsOf(nodes) && exists n :: n in r.nodes && SamePlace(n, BackupOf(nodes, e).target)
  }

  ghost predicate HasRow(r: Table, nodes: seq<Node>, rows: seq<Edge>, e: Edge) {
    exists row :: row in rows && CarriedFrom(r, nodes, e, row)
  }

  ghost predicate HasEdge(r: Table, nodes: seq<Node>, es: seq<Edge>, row: Edge) {
    exists e :: e in es && CarriedFrom(r, nodes, e, row)
  }

  lemma OneCarried(r: Table, nodes: seq<Node>, e: Edge)
    requires e.target in IdsOf(nodes)
    ensures var rows := Carried(r, BackupOf(nodes, e));
            && |rows| <= 1 && (forall row | row in rows :: HasEdge(r, nodes, [e], row))
            && (StillThere(r, nodes, e) ==> HasRow(r, nodes, rows, e))
  {
    CarriedIs(r, nodes, e);
    hide Carried, CarriedFrom;
    var rows := Carried(r, BackupOf(nodes, e));
    assert e in [e] && (rows != [] ==> rows[0] in rows);
  }

  lemma HasMore(r: Table, nodes: seq<Node>, es: seq<Edge>, rows: seq<Edge>, more: seq<Edge>, moreRows: seq<Edge>)
    requires (forall e | e in es :: e in more) && (forall row | row in rows :: row in moreRows)
    ensures forall e :: HasRow(r, nodes, rows, e) ==> HasRow(r, nodes, moreRows, e)
    ensures forall row :: HasEdge(r, nodes, es, row) ==> HasEdge(r, nodes, more, row)
  {
    hide CarriedFrom;
  }

  /** Every carried row comes from one of the edges, and every edge whose target is still there has one. */
  lemma {:induction false} CarryAllIs(r: Table, nodes: seq<Node>, es: seq<Edge>)
    requires Grounded(nodes, es)
    ensures |CarryAll(r, nodes, es)| <= |es|
    ensures forall row | row in CarryAll(r, nodes, es) :: HasEdge(r, nodes, es, row)
    ensures forall e | e in es && StillThere(r, nodes, e) :: HasRow(r, nodes, CarryAll(r, nodes, es), e)
  {
    hide Carried, StillThere, HasRow, HasEdge, BackupOf;
    if es != [] {
      var n := |es| - 1;
      assert es == es[..n] + [es[n]] && es[n] in es && forall e | e in es[..n] :: e in es;
      CarryAllIs(r, nodes, es[..n]);
      OneCarried(r, nodes, es[n]);
      var before, rows := CarryAll(r, nodes, es[..n]), Carried(r, BackupOf(nodes, es[n]));
      var all := CarryAll(r, nodes, es);
      assert all == before + rows;
      HasMore(r, nodes, es[..n], before, es, all);
      HasMore(r, nodes, [es[n]], rows, es, all);
    }
  }

  // ---------------------------------------------------------------- the whole update

  ghost predicate Request(t: Table, owner: Owner, jobs: seq<Job>) {
    Valid(t, owner) && AllOwned(jobs, owner) && OncePerFile(jobs)
  }

  /** The old rows into replaced files that come from unchanged ones. */
  function Lost(t: Table, owner: Owner, jobs: seq<Job>): seq<Edge> {
    Select(t.edges, Into(owner, Paths(jobs), ReplacedBy(t.files, jobs)))
  }

  lemma LostIsGrounded(t: Table, owner: Owner, jobs: seq<Job>)
    requires Valid(t, owner)
    ensures Grounded(t.nodes, Lost(t, owner, jobs))
  {
    hide ReplacedBy;
    SelectMembers(t.edges, Into(owner, Paths(jobs), ReplacedBy(t.files, jobs)));
  }

  /** The rows carried over from edges of `t` into replaced files join nodes of `r`. */
  lemma CarriedAreGrounded(t: Table, owner: Owner, jobs: seq<Job>, r: Table)
    requires Request(t, owner, jobs) && JobsRan(t, owner, jobs, r) && Grounded(t.nodes, Lost(t, owner, jobs))
    ensures forall row | row in CarryAll(r, t.nodes, Lost(t, owner, jobs)) ::
              && row.source in IdsOf(r.nodes) && row.target in IdsOf(r.nodes)
              && owner(row.source) !in Paths(jobs) && owner(row.target) in ReplacedBy(t.files, jobs)
  {
    hide AllOwned, Owned, Added, Replaces, CarryAll, Carried, Lookup, ReplacedBy, Paths, SamePlace, AddedBy;
    var changed, replaced := Paths(jobs), ReplacedBy(t.files, jobs);
    CarryAllIs(r, t.nodes, Lost(t, owner, jobs));
    SelectMembers(t.edges, Into(owner, changed, replaced));
    ReplacedAreJobs(t.files, jobs);
    forall row | row in CarryAll(r, t.nodes, Lost(t, owner, jobs))
      ensures row.source in IdsOf(r.nodes) && row.target in IdsOf(r.nodes)
      ensures owner(row.source) !in changed && owner(row.target) in replaced
    {
      var e :| e in Lost(t, owner, jobs) && CarriedFrom(r, t.nodes, e, row);
      OwnedNode(t, owner, e.source);
      OwnedNode(t, owner, e.target);
      var source := Lookup(t.nodes, e.source).value;
      assert source in r.nodes;
      var n :| n in r.nodes && n.id == row.target && SamePlace(n, Lookup(t.nodes, e.target).value);
      SamePlaceSameFile(n, Lookup(t.nodes, e.target).value);
    }
  }

  lemma SamePlaceSameFile(a: Node, b: Node)
    requires SamePlace(a, b)
    ensures a.filePath == b.filePath
  {
  }

  /** The rows afterwards: those with no end in a replaced file, those extracted, and the carried ones. */
  lemma SyncedIs(t: Table, owner: Owner, jobs: seq<Job>)
    requires Request(t, owner, jobs)
    ensures Grounded(t.nodes, Lost(t, owner, jobs)) && Valid(Synced(t, jobs), owner)
    ensures Synced(t, jobs).nodes == RunJobs(t, jobs).nodes
    ensures Synced(t, jobs).edges ==
            Select(t.edges, Avoiding(owner, ReplacedBy(t.files, jobs))) + AddedBy(t.files, jobs)
            + CarryAll(RunJobs(t, jobs), t.nodes, Lost(t, owner, jobs))
  {
    hide AllOwned, Owned, Added, Replaces, CarryAll, Carried, Lookup, ReplacedBy, Paths, AddedBy, RunJobs, Saved, Restorable, OncePerFile;
    var r := RunJobs(t, jobs);
    RunJobsIs(t, owner, jobs);
    LostIsGrounded(t, owner, jobs);
    RestorableIs(t, owner, jobs, r, t.edges);
    CarriedAreGrounded(t, owner, jobs, r);
    SelectAll(CarryAll(r, t.nodes, Lost(t, owner, jobs)), Joining(IdsOf(r.nodes)));
  }

  /** Rows between unchanged files are the same rows in the same order. */
  lemma UnchangedRowsUntouched(t: Table, owner: Owner, jobs: seq<Job>)
    requires Request(t, owner, jobs)
    ensures Select(Synced(t, jobs).edges, Avoiding(owner, Paths(jobs))) == Select(t.edges, Avoiding(owner, Paths(jobs)))
  {
    hide Valid, AllOwned, Owned, Added, Replaces, CarryAll, Carried, ReplacedBy, Paths, AddedBy, RunJobs, Synced, OncePerFile;
    var changed, replaced := Paths(jobs), ReplacedBy(t.files, jobs);
    var keep := Avoiding(owner, changed);
    var r := RunJobs(t, jobs);
    SyncedIs(t, owner, jobs);
    RunJobsIs(t, owner, jobs);
    CarriedAreGrounded(t, owner, jobs, r);
    ReplacedAreJobs(t.files, jobs);
    AddedByIsOwned(t.files, jobs, owner);
    var kept, carried := Select(t.edges, Avoiding(owner, replaced)), CarryAll(r, t.nodes, Lost(t, owner, jobs));
    SelectAppend(kept + AddedBy(t.files, jobs), carried, keep);
    SelectAppend(kept, AddedBy(t.files, jobs), keep);
    SelectTwice(t.edges, Avoiding(owner, replaced), keep, keep);
    SelectNone(AddedBy(t.files, jobs), keep);
    SelectNone(carried, keep);
  }

  function FromUnchanged(owner: Owner, changed: set<Path>): Edge -> bool { (e: Edge) => owner(e.source) !in changed }

  function ToUnreplaced(owner: Owner, changed: set<Path>, replaced: set<Path>): Edge -> bool {
    (e: Edge) => owner(e.source) !in changed && owner(e.target) !in replaced
  }

  lemma SelectThree<T>(a: seq<T>, b: seq<T>, c: seq<T>, keep: T -> bool)
    ensures Select(a + b + c, keep) == Select(a, keep) + Select(b, keep) + Select(c, keep)
  {
    hide *;
    SelectAppend(a + b, c, keep);
    SelectAppend(a, b, keep);
  }

  lemma KeptFromUnchanged(edges: seq<Edge>, owner: Owner, changed: set<Path>, replaced: set<Path>)
    requires replaced <= changed
    ensures Select(Select(edges, Avoiding(owner, replaced)), FromUnchanged(owner, changed)) ==
            Select(edges, ToUnreplaced(owner, changed, replaced))
  {
    SelectTwice(edges, Avoiding(owner, replaced), FromUnchanged(owner, changed), ToUnreplaced(owner, changed, replaced));
  }

  lemma AddedFromChanged(t: Table, owner: Owner, jobs: seq<Job>)
    requires AllOwned(jobs, owner)
    ensures Select(AddedBy(t.files, jobs), FromUnchanged(owner, Paths(jobs))) == []
  {
    hide AllOwned, AddedBy, Paths, ReplacedBy, Select;
    AddedByIsOwned(t.files, jobs, owner);
    ReplacedAreJobs(t.files, jobs);
    SelectNone(AddedBy(t.files, jobs), FromUnchanged(owner, Paths(jobs)));
  }

  lemma CarriedFromUnchanged(t: Table, owner: Owner, jobs: seq<Job>)
    requires Request(t, owner, jobs) && Grounded(t.nodes, Lost(t, owner, jobs))
    ensures var carried := CarryAll(RunJobs(t, jobs), t.nodes, Lost(t, owner, jobs));
            Select(carried, FromUnchanged(owner, Paths(jobs))) == carried
  {
    hide Valid, AllOwned, OncePerFile, JobsRan, Grounded, Lost, CarryAll, RunJobs, Paths, ReplacedBy, Select;
    RunJobsIs(t, owner, jobs);
    CarriedAreGrounded(t, owner, jobs, RunJobs(t, jobs));
    SelectAll(CarryAll(RunJobs(t, jobs), t.nodes, Lost(t, owner, jobs)), FromUnchanged(owner, Paths(jobs)));
  }

  /** The rows from unchanged files: the old ones, except that a row into a replaced file is carried
      over to the same symbol or, without one, dropped; nothing else comes or goes. */
  lemma RowsFromUnchangedFiles(t: Table, owner: Owner, jobs: seq<Job>)
    requires Request(t, owner, jobs)
    ensures Grounded(t.nodes, Lost(t, owner, jobs))
    ensures Select(Synced(t, jobs).edges, FromUnchanged(owner, Paths(jobs))) ==
            Select(t.edges, ToUnreplaced(owner, Paths(jobs), ReplacedBy(t.files, jobs)))
            + CarryAll(RunJobs(t, jobs), t.nodes, Lost(t, owner, jobs))
  {
    hide *;
    var changed, replaced := Paths(jobs), ReplacedBy(t.files, jobs);
    SyncedIs(t, owner, jobs);
    RequestMeans(t, owner, jobs);
    ReplacedAreJobs(t.files, jobs);
    SelectThree(Select(t.edges, Avoiding(owner, replaced)), AddedBy(t.files, jobs),
                CarryAll(RunJobs(t, jobs), t.nodes, Lost(t, owner, jobs)), FromUnchanged(owner, changed));
    KeptFromUnchanged(t.edges, owner, changed, replaced);
    AddedFromChanged(t, owner, jobs);
    CarriedFromUnchanged(t, owner, jobs);
  }

  lemma RequestMeans(t: Table, owner: Owner, jobs: seq<Job>)
    requires Request(t, owner, jobs)
    ensures Valid(t, owner) && AllOwned(jobs, owner) && OncePerFile(jobs)
  {
  }

  // ---------------------------------------------------------------- when two rows become one

  /** Node ids are the key of their table. */
  ghost predicate Keyed(nodes: seq<Node>) { forall a, b | a in nodes && b in nodes && a.id == b.id :: a == b }

  lemma DeletedIsKeyed(t: Table, ids: set<NodeId>)
    requires Keyed(t.nodes)
    ensures Keyed(DeleteNodes(t, ids).nodes)
  {
    SelectMembers(t.nodes, Outside(ids));
  }

  lemma OneInsertedIsKeyed(t: Table, n: Node)
    requires Keyed(t.nodes)
    ensures Keyed(InsertNode(t, n).nodes)
  {
    SelectMembers(t.nodes, Outside({n.id}));
    var cleared := if n.id in IdsOf(t.nodes) then DeleteNodes(t, {n.id}) else t;
    assert forall m | m in cleared.nodes :: m in t.nodes && m.id != n.id;
  }

  lemma {:induction false} InsertedIsKeyed(t: Table, nodes: seq<Node>)
    requires Keyed(t.nodes)
    ensures Keyed(InsertNodes(t, nodes).nodes)
  {
    hide Keyed, InsertNode;
    if nodes != [] {
      InsertedIsKeyed(t, nodes[..|nodes| - 1]);
      OneInsertedIsKeyed(InsertNodes(t, nodes[..|nodes| - 1]), nodes[|nodes| - 1]);
    }
  }

  lemma {:induction false} RunIsKeyed(t: Table, jobs: seq<Job>)
    requires Keyed(t.nodes)
    ensures Keyed(RunJobs(t, jobs).nodes)
  {
    hide DeleteNodes, InsertNodes, Keyed;
    if jobs != [] {
      var job := jobs[|jobs| - 1];
      var r := RunJobs(t, jobs[..|jobs| - 1]);
      RunIsKeyed(t, jobs[..|jobs| - 1]);
      DeletedIsKeyed(r, IdsOf(Select(r.nodes, InFile(job.path))));
      if job.outcome.Extracted? {
        var valid := Select(job.outcome.nodes, Complete());
        InsertedIsKeyed(r, valid);
        InsertedIsKeyed(DeleteFile(r, job.path), valid);
      }
    }
  }

  lemma {:induction false} FirstSameAgrees(candidates: seq<Node>, a: Node, b: Node)
    requires SameSymbol(a, b)
    ensures FirstSame(candidates, a) == FirstSame(candidates, b)
  {
    if candidates != [] { FirstSameAgrees(candidates[1..], a, b); }
  }

  /** Two edges that differ at most in their targets, which are the same symbol and still there. */
  ghost predicate Meet(r: Table, nodes: seq<Node>, d: Edge, e: Edge)
    requires d.target in IdsOf(nodes) && e.target in IdsOf(nodes)
  {
    && d.(target := e.target) == e
    && SamePlace(BackupOf(nodes, d).target, BackupOf(nodes, e).target)
    && StillThere(r, nodes, e)
  }

  /** Exactly then they are carried to one row. */
  lemma CarriedTogetherIff(r: Table, nodes: seq<Node>, d: Edge, e: Edge)
    requires d.target in IdsOf(nodes) && e.target in IdsOf(nodes) && Keyed(r.nodes)
    ensures Meet(r, nodes, d, e) <==>
              Carried(r, BackupOf(nodes, d)) != [] && Carried(r, BackupOf(nodes, d)) == Carried(r, BackupOf(nodes, e))
  {
    hide NodesByFile, Lookup;
    var a, b := BackupOf(nodes, d).target, BackupOf(nodes, e).target;
    NodesByFileIs(r, a.filePath);
    NodesByFileIs(r, b.filePath);
    FirstSameIs(NodesByFile(r, a.filePath), a);
    FirstSameIs(NodesByFile(r, b.filePath), b);
    if SamePlace(a, b) { FirstSameAgrees(NodesByFile(r, a.filePath), a, b); }
    CarriedIs(r, nodes, e);
  }

  ghost predicate NoneMeet(r: Table, nodes: seq<Node>, es: seq<Edge>)
    requires Grounded(nodes, es)
  {
    forall i, j | 0 <= i < j < |es| :: !Meet(r, nodes, es[i], es[j])
  }

  lemma {:induction false} CarriedMembers(r: Table, nodes: seq<Node>, es: seq<Edge>, row: Edge)
    requires Grounded(nodes, es)
    ensures row in CarryAll(r, nodes, es) <==> exists i :: 0 <= i < |es| && row in Carried(r, BackupOf(nodes, es[i]))
  {
    hide Carried;
    if es != [] {
      var n := |es| - 1;
      CarriedMembers(r, nodes, es[..n], row);
      if row in CarryAll(r, nodes, es[..n]) {
        var i :| 0 <= i < n && row in Carried(r, BackupOf(nodes, es[..n][i]));
        assert es[..n][i] == es[i];
      }
      if i :| 0 <= i < |es| && row in Carried(r, BackupOf(nodes, es[i])) {
        if i < n { assert es[..n][i] == es[i]; }
      }
    }
  }

  /** The last edge is carried to a row that is there already exactly when it meets an earlier one. */
  lemma LastIsCarriedAgainIff(r: Table, nodes: seq<Node>, es: seq<Edge>)
    requires es != [] && Grounded(nodes, es) && Keyed(r.nodes)
    ensures var n := |es| - 1;
            Distinct(CarryAll(r, nodes, es)) <==>
              Distinct(CarryAll(r, nodes, es[..n])) && forall i | 0 <= i < n :: !Meet(r, nodes, es[i], es[n])
  {
    hide Carried, Meet, Keyed, BackupOf, HasRow, HasEdge, StillThere;
    var n := |es| - 1;
    var before, rows := CarryAll(r, nodes, es[..n]), Carried(r, BackupOf(nodes, es[n]));
    OneCarried(r, nodes, es[n]);
    DistinctConcat(before, rows);
    forall i | 0 <= i < n
      ensures Meet(r, nodes, es[i], es[n]) <==> rows != [] && rows[0] in Carried(r, BackupOf(nodes, es[i]))
    {
      OneCarried(r, nodes, es[i]);
      CarriedTogetherIff(r, nodes, es[i], es[n]);
    }
    if rows != [] { CarriedMembers(r, nodes, es[..n], rows[0]); }
    assert forall i | 0 <= i < n :: es[..n][i] == es[i];
  }

  lemma {:induction false} CarryAllDistinctIff(r: Table, nodes: seq<Node>, es: seq<Edge>)
    requires Grounded(nodes, es) && Keyed(r.nodes)
    ensures Distinct(CarryAll(r, nodes, es)) <==> NoneMeet(r, nodes, es)
  {
    hide CarryAll, Meet, Keyed, Distinct;
    if es == [] {
      NothingCarried(r, nodes, es);
    } else {
      var n := |es| - 1;
      CarryAllDistinctIff(r, nodes, es[..n]);
      LastIsCarriedAgainIff(r, nodes, es);
      assert forall i | 0 <= i < n :: es[..n][i] == es[i];
      if NoneMeet(r, nodes, es) {
        forall i, j | 0 <= i < j < n ensures !Meet(r, nodes, es[..n][i], es[..n][j]) {
          assert !Meet(r, nodes, es[i], es[j]);
        }
      }
    }
  }

  lemma NothingCarried(r: Table, nodes: seq<Node>, es: seq<Edge>)
    requires es == []
    ensures Grounded(nodes, es) && Distinct(CarryAll(r, nodes, es))
  {
  }

  /** Two different rows into replaced files that become one. */
  ghost predicate Collide(t: Table, owner: Owner, jobs: seq<Job>, d: Edge, e: Edge)
    requires Grounded(t.nodes, Lost(t, owner, jobs))
  {
    && d in Lost(t, owner, jobs) && e in Lost(t, owner, jobs) && d != e
    && Meet(RunJobs(t, jobs), t.nodes, d, e)
  }

  ghost predicate NoneCollide(t: Table, owner: Owner, jobs: seq<Job>)
    requires Grounded(t.nodes, Lost(t, owner, jobs))
  {
    forall d, e :: !Collide(t, owner, jobs, d, e)
  }

  lemma NoneMeetIff(t: Table, owner: Owner, jobs: seq<Job>)
    requires Grounded(t.nodes, Lost(t, owner, jobs)) && Distinct(t.edges)
    ensures NoneMeet(RunJobs(t, jobs), t.nodes, Lost(t, owner, jobs)) <==> NoneCollide(t, owner, jobs)
  {
    hide Lost, RunJobs, Meet;
    var es, r := Lost(t, owner, jobs), RunJobs(t, jobs);
    LostIsDistinct(t, owner, jobs);
    if NoneMeet(r, t.nodes, es) {
      forall d, e ensures !Collide(t, owner, jobs, d, e) {
        if Collide(t, owner, jobs, d, e) {
          var i :| 0 <= i < |es| && es[i] == d;
          var j :| 0 <= j < |es| && es[j] == e;
          MeetIsSymmetric(r, t.nodes, d, e);
          assert false;
        }
      }
    } else {
      var i, j :| 0 <= i < j < |es| && Meet(r, t.nodes, es[i], es[j]);
      assert Collide(t, owner, jobs, es[i], es[j]);
    }
  }

  lemma LostIsDistinct(t: Table, owner: Owner, jobs: seq<Job>)
    requires Distinct(t.edges)
    ensures Distinct(Lost(t, owner, jobs))
  {
    SelectDistinct(t.edges, Into(owner, Paths(jobs), ReplacedBy(t.files, jobs)));
  }

  lemma MeetIsSymmetric(r: Table, nodes: seq<Node>, d: Edge, e: Edge)
    requires d.target in IdsOf(nodes) && e.target in IdsOf(nodes) && Meet(r, nodes, d, e)
    ensures Meet(r, nodes, e, d)
  {
    hide Lookup;
    var n :| n in r.nodes && SamePlace(n, BackupOf(nodes, e).target);
    assert SamePlace(n, BackupOf(nodes, d).target);
  }

  /** From a table without repeated rows, the rows from unchanged files stay without repetition
      exactly when no two lost rows collide; all rows do when the extracted ones do as well. */
  lemma NothingRepeatsIff(t: Table, owner: Owner, jobs: seq<Job>)
    requires Request(t, owner, jobs) && Distinct(t.edges) && Keyed(t.nodes)
    ensures Grounded(t.nodes, Lost(t, owner, jobs))
    ensures Distinct(Select(Synced(t, jobs).edges, FromUnchanged(owner, Paths(jobs)))) <==> NoneCollide(t, owner, jobs)
    ensures Distinct(Synced(t, jobs).edges) <==> Distinct(AddedBy(t.files, jobs)) && NoneCollide(t, owner, jobs)
  {
    hide Valid, AllOwned, Owned, Added, Replaces, CarryAll, Carried, ReplacedBy, Paths, AddedBy, RunJobs, Synced, OncePerFile, Lost, NoneCollide;
    var changed, replaced := Paths(jobs), ReplacedBy(t.files, jobs);
    var r := RunJobs(t, jobs);
    SyncedIs(t, owner, jobs);
    RunJobsIs(t, owner, jobs);
    RowsFromUnchangedFiles(t, owner, jobs);
    CarriedAreGrounded(t, owner, jobs, r);
    AddedByIsOwned(t.files, jobs, owner);
    ReplacedAreJobs(t.files, jobs);
    RunIsKeyed(t, jobs);
    CarryAllDistinctIff(r, t.nodes, Lost(t, owner, jobs));
    NoneMeetIff(t, owner, jobs);
    var kept, still := Select(t.edges, Avoiding(owner, replaced)), Select(t.edges, ToUnreplaced(owner, changed, replaced));
    var carried := CarryAll(r, t.nodes, Lost(t, owner, jobs));
    SelectDistinct(t.edges, Avoiding(owner, replaced));
    SelectDistinct(t.edges, ToUnreplaced(owner, changed, replaced));
    SelectMembers(t.edges, Avoiding(owner, replaced));
    SelectMembers(t.edges, ToUnreplaced(owner, changed, replaced));
    DistinctConcat(still, carried);
    DistinctConcat(kept, AddedBy(t.files, jobs));
    DistinctConcat(kept + AddedBy(t.files, jobs), carried);
  }

  /** No file holds two nodes that are the same symbol. */
  ghost predicate SymbolsDiffer(nodes: seq<Node>) { forall a, b | a in nodes && b in nodes && SamePlace(a, b) :: a == b }

  lemma NothingRepeatsBetweenSymbols(t: Table, owner: Owner, jobs: seq<Job>)
    requires Request(t, owner, jobs) && Distinct(t.edges) && Keyed(t.nodes) && SymbolsDiffer(t.nodes)
    ensures Distinct(Select(Synced(t, jobs).edges, FromUnchanged(owner, Paths(jobs))))
  {
    hide Valid, AllOwned, Paths, RunJobs, Synced, OncePerFile, Lost, StillThere, Lookup, SamePlace, Keyed;
    NothingRepeatsIff(t, owner, jobs);
    forall d, e ensures !Collide(t, owner, jobs, d, e) {
      if Collide(t, owner, jobs, d, e) {
        LookupIs(t.nodes, d.target);
        LookupIs(t.nodes, e.target);
        assert false;
      }
    }
  }

  /** Rows of a changed file that was not replaced, because it could not be read or has its recorded
      hash, are not carried over: none of its rows into replaced files is left. */
  lemma UnreplacedSourcesLoseRows(t: Table, owner: Owner, jobs: seq<Job>, e: Edge)
    requires Request(t, owner, jobs) && e in Synced(t, jobs).edges
    requires owner(e.source) in Paths(jobs) && owner(e.source) !in ReplacedBy(t.files, jobs)
    ensures owner(e.target) !in ReplacedBy(t.files, jobs) && e in t.edges
  {
    hide Valid, AllOwned, Owned, Added, Replaces, CarryAll, Carried, ReplacedBy, Paths, AddedBy, RunJobs, Synced, OncePerFile;
    var replaced := ReplacedBy(t.files, jobs);
    SyncedIs(t, owner, jobs);
    RunJobsIs(t, owner, jobs);
    CarriedAreGrounded(t, owner, jobs, RunJobs(t, jobs));
    AddedByIsOwned(t.files, jobs, owner);
    SelectMembers(t.edges, Avoiding(owner, replaced));
  }

  ghost predicate Survives(t: Table, r: Table, e: Edge) {
    exists row :: row in r.edges && (row == e || CarriedFrom(r, t.nodes, e, row))
  }

  /** A row into a changed file survives, on its own target or carried to the same symbol, whenever
      its source lies in an unchanged file and the target's symbol is still in the file. */
  lemma IncomingRowsSurvive(t: Table, owner: Owner, jobs: seq<Job>, e: Edge)
    requires Request(t, owner, jobs) && e in t.edges && owner(e.source) !in Paths(jobs)
    requires Lookup(t.nodes, e.target).Some?
    requires exists n :: n in Synced(t, jobs).nodes && SamePlace(n, Lookup(t.nodes, e.target).value)
    ensures Survives(t, Synced(t, jobs), e)
  {
    hide Valid, AllOwned, ReplacedBy, Paths, Synced, OncePerFile, Lookup, SamePlace, CarriedFrom;
    ReplacedAreJobs(t.files, jobs);
    KeptIff(t, owner, jobs, e);
  }

  /** A row of `e`'s kind leads from the same source to the same symbol. */
  ghost predicate Kept(t: Table, r: Table, e: Edge) {
    exists row :: row in r.edges && CarriedFrom(r, t.nodes, e, row)
  }

  ghost predicate SymbolThere(t: Table, r: Table, id: NodeId) {
    Lookup(t.nodes, id).Some? && exists n :: n in r.nodes && SamePlace(n, Lookup(t.nodes, id).value)
  }

  lemma CarriedToFile(t: Table, owner: Owner, r: Table, e: Edge, row: Edge)
    requires Valid(t, owner) && Valid(r, owner) && CarriedFrom(r, t.nodes, e, row)
    ensures owner(row.target) == owner(e.target) && SymbolThere(t, r, e.target)
  {
    OwnedNode(t, owner, e.target);
  }

  lemma StaysOnItsTarget(t: Table, owner: Owner, r: Table, paths: set<Path>, e: Edge)
    requires Valid(t, owner) && e in t.edges && Retains(t, r, paths) && owner(e.target) !in paths
    ensures CarriedFrom(r, t.nodes, e, e) && SymbolThere(t, r, e.target)
  {
    OwnedNode(t, owner, e.target);
  }

  /** An old row whose source's file was not replaced is kept exactly when its target's symbol is still
      there, and the target's file was not replaced or the source's file did not change. */
  lemma KeptIff(t: Table, owner: Owner, jobs: seq<Job>, e: Edge)
    requires Request(t, owner, jobs) && e in t.edges && owner(e.source) !in ReplacedBy(t.files, jobs)
    ensures Kept(t, Synced(t, jobs), e) <==>
              && SymbolThere(t, Synced(t, jobs), e.target)
              && (owner(e.target) !in ReplacedBy(t.files, jobs) || owner(e.source) !in Paths(jobs))
  {
    hide Valid, AllOwned, Owned, CarryAll, Carried, ReplacedBy, Paths, AddedBy, RunJobs, Synced, OncePerFile, Lookup, CarriedFrom, SymbolThere, Retains;
    var replaced, r := ReplacedBy(t.files, jobs), Synced(t, jobs);
    SyncedIs(t, owner, jobs);
    RunJobsIs(t, owner, jobs);
    if row :| row in r.edges && CarriedFrom(r, t.nodes, e, row) {
      CarriedToFile(t, owner, r, e, row);
      SameSource(r, t.nodes, e, row);
      if owner(e.source) in Paths(jobs) { UnreplacedSourcesLoseRows(t, owner, jobs, row); }
    }
    if owner(e.target) !in replaced {
      SelectMembers(t.edges, Avoiding(owner, replaced));
      RetainedToo(t, RunJobs(t, jobs), r, replaced);
      StaysOnItsTarget(t, owner, r, replaced, e);
      assert e in r.edges;
    } else if SymbolThere(t, r, e.target) && owner(e.source) !in Paths(jobs) {
      SelectMembers(t.edges, Into(owner, Paths(jobs), replaced));
      CarriedWhenThere(t, owner, jobs, e);
    }
  }

  lemma SameSource(r: Table, nodes: seq<Node>, e: Edge, row: Edge)
    requires CarriedFrom(r, nodes, e, row)
    ensures row.source == e.source
  {
  }

  lemma RetainedToo(t: Table, r: Table, q: Table, paths: set<Path>)
    requires Retains(t, r, paths) && q.nodes == r.nodes
    ensures Retains(t, q, paths)
  {
  }

  lemma CarriedWhenThere(t: Table, owner: Owner, jobs: seq<Job>, e: Edge)
    requires Request(t, owner, jobs) && e in Lost(t, owner, jobs) && SymbolThere(t, Synced(t, jobs), e.target)
    ensures Kept(t, Synced(t, jobs), e)
  {
    hide Valid, AllOwned, CarryAll, Carried, AddedBy, RunJobs, Synced, OncePerFile, Lookup, SamePlace, Lost, ReplacedBy;
    var r := RunJobs(t, jobs);
    SyncedIs(t, owner, jobs);
    CarryAllIs(r, t.nodes, Lost(t, owner, jobs));
    BackupTarget(t.nodes, e);
    var row :| row in CarryAll(r, t.nodes, Lost(t, owner, jobs)) && CarriedFrom(r, t.nodes, e, row);
    assert row in Synced(t, jobs).edges && CarriedFrom(Synced(t, jobs), t.nodes, e, row);
  }

  lemma BackupTarget(nodes: seq<Node>, e: Edge)
    requires e.target in IdsOf(nodes)
    ensures Lookup(nodes, e.target).Some? && BackupOf(nodes, e).target == Lookup(nodes, e.target).value
  {
    LookupIs(nodes, e.target);
  }

  // ---------------------------------------------------------------- two inputs that lose something

  // A file with two functions `init` that differ in nothing but their lines, and one that refers to both.

  const OWNER: Owner := id => if id == "a" then "a.go" else "b.go"

  function InitAt(id: NodeId, path: Path, line: int): Node {
    Node(id, "function", "init", "init", path, "go", "()", "", [], line)
  }

  function RefersTo(target: NodeId): Edge { Edge("a", target, "references", 1, 0, "", "") }

  const TWO_INITS: Table := Table(
    [InitAt("a", "a.go", 1), InitAt("f", "b.go", 1), InitAt("g", "b.go", 5)],
    [RefersTo("f"), RefersTo("g")],
    map["a.go" := "1", "b.go" := "1"])

  const TOUCHED: Job := Job("b.go", Extracted("2", [InitAt("f", "b.go", 1), InitAt("g", "b.go", 5)], []))

  lemma LastExtractedIsThere(t: Table, job: Job)
    requires job.outcome.Extracted? && job.path in t.files && t.files[job.path] != job.outcome.hash
    requires job.outcome.nodes != [] && forall n | n in job.outcome.nodes :: Complete()(n)
    requires job.outcome.nodes[|job.outcome.nodes| - 1].qualifiedName != ""
    ensures job.outcome.nodes[|job.outcome.nodes| - 1] in RunJob(t, job).nodes
  {
    hide DeleteFile, Complete;
    SelectAll(job.outcome.nodes, Complete());
  }

  lemma LastJob(t: Table, jobs: seq<Job>)
    requires jobs != []
    ensures RunJobs(t, jobs) == RunJob(RunJobs(t, jobs[..|jobs| - 1]), jobs[|jobs| - 1])
  {
  }

  lemma NoJobs(t: Table, jobs: seq<Job>)
    requires jobs == []
    ensures RunJobs(t, jobs) == t
  {
  }

  lemma ReplacedByOne(files: map<Path, Hash>, jobs: seq<Job>, job: Job)
    requires job in jobs && Replaces(files, job)
    ensures job.path in ReplacedBy(files, jobs)
  {
  }

  lemma InitsAre(n: Node)
    ensures n in TWO_INITS.nodes <==> n == InitAt("a", "a.go", 1) || n == InitAt("f", "b.go", 1) || n == InitAt("g", "b.go", 5)
  {
  }

  lemma IdsOfInits()
    ensures IdsOf(TWO_INITS.nodes) == {"a", "f", "g"}
  {
    forall n | n in TWO_INITS.nodes ensures n.id in {"a", "f", "g"} { InitsAre(n); }
    InitsAre(InitAt("a", "a.go", 1));
    InitsAre(InitAt("f", "b.go", 1));
    InitsAre(InitAt("g", "b.go", 5));
    assert forall n | n in TWO_INITS.nodes :: n.id in IdsOf(TWO_INITS.nodes);
  }

  lemma InitsAreStored()
    ensures Valid(TWO_INITS, OWNER) && Keyed(TWO_INITS.nodes) && Distinct(TWO_INITS.edges)
    ensures InitAt("a", "a.go", 1) in TWO_INITS.nodes && IdsOf(TWO_INITS.nodes) == {"a", "f", "g"}
  {
    hide IdsOf;
    IdsOfInits();
    assert "a" != "f" && "a" != "g" && "f" != "g";
    forall n | n in TWO_INITS.nodes ensures OWNER(n.id) == n.filePath && n.filePath in TWO_INITS.files { InitsAre(n); }
    forall a, b | a in TWO_INITS.nodes && b in TWO_INITS.nodes && a.id == b.id ensures a == b {
      InitsAre(a);
      InitsAre(b);
    }
    InitsAre(InitAt("a", "a.go", 1));
  }

  lemma TouchedIsOwned()
    ensures Owned(TOUCHED, OWNER) && Replaces(TWO_INITS.files, TOUCHED)
    ensures forall n | n in TOUCHED.outcome.nodes :: Complete()(n)
  {
    assert "f" != "a" && "g" != "a" && "1" != "2";
  }

  lemma TouchRequests(jobs: seq<Job>)
    requires jobs == [TOUCHED] || jobs == [Job("a.go", Unread), TOUCHED]
    ensures Request(TWO_INITS, OWNER, jobs) && "b.go" in ReplacedBy(TWO_INITS.files, jobs)
    ensures RunJobs(TWO_INITS, jobs) == RunJob(TWO_INITS, TOUCHED)
    ensures InitAt("g", "b.go", 5) in RunJobs(TWO_INITS, jobs).nodes
  {
    hide Valid, Owned, RunJobs, ReplacedBy, Replaces, DeleteFile, Complete, StoreExtraction;
    var n := |jobs| - 1;
    InitsAreStored();
    TouchedIsOwned();
    ReplacedByOne(TWO_INITS.files, jobs, TOUCHED);
    UnreadIsOwned("a.go");
    assert "a.go" != "b.go";
    LastJob(TWO_INITS, jobs);
    if n == 0 {
      NoJobs(TWO_INITS, jobs[..0]);
    } else {
      LastJob(TWO_INITS, jobs[..1]);
      NoJobs(TWO_INITS, jobs[..1][..0]);
    }
    LastExtractedIsThere(TWO_INITS, TOUCHED);
  }

  lemma UnreadIsOwned(path: Path)
    ensures Owned(Job(path, Unread), OWNER)
  {
  }

  lemma InitsMeet(r: Table)
    requires InitAt("g", "b.go", 5) in r.nodes
    ensures IdsOf(TWO_INITS.nodes) == {"a", "f", "g"} && Meet(r, TWO_INITS.nodes, RefersTo("f"), RefersTo("g"))
  {
    var nodes := TWO_INITS.nodes;
    InitsAreStored();
    LookupIs(nodes, "f");
    LookupIs(nodes, "g");
    assert "a" != "f" && "a" != "g" && "f" != "g";
    assert BackupOf(nodes, RefersTo("f")).target == nodes[1] && BackupOf(nodes, RefersTo("g")).target == nodes[2];
    assert SamePlace(InitAt("g", "b.go", 5), nodes[2]);
  }

  lemma ReferencesAreLost()
    ensures RefersTo("f") in Lost(TWO_INITS, OWNER, [TOUCHED]) && RefersTo("g") in Lost(TWO_INITS, OWNER, [TOUCHED])
  {
    hide ReplacedBy;
    var t, jobs := TWO_INITS, [TOUCHED];
    TouchedIsOwned();
    ReplacedByOne(t.files, jobs, TOUCHED);
    SelectMembers(t.edges, Into(OWNER, Paths(jobs), ReplacedBy(t.files, jobs)));
    assert t.edges[0] == RefersTo("f") && t.edges[1] == RefersTo("g") && "f" != "a" && "g" != "a";
  }

  /** A file that is touched and extracted as before: both references now lead to one `init`. */
  lemma CollidingRowsBecomeOne()
    ensures Request(TWO_INITS, OWNER, [TOUCHED]) && Distinct(TWO_INITS.edges) && Keyed(TWO_INITS.nodes)
    ensures InitAt("g", "b.go", 5) in Synced(TWO_INITS, [TOUCHED]).nodes
    ensures !Distinct(Synced(TWO_INITS, [TOUCHED]).edges)
  {
    hide Request, Keyed, Distinct, Grounded, Lost, Meet, NoneCollide, Synced, RunJobs, ReplacedBy, IdsOf, Lookup;
    var t, jobs := TWO_INITS, [TOUCHED];
    assert "f" != "g";
    InitsAreStored();
    TouchRequests(jobs);
    SyncedIs(t, OWNER, jobs);
    NothingRepeatsIff(t, OWNER, jobs);
    ReferencesAreLost();
    InitsMeet(RunJobs(t, jobs));
    BothCollide(t, OWNER, jobs, RefersTo("f"), RefersTo("g"));
  }

  lemma BothCollide(t: Table, owner: Owner, jobs: seq<Job>, d: Edge, e: Edge)
    requires Grounded(t.nodes, Lost(t, owner, jobs)) && d in Lost(t, owner, jobs) && e in Lost(t, owner, jobs)
    requires d.target != e.target && Meet(RunJobs(t, jobs), t.nodes, d, e)
    ensures !NoneCollide(t, owner, jobs)
  {
    hide Lost, Meet, Grounded;
    assert Collide(t, owner, jobs, d, e);
  }

  lemma SourceStays(t: Table, owner: Owner, jobs: seq<Job>, n: Node)
    requires Request(t, owner, jobs) && n in t.nodes && n.filePath !in ReplacedBy(t.files, jobs)
    ensures n in Synced(t, jobs).nodes
  {
    hide Valid, AllOwned, OncePerFile, ReplacedBy, Synced, RunJobs, Lost;
    SyncedIs(t, owner, jobs);
    RunJobsIs(t, owner, jobs);
  }

  lemma UnreadIsNotReplaced(files: map<Path, Hash>, path: Path, other: Job)
    requires path != other.path
    ensures var jobs := [Job(path, Unread), other]; path in Paths(jobs) && path !in ReplacedBy(files, jobs)
  {
    assert Job(path, Unread) in [Job(path, Unread), other];
  }

  lemma ReferencesLeadToB(e: Edge)
    requires e in TWO_INITS.edges
    ensures OWNER(e.target) == "b.go"
  {
    assert "f" != "a" && "g" != "a";
  }

  /** The referring file changed as well but could not be read: its references are gone although
      both ends are still there. */
  lemma UnreadFileLosesItsRows()
    ensures var jobs := [Job("a.go", Unread), TOUCHED];
            && Request(TWO_INITS, OWNER, jobs)
            && RefersTo("g") in TWO_INITS.edges && (forall e | e in Synced(TWO_INITS, jobs).edges :: e.source != "a")
            && InitAt("a", "a.go", 1) in Synced(TWO_INITS, jobs).nodes && InitAt("g", "b.go", 5) in Synced(TWO_INITS, jobs).nodes
  {
    hide Request, Synced, RunJobs, ReplacedBy, Paths, Lost, Valid, Keyed, Distinct, IdsOf;
    var t, jobs := TWO_INITS, [Job("a.go", Unread), TOUCHED];
    assert "a.go" != "b.go" && t.edges[1] == RefersTo("g");
    InitsAreStored();
    TouchRequests(jobs);
    SyncedIs(t, OWNER, jobs);
    UnreadIsNotReplaced(t.files, "a.go", TOUCHED);
    SourceStays(t, OWNER, jobs, InitAt("a", "a.go", 1));
    forall e | e in Synced(t, jobs).edges ensures e.source != "a" {
      if e.source == "a" {
        UnreplacedSourcesLoseRows(t, OWNER, jobs, e);
        ReferencesLeadToB(e);
      }
    }
  }

  // ---------------------------------------------------------------- the store and the update in place

  /** The rows that the joined query returns for a batch of changed files. */
  function TargetIn(nodes: seq<Node>, changed: set<Path>): Edge -> bool {
    (e: Edge) => Lookup(nodes, e.target).Some? && Lookup(nodes, e.target).value.filePath in changed
  }

  lemma {:induction false} SavedOfIncoming(nodes: seq<Node>, edges: seq<Edge>, changed: set<Path>)
    ensures Saved(nodes, Select(edges, TargetIn(nodes, changed)), changed) == Saved(nodes, edges, changed)
  {
    if edges != [] {
      var n := |edges| - 1;
      SavedOfIncoming(nodes, edges[..n], changed);
      var before := Select(edges[..n], TargetIn(nodes, changed));
      assert (before + [edges[n]])[..|before|] == before;
    }
  }

  class Store {
    var nodes: seq<Node>
    var edges: seq<Edge>
    var files: map<Path, Hash>

    ghost function Value(): Table reads this { Table(nodes, edges, files) }

    /** Foreign keys cascade a node's deletion to its edges. */
    method DeleteRows(ids: set<NodeId>)
      modifies this`nodes, this`edges
      ensures Value() == DeleteNodes(old(Value()), ids)
    {
      nodes, edges := Select(nodes, Outside(ids)), Select(edges, Apart(ids));
    }

    method DeleteFileRows(path: Path)
      modifies this
      ensures Value() == DeleteFile(old(Value()), path)
    {
      DeleteRows(IdsOf(Select(nodes, InFile(path))));
      files := files - {path};
    }

    method InsertNodeRows(more: seq<Node>)
      modifies this`nodes, this`edges
      ensures Value() == InsertNodes(old(Value()), more)
    {
      for k := 0 to |more|
        invariant Value() == InsertNodes(old(Value()), more[..k])
      {
        assert more[..k + 1][..k] == more[..k];
        if more[k].id in IdsOf(nodes) { DeleteRows({more[k].id}); }
        nodes := nodes + [Qualified(more[k])];
      }
      assert more[..|more|] == more;
    }

    /** The ids that exist are read once, before the first row is written. */
    method InsertEdgeRows(more: seq<Edge>)
      modifies this`edges
      ensures Value() == InsertEdges(old(Value()), more)
    {
      var existing := IdsOf(nodes);
      for k := 0 to |more|
        invariant edges == old(edges) + Select(more[..k], Joining(existing))
      {
        assert more[..k + 1][..k] == more[..k];
        if more[k].source in existing && more[k].target in existing { edges := edges + [more[k]]; }
      }
      assert more[..|more|] == more;
    }

    method StoreExtractionResult(path: Path, hash: Hash, resultNodes: seq<Node>, resultEdges: seq<Edge>)
      modifies this
      ensures Value() == StoreExtraction(old(Value()), path, hash, resultNodes, resultEdges)
    {
      if path in files && files[path] == hash { return; }
      if path in files { DeleteFileRows(path); }
      var validNodes: seq<Node> := [];
      for k := 0 to |resultNodes|
        invariant validNodes == Select(resultNodes[..k], Complete())
      {
        var n := resultNodes[k];
        assert resultNodes[..k + 1][..k] == resultNodes[..k];
        if n.id != "" && n.kind != "" && n.name != "" && n.filePath != "" && n.language != "" {
          validNodes := validNodes + [n];
        }
      }
      assert resultNodes[..|resultNodes|] == resultNodes;
      InsertNodeRows(validNodes);
      var insertedIds := IdsOf(validNodes);
      var validEdges: seq<Edge> := [];
      for k := 0 to |resultEdges|
        invariant validEdges == Select(resultEdges[..k], Joining(insertedIds))
      {
        var e := resultEdges[k];
        assert resultEdges[..k + 1][..k] == resultEdges[..k];
        if e.source in insertedIds && e.target in insertedIds { validEdges := validEdges + [e]; }
      }
      assert resultEdges[..|resultEdges|] == resultEdges;
      InsertEdgeRows(validEdges);
      files := files[path := hash];
    }

    method CaptureIncomingEdges(changed: set<Path>) returns (out: seq<Backup>)
      ensures out == Saved(nodes, edges, changed)
    {
      var incoming := Select(edges, TargetIn(nodes, changed));
      SavedOfIncoming(nodes, edges, changed);
      out := [];
      for k := 0 to |incoming|
        invariant out == Saved(nodes, incoming[..k], changed)
      {
        var edge := incoming[k];
        assert incoming[..k + 1][..k] == incoming[..k];
        var source, target := Lookup(nodes, edge.source), Lookup(nodes, edge.target);
        SelectMembers(edges, TargetIn(nodes, changed));
        assert edge in incoming;
        if source.Some? && target.Some? && source.value.filePath !in changed {
          out := out + [Backup(target.value, edge)];
        }
      }
      assert incoming[..|incoming|] == incoming;
    }

    /** The keys of the stored edges that leave the given nodes. */
    method ExistingEdgeKeys(sources: set<NodeId>) returns (keys: set<Key>)
      ensures forall key: Key | key.source in sources :: key in keys <==> key in Keys(edges)
    {
      keys := set e | e in edges && e.source in sources :: EdgeKey(e);
    }

    method RestoreIncomingEdges(backups: seq<Backup>)
      modifies this`edges
      ensures Value() == Restore(old(Value()), backups)
    {
      var byFile := LoadCandidates(backups);
      var existing := ExistingEdgeKeys(set b | b in backups :: b.edge.source);
      var restore: seq<Edge> := [];
      for k := 0 to |backups|
        invariant Value() == old(Value()) && restore == Restorable(Value(), backups[..k])
      {
        var b := backups[k];
        assert b in backups && backups[..k + 1][..k] == backups[..k];
        assert EdgeKey(b.edge) in existing <==> EdgeKey(b.edge) in Keys(edges);
        if EdgeKey(b.edge) !in existing {
          var found := FirstCandidate(byFile[b.target.filePath], b.target);
          if found.Some? { restore := restore + [b.edge.(target := found.value.id)]; }
        }
      }
      assert backups[..|backups|] == backups;
      InsertEdgeRows(restore);
    }

    /** The nodes of every backed-up target's file, each file read once. */
    method LoadCandidates(backups: seq<Backup>) returns (byFile: map<Path, seq<Node>>)
      ensures forall b | b in backups ::
                b.target.filePath in byFile && byFile[b.target.filePath] == NodesByFile(Value(), b.target.filePath)
    {
      byFile := map[];
      for k := 0 to |backups|
        invariant forall j | 0 <= j < k :: backups[j].target.filePath in byFile
        invariant forall p | p in byFile :: byFile[p] == NodesByFile(Value(), p)
      {
        var path := backups[k].target.filePath;
        if path !in byFile { byFile := byFile[path := ReadFileNodes(path)]; }
      }
    }

    function ReadFileNodes(path: Path): seq<Node>
      reads this
    {
      NodesByFile(Table(nodes, edges, files), path)
    }

    method FirstCandidate(candidates: seq<Node>, target: Node) returns (found: Option<Node>)
      ensures found == FirstSame(candidates, target)
    {
      for k := 0 to |candidates|
        invariant FirstSame(candidates, target) == FirstSame(candidates[k..], target)
      {
        assert candidates[k..][1..] == candidates[k + 1..];
        if SameSymbol(candidates[k], target) { return Some(candidates[k]); }
      }
      return None;
    }

    method SyncChangedFiles(jobs: seq<Job>)
      modifies this
      ensures Value() == Synced(old(Value()), jobs)
    {
      var backups := CaptureIncomingEdges(Paths(jobs));
      for k := 0 to |jobs|
        invariant Value() == RunJobs(old(Value()), jobs[..k])
      {
        var job := jobs[k];
        assert jobs[..k + 1][..k] == jobs[..k];
        match job.outcome {
          case Unread =>
          case TooLarge(hash) =>
            DeleteFileRows(job.path);
            files := files[job.path := hash];
          case Extracted(hash, resultNodes, resultEdges) =>
            StoreExtractionResult(job.path, hash, resultNodes, resultEdges);
        }
      }
      assert jobs[..|jobs|] == jobs;
      RestoreIncomingEdges(backups);
    }
  }
}
