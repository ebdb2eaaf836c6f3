/** What an incremental update leaves in the three tables, row by row: which nodes, which file records,
    and where every restored edge leads (indexer/sync.go, indexer/store.go). */
module IncrementalRows {
  import opened Collections
  import opened Graph
  import opened IncrementalIndex
  import StableSort

  // ---------------------------------------------------------------- where restored edges lead

  /** The same declaration: everything but the position and the id agrees. */
  ghost predicate SameDeclaration(a: Node, b: Node) {
    && a.filePath == b.filePath && a.kind == b.kind && a.name == b.name && a.qualifiedName == b.qualifiedName
    && a.signature == b.signature && a.returnType == b.returnType
    && Joined(a.typeParameters) == Joined(b.typeParameters)
  }

  predicate Plain(parts: seq<string>) { parts != [""] && forall s | s in parts :: '\0' !in s }

  /** Type parameters are compared joined, which tells lists apart unless an empty name stands alone or
      a name contains the separator. */
  lemma {:induction false} JoinedTellsApart(a: seq<string>, b: seq<string>)
    requires Plain(a) && Plain(b) && Joined(a) == Joined(b)
    ensures a == b
  {
    if a == [] || b == [] {
      JoinedEmpty(a);
      JoinedEmpty(b);
    } else {
      JoinedHead(a, b);
      if |a| > 1 && |b| > 1 { JoinedTail(a[1..], b[1..]); }
      assert a == [a[0]] + a[1..] && b == [b[0]] + b[1..];
    }
  }

  lemma JoinedEmpty(a: seq<string>)
    requires Plain(a)
    ensures Joined(a) == "" <==> a == []
  {
    if |a| == 1 { assert a == [a[0]]; }
  }

  lemma {:induction false} JoinedTail(a: seq<string>, b: seq<string>)
    requires a != [] && b != [] && (forall s | s in a + b :: '\0' !in s) && Joined(a) == Joined(b)
    ensures a == b
    decreases |a|
  {
    JoinedHead(a, b);
    if |a| > 1 && |b| > 1 {
      assert forall s | s in a[1..] + b[1..] :: s in a + b;
      JoinedTail(a[1..], b[1..]);
    }
    assert a == [a[0]] + a[1..] && b == [b[0]] + b[1..];
  }

  /** The first parts agree, and either both lists go on or neither does. */
  lemma JoinedHead(a: seq<string>, b: seq<string>)
    requires a != [] && b != [] && (forall s | s in a + b :: '\0' !in s) && Joined(a) == Joined(b)
    ensures a[0] == b[0] && (|a| == 1 <==> |b| == 1) && (|a| > 1 ==> Joined(a[1..]) == Joined(b[1..]))
  {
    var s, t := Joined(a), Joined(b);
    assert a[0] in a + b && b[0] in a + b;
    assert s[..|a[0]|] == a[0] && t[..|b[0]|] == b[0];
    assert |a| > 1 ==> s[|a[0]|] == '\0' && s[|a[0]| + 1..] == Joined(a[1..]);
    assert |b| > 1 ==> t[|b[0]|] == '\0' && t[|b[0]| + 1..] == Joined(b[1..]);
    if |a| > 1 { SeparatorIsBehind(b[0], s, |a[0]|); }
    if |b| > 1 { SeparatorIsBehind(a[0], t, |b[0]|); }
  }

  lemma SeparatorIsBehind(part: string, s: string, k: nat)
    requires part <= s && '\0' !in part && k < |s| && s[k] == '\0'
    ensures |part| <= k
  {
    assert forall i | 0 <= i < |part| :: s[i] == part[i] && part[i] in part;
  }

  /** `n` is the first such declaration of its file: by start line, then in row order. */
  ghost predicate FirstDeclared(nodes: seq<Node>, n: Node, like: Node) {
    && n in nodes && SameDeclaration(n, like)
    && forall m | m in nodes && SameDeclaration(m, like) ::
         n.startLine < m.startLine || m == n
         || (n.startLine == m.startLine && exists i, j :: 0 <= i < j < |nodes| && nodes[i] == n && nodes[j] == m)
  }

  /** An old edge, the node it led to, and the node that took its place. */
  ghost predicate LeadsTo(t: Table, r: Table, e: Edge, m: Node, n: Node) {
    m in t.nodes && m.id == e.target && FirstDeclared(r.nodes, n, m)
  }

  lemma {:induction false} FirstSameAt(candidates: seq<Node>, like: Node) returns (p: nat)
    requires FirstSame(candidates, like).Some?
    ensures p < |candidates| && candidates[p] == FirstSame(candidates, like).value && SameSymbol(candidates[p], like)
    ensures forall q | 0 <= q < p :: !SameSymbol(candidates[q], like)
  {
    if SameSymbol(candidates[0], like) {
      p := 0;
    } else {
      var k := FirstSameAt(candidates[1..], like);
      p := k + 1;
      forall q | 0 <= q < p ensures !SameSymbol(candidates[q], like) { if q > 0 { assert candidates[q] == candidates[1..][q - 1]; } }
    }
  }

  /** The candidate that is taken is the first declared. */
  lemma TakenIsFirst(r: Table, like: Node)
    requires FirstSame(NodesByFile(r, like.filePath), like).Some?
    ensures FirstDeclared(r.nodes, FirstSame(NodesByFile(r, like.filePath), like).value, like)
  {
    hide NodesByFile;
    var candidates := NodesByFile(r, like.filePath);
    NodesByFileIs(r, like.filePath);
    var p := FirstSameAt(candidates, like);
    var n := candidates[p];
    assert n in candidates;
    forall m | m in r.nodes && SameDeclaration(m, like)
      ensures n.startLine < m.startLine || m == n
              || (n.startLine == m.startLine && exists i, j :: 0 <= i < j < |r.nodes| && r.nodes[i] == n && r.nodes[j] == m)
    {
      assert m in candidates && SameSymbol(m, like);
      var q :| 0 <= q < |candidates| && candidates[q] == m;
      assert q >= p;
      if q > p { InFileOrder(r, like.filePath, p, q); }
    }
  }

  /** A file's nodes come by start line, in row order on one line. */
  lemma InFileOrder(r: Table, path: Path, p: nat, q: nat)
    requires p < q < |NodesByFile(r, path)|
    ensures var n, m := NodesByFile(r, path)[p], NodesByFile(r, path)[q];
            n.startLine < m.startLine
            || (n.startLine == m.startLine && exists i, j :: 0 <= i < j < |r.nodes| && r.nodes[i] == n && r.nodes[j] == m)
  {
    var rows := Select(r.nodes, InFile(path));
    var rank := (n: Node) => n.startLine as real;
    StableSort.StableOrder(rows, rank, p, q);
    var n, m := NodesByFile(r, path)[p], NodesByFile(r, path)[q];
    if n.startLine == m.startLine {
      var i, j :| 0 <= i < j < |rows| && rows[i] == n && rows[j] == m;
      SelectKeepsOrder(r.nodes, InFile(path), i, j);
    }
  }

  /** One saved edge: it is carried to the first declaration like its old target, when there is one. */
  lemma CarriedLeadsTo(t: Table, r: Table, e: Edge)
    requires e.target in IdsOf(t.nodes)
    ensures var rows := Carried(r, BackupOf(t.nodes, e));
            && (forall row | row in rows :: exists m, n :: LeadsTo(t, r, e, m, n) && row == e.(target := n.id))
            && (rows == [] ==> exists m :: m in t.nodes && m.id == e.target && forall n | n in r.nodes :: !SameDeclaration(n, m))
  {
    hide NodesByFile;
    LookupIs(t.nodes, e.target);
    var m := BackupOf(t.nodes, e).target;
    var candidates := NodesByFile(r, m.filePath);
    FirstSameIs(candidates, m);
    NodesByFileIs(r, m.filePath);
    if FirstSame(candidates, m).Some? {
      TakenIsFirst(r, m);
      assert LeadsTo(t, r, e, m, FirstSame(candidates, m).value);
    } else {
      forall n | n in r.nodes ensures !SameDeclaration(n, m) {
        assert n.filePath == m.filePath ==> n in candidates;
      }
    }
  }

  /** A row into a replaced file. */
  ghost predicate IntoReplaced(t: Table, owner: Owner, jobs: seq<Job>, row: Edge) {
    owner(row.source) !in Paths(jobs) && owner(row.target) in ReplacedBy(t.files, jobs)
  }

  lemma {:induction false} CarriedAnd(r: Table, nodes: seq<Node>, es: seq<Edge>, row: Edge)
    requires Grounded(nodes, es) && row in CarryAll(r, nodes, es)
    ensures exists e :: e in es && row in Carried(r, BackupOf(nodes, e))
  {
    hide Carried;
    CarriedMembers(r, nodes, es, row);
    var i :| 0 <= i < |es| && row in Carried(r, BackupOf(nodes, es[i]));
    assert es[i] in es;
  }

  /** Every row from an unchanged file into a replaced one is an old row that now leads to the first
      declaration like its old target. */
  lemma RestoredRowsLeadOn(t: Table, owner: Owner, jobs: seq<Job>, row: Edge)
    requires Request(t, owner, jobs) && row in Synced(t, jobs).edges && IntoReplaced(t, owner, jobs, row)
    ensures exists e, m, n :: e in t.edges && IntoReplaced(t, owner, jobs, e)
              && LeadsTo(t, Synced(t, jobs), e, m, n) && row == e.(target := n.id)
  {
    hide AllOwned, Owned, Added, Replaces, CarryAll, Carried, ReplacedBy, Paths, AddedBy, RunJobs, Synced, OncePerFile, LeadsTo, BackupOf, Valid;
    var r := RunJobs(t, jobs);
    SyncedIs(t, owner, jobs);
    RunJobsIs(t, owner, jobs);
    AddedByIsOwned(t.files, jobs, owner);
    ReplacedAreJobs(t.files, jobs);
    SelectMembers(t.edges, Avoiding(owner, ReplacedBy(t.files, jobs)));
    SelectMembers(t.edges, Into(owner, Paths(jobs), ReplacedBy(t.files, jobs)));
    CarriedAnd(r, t.nodes, Lost(t, owner, jobs), row);
    var e :| e in Lost(t, owner, jobs) && row in Carried(r, BackupOf(t.nodes, e));
    CarriedLeadsTo(t, r, e);
    var m, n :| LeadsTo(t, r, e, m, n) && row == e.(target := n.id);
    SameNodesLead(t, r, Synced(t, jobs), e, m, n);
  }

  lemma SameNodesLead(t: Table, r: Table, q: Table, e: Edge, m: Node, n: Node)
    requires LeadsTo(t, r, e, m, n) && q.nodes == r.nodes
    ensures LeadsTo(t, q, e, m, n)
  {
  }

  /** And every such old row is restored when there is one. */
  lemma RestoredWhenDeclared(t: Table, owner: Owner, jobs: seq<Job>, e: Edge, m: Node, like: Node)
    requires Request(t, owner, jobs) && Keyed(t.nodes) && e in t.edges && IntoReplaced(t, owner, jobs, e)
    requires m in t.nodes && m.id == e.target && like in Synced(t, jobs).nodes && SameDeclaration(like, m)
    ensures exists n :: LeadsTo(t, Synced(t, jobs), e, m, n) && e.(target := n.id) in Synced(t, jobs).edges
  {
    hide AllOwned, Owned, Added, Replaces, CarryAll, Carried, ReplacedBy, Paths, AddedBy, RunJobs, Synced, OncePerFile, BackupOf, Valid, FirstDeclared;
    var r := RunJobs(t, jobs);
    SyncedIs(t, owner, jobs);
    SelectMembers(t.edges, Into(owner, Paths(jobs), ReplacedBy(t.files, jobs)));
    assert e in Lost(t, owner, jobs);
    var es := Lost(t, owner, jobs);
    CarriedLeadsTo(t, r, e);
    OnlyNode(t, e, m);
    var row := Carried(r, BackupOf(t.nodes, e))[0];
    assert row in Carried(r, BackupOf(t.nodes, e));
    var m', n :| LeadsTo(t, r, e, m', n) && row == e.(target := n.id);
    OnlyNode(t, e, m');
    var i :| 0 <= i < |es| && es[i] == e;
    CarriedMembers(r, t.nodes, es, row);
    SameNodesLead(t, r, Synced(t, jobs), e, m, n);
  }

  lemma OnlyNode(t: Table, e: Edge, m: Node)
    requires Keyed(t.nodes) && m in t.nodes && m.id == e.target
    ensures forall k | k in t.nodes && k.id == e.target :: k == m
  {
  }

  // ---------------------------------------------------------------- which nodes and records are there

  ghost predicate IsComplete(n: Node) { n.id != "" && n.kind != "" && n.name != "" && n.filePath != "" && n.language != "" }

  /** The file of the job is replaced: too large a file always, another when its content is new. */
  lemma ReplacedIs(files: map<Path, Hash>, jobs: seq<Job>, path: Path)
    ensures path in ReplacedBy(files, jobs) <==>
              exists j :: j in jobs && j.path == path && (j.outcome.TooLarge?
                || (j.outcome.Extracted? && (path in files ==> files[path] != j.outcome.hash)))
  {
  }

  /** `n` is stored for the last complete node with its id that the job extracted; without a qualified
      name it gets its plain one. */
  ghost predicate StoredFrom(job: Job, n: Node) {
    && job.outcome.Extracted?
    && exists i :: 0 <= i < |job.outcome.nodes| && IsLast(job.outcome.nodes, i) && FilledIn(job.outcome.nodes[i], n)
  }

  ghost predicate IsLast(nodes: seq<Node>, i: nat)
    requires i < |nodes|
  {
    IsComplete(nodes[i]) && forall k | i < k < |nodes| && IsComplete(nodes[k]) :: nodes[k].id != nodes[i].id
  }

  ghost predicate FilledIn(given: Node, n: Node) {
    if given.qualifiedName == "" then n == given.(qualifiedName := given.name) else n == given
  }

  /** The last of its id among some given nodes. */
  ghost predicate GivenLast(nodes: seq<Node>, n: Node) {
    exists i :: 0 <= i < |nodes| && FilledIn(nodes[i], n) && forall k | i < k < |nodes| :: nodes[k].id != nodes[i].id
  }

  lemma {:induction false} InsertedAre(t: Table, nodes: seq<Node>, n: Node)
    ensures n in InsertNodes(t, nodes).nodes <==> GivenLast(nodes, n) || (n in t.nodes && n.id !in IdsOf(nodes))
  {
    hide InsertNode, GivenLast, FilledIn;
    if nodes == [] {
      NoneGiven(nodes, n);
    } else {
      var k := |nodes| - 1;
      InsertedAre(t, nodes[..k], n);
      OneInserted(InsertNodes(t, nodes[..k]), nodes[k], n);
      GivenOneMore(nodes[..k], nodes[k], n);
      assert nodes == nodes[..k] + [nodes[k]];
      assert IdsOf(nodes) == IdsOf(nodes[..k]) + {nodes[k].id};
    }
  }

  lemma NoneGiven(nodes: seq<Node>, n: Node)
    requires nodes == []
    ensures !GivenLast(nodes, n) && IdsOf(nodes) == {}
  {
  }

  lemma OneInserted(t: Table, x: Node, n: Node)
    ensures n in InsertNode(t, x).nodes <==> FilledIn(x, n) || (n in t.nodes && n.id != x.id)
  {
    SelectMembers(t.nodes, Outside({x.id}));
  }

  lemma GivenOneMore(nodes: seq<Node>, x: Node, n: Node)
    ensures GivenLast(nodes + [x], n) <==> FilledIn(x, n) || (GivenLast(nodes, n) && n.id != x.id)
  {
    var more := nodes + [x];
    if i :| 0 <= i < |nodes| && FilledIn(nodes[i], n) && forall j | i < j < |nodes| :: nodes[j].id != nodes[i].id {
      assert FilledIn(more[i], n) && forall j | i < j < |nodes| :: more[j] == nodes[j];
    }
    if i :| 0 <= i < |more| && FilledIn(more[i], n) && forall j | i < j < |more| :: more[j].id != more[i].id {
      assert i < |nodes| ==> FilledIn(nodes[i], n) && more[|nodes|] == x && forall j | i < j < |nodes| :: nodes[j] == more[j];
    }
    assert more[|nodes|] == x;
  }

  /** The last complete one of its id. */
  ghost predicate LastComplete(nodes: seq<Node>, n: Node) {
    exists i :: 0 <= i < |nodes| && IsLast(nodes, i) && FilledIn(nodes[i], n)
  }

  lemma CompleteOneMore(nodes: seq<Node>, x: Node, n: Node)
    ensures LastComplete(nodes + [x], n) <==>
              (IsComplete(x) && FilledIn(x, n)) || (LastComplete(nodes, n) && !(IsComplete(x) && n.id == x.id))
  {
    hide IsComplete;
    var more := nodes + [x];
    if i :| 0 <= i < |nodes| && IsLast(nodes, i) && FilledIn(nodes[i], n) {
      assert more[i] == nodes[i] && forall j | i < j < |nodes| :: more[j] == nodes[j];
      assert !(IsComplete(x) && n.id == x.id) ==> IsLast(more, i);
    }
    if i :| 0 <= i < |more| && IsLast(more, i) && FilledIn(more[i], n) {
      assert i < |nodes| ==> more[i] == nodes[i] && more[|nodes|] == x && forall j | i < j < |nodes| :: nodes[j] == more[j];
      assert i < |nodes| ==> IsLast(nodes, i);
    }
    assert more[|nodes|] == x;
    assert IsComplete(x) ==> IsLast(more, |nodes|);
  }

  lemma {:induction false} CompleteKept(nodes: seq<Node>, n: Node)
    ensures GivenLast(Select(nodes, Complete()), n) <==> LastComplete(nodes, n)
  {
    hide GivenLast, LastComplete, FilledIn;
    if nodes == [] {
      NoneGiven(nodes, n);
      NoneComplete(nodes, n);
    } else {
      var k := |nodes| - 1;
      CompleteKept(nodes[..k], n);
      assert nodes == nodes[..k] + [nodes[k]];
      CompleteOneMore(nodes[..k], nodes[k], n);
      GivenOneMore(Select(nodes[..k], Complete()), nodes[k], n);
    }
  }

  lemma NoneComplete(nodes: seq<Node>, n: Node)
    requires nodes == []
    ensures !LastComplete(nodes, n)
  {
  }

  /** One job, seen from a node. */
  lemma NodesAfterJob(t: Table, owner: Owner, job: Job, n: Node)
    requires Valid(t, owner) && Owned(job, owner)
    ensures n in RunJob(t, job).nodes <==>
              if Replaces(t.files, job) then StoredFrom(job, n) || (n in t.nodes && n.filePath != job.path) else n in t.nodes
  {
    hide InsertNodes, Select, GivenLast, IsLast, FilledIn;
    DeleteFileIs(t, owner, job.path);
    if Replaces(t.files, job) && job.outcome.Extracted? {
      var valid := Select(job.outcome.nodes, Complete());
      var cleared := if job.path in t.files then DeleteFile(t, job.path) else t;
      SelectMembers(job.outcome.nodes, Complete());
      InsertedAre(cleared, valid, n);
      CompleteKept(job.outcome.nodes, n);
      ClearedHasNone(t, owner, job, cleared, valid, n);
    }
  }

  lemma ClearedHasNone(t: Table, owner: Owner, job: Job, cleared: Table, valid: seq<Node>, n: Node)
    requires Valid(t, owner) && Owned(job, owner) && job.outcome.Extracted?
    requires forall x | x in valid :: x in job.outcome.nodes
    requires forall m | m in cleared.nodes :: m in t.nodes && (job.path in t.files ==> m.filePath != job.path)
    ensures n in cleared.nodes ==> n.id !in IdsOf(valid) && n.filePath != job.path
  {
    if n in cleared.nodes {
      assert n.filePath in t.files && owner(n.id) == n.filePath;
      assert forall x | x in valid :: owner(x.id) == job.path && x.filePath == job.path;
    }
  }

  /** The nodes afterwards: those of files that were not replaced, and those stored for extracted ones. */
  lemma {:induction false} NodesAfterJobs(t: Table, owner: Owner, jobs: seq<Job>, n: Node)
    requires Valid(t, owner) && AllOwned(jobs, owner) && OncePerFile(jobs)
    ensures n in RunJobs(t, jobs).nodes <==>
              || (n in t.nodes && n.filePath !in ReplacedBy(t.files, jobs))
              || exists j :: j in jobs && Replaces(t.files, j) && StoredFrom(j, n)
  {
    hide Owned, Valid, Replaces, StoredFrom, RunJob, Retains, Select, ReplacedBy, AddedBy;
    if jobs == [] {
      NoneReplaced(t.files, jobs);
    } else {
      var k := |jobs| - 1;
      var job, r := jobs[k], RunJobs(t, jobs[..k]);
      assert jobs == jobs[..k] + [job] && job in jobs && forall j | j in jobs[..k] :: j in jobs;
      NodesAfterJobs(t, owner, jobs[..k], n);
      RunJobsIs(t, owner, jobs[..k]);
      PathsOfMore(jobs);
      ReplacedByMore(t.files, jobs);
      assert job.path !in Paths(jobs[..k]);
      SameReplaces(t, r, job);
      NodesAfterJob(r, owner, job, n);
      forall j | j in jobs[..k] && StoredFrom(j, n) ensures n.filePath != job.path { StoredUnderItsPath(j, owner, n); InPaths(jobs[..k], j); }
      if StoredFrom(job, n) { StoredUnderItsPath(job, owner, n); }
    }
  }

  lemma NoneReplaced(files: map<Path, Hash>, jobs: seq<Job>)
    requires jobs == []
    ensures ReplacedBy(files, jobs) == {}
  {
  }

  lemma InPaths(jobs: seq<Job>, job: Job)
    requires job in jobs
    ensures job.path in Paths(jobs)
  {
  }

  lemma StoredUnderItsPath(job: Job, owner: Owner, n: Node)
    requires Owned(job, owner) && StoredFrom(job, n)
    ensures n.filePath == job.path
  {
  }

  /** The nodes after the whole update. */
  lemma NodesAfter(t: Table, owner: Owner, jobs: seq<Job>, n: Node)
    requires Request(t, owner, jobs)
    ensures n in Synced(t, jobs).nodes <==>
              || (n in t.nodes && n.filePath !in ReplacedBy(t.files, jobs))
              || exists j :: j in jobs && n.filePath in ReplacedBy(t.files, jobs) && StoredFrom(j, n)
  {
    hide AllOwned, OncePerFile, RunJobs, Synced, StoredFrom, ReplacedBy, Replaces, Valid, Lost;
    SyncedIs(t, owner, jobs);
    NodesAfterJobs(t, owner, jobs, n);
    forall j | j in jobs && StoredFrom(j, n) ensures n.filePath in ReplacedBy(t.files, jobs) <==> Replaces(t.files, j) {
      JobOf(t.files, owner, jobs, j, n);
    }
  }

  lemma JobOf(files: map<Path, Hash>, owner: Owner, jobs: seq<Job>, j: Job, n: Node)
    requires AllOwned(jobs, owner) && OncePerFile(jobs) && j in jobs && StoredFrom(j, n)
    ensures n.filePath in ReplacedBy(files, jobs) <==> Replaces(files, j)
  {
    StoredUnderItsPath(j, owner, n);
    forall i | i in jobs && i.path == j.path ensures i == j {
      var a :| 0 <= a < |jobs| && jobs[a] == i;
      var b :| 0 <= b < |jobs| && jobs[b] == j;
    }
  }

  /** The edges that the update adds: those that a replacing job extracted between complete nodes. */
  lemma {:induction false} AddedAre(files: map<Path, Hash>, jobs: seq<Job>, e: Edge)
    ensures e in AddedBy(files, jobs) <==>
              exists j :: j in jobs && Replaces(files, j) && j.outcome.Extracted? && e in j.outcome.edges
                && (exists n :: n in j.outcome.nodes && IsComplete(n) && n.id == e.source)
                && (exists n :: n in j.outcome.nodes && IsComplete(n) && n.id == e.target)
  {
    hide Replaces, IsComplete, Added;
    if jobs != [] {
      var k := |jobs| - 1;
      AddedAre(files, jobs[..k], e);
      AddedIs(jobs[k], e);
      assert jobs == jobs[..k] + [jobs[k]] && jobs[k] in jobs && forall j | j in jobs[..k] :: j in jobs;
    }
  }

  lemma AddedIs(job: Job, e: Edge)
    ensures e in Added(job) <==>
              && job.outcome.Extracted? && e in job.outcome.edges
              && (exists n :: n in job.outcome.nodes && IsComplete(n) && n.id == e.source)
              && (exists n :: n in job.outcome.nodes && IsComplete(n) && n.id == e.target)
  {
    if job.outcome.Extracted? {
      SelectMembers(job.outcome.nodes, Complete());
      SelectMembers(job.outcome.edges, Joining(IdsOf(Select(job.outcome.nodes, Complete()))));
    }
  }

  /** The record of a file: the hash of its job, when the job read the file. */
  lemma {:induction false} RecordsAfter(t: Table, owner: Owner, jobs: seq<Job>, job: Job)
    requires Valid(t, owner) && AllOwned(jobs, owner) && OncePerFile(jobs) && job in jobs
    ensures var files := RunJobs(t, jobs).files;
            match job.outcome
            case Unread => (job.path in files <==> job.path in t.files) && (job.path in t.files ==> files[job.path] == t.files[job.path])
            case TooLarge(hash) => job.path in files && files[job.path] == hash
            case Extracted(hash, _, _) => job.path in files && files[job.path] == hash
  {
    hide Owned, Valid, StoreExtraction, DeleteFile, Retains, ReplacedBy, AddedBy, Replaces;
    var k := |jobs| - 1;
    var last, r := jobs[k], RunJobs(t, jobs[..k]);
    assert jobs == jobs[..k] + [last] && last in jobs && forall j | j in jobs[..k] :: j in jobs;
    RunJobsIs(t, owner, jobs[..k]);
    RunJobIs(r, owner, last);
    PathsOfMore(jobs);
    if job == last {
      assert job.path !in Paths(jobs[..k]);
      RecordOfJob(r, job);
    } else {
      assert job in jobs[..k];
      RecordsAfter(t, owner, jobs[..k], job);
      InPaths(jobs[..k], job);
    }
  }

  lemma RecordOfJob(t: Table, job: Job)
    ensures job.outcome.Unread? ==> RunJob(t, job) == t
    ensures job.outcome.TooLarge? ==> job.path in RunJob(t, job).files && RunJob(t, job).files[job.path] == job.outcome.hash
    ensures job.outcome.Extracted? ==> job.path in RunJob(t, job).files && RunJob(t, job).files[job.path] == job.outcome.hash
  {
  }

  lemma SameRecords(t: Table, jobs: seq<Job>)
    ensures Synced(t, jobs).files == RunJobs(t, jobs).files
  {
  }
}
