# CodeGrapher: a verified model

CodeGrapher keeps a graph of code symbols in SQLite databases, one for each language scope, and answers
questions about it from the command line, a browser API and an MCP server. This project models the parts
of it whose correctness is not visible from one function, and proves what they promise. `dfyconfig.toml`
lists the project for Dafny.

## What is modelled

* **Traversals.** `Bfs` is the breadth-first traversal with a node limit and sorted adjacency: nodes leave
  the queue at their true distance, the edges form a spanning tree, the limit stops the loop at one exact
  point, and below it the answer is the neighbourhood. `BoundedGraph` is the level search with node and edge budgets; its `truncated` flag is
  related to the rows that its cut queries fetched and to those they did not. `Impact` is the depth-first
  impact walk with free containment steps, written twice in the source and proved against one function.
  `InheritedMember` is the C++ member lookup over cyclic `extends` edges. `SubgraphSet` is the
  insertion-ordered node set that two of them fill.
* **Kernels.** `EditDistance` gives the two-row bounded Levenshtein distance a meaning in edit scripts.
  `RandomWalk` is the random walk with restart, over exact reals. `StableSort` and `SearchMerge` are the
  in-place insertion sort and the merging of ranked lists from several scopes. `StringOrder` stands for the
  sorting of strings in the standard library.
* **Incremental indexing.** `IncrementalIndex` follows every edge row through a cascading delete and the
  restoration of saved rows, and says when two of them become one; `IncrementalRows` says the same over the stored rows, with every field
  that decides written out. `Freshness` is the per-store revision stamp as a state machine in which a writer may
  die between any two writes. `ChangeDetection` compares the Git shortcut with the full scan, for
  arbitrary trees and for a project root at or below the top of its work tree.
* **Processes.** `PidLock` is the PID-file lock and `Daemon` the start/stop protocol of the background daemon,
  both as interleavings of small steps with crashes; `DaemonService` is the daemon's own code, whose state writes
  may fail and which is proved to take only such steps.
* **Coverage.** `Coverage` merges block layouts and derives line sets, `CoverageIngest` compares one ingest
  with several and `CoverageRows` describes one stored row, `RangeCoding` is the run-length coding of line states, and `Attribution` assigns statements
  and lines to their innermost function.
* **Queries.** `QueryParser` splits a query into filters and free text; `QueryMeaning` says what tokens and pairs
  mean in terms of their characters.

`Graph` holds nodes, edges and one scope's store; `Collections` holds filtered sequences and the like.

Loops and objects that change state are methods and classes, proved against functions; the properties are
lemmas about those functions. Two-process questions are state machines whose properties hold for all runs.

## What the proofs assume

* The store is its tables. Queries return their rows in storage order unless an order matters; then the
  order is part of the model. Input and output errors do not occur, except where a step may fail or a process
  may die (`Freshness`, `PidLock`, `Daemon`).
* Ids of nodes belong to the file that they are made from (model/id.go:16-29), and every node lies in a
  recorded file (`IncrementalIndex.Valid`).
* Equal content hashes mean equal contents, and equal revisions mean equal trees. In `ChangeDetection` every
  path is a plain file that can be read; a tracked file that a directory has replaced, say, is removed for the
  scan and modified for the shortcut.
* An edge serialises to its own fields, so that the serialised form is the edge (browserapi/graph.go:76-84),
  and no field holds a NUL character (store/edges.go:106-108).
* In `PidLock`, living processes have different PIDs, and a check and the unlink that follows it are two
  steps; the safety results are for runs in which the unlink still finds what the check saw (`Timely`).
* In `Daemon`, nonces are never drawn twice, and a manager does not die while a child it launched lives and
  has not passed its ownership check. `Daemon.DeathIsHarmlessIff` shows that the invariant needs just that.

## Where the code does less than it says

Each of these is a lemma with a concrete input; the condition under which the code does keep its promise stands
beside it.

* `EditDistance.AnswerCanExceedBoundPlusOne`: beyond the bound the answer may be the true distance instead of
  the documented `maxDist + 1` (query/parser.go:145-146).
* `BoundedGraph.RepeatedRowsHideAnEdge`: `edges` has no uniqueness constraint, and with repeated rows an
  untruncated answer can miss an edge; it is complete exactly when no row is lost to the cuts
  (`CompleteIffNothingLost`).
* `Impact.ExactBoundsAreUpToOne`: the impact walk is exact for the depth bounds up to one and for no other.
* `ChangeDetection.DirtyThenRestoredIsMissed`, `ChangeDetection.UntrackedIgnoredIsMissed`,
  `ChangeDetection.ChangeBelowTheTopIsMissed`: the Git shortcut misses exactly the files that `MissedExactly`
  names. Git's diff and status name paths from the top of the work tree, and the shortcut reads them as paths
  from the project's root, so below the top it is blind.
* `IncrementalIndex.CollidingRowsBecomeOne`: saved rows that differ in nothing but their targets become one row
  when these are the same symbol twice in a file; nothing is repeated exactly when no such rows exist
  (`NothingRepeatsIff`).
* `IncrementalIndex.UnreadFileLosesItsRows`: a changed file that could not be read, or whose hash is the
  recorded one, loses its rows into the files replaced in the same batch; `KeptIff` says which rows are kept.
* `Freshness.TwoWritersBreakTheGate`: the stamp is written after the lock was released, so two writers can leave
  a stamp on a graph that is being rewritten; the gate is safe exactly for one (`SafeIffOneWriter`).
* `PidLock.LateCleanupBreaksExclusion`, `PidLock.LateUnlinkBreaksExclusion`,
  `PidLock.SplitCheckBreaksExclusion`: an unlink that comes too late, of each of the three kinds, lets two
  processes in; `BareUnlinkSafeIff` says when one does not.
* `Daemon.ManagerDyingInSpawnWindowBreaksOwnership`: see the assumption above.
* `Daemon.StatusProbeCanDefeatStart`: a status probe can make a starting daemon give up; a daemon is refused
  the lifetime lock exactly while one is under way (`RefusedIffStatusProbes`).
* `RangeCoding.SkippedEndLineIsCounted`: a line can count as covered and have no state; the two sets of
  measured lines are equal exactly when `SameMeasuredIff` says.
* `Attribution.UnknownEndColumnWins`: with an unknown end column the owner need not be innermost; it is unless
  another containing function differs from it in a known end column alone (`OwnerIsInnermost`, `InnermostIff`).
* `QueryParser.TrimmingUncoversAFilter`: trimming removes more characters than those that separate tokens and
  can make a filter of a text token; parsing is stable exactly when it does not at either end (`StableIff`).

## Model

| member | source | states |
|---|---|---|
| SubgraphSet.Subgraph.Set | mcp/types.go:54-60 | a node is inserted or updated, and its place in the order is that of its first insertion |
| SubgraphSet.Subgraph.Delete | mcp/types.go:74-77 | the node goes and its order slot stays |
| SubgraphSet.Subgraph.IDs | mcp/types.go:82-91 | lists the slots of present nodes, in order |
| SubgraphSet.Subgraph.Values | mcp/types.go:93-102 | lists the nodes of those slots |
| SubgraphSet.ListedMultiplicity | mcp/types.go:54-91 | after any sequence of sets and deletes a present id is listed once for each time it was set while absent, an absent id never |
| SubgraphSet.SetKeepsTidy | mcp/types.go:54-60 | without deletes no slot repeats and none is stale |
| SubgraphSet.TidyListing | mcp/types.go:82-91 | without deletes the listing is the insertion order, each id once |
| Bfs.TraverseBFS | mcp/backend.go:408-519 | a node enters when a visited node within the depth bound has a link to it, and before each visit fewer nodes than the limit had entered, so the loop stops at the limit and no earlier; nodes and edges stand in the order in which the visited nodes offer them; visited nodes have their shortest distances; the edges join each but the start to a node one hop nearer; with fewer nodes than the limit the nodes are exactly those within the bound; a missing start gives an empty subgraph |
| Bfs.LinkIs | mcp/backend.go:521-538 | a link over the stored rows: an edge of a kind asked for, leaving or entering as the direction says, to a node of a kind asked for |
| Bfs.OffersInOrder | mcp/backend.go:467-477 | containment is offered before calls and calls before the rest; rows of one priority keep their order, outgoing ones first |
| Bfs.DefaultOptions | mcp/backend.go:418-429 | missing options mean an unbounded depth and a thousand nodes |
| Bfs.VisitFront | mcp/backend.go:453-516 | one turn keeps the loop's state consistent and queues the unvisited admitted neighbours in priority order |
| Bfs.Enqueue | mcp/backend.go:479-515 | neighbours enter the subgraph when they are queued, through one batch lookup |
| Bfs.SortedAdjacency | mcp/backend.go:462-477 | the adjacent edges stably sorted by priority, with the same members |
| Bfs.StableSortEdges | mcp/backend.go:540-550 | the in-place sort gives the stable ordering by priority |
| Bfs.NearerIsVisited | mcp/backend.go:446-516 | everything nearer than the front of the queue has been visited |
| Bfs.FrontAtDistance | mcp/backend.go:446-454 | a node that leaves the queue for the first time leaves it at its shortest distance |
| Bfs.SkipKeepsInv | mcp/backend.go:450-452 | dropping an entry of a visited node forgets nothing |
| Bfs.VisitKeepsInv | mcp/backend.go:453-516 | a visit keeps the queue in layers and forgets no linked node, for any order of the adjacent edges |
| Bfs.TreeGrows | mcp/backend.go:455-457 | each visit but the first adds one edge, from a node one hop nearer |
| Bfs.EmptyQueueIsComplete | mcp/backend.go:446-518 | when the queue is empty the visited nodes are all nodes within the depth bound |
| Bfs.LargeDepthReachesAll | mcp/backend.go:418-421 | a depth bound of at least the number of nodes, and so the unbounded depth, reaches whatever is reachable |
| BoundedGraph.Neighbourhood | browserapi/graph.go:50-128 | the answer keeps both budgets, its nodes are the root and the ends of its edges, it lies within the depth, and without truncation it is exact for the fetched rows; with truncation some fetched row was refused for want of budget; it is reached by levels in which each frontier is the sorted list of nodes just found |
| BoundedGraph.RowsAre | browserapi/graph.go:57-74 | a node's rows are those of every store that it has for the direction asked for: leaving rows unless only entering ones are, entering rows unless only leaving ones are |
| BoundedGraph.StoreRowsAre | browserapi/graph.go:57-74 | leaving rows come first, and a limit keeps the first of each query |
| BoundedGraph.ConsiderIs | browserapi/graph.go:75-124 | a row is taken exactly when it is new, there is room for an edge, both ends are stored and there is room for them; the flag rises exactly when only room is wanting |
| BoundedGraph.NodesAreFirst | browserapi/graph.go:92-111 | every returned node is as the first store that has it |
| BoundedGraph.CompleteMeans | browserapi/graph.go:50-128 | what completeness means over the stored rows: the nodes within the depth in hops, and every row that leads on from a node one hop nearer |
| BoundedGraph.UntruncatedHasEveryRow | browserapi/graph.go:50-128 | for clean rows an untruncated answer has an edge if and only if some store has it, for the direction asked for, at a node within one hop less than the depth |
| BoundedGraph.Level | browserapi/graph.go:54-128 | one level expands the whole frontier and finds the next |
| BoundedGraph.Search.ConsiderRow | browserapi/graph.go:75-124 | one row is skipped, refused or taken by the branches of the source, and exactly the new nodes are queued |
| BoundedGraph.Search.Candidates | browserapi/graph.go:92-111 | the ends of a row that are new and found, or none when one is in no store |
| BoundedGraph.Search.Expand | browserapi/graph.go:56-126 | all rows of all stores at one node are considered, each query cut after `maxEdges + 1` rows |
| BoundedGraph.ConsiderKeepsConsistent | browserapi/graph.go:75-124 | each row keeps the budgets and the ends of edges among the nodes |
| BoundedGraph.ConsiderKeepsFlag | browserapi/graph.go:85-119 | each row keeps the flag true to what was refused |
| BoundedGraph.UniqueStrings | browserapi/graph.go:150-161 | within its own array, duplicates go and the rest is sorted |
| StringOrder.SortedListIsDetermined | browserapi/graph.go:150-161 | the next frontier depends only on the set of new nodes, not on the order of map iteration |
| StringOrder.LeqIs | browserapi/graph.go:150-161 | strings are ordered by their first difference, a proper beginning first |
| BoundedGraph.UntruncatedIsComplete | browserapi/graph.go:50-128 | when stored rows are distinct and resolvable, an untruncated answer is the whole neighbourhood although every query was cut |
| BoundedGraph.CompleteIffNothingLost | browserapi/graph.go:50-128 | without that condition and in every direction: an untruncated answer is complete exactly when every resolvable row within reach is fetched at some expanded node |
| BoundedGraph.CompleteIffItFits | browserapi/graph.go:85-119 | any answer, truncated or not, is complete exactly when no row is lost and the whole neighbourhood fits into both budgets |
| BoundedGraph.CoveredIsComplete | browserapi/graph.go:57-74 | an untruncated answer is complete when the cut queries lose no resolvable row at any node |
| BoundedGraph.OneWayCompleteIffCovered | browserapi/graph.go:57-74 | in one direction exactly then, because a row is fetched at one end only |
| BoundedGraph.RepeatedRowsHideAnEdge | browserapi/graph.go:85-91 | a store with repeated rows on which every run ends untruncated and without an edge |
| Impact.GetImpactRadius | query/query.go:655-674 | the map-based walk reports the nodes and edges of the specification |
| Impact.ChildEdgesMembers | query/query.go:692-729 | members are followed along exactly the stored `contains` edges that leave a node of the seven container kinds |
| Impact.DependentEdgesMembers | query/query.go:731-741 | dependents are followed along exactly the stored edges to the node that are not `contains` |
| Impact.RadiusEdges | query/query.go:692-776 | every reported node but the start has one edge, and a second only as a member that had been reported as a dependent; at each node members come before dependents and both in row order |
| Impact.Collected.ImpactRecursive | query/query.go:680-776 | so does its recursion, from any state |
| Impact.GetImpactSubgraph | mcp/backend.go:178-194 | the insertion-ordered walk reports the same nodes and edges, in the order of first report |
| Impact.ImpactRecursive | mcp/backend.go:196-269 | so does its recursion, from any state |
| Impact.RadiusIsSound | query/query.go:655-776 | every reported node is reachable in the stored graph by at most `maxDepth` dependency steps with free containment steps, and every reported edge joins two reported nodes |
| Impact.VisitExpands | query/query.go:680-776 | a node that is expanded has its members expanded and its dependents reported, on any cyclic graph |
| Impact.DirectImpactIsReported | query/query.go:692-776 | whatever the bound, the direct dependents of the symbol and its members are reported |
| Impact.UncutIsComplete | query/query.go:688-694 | if every reported node was expanded the full closure is reported |
| Impact.FullIffNothingBeyond | query/query.go:680-776 | on one store and for any bound, the report is the full closure exactly when nothing unreported lies beyond the nodes that were reported and not expanded |
| Impact.LargeBoundIsExact | query/query.go:655-776 | with a bound of at least the number of nodes the report is exactly the full closure |
| Impact.ExactBoundsAreUpToOne | query/query.go:755-776 | the report is exact on every store if and only if the bound is at most one |
| InheritedMember.ResolveCppMemberOnType | resolve/resolve.go:3865-3921 | a member is found if and only if the type or something it inherits from declares one; it is the first row that declares it in the type to which the first way leads, bases being tried in the order of classes and their edges; the type's own member is preferred |
| InheritedMember.CppFindMember | resolve/resolve.go:3875-3921 | one call returns an inherited member or settles everything above the type, with a shared set of names and on any `extends` graph |
| InheritedMember.DirectMember | resolve/resolve.go:3881-3892 | a direct member is found exactly when one is declared, and is the first in table order |
| InheritedMember.BaseIs | resolve/resolve.go:3895-3919 | a base over the stored rows: the name of the node to which an `extends` edge leads from a C++ class or struct of the name |
| InheritedMember.MemberIs | resolve/resolve.go:3923-3934 | a member over its stored row: a C++ node of the name whose qualified name ends in the type and the member |
| InheritedMember.NothingInherited | resolve/resolve.go:3875-3921 | settled names that are closed under bases inherit nothing |
| InheritedMember.ParentOfMember | resolve/resolve.go:3923-3934 | the parent of a qualified member is its class, at the top level and in any scope; a plain name has none |
| EditDistance.BoundedEditDistance | query/parser.go:145-191 | the answer is at most `maxDist` exactly when the distance is, and is then the distance; otherwise it is the distance or `maxDist + 1`, by whether a row was cut off |
| EditDistance.FillRow | query/parser.go:166-184 | the inner loop fills one row of the distance matrix and returns its minimum |
| EditDistance.DistanceIsLeastScript | query/parser.go:147-191 | the recurrence gives the length of the shortest script of insertions, deletions and replacements |
| EditDistance.ShortestScript | query/parser.go:166-184 | a script of that length exists |
| EditDistance.NoShorterScript | query/parser.go:166-184 | no script is shorter |
| EditDistance.RowsStayAbove | query/parser.go:185-187 | once a row lies above a bound, so does the distance |
| EditDistance.CutOffIsSound | query/parser.go:151-187 | leaving early happens only above the bound |
| EditDistance.LengthGap | query/parser.go:151-153 | the distance is at least the difference of lengths |
| EditDistance.AnswerCanExceedBoundPlusOne | query/parser.go:145-191 | an input whose answer is larger than the documented `maxDist + 1` |
| RandomWalk.ComputeGraphRelevance | mcp/explore.go:121-191 | every id gets the score of its position after 25 rounds |
| RandomWalk.ScoreEquation | mcp/explore.go:164-187 | the score of one position after one more round: three quarters of what its neighbours give it, each dividing its score evenly over its list, or of its own score when it has none, and a quarter of its restart mass |
| RandomWalk.NeighbourCount | mcp/explore.go:132-144 | a neighbour stands in a list once for every ranked edge that joins the two |
| RandomWalk.ListLength | mcp/explore.go:132-144 | a list is as long as there are ranked edges at its position |
| RandomWalk.RestartIs | mcp/explore.go:146-162 | the restart mass is divided evenly over the listed seeds, or over all positions when none is listed |
| RandomWalk.ProgramRounds | mcp/explore.go:164-191 | after the rounds of the program the distance to a fixed point is below 0.00076 of the first, and exactly the nodes within 25 hops have a score |
| RandomWalk.Round | mcp/explore.go:166-186 | one round in place is one step of the walk |
| RandomWalk.BuildAdjacency | mcp/explore.go:127-144 | the adjacency lists of the ranked edges between different listed ids |
| RandomWalk.BuildRestart | mcp/explore.go:146-162 | the restart vector over the present seeds, or over all nodes when none is present |
| RandomWalk.NeighboursAreRankedEdges | mcp/explore.go:132-144 | two positions are adjacent exactly when a ranked edge joins them, in either direction |
| RandomWalk.RestartIsDistribution | mcp/explore.go:146-162 | the restart vector is a distribution, positive exactly at the restart nodes |
| RandomWalk.ScoresAreDistribution | mcp/explore.go:164-191 | in every round the scores are non-negative and sum to one |
| RandomWalk.ScoredIffNear | mcp/explore.go:164-191 | after any number of rounds exactly the nodes within as many ranked edges of a restart node have a score |
| RandomWalk.IterateContracts | mcp/explore.go:166-186 | one round shrinks the distance between any two score vectors to three quarters |
| RandomWalk.ScoresApproachFixedPoint | mcp/explore.go:164-191 | after k rounds the distance to a fixed point is at most 0.75 to the k times the first |
| RandomWalk.FixedPointIsUnique | mcp/explore.go:166-186 | there is at most one fixed point |
| StableSort.InsertionSort | mcp/backend.go:542-550 | the in-place insertion sort equals the stable ordering |
| StableSort.SiftDown | mcp/backend.go:546-548 | the inner loop inserts one element behind those that do not rank above it |
| StableSort.StableSortedLaws | mcp/backend.go:540-550 | the ordering is sorted, a permutation, and keeps the input order among equals |
| StableSort.StableOrder | mcp/backend.go:540-550 | at any two positions ranks do not fall, and elements of one rank stand in their old order |
| StableSort.SortedIsDetermined | mcp/backend.go:540-550 | those three determine it |
| StableSort.SortOfAppend | mcp/multibackend.go:365-379 | sorting a concatenation is merging the sorted parts |
| StableSort.TakeOfMerge | mcp/multibackend.go:379-382 | the best n of a merge need only the best n of each part |
| SearchMerge.MergeSearchResults | mcp/multibackend.go:368-383 | first occurrences, stably sorted by falling score, cut at the limit |
| SearchMerge.FanOut | mcp/multibackend.go:99-109 | the lists of all scopes, each cut by the limit or by its default, are merged so |
| SearchMerge.DedupedLaws | mcp/multibackend.go:369-378 | every id is left exactly once |
| SearchMerge.DedupedAre | mcp/multibackend.go:369-378 | what is left are the first occurrences |
| SearchMerge.MergedList | mcp/multibackend.go:368-383 | scores never rise along the merged list, equal ones keep their order, and each result is the first of its id |
| SearchMerge.NothingBetterIsLeftOut | mcp/multibackend.go:379-383 | a result that is missing scores no higher than any merged one, and the limit was reached |
| SearchMerge.PerScopeCutLosesNothing | mcp/multibackend.go:99-109 | with ids unique across sorted scopes, merging the best of each scope gives the best of all, ties included, exactly when the limit is positive or no scope has more than its default |
| IncrementalIndex.Store.SyncChangedFiles | indexer/sync.go:480-498 | saving, re-extracting and restoring in place change the tables as the specification says |
| IncrementalIndex.Store.StoreExtractionResult | indexer/store.go:22-114 | one file's nodes and edges are replaced, unless its hash is the recorded one |
| IncrementalIndex.Store.CaptureIncomingEdges | indexer/sync.go:530-562 | saves the edges from unchanged into changed files, with their targets |
| IncrementalIndex.Store.RestoreIncomingEdges | indexer/sync.go:564-616 | each saved edge that is no longer stored goes to the first node of the file that is the same symbol |
| IncrementalIndex.Store.InsertNodeRows | store/nodes.go:32-68 | insert or replace, where replacing a node deletes its edges |
| IncrementalIndex.Store.InsertEdgeRows | store/edges.go:37-62 | edges without both ends are skipped |
| IncrementalIndex.Store.DeleteFileRows | store/files.go:38-46 | deleting a file deletes its nodes and every edge at them |
| IncrementalIndex.RunJobsIs | indexer/init.go:355-410 | after all jobs the rows are those with no end in a replaced file, in order, and those extracted; other files' nodes stay |
| IncrementalIndex.SyncedIs | indexer/sync.go:480-616 | the rows afterwards are these and the carried-over ones, nothing else, and every row has both ends |
| IncrementalIndex.UnchangedRowsUntouched | indexer/sync.go:522-528 | rows between unchanged files are the same rows in the same order |
| IncrementalIndex.RowsFromUnchangedFiles | indexer/sync.go:512-616 | rows from unchanged files are the old ones in their order, except that those into replaced files are carried over or dropped; none is invented |
| IncrementalIndex.CarriedTogetherIff | indexer/sync.go:594-609 | two rows are carried to one exactly when they differ at most in their targets, these are the same symbol of one file, and it is still there |
| IncrementalIndex.NothingRepeatsIff | indexer/sync.go:564-616 | from a table without repeated rows, rows from unchanged files repeat exactly when two lost rows are so; all rows do exactly then or when the extracted ones repeat |
| IncrementalIndex.NothingRepeatsBetweenSymbols | indexer/sync.go:594-609 | none does when no file holds the same symbol twice |
| IncrementalIndex.CollidingRowsBecomeOne | indexer/sync.go:594-609 | a touched file with two like-named functions makes two references one, although both functions are still there |
| IncrementalIndex.CarryAllIs | indexer/sync.go:594-609 | a carried row keeps everything but its target, which is the same symbol in the same file; each edge whose symbol is still there has one |
| IncrementalIndex.IncomingRowsSurvive | indexer/sync.go:512-519 | an edge from an unchanged file survives whenever the target's symbol is still in the file |
| IncrementalRows.RestoredRowsLeadOn | indexer/sync.go:564-616 | with the fields written out: every row from an unchanged file into a replaced one is an old row that now leads to the first node, by start line, that agrees with its old target in file, kind, name, qualified name, signature, return type and type parameters |
| IncrementalRows.RestoredWhenDeclared | indexer/sync.go:564-616 | every such old row is restored when there is such a node |
| IncrementalRows.JoinedTellsApart | indexer/sync.go:594-609 | comparing joined type parameters compares the lists, when no name holds the separator and neither list is one empty name |
| IncrementalRows.ReplacedIs | indexer/init.go:355-410 | a file is replaced when it is too large or its content is not the recorded one |
| IncrementalRows.NodesAfter | indexer/store.go:22-114 | the nodes afterwards are those of files that were not replaced and those extracted from the others |
| IncrementalRows.AddedAre | store/edges.go:37-62 | the edges added are those extracted between complete nodes of one file |
| IncrementalRows.RecordsAfter | indexer/store.go:22-114 | the record of a file that was read is its hash, and that of another stays |
| IncrementalIndex.KeptIff | indexer/sync.go:512-616 | an old row whose source's file was not replaced is kept exactly when its target's symbol is still there, and the target's file was not replaced or the source's file did not change |
| IncrementalIndex.UnreplacedSourcesLoseRows | indexer/sync.go:551-556 | a changed file that is not replaced keeps no row into a replaced one |
| IncrementalIndex.UnreadFileLosesItsRows | indexer/sync.go:551-556 | an update after which a reference is gone and both its ends are there |
| Freshness.StepKeepsInv | indexer/sync.go:678-736 | every step of one writer, with crashes between any two, keeps every stamp certified |
| Freshness.GateIsCertified | indexer/sync.go:817-831 | with one writer, a stamp that passes the gate names a completed refresh since which the graph was not written |
| Freshness.GateShutWhileMutating | indexer/sync.go:182-204 | while the graph is written no stamp passes |
| Freshness.PartialStampIsRejected | indexer/sync.go:826-831 | a stamp written to the first stores only passes exactly when the others already carried it; over cleared stores it does not pass before it is complete |
| Freshness.CertifiedMeans | indexer/sync.go:642-656 | certified means: completed at that revision, with no write later in the history |
| Freshness.SafeIffOneWriter | indexer/sync.go:725-736 | the gate can be trusted in all runs if and only if there is at most one writer |
| Freshness.TwoWritersBreakTheGate | indexer/sync.go:725-736 | a run of two writers that ends with a trusted stamp on a graph being written |
| Freshness.Stores.MarkGitHead | indexer/sync.go:959-968 | stores are stamped in order, and a failure leaves a prefix stamped |
| Freshness.Stores.IndexedHead | indexer/sync.go:817-831 | the loop computes the gate |
| Freshness.Stores.MarkGitHeadIfCurrent | indexer/sync.go:970-976 | nothing is written unless HEAD is what was observed |
| ChangeDetection.GetChangedFilesByScan | indexer/sync.go:751-815 | the scan reports added, modified and removed files in three sorted lists without common members |
| ChangeDetection.GitChangedFilesSinceIndex | indexer/sync.go:833-926 | so does the shortcut, from the diff, the status and the vanished records |
| ChangeDetection.ScanIsTheDifference | indexer/sync.go:751-815 | the scan reports exactly the difference between the records and the admitted files on disk, each path for what it is |
| ChangeDetection.ShortcutReports | indexer/sync.go:869-924 | the shortcut reports exactly the listed paths by what the root has on disk, and a recorded path that is gone also when Git does not track it |
| ChangeDetection.ChangedFilesSet.Result | indexer/sync.go:998-1023 | what is both added and removed becomes modified; the lists are sorted and, from disjoint sets, disjoint |
| ChangeDetection.MissedExactly | indexer/sync.go:751-926 | at any root the shortcut misses exactly the hidden, the stale and the lost files |
| ChangeDetection.MissedAtTheTop | indexer/sync.go:833-926 | at the top of the work tree no file is lost, and a stale one is a tracked file in its stamped state whose record is another |
| ChangeDetection.CleanStampIsComplete | indexer/sync.go:817-926 | at the top of the work tree, after a clean stamp and under unchanged rules, the shortcut reports what the scan does, in the same list |
| ChangeDetection.CompleteForeverIffCleanStamp | indexer/sync.go:945-949 | a stamp certifies all later states of the repository if and only if the tracked files equalled their records when it was written and the root is the top of its work tree |
| ChangeDetection.DirtyThenRestoredIsMissed | indexer/sync.go:839-846 | a file that was dirty at the stamp and was then restored |
| ChangeDetection.UntrackedIgnoredIsMissed | indexer/sync.go:869-905 | an ignored file that leaves the repository and stays on disk |
| ChangeDetection.ChangeBelowTheTopIsMissed | indexer/sync.go:1108-1160 | an edit that Git lists from the top and the shortcut looks up from the root |
| ChangeDetection.InspectedIsReal | indexer/sync.go:869-924 | what the shortcut reports differs from the records |
| PidLock.StepKeepsInv | lock/lock.go:94-197 | every timely step of any process, crash, restart or clock tick keeps the invariant |
| PidLock.AtMostOneHolder | lock/lock.go:94-197 | in every interleaving at most one live process is between create and release with a lock file younger than the timeout |
| PidLock.LateReleaseIsHarmless | lock/lock.go:177-197 | a release that begins while another process has a fresh lock ends at its PID check |
| PidLock.EmptyYoungFileSurvives | lock/lock.go:145-158 | the empty file between create and write is not reclaimed while young |
| PidLock.AbandonedLockIsReclaimed | lock/lock.go:157-173 | a lock of a dead owner, or an old one, can be taken over at once |
| PidLock.BareUnlinkSafeIff | lock/lock.go:113-121 | unlinking whatever is on the path is safe exactly when nobody else has a fresh lock |
| PidLock.LateCleanupBreaksExclusion | lock/lock.go:111-121 | a run in which the clean-up after a failed write removes another's lock |
| PidLock.LateUnlinkBreaksExclusion | lock/lock.go:187-197 | a run in which a release that stalled behind its PID check removes another's lock |
| PidLock.BothJudgesEnter | lock/lock.go:157-173 | two processes that judged the same file stale both get in |
| PidLock.SplitCheckBreaksExclusion | lock/lock.go:157-173 | such a run from the beginning |
| PidLock.FileLock.Acquire | lock/lock.go:94-124 | uninterrupted, it succeeds exactly when the path is free or stale, and writes its PID |
| PidLock.FileLock.HandleExistingLock | lock/lock.go:129-175 | removes the file exactly when it is stale |
| PidLock.FileLock.Release | lock/lock.go:180-197 | unlinks only a file that carries its own PID |
| Daemon.StepKeepsInv | daemon/manager.go:138-245 | every step of every manager and daemon keeps the invariant, the deaths of managers included that leave no pending child |
| Daemon.DeathIsHarmlessIff | daemon/manager.go:211-240 | the death of a manager keeps the invariant exactly when it leaves no child behind that lives and has not passed its ownership check |
| Daemon.OwnerHasTheRecord | daemon/service.go:52-67 | a daemon past its ownership check has the nonce on disk, and at most one is past the lifetime lock |
| Daemon.PersistStaysInGeneration | daemon/service.go:375-380 | no daemon write replaces a record of another generation |
| Daemon.GenerationsOnlyAdvance | daemon/manager.go:183-209 | the generation on disk never goes back, and moves on only while no daemon lives |
| Daemon.StopSuccessMeansNobodyLives | daemon/manager.go:418-441 | when a stop is confirmed no daemon lives |
| Daemon.StopConfirmedOnlyAfterFreeProbe | daemon/manager.go:427-434 | it is confirmed only by a probe that found the lock free |
| Daemon.NoDaemonWhileLockFree | daemon/manager.go:477-483 | under the start lock and outside a launch, a free lifetime lock means that no daemon lives |
| Daemon.ManagerDyingInSpawnWindowBreaksOwnership | daemon/manager.go:211-240 | without the assumption on managers an old daemon can run under a later generation's record |
| Daemon.RefusedIffStatusProbes | daemon/service.go:52-59 | in every reachable state a launched daemon is refused the lifetime lock exactly while some status command is probing; no older daemon and no start or stop is in its way |
| Daemon.StatusProbeCanDefeatStart | daemon/manager.go:477-483 | a run from the beginning in which a status probe makes the only start fail, although nothing died and nobody stopped it |
| DaemonService.Serve | daemon/service.go:38-211 | a run writes nothing without ownership; otherwise the record is its last successful write, success leaves it stopped, and it is failed or stopped unless a write failed |
| DaemonService.ServiceRuntime.RefreshOwnerState | daemon/service.go:314-337 | only a ready or degraded daemon changes between the two |
| DaemonService.ServiceRuntime.PersistLocked | daemon/service.go:375-380 | refuses to write under another nonce, and a write may fail |
| DaemonService.StateFile.WriteIfNonce | daemon/manager.go:501-510 | a manager's failure record is written only over its own generation |
| DaemonService.WritesAreSteps | daemon/service.go:302-380 | the changes of a run, written or lost, are enabled steps of the protocol and leave its last successful write |
| Coverage.MergeBlocks | coverage/profile.go:121-133 | merging in place succeeds exactly on equal layouts and hits what either run hit; a failure leaves the layout as it was |
| Coverage.DeriveLineSets | coverage/profile.go:135-149 | covered lines are those of hit blocks, uncovered the other measured ones |
| Coverage.ReadLineSets | coverage/profile.go:52-72 | reading keeps the positive lines of the same sets |
| Coverage.ParsedAgreesIff | coverage/profile.go:57-60 | the two agree exactly when no block touches a line below 1 |
| Coverage.MergeUnitesLines | coverage/profile.go:80-81 | covered lines of a merge are those of either run, uncovered ones the other measured lines |
| CoverageIngest.MergeProfiles | coverage/profile.go:82-119 | profiles are accepted exactly when they are of one mode and one layout for each file, and give each file's combined cover |
| CoverageIngest.IngestMany | coverage/ingest.go:44-211 | an ingest is refused or writes exactly the specified rows, with canonical ranges |
| CoverageRows.StoredIff | coverage/ingest.go:44-131 | an ingest is stored exactly when its profiles agree in mode and in the layout of each file and, merging, every stored row has the same hash, mode, reference, layout and some block |
| CoverageRows.RowsAfter | coverage/ingest.go:105-211 | the row of a file that is indexed and named: its hash, mode and reference, the layout of its profiles, a hit where one of them or a merged row has one, and the lines of these blocks |
| CoverageRows.OtherRowsAfter | coverage/ingest.go:105-211 | all other rows stay |
| CoverageIngest.IngestFile | coverage/ingest.go:105-131 | merging onto a stored row needs equal hash, mode, ref and layout and at least one block |
| CoverageIngest.MergedLines | coverage/profile.go:80-119 | the covered lines of several runs are the union, the uncovered ones measured minus covered |
| CoverageIngest.OrderDoesNotMatter | coverage/profile.go:82-119 | the profiles of one ingest may come in any order |
| CoverageIngest.IngestedOnce | coverage/ingest.go:44-211 | the outcome of an ingest is determined by what it is given |
| CoverageIngest.SplitEqualsJoint | coverage/ingest.go:105-131 | for profiles that fit together, merging two batches one after the other gives what they give together, and fails exactly when that does or a shared file has no blocks |
| CoverageIngest.SplitStoredIff | coverage/ingest.go:105-131 | whether or not the batches fit together: both ingests succeed exactly when each batch does, shared files agree in mode and layout and have blocks, and the others fit what was stored |
| CoverageIngest.ReplaceThenMerge | coverage/ingest.go:105-131 | replacing with the first and merging the second is replacing with both, exactly when they fit together, shared files have blocks, and old rows of the second's own files have nothing to add |
| RangeCoding.DeriveLineStates | coverage/rle.go:7-36 | the loops compute hit, miss and partial lines, without skipped end lines |
| RangeCoding.StatesAre | coverage/rle.go:7-36 | a line has a state exactly when some block touches it, hit or missed by the blocks that do and partial when both do |
| RangeCoding.SameMeasuredIff | coverage/rle.go:11-15 | lines with a state are the measured lines exactly when every skipped end line is touched by another block |
| RangeCoding.StatesRefineLineSets | coverage/rle.go:24-35 | without skipped end lines, covered are the hit and partial lines and uncovered the missed ones |
| RangeCoding.SkippedEndLineIsCounted | coverage/rle.go:11-15 | a block of three counted lines of which two have a state |
| RangeCoding.RangesFromStates | coverage/rle.go:38-54 | the ranges are sorted, disjoint and maximal and expand to exactly the states |
| RangeCoding.CanonicalIsUnique | coverage/rle.go:38-54 | there is only one such list |
| RangeCoding.EncodeRanges | coverage/rle.go:62-86 | the canonical ranges of the two sets, covered lines winning |
| RangeCoding.DecodeRanges | coverage/rle.go:91-104 | the lines of hit and of missed ranges |
| RangeCoding.DecodeOfEncode | coverage/rle.go:88-104 | decoding an encoding gives both sets back exactly when they are disjoint |
| RangeCoding.RoundTrip | coverage/rle.go:56-104 | the two procedures together |
| Attribution.AttributeBlocks | coverage/attribute.go:74-103 | each owner has one counter of its blocks' statements, and the counters and the unattributed blocks add up to the totals |
| Attribution.AttributeLines | coverage/attribute.go:30-70 | each owner has one counter of its lines, and these and the unattributed lines add up |
| Attribution.StatementTotals | coverage/ingest.go:213-222 | the statements of hit and of missed blocks |
| Attribution.StatementsAreConserved | coverage/attribute.go:72-103 | every block counts once, for any list of ids that has all owners |
| Attribution.LinesAreConserved | coverage/attribute.go:21-28 | every line counts once |
| Attribution.InnermostPosition | coverage/attribute.go:105-123 | the loop finds the best containing function |
| Attribution.Innermost | coverage/attribute.go:141-155 | the same for lines |
| Attribution.OwnerAtIsLeast | coverage/attribute.go:105-139 | the owner is the least containing function, in whatever order the nodes are listed |
| Attribution.OwnerOnIsLeast | coverage/attribute.go:141-167 | the same for lines |
| Attribution.OwnerHasTheStart | coverage/attribute.go:105-123 | a block's owner is a function or method whose span has the block's start, and there is one unless none has |
| Attribution.OwnerHasTheLine | coverage/attribute.go:141-155 | a line's owner is one whose lines have it, and there is one unless none has |
| Attribution.NarrowerIsStrict | coverage/attribute.go:125-139 | the comparison is a strict total order on nodes with different ids |
| Attribution.OwnerIsInnermost | coverage/attribute.go:105-139 | for nested spans, unknown ends read as ends of lines, the owner lies inside another containing function exactly when that one does not differ from it in a known end column alone |
| Attribution.InnermostIff | coverage/attribute.go:105-139 | so a position's owner is innermost exactly when no such twin of a function that comes first is there |
| Attribution.LineOwnerIsInnermost | coverage/attribute.go:141-167 | the same for line spans |
| Attribution.UnknownEndColumnWins | coverage/attribute.go:114-116 | a function of unknown end that wins over one that ends earlier |
| QueryParser.Tokenise | query/parser.go:106-133 | the index loops compute the tokens |
| QueryParser.ParseQuery | query/parser.go:62-104 | the loop over tokens computes text and filters |
| QueryMeaning.TokensAre | query/parser.go:106-133 | a token ends at the first separator behind it or with the query |
| QueryMeaning.Pieces | query/parser.go:106-133 | tokens are made of ordinary characters and quoted pieces, of which the last may be open |
| QueryMeaning.PairMeans | query/parser.go:66-101 | a pair is split at its first colon and means what its lower-cased key says of its value, without one pair of quotes |
| QueryMeaning.NoPair | query/parser.go:66-101 | a token without a colon, or with its first one at an end, is text |
| QueryMeaning.ParsedIs | query/parser.go:103-104 | the free text is the text tokens with single blanks between them, trimmed |
| QueryMeaning.FiltersAre | query/parser.go:66-101 | the filters are what the other tokens mean |
| QueryMeaning.TrimIs | query/parser.go:103-104 | trimming takes white space off both ends and nothing else |
| QueryParser.RetokeniseIsStable | query/parser.go:106-133 | splitting the joined tokens again gives the same tokens, an unclosed last quote included |
| QueryParser.FreeTextTokens | query/parser.go:103-104 | trimming the joined text drops its blank tokens at both ends and trims the outermost others; these are the tokens of the free text |
| QueryParser.StableIff | query/parser.go:62-104 | parsing the free text again finds no filter and keeps the text exactly when the first and the last of these tokens are still text, for every query and vocabulary |
| QueryParser.ParseIsStable | query/parser.go:62-104 | they are for queries whose only white space separates tokens |
| QueryParser.TokensAreSorted | query/parser.go:66-101 | every token is text or exactly one filter |
| QueryParser.TrimmingUncoversAFilter | query/parser.go:103-104 | any other trimmed character can uncover a filter |

## Left out

- PidLock.AtMostOneHolder: is for runs whose unlinks find what their checks saw, because the source does not make a check and its unlink one operation.
- Impact.LargeBoundIsExact: the number of nodes is enough for every store and more than many need.
- QueryParser.ParseQuery: filters are kept in one list in token order, from which the four lists of the source follow; the recognised kinds and languages and the lower-casing of the library are parameters.
- SearchMerge.FanOut: negative limits to the full-text search, whose query layer defaults only a limit of zero.
- RandomWalk.ComputeGraphRelevance: exact reals stand for floating-point numbers.
- The order in which the adjacency queries of the browser API list their rows: any order, the cut keeps the first.
- Rendering: public symbols, JSON, Markdown, HTTP status codes, authentication and revision checks around the browser API.
- Search itself: SQL, full-text ranking, scoring constants and name boosts.
- Source extractors and reference resolution: extraction results are arbitrary, and resolving after an incremental update is not modelled.
- Several stores in one incremental update: each store's rows are saved and restored by themselves.
- The trace and semantic projections, which are derived from the graph and written without touching the stamp.
- A project root that its parent repository ignores, where the scan walks the directory instead of asking Git.
- Embedded Git repositories, submodules, symbolic links to directories and files that cannot be read: the source falls back to the scan or reports them.
- The parsing of coverage profiles, the mapping of their names to repository paths, and the check of sources against the checkout.
- Percentages and time stamps of coverage rows.
- Launching processes, log rotation, control requests over HTTP and time-outs: in the protocol they are steps that may or may not happen.
- The per-language resolver branches other than inherited C++ members, which are name lookups of one pattern.
