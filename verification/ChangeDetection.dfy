/** Which files changed since the index was built (indexer/sync.go): a full scan that hashes every
    admitted file, and a shortcut that inspects only what Git's own lists name.

    Git is given by its trees: the revision at which the index was stamped, the current revision,
    the staging area and the working tree, each a map from paths to content hashes.  Their paths
    start at the top of the work tree, while records and the scan name paths from the project's
    root, which may lie below it. */
module ChangeDetection {
  import opened Collections
  import opened StringOrder

  type Path = string
  type Hash = string
  type Tree = map<Path, Hash>

  /** `prefix` leads from the top of the work tree to the root and is empty when they coincide.
      `ignored` follows the repository's ignore rules; `excluded` are the built-in ones, for paths
      from the root. */
  datatype Repo = Repo(
    prefix: string, oldHead: Tree, newHead: Tree, staged: Tree, working: Tree, ignored: set<Path>, excluded: set<Path>)
  {
    /** Where the root's path `p` lies in Git's trees. */
    function Top(p: Path): Path { prefix + p }

    predicate OnDisk(p: Path) { Top(p) in working }

    predicate Tracked(p: Path) { Top(p) in staged }

    function Content(p: Path): Hash
      requires OnDisk(p)
    {
      working[Top(p)]
    }
  }

  function At(t: Tree, p: Path): Option<Hash> { if p in t then Some(t[p]) else None }

  // ---------------------------------------------------------------- Git's lists

  datatype GitChanges = GitChanges(added: set<Path>, modified: set<Path>, deleted: set<Path>) {
    function All(): set<Path> { added + modified + deleted }
  }

  /** The differences between two revisions. */
  function Diff(from: Tree, to: Tree): GitChanges {
    GitChanges(to.Keys - from.Keys, (set p | p in to && p in from && from[p] != to[p]), from.Keys - to.Keys)
  }

  predicate Untracked(r: Repo, p: Path) { p in r.working && p !in r.staged && p !in r.ignored }

  /** Deleted from the staging area or from the working tree. */
  predicate Deleted(r: Repo, p: Path) { (p in r.newHead && p !in r.staged) || (p in r.staged && p !in r.working) }

  predicate Edited(r: Repo, p: Path) {
    p in r.staged && p in r.working && (At(r.newHead, p) != Some(r.staged[p]) || r.staged[p] != r.working[p])
  }

  function Status(r: Repo): GitChanges {
    GitChanges(
      (set p | p in r.working && Untracked(r, p)),
      (set p | p in r.staged && Edited(r, p)),
      (set p | p in r.newHead.Keys + r.staged.Keys && Deleted(r, p)))
  }

  /** What Git lists, from the top of the work tree; the shortcut reads these as paths from the root. */
  function Candidates(r: Repo): set<Path> { Diff(r.oldHead, r.newHead).All() + Status(r).All() }

  lemma CandidateMeans(r: Repo, p: Path)
    ensures p in Candidates(r) <==>
            || At(r.oldHead, p) != At(r.newHead, p) || At(r.newHead, p) != At(r.staged, p)
            || (p in r.staged && At(r.staged, p) != At(r.working, p)) || Untracked(r, p)
  {
  }

  // ---------------------------------------------------------------- the two detectors

  datatype Changes = Changes(added: set<Path>, modified: set<Path>, removed: set<Path>) {
    function All(): set<Path> { added + modified + removed }
  }

  /** On disk, known to Git or not ignored, and not excluded by the built-in rules. */
  predicate Visible(r: Repo, p: Path) { r.OnDisk(p) && (r.Tracked(p) || r.Top(p) !in r.ignored) && p !in r.excluded }

  /** What lies below the root, named from it. */
  function Below(r: Repo): set<Path> {
    set q | q in r.working && r.prefix <= q :: q[|r.prefix|..]
  }

  function CurrentFiles(r: Repo): set<Path> { set p | p in Below(r) && Visible(r, p) }

  lemma CurrentMeans(r: Repo, p: Path)
    ensures p in CurrentFiles(r) <==> Visible(r, p)
  {
    assert r.Top(p)[|r.prefix|..] == p;
  }

  /** A file whose content is not the recorded one. */
  predicate Differs(r: Repo, records: Tree, p: Path) { r.OnDisk(p) && p in records && records[p] != r.Content(p) }

  function Scanned(r: Repo, records: Tree): Changes {
    Changes(
      CurrentFiles(r) - records.Keys,
      (set p | p in CurrentFiles(r) && Differs(r, records, p)),
      records.Keys - CurrentFiles(r))
  }

  /** Candidates by what they are on disk, and recorded files that Git does not track and are gone. */
  function Inspected(r: Repo, records: Tree): Changes {
    Changes(
      (set p | p in Candidates(r) && r.OnDisk(p) && p !in records),
      (set p | p in Candidates(r) && Differs(r, records, p)),
      (set p | p in records && !r.OnDisk(p) && (p in Candidates(r) || !r.Tracked(p))))
  }

  // ---------------------------------------------------------------- what the two lists say

  /** A file of the root that the scan admits: on disk, known to Git or not ignored, not excluded. */
  ghost predicate AdmittedFile(r: Repo, p: Path) {
    && r.prefix + p in r.working && p !in r.excluded
    && (r.prefix + p in r.staged || r.prefix + p !in r.ignored)
  }

  /** The scan is the difference between the records and the admitted files: with it the records become
      these files, and every path in it has changed in the way it says. */
  lemma ScanIsTheDifference(r: Repo, records: Tree, p: Path)
    ensures var c := Scanned(r, records);
            && (AdmittedFile(r, p) <==> p in (records.Keys - c.removed) + c.added)
            && (AdmittedFile(r, p) && p !in c.added + c.modified ==> p in records && records[p] == r.working[r.prefix + p])
            && (p in c.added ==> p !in records)
            && (p in c.modified ==> AdmittedFile(r, p) && p in records && records[p] != r.working[r.prefix + p])
            && (p in c.removed ==> p in records && !AdmittedFile(r, p))
  {
    hide CurrentFiles;
    CurrentMeans(r, p);
  }

  /** Git's lists name a path, from the top of the work tree: the two revisions differ there, or the
      newer one and the staging area, or a tracked file on disk, or it is a new file not ignored. */
  ghost predicate ListedByGit(r: Repo, p: Path) {
    || (p in r.oldHead <==> p !in r.newHead) || (p in r.oldHead && p in r.newHead && r.oldHead[p] != r.newHead[p])
    || (p in r.newHead <==> p !in r.staged) || (p in r.newHead && p in r.staged && r.newHead[p] != r.staged[p])
    || (p in r.staged && (p !in r.working || r.staged[p] != r.working[p]))
    || (p in r.working && p !in r.staged && p !in r.ignored)
  }

  /** The shortcut reports a listed path by what the root has on disk under that name, and a recorded
      path that is gone also when Git does not track it. */
  lemma ShortcutReports(r: Repo, records: Tree, p: Path)
    ensures var c := Inspected(r, records);
            var there := r.prefix + p in r.working;
            && (p in c.added <==> ListedByGit(r, p) && there && p !in records)
            && (p in c.modified <==> ListedByGit(r, p) && there && p in records && records[p] != r.working[r.prefix + p])
            && (p in c.removed <==> p in records && !there && (ListedByGit(r, p) || r.prefix + p !in r.staged))
  {
    hide Candidates;
    CandidateMeans(r, p);
  }

  // ---------------------------------------------------------------- when the shortcut is complete

  /** Recorded and stamped contents agree on every tracked file that is not excluded. */
  ghost predicate StampClean(oldHead: Tree, records: Tree, excluded: set<Path>) {
    forall p | p in oldHead && p !in excluded :: At(records, p) == Some(oldHead[p])
  }

  /** Git lists nothing under this name: it is the same in both revisions and the staging area, and
      on disk it is that or, when it is not tracked, absent or ignored. */
  predicate Unlisted(r: Repo, p: Path) {
    && At(r.oldHead, p) == At(r.newHead, p) == At(r.staged, p)
    && (p in r.staged ==> At(r.staged, p) == At(r.working, p)) && !Untracked(r, p)
  }

  /** A recorded file that is still on disk but no longer admitted, and whose content the shortcut
      would not find changed. */
  predicate Hidden(r: Repo, records: Tree, p: Path) {
    p in records && r.OnDisk(p) && !Visible(r, p) && (Unlisted(r, p) || records[p] == r.Content(p))
  }

  /** An admitted file without a name in Git's lists whose record is another or missing. */
  predicate Stale(r: Repo, records: Tree, p: Path) {
    Visible(r, p) && At(records, p) != Some(r.Content(p)) && Unlisted(r, p)
  }

  /** A recorded and tracked file that is gone, again without a name in Git's lists. */
  predicate Lost(r: Repo, records: Tree, p: Path) { p in records && !r.OnDisk(p) && r.Tracked(p) && Unlisted(r, p) }

  ghost predicate MissedFile(r: Repo, records: Tree, p: Path) { Hidden(r, records, p) || Stale(r, records, p) || Lost(r, records, p) }

  /** The shortcut misses exactly the hidden, the stale and the lost files. */
  lemma MissedExactly(r: Repo, records: Tree, p: Path)
    ensures p in Scanned(r, records).All() - Inspected(r, records).All() <==> MissedFile(r, records, p)
  {
    hide Candidates, CurrentFiles;
    CandidateMeans(r, p);
    CurrentMeans(r, p);
  }

  /** When the root is the top of its work tree, a stale file is a tracked one in the state of the
      stamped revision, and no file is lost. */
  lemma MissedAtTheTop(r: Repo, records: Tree, p: Path)
    requires r.prefix == ""
    ensures !Lost(r, records, p)
    ensures Stale(r, records, p) <==>
            && Visible(r, p) && At(records, p) != At(r.working, p)
            && At(r.oldHead, p) == At(r.newHead, p) == At(r.staged, p) == At(r.working, p)
  {
    assert r.Top(p) == p;
  }

  lemma NoDifference<T>(a: set<T>, b: set<T>)
    ensures a <= b <==> a - b == {}
  {
    if a - b == {} {
      forall x | x in a ensures x in b { assert x !in a - b; }
    }
  }

  ghost predicate Complete(r: Repo, records: Tree) { Scanned(r, records).All() <= Inspected(r, records).All() }

  lemma CompleteIffNothingMissed(r: Repo, records: Tree)
    ensures Complete(r, records) <==> forall p :: !MissedFile(r, records, p)
  {
    hide Scanned, Inspected, MissedFile;
    var gap := Scanned(r, records).All() - Inspected(r, records).All();
    NoDifference(Scanned(r, records).All(), Inspected(r, records).All());
    if p :| p in gap {
      MissedExactly(r, records, p);
    } else {
      forall p ensures !MissedFile(r, records, p) { MissedExactly(r, records, p); }
    }
  }

  /** No recorded file lies on disk unadmitted: the ignore rules still admit what they admitted. */
  ghost predicate RulesHold(r: Repo, records: Tree) { forall p | p in records && r.OnDisk(p) :: Visible(r, p) }

  /** After a clean stamp, while the rules hold and at the top of the work tree, the shortcut reports
      what the scan reports. */
  lemma CleanStampIsComplete(r: Repo, records: Tree)
    requires r.prefix == "" && StampClean(r.oldHead, records, r.excluded) && RulesHold(r, records)
    ensures Complete(r, records)
    ensures Scanned(r, records).added <= Inspected(r, records).added
    ensures Scanned(r, records).modified <= Inspected(r, records).modified
    ensures Scanned(r, records).removed == Inspected(r, records).removed
  {
    hide Candidates, CurrentFiles;
    forall p ensures
      && (p in Scanned(r, records).added ==> p in Inspected(r, records).added)
      && (p in Scanned(r, records).modified ==> p in Inspected(r, records).modified)
      && (p in Scanned(r, records).removed <==> p in Inspected(r, records).removed)
    {
      CandidateMeans(r, p);
      CurrentMeans(r, p);
      assert r.Top(p) == p;
    }
  }

  /** A stamp that was not clean: a later return to the stamped revision goes unnoticed. */
  function RevertedTo(head: Tree, ignored: set<Path>, excluded: set<Path>): Repo {
    Repo("", head, head, head, head, ignored, excluded)
  }

  /** Below the top of the work tree: the stamped revision with one new file on disk. */
  function WithNewFile(prefix: string, head: Tree, p: Path, excluded: set<Path>): Repo {
    Repo(prefix, head, head, head, map[prefix + p := "new"], {}, excluded)
  }

  lemma {:induction false} LongerPath(paths: set<Path>) returns (p: Path)
    ensures forall q | q in paths :: |q| < |p|
  {
    if paths == {} {
      p := "x";
    } else {
      var q :| q in paths;
      p := LongerPath(paths - {q});
      p := p + q + "x";
      assert forall x | x in paths :: x == q || x in paths - {q};
    }
  }

  lemma NestedRootIsBlind(prefix: string, head: Tree, records: Tree, excluded: set<Path>) returns (r: Repo)
    requires prefix != ""
    ensures r.prefix == prefix && r.oldHead == head && r.excluded == excluded
    ensures RulesHold(r, records) && !Complete(r, records)
  {
    var p := LongerPath(head.Keys + records.Keys + excluded);
    r := WithNewFile(prefix, head, p, excluded);
    assert |r.Top(p)| > |p|;
    assert p !in records && p !in excluded && p !in head && p !in r.working && r.Top(p) !in head;
    forall q | r.OnDisk(q) ensures q == p {
      assert r.Top(q)[|prefix|..] == q && r.Top(p)[|prefix|..] == p;
    }
    assert Stale(r, records, p) && MissedFile(r, records, p);
    CompleteIffNothingMissed(r, records);
  }

  /** A state of the repository that follows the stamp. */
  ghost predicate Later(r: Repo, prefix: string, head: Tree, records: Tree, excluded: set<Path>) {
    r.prefix == prefix && r.oldHead == head && r.excluded == excluded && RulesHold(r, records)
  }

  /** The stamp certifies every later state of the repository exactly when it was written clean and
      the root is the top of its work tree. */
  lemma CompleteForeverIffCleanStamp(prefix: string, head: Tree, records: Tree, excluded: set<Path>)
    requires records.Keys !! excluded
    ensures prefix == "" && StampClean(head, records, excluded) <==>
            forall r: Repo | Later(r, prefix, head, records, excluded) :: Complete(r, records)
  {
    hide Complete;
    if prefix != "" {
      var r := NestedRootIsBlind(prefix, head, records, excluded);
      assert Later(r, prefix, head, records, excluded);
    } else if StampClean(head, records, excluded) {
      forall r: Repo | Later(r, prefix, head, records, excluded) ensures Complete(r, records) {
        CleanStampIsComplete(r, records);
      }
    } else {
      var p :| p in head && p !in excluded && At(records, p) != Some(head[p]);
      var r := RevertedTo(head, {}, excluded);
      assert forall q :: r.Top(q) == q;
      assert Stale(r, records, p) && MissedFile(r, records, p);
      CompleteIffNothingMissed(r, records);
      assert Later(r, prefix, head, records, excluded) && !Complete(r, records);
    }
  }

  /** Concretely: a file that was dirty when the stamp was written and was then restored. */
  lemma DirtyThenRestoredIsMissed()
    ensures var r := RevertedTo(map["a.go" := "committed"], {}, {});
            && "a.go" in Scanned(r, map["a.go" := "edited"]).modified
            && Inspected(r, map["a.go" := "edited"]).All() == {}
  {
    var r := RevertedTo(map["a.go" := "committed"], {}, {});
    assert r.Top("a.go") == "a.go";
    CurrentMeans(r, "a.go");
    forall p ensures p !in Candidates(r) { CandidateMeans(r, p); }
  }

  /** And an ignored file that is dropped from the repository but stays on disk unchanged. */
  lemma UntrackedIgnoredIsMissed()
    ensures var r := Repo("", map["a.log" := "x"], map[], map[], map["a.log" := "x"], {"a.log"}, {});
            && StampClean(r.oldHead, map["a.log" := "x"], r.excluded)
            && "a.log" in Scanned(r, map["a.log" := "x"]).removed
            && Inspected(r, map["a.log" := "x"]).All() == {}
  {
    var r := Repo("", map["a.log" := "x"], map[], map[], map["a.log" := "x"], {"a.log"}, {});
    assert forall p :: r.Top(p) == p;
    CurrentMeans(r, "a.log");
    forall p | p in Candidates(r) ensures p == "a.log" { CandidateMeans(r, p); }
  }

  /** And any change when the root lies below the top: Git lists `sub/a.go`, the record is `a.go`. */
  lemma ChangeBelowTheTopIsMissed()
    ensures var head := map["sub/a.go" := "old"];
            var r := Repo("sub/", head, head, head, map["sub/a.go" := "new"], {}, {});
            && Candidates(r) == {"sub/a.go"}
            && "a.go" in Scanned(r, map["a.go" := "old"]).modified
            && Inspected(r, map["a.go" := "old"]).All() == {}
  {
    var head := map["sub/a.go" := "old"];
    var r := Repo("sub/", head, head, head, map["sub/a.go" := "new"], {}, {});
    assert r.Top("a.go") == "sub/a.go" && |r.Top("sub/a.go")| > |"sub/a.go"|;
    CurrentMeans(r, "a.go");
    assert "sub/a.go" != "a.go" by { assert |"sub/a.go"| != |"a.go"|; }
  }

  /** What the shortcut reports is always a real difference between records and disk, in one way only. */
  lemma InspectedIsReal(r: Repo, records: Tree)
    ensures forall p | p in Inspected(r, records).All() :: At(records, p) != At(r.working, r.Top(p))
    ensures var c := Inspected(r, records); c.added !! c.modified && c.added !! c.removed && c.modified !! c.removed
  {
  }

  // ---------------------------------------------------------------- the code

  /** Three sets filled step by step and turned into sorted lists. */
  class ChangedFilesSet {
    var added: set<Path>
    var modified: set<Path>
    var removed: set<Path>

    function Value(): Changes reads this { Changes(added, modified, removed) }

    constructor ()
      ensures Value() == Changes({}, {}, {})
    {
      added, modified, removed := {}, {}, {};
    }

    method Merge(changes: GitChanges)
      modifies this
      ensures added == old(added) + changes.added
      ensures modified == old(modified) + changes.modified
      ensures removed == old(removed) + changes.deleted
    {
      added, modified, removed := added + changes.added, modified + changes.modified, removed + changes.deleted;
    }

    /** What is both added and removed counts as modified. The loop deletes from the set it visits. */
    method Result() returns (out: ChangedFiles)
      modifies this
      ensures Lists(out, Changes(old(added) - old(removed), old(modified) + old(added) * old(removed), old(removed) - old(added)))
      ensures old(modified) !! old(added) + old(removed) ==> Disjoint(out)
    {
      var rest := added;
      while rest != {}
        invariant rest <= old(added)
        invariant added == old(added) - (old(added) * old(removed) - rest)
        invariant removed == old(removed) - (old(added) - rest)
        invariant modified == old(modified) + (old(added) * old(removed) - rest)
        decreases rest
      {
        var path :| path in rest;
        if path in removed {
          added := added - {path};
          removed := removed - {path};
          modified := modified + {path};
        }
        rest := rest - {path};
      }
      var a := SortedKeys(added);
      var m := SortedKeys(modified);
      var d := SortedKeys(removed);
      out := ChangedFiles(a, m, d);
    }
  }

  datatype ChangedFiles = ChangedFiles(added: seq<Path>, modified: seq<Path>, removed: seq<Path>)

  predicate SortedListOf(list: seq<Path>, paths: set<Path>) { Ordered(list) && Distinct(list) && ToSet(list) == paths }

  ghost predicate Lists(out: ChangedFiles, c: Changes) {
    SortedListOf(out.added, c.added) && SortedListOf(out.modified, c.modified) && SortedListOf(out.removed, c.removed)
  }

  ghost predicate Disjoint(out: ChangedFiles) {
    ToSet(out.added) !! ToSet(out.modified) && ToSet(out.added) !! ToSet(out.removed) && ToSet(out.modified) !! ToSet(out.removed)
  }

  method GetChangedFilesByScan(r: Repo, records: Tree) returns (out: ChangedFiles)
    ensures Lists(out, Scanned(r, records)) && Disjoint(out)
  {
    var current := CurrentFiles(r);
    forall p | p in current ensures r.OnDisk(p) { CurrentMeans(r, p); }
    var added: set<Path>, modified: set<Path>, removed: set<Path> := {}, {}, {};
    var tracked := records.Keys;
    while tracked != {}
      invariant tracked <= records.Keys && removed == records.Keys - tracked - current
      decreases tracked
    {
      var path :| path in tracked;
      if path !in current { removed := removed + {path}; }
      tracked := tracked - {path};
    }
    var files := current;
    while files != {}
      invariant files <= current && added == current - files - records.Keys
      invariant modified == set p | p in current - files && Differs(r, records, p)
      decreases files
    {
      var path :| path in files;
      if path !in records {
        added := added + {path};
      } else if records[path] != r.Content(path) {
        modified := modified + {path};
      }
      files := files - {path};
    }
    var a := SortedKeys(added);
    var m := SortedKeys(modified);
    var d := SortedKeys(removed);
    out := ChangedFiles(a, m, d);
  }

  /** The three candidate lists count only together. */
  method CollectCandidates(r: Repo, sameHead: bool) returns (paths: set<Path>)
    requires sameHead ==> r.oldHead == r.newHead
    ensures paths == Candidates(r)
  {
    var candidates := new ChangedFilesSet();
    if !sameHead { candidates.Merge(Diff(r.oldHead, r.newHead)); }
    candidates.Merge(Status(r));
    paths := candidates.added + candidates.modified + candidates.removed;
  }

  /** A candidate counts by its content on disk, not by what Git says happened to it. */
  method InspectCandidate(r: Repo, records: Tree, path: Path, changes: ChangedFilesSet)
    modifies changes
    ensures changes.added == old(changes.added) + if r.OnDisk(path) && path !in records then {path} else {}
    ensures changes.modified == old(changes.modified) +
            if Differs(r, records, path) then {path} else {}
    ensures changes.removed == old(changes.removed) + if !r.OnDisk(path) && path in records then {path} else {}
  {
    if !r.OnDisk(path) {
      if path in records { changes.removed := changes.removed + {path}; }
    } else if path !in records {
      changes.added := changes.added + {path};
    } else if records[path] != r.Content(path) {
      changes.modified := changes.modified + {path};
    }
  }

  /** What the shortcut finds among some paths. */
  function Found(r: Repo, records: Tree, paths: set<Path>): Changes {
    Changes(
      (set p | p in paths && r.OnDisk(p) && p !in records),
      (set p | p in paths && Differs(r, records, p)),
      (set p | p in paths && !r.OnDisk(p) && p in records))
  }

  method InspectCandidates(r: Repo, records: Tree, paths: set<Path>) returns (changes: ChangedFilesSet)
    ensures fresh(changes) && changes.Value() == Found(r, records, paths)
  {
    changes := new ChangedFilesSet();
    var rest := paths;
    while rest != {}
      invariant fresh(changes) && rest <= paths
      invariant changes.Value() == Found(r, records, paths - rest)
      decreases rest
    {
      var path :| path in rest;
      InspectCandidate(r, records, path, changes);
      FoundOneMore(r, records, paths - rest, path);
      assert paths - (rest - {path}) == paths - rest + {path};
      rest := rest - {path};
    }
  }

  lemma FoundOneMore(r: Repo, records: Tree, paths: set<Path>, path: Path)
    ensures var before := Found(r, records, paths);
            Found(r, records, paths + {path}) == Changes(
              before.added + (if r.OnDisk(path) && path !in records then {path} else {}),
              before.modified + (if Differs(r, records, path) then {path} else {}),
              before.removed + (if !r.OnDisk(path) && path in records then {path} else {}))
  {
  }

  /** Recorded files that Git does not list at all and that are gone. */
  method AddVanished(r: Repo, records: Tree, candidatePaths: set<Path>, changes: ChangedFilesSet)
    modifies changes
    ensures changes.added == old(changes.added) && changes.modified == old(changes.modified)
    ensures changes.removed == old(changes.removed) +
            set p | p in records && !r.Tracked(p) && p !in candidatePaths && !r.OnDisk(p)
  {
    var tracked := records.Keys;
    while tracked != {}
      invariant tracked <= records.Keys
      invariant changes.added == old(changes.added) && changes.modified == old(changes.modified)
      invariant changes.removed == old(changes.removed) +
        set p | p in records.Keys - tracked && !r.Tracked(p) && p !in candidatePaths && !r.OnDisk(p)
      decreases tracked
    {
      var path :| path in tracked;
      if !r.Tracked(path) && path !in candidatePaths && !r.OnDisk(path) {
        changes.removed := changes.removed + {path};
      }
      tracked := tracked - {path};
    }
  }

  lemma FoundAndVanished(r: Repo, records: Tree)
    ensures var f := Found(r, records, Candidates(r));
            Inspected(r, records) == Changes(f.added, f.modified,
              f.removed + set p | p in records && !r.Tracked(p) && p !in Candidates(r) && !r.OnDisk(p))
  {
    hide Candidates;
  }

  /** The shortcut, once the stamp has passed its gate; equal revision names mean equal trees. */
  method GitChangedFilesSinceIndex(r: Repo, records: Tree, sameHead: bool) returns (out: ChangedFiles)
    requires sameHead ==> r.oldHead == r.newHead
    ensures Lists(out, Inspected(r, records)) && Disjoint(out)
  {
    hide Candidates, Found, Inspected, SortedListOf;
    var candidatePaths := CollectCandidates(r, sameHead);
    var changes := InspectCandidates(r, records, candidatePaths);
    AddVanished(r, records, candidatePaths, changes);
    FoundAndVanished(r, records);
    InspectedIsReal(r, records);
    var c := changes.Value();
    assert c.added - c.removed == c.added && c.removed - c.added == c.removed && c.modified + c.added * c.removed == c.modified;
    out := changes.Result();
  }
}
