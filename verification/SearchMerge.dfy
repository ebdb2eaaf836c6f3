/** Merging search results across scopes (mcp/multibackend.go).

    Each scope answers with its own best `limit` results; the fan-out concatenates them, drops
    repeated ids, sorts by descending score and cuts again.  Cutting per scope loses nothing. */
module SearchMerge {
  import opened StableSort

  datatype SearchResult = SearchResult(id: string, score: real)

  /** Higher scores rank first. */
  const ByScore: SearchResult -> real := (r: SearchResult) => -r.score

  function Ids(s: seq<SearchResult>): set<string> { set r | r in s :: r.id }

  predicate UniqueIds(s: seq<SearchResult>) {
    forall i, j | 0 <= i < j < |s| :: s[i].id != s[j].id
  }

  /** First occurrences of each id, in order. */
  function Deduped(s: seq<SearchResult>): seq<SearchResult> {
    if s == [] then []
    else
      var n := |s| - 1;
      if s[n].id in Ids(s[..n]) then Deduped(s[..n]) else Deduped(s[..n]) + [s[n]]
  }

  lemma IdsOfAppend(s: seq<SearchResult>, r: SearchResult)
    ensures Ids(s + [r]) == Ids(s) + {r.id}
  {
    assert forall x | x in s + [r] :: x in s || x == r;
    assert r in s + [r] && forall x | x in s :: x in s + [r];
  }

  /** Deduplication leaves each id exactly once. */
  lemma {:induction false} DedupedLaws(s: seq<SearchResult>)
    ensures UniqueIds(Deduped(s)) && Ids(Deduped(s)) == Ids(s)
  {
    if s != [] {
      var n := |s| - 1;
      DedupedLaws(s[..n]);
      assert s == s[..n] + [s[n]];
      IdsOfAppend(s[..n], s[n]);
      IdsOfAppend(Deduped(s[..n]), s[n]);
    }
  }

  lemma {:induction false} UniqueIsDeduped(s: seq<SearchResult>)
    requires UniqueIds(s)
    ensures Deduped(s) == s
  {
    if s != [] {
      var n := |s| - 1;
      UniqueIsDeduped(s[..n]);
      assert s == s[..n] + [s[n]];
    }
  }

  /** The cut of the fan-out; a limit of zero or less means none. */
  function Cut(s: seq<SearchResult>, limit: int): seq<SearchResult> {
    if 0 < limit then Take(s, limit) else s
  }

  method StableSortByScoreDesc(results: array<SearchResult>)
    modifies results
    ensures results[..] == StableSorted(old(results[..]), ByScore)
  {
    InsertionSort(results, ByScore);
  }

  method MergeSearchResults(results: seq<SearchResult>, limit: int) returns (merged: seq<SearchResult>)
    ensures merged == Cut(StableSorted(Deduped(results), ByScore), limit)
  {
    var deduped := Dedup(results);
    var a := new SearchResult[|deduped|](i requires 0 <= i < |deduped| => deduped[i]);
    assert a[..] == deduped;
    StableSortByScoreDesc(a);
    merged := a[..];
    if limit > 0 && |merged| > limit { merged := merged[..limit]; }
  }

  method Dedup(results: seq<SearchResult>) returns (deduped: seq<SearchResult>)
    ensures deduped == Deduped(results)
  {
    var seen: set<string> := {};
    deduped := [];
    for i := 0 to |results|
      invariant deduped == Deduped(results[..i]) && seen == Ids(results[..i])
    {
      var r := results[i];
      assert results[..i + 1][..i] == results[..i];
      assert results[..i + 1] == results[..i] + [r];
      IdsOfAppend(results[..i], r);
      if r.id !in seen {
        seen := seen + {r.id};
        deduped := deduped + [r];
      }
    }
    assert results[..|results|] == results;
  }

  function Concat(scopes: seq<seq<SearchResult>>): seq<SearchResult> {
    if scopes == [] then [] else scopes[0] + Concat(scopes[1..])
  }

  /** Each scope answers with its best; for a limit of zero or less it takes its own default. */
  function ScopeLimit(limit: int, fallback: nat): nat { if 0 < limit then limit else fallback }

  function CutEach(scopes: seq<seq<SearchResult>>, limit: nat): (r: seq<seq<SearchResult>>)
    ensures |r| == |scopes|
  {
    seq(|scopes|, i requires 0 <= i < |scopes| => Take(scopes[i], limit))
  }

  function Best(results: seq<SearchResult>, limit: int): seq<SearchResult> {
    Cut(StableSorted(Deduped(results), ByScore), limit)
  }

  /** `scopes` are the complete result lists; each backend hands over its cut. */
  method FanOut(scopes: seq<seq<SearchResult>>, limit: int, fallback: nat) returns (merged: seq<SearchResult>)
    ensures merged == Best(Concat(CutEach(scopes, ScopeLimit(limit, fallback))), limit)
  {
    var all: seq<SearchResult> := [];
    ghost var cut := CutEach(scopes, ScopeLimit(limit, fallback));
    for i := 0 to |scopes|
      invariant all + Concat(cut[i..]) == Concat(cut)
    {
      var res := Take(scopes[i], ScopeLimit(limit, fallback));
      assert Concat(cut[i..]) == cut[i] + Concat(cut[i + 1..]);
      all := all + res;
    }
    assert all == Concat(cut);
    merged := MergeSearchResults(all, limit);
  }

  /** One more scope, cut or not, in front of results whose tops agree. */
  lemma TopOfTwo(s: seq<SearchResult>, p: seq<SearchResult>, q: seq<SearchResult>, limit: nat)
    requires Take(p, limit) == Take(q, limit)
    ensures Take(Merged(s, p, ByScore), limit) == Take(Merged(Take(s, limit), q, ByScore), limit)
  {
    hide Take, Merged;
    TakeTwice(s, limit);
    TakeOfMerge(s, p, ByScore, limit);
    TakeOfMerge(Take(s, limit), q, ByScore, limit);
  }

  lemma {:induction false} TopOfConcat(scopes: seq<seq<SearchResult>>, limit: nat)
    requires forall k | 0 <= k < |scopes| :: Sorted(scopes[k], ByScore)
    ensures Take(StableSorted(Concat(scopes), ByScore), limit)
         == Take(StableSorted(Concat(CutEach(scopes, limit)), ByScore), limit)
  {
    hide StableSorted, Take, Sorted, Merged;
    if scopes != [] {
      var s, rest, t := scopes[0], scopes[1..], CutEach(scopes, limit);
      assert t[1..] == CutEach(rest, limit) && t[0] == Take(s, limit);
      TopOfConcat(rest, limit);
      SortOfAppend(s, Concat(rest), ByScore);
      SortOfAppend(t[0], Concat(t[1..]), ByScore);
      SortedIsFixed(s, ByScore);
      TakeIsSorted(s, limit, ByScore);
      SortedIsFixed(t[0], ByScore);
      TopOfTwo(s, StableSorted(Concat(rest), ByScore), StableSorted(Concat(t[1..]), ByScore), limit);
    }
  }

  lemma UniqueAppend(a: seq<SearchResult>, b: seq<SearchResult>)
    ensures UniqueIds(a + b) <==> UniqueIds(a) && UniqueIds(b) && Ids(a) !! Ids(b)
  {
    var s := a + b;
    if UniqueIds(s) {
      assert forall i | 0 <= i < |a| :: a[i] == s[i];
      assert forall j | 0 <= j < |b| :: b[j] == s[|a| + j];
      forall x, y | x in a && y in b ensures x.id != y.id {
        var i :| 0 <= i < |a| && a[i] == x;
        var j :| 0 <= j < |b| && b[j] == y;
        assert s[i].id != s[|a| + j].id;
      }
    }
    if UniqueIds(a) && UniqueIds(b) && Ids(a) !! Ids(b) {
      forall i, j | 0 <= i < j < |s| ensures s[i].id != s[j].id {
        if i < |a| <= j { assert a[i].id in Ids(a) && b[j - |a|].id in Ids(b); }
      }
    }
  }

  lemma IdsOfConcat(a: seq<SearchResult>, b: seq<SearchResult>)
    ensures Ids(a + b) == Ids(a) + Ids(b)
  {
    assert forall r :: r in a + b <==> r in a || r in b;
  }

  lemma {:induction false} CutKeepsUnique(scopes: seq<seq<SearchResult>>, limit: nat)
    requires UniqueIds(Concat(scopes))
    ensures UniqueIds(Concat(CutEach(scopes, limit)))
    ensures Ids(Concat(CutEach(scopes, limit))) <= Ids(Concat(scopes))
  {
    if scopes != [] {
      var s, rest := scopes[0], Concat(scopes[1..]);
      var t := CutEach(scopes, limit);
      assert t[1..] == CutEach(scopes[1..], limit);
      UniqueAppend(s, rest);
      CutKeepsUnique(scopes[1..], limit);
      assert forall r | r in t[0] :: r in s;
      UniqueAppend(t[0], Concat(t[1..]));
      IdsOfConcat(s, rest);
      IdsOfConcat(t[0], Concat(t[1..]));
    }
  }

  /** Cutting each scope shortens the whole unless no scope is longer than the cut. */
  lemma {:induction false} CutShortens(scopes: seq<seq<SearchResult>>, limit: nat)
    ensures |Concat(CutEach(scopes, limit))| <= |Concat(scopes)|
    ensures (forall k | 0 <= k < |scopes| :: |scopes[k]| <= limit) ==> CutEach(scopes, limit) == scopes
    ensures (exists k :: 0 <= k < |scopes| && limit < |scopes[k]|) ==> |Concat(CutEach(scopes, limit))| < |Concat(scopes)|
  {
    if scopes != [] {
      assert CutEach(scopes, limit)[1..] == CutEach(scopes[1..], limit);
      CutShortens(scopes[1..], limit);
      if k :| 0 <= k < |scopes| && limit < |scopes[k]| {
        assert k > 0 ==> limit < |scopes[1..][k - 1]|;
      }
    }
  }

  /** With ids unique across scopes and each scope sorted by score, merging the per-scope best
      `limit` gives exactly the best `limit` of everything, ties included.  Without a positive limit
      nothing is lost exactly when no scope has more than its default. */
  lemma PerScopeCutLosesNothing(scopes: seq<seq<SearchResult>>, limit: int, fallback: nat)
    requires UniqueIds(Concat(scopes)) && forall k | 0 <= k < |scopes| :: Sorted(scopes[k], ByScore)
    ensures Best(Concat(CutEach(scopes, ScopeLimit(limit, fallback))), limit) == Best(Concat(scopes), limit) <==>
              0 < limit || forall k | 0 <= k < |scopes| :: |scopes[k]| <= fallback
  {
    hide StableSorted, Deduped, Sorted, Concat, CutEach, UniqueIds, Take;
    var each := ScopeLimit(limit, fallback);
    CutKeepsUnique(scopes, each);
    UniqueIsDeduped(Concat(scopes));
    UniqueIsDeduped(Concat(CutEach(scopes, each)));
    if 0 < limit { TopOfConcat(scopes, limit); } else { CutShortens(scopes, each); }
  }

  // ---------------------------------------------------------------- what the merged list is

  /** The first result with its id. */
  ghost predicate FirstOf(s: seq<SearchResult>, p: int) {
    0 <= p < |s| && forall q | 0 <= q < p :: s[q].id != s[p].id
  }

  lemma {:induction false} DedupedAre(s: seq<SearchResult>, r: SearchResult)
    ensures r in Deduped(s) <==> exists p :: FirstOf(s, p) && s[p] == r
  {
    if s != [] {
      var n := |s| - 1;
      DedupedAre(s[..n], r);
      DedupedLaws(s[..n]);
      assert s == s[..n] + [s[n]];
      if p :| FirstOf(s[..n], p) && s[..n][p] == r { assert FirstOf(s, p) && s[p] == r; }
      if p :| FirstOf(s, p) && s[p] == r { assert p < n ==> FirstOf(s[..n], p) && s[..n][p] == r; }
      assert FirstOf(s, n) <==> s[n].id !in Ids(s[..n]);
    }
  }

  lemma {:induction false} DedupedOrder(s: seq<SearchResult>, i: nat, j: nat)
    requires i < j < |Deduped(s)|
    ensures exists p, q :: 0 <= p < q < |s| && s[p] == Deduped(s)[i] && s[q] == Deduped(s)[j]
  {
    var n := |s| - 1;
    var front := Deduped(s[..n]);
    if j < |front| {
      DedupedOrder(s[..n], i, j);
      var p, q :| 0 <= p < q < n && s[..n][p] == front[i] && s[..n][q] == front[j];
      assert s[p] == s[..n][p] && s[q] == s[..n][q];
    } else {
      assert front[i] in front;
      DedupedAre(s[..n], front[i]);
      var p :| FirstOf(s[..n], p) && s[..n][p] == front[i];
      assert s[p] == s[..n][p] && s[n] == Deduped(s)[j];
    }
  }

  /** The merged list: scores never rise along it, results of one score come in their old order, and
      every one is the first of its id. */
  lemma MergedList(results: seq<SearchResult>, limit: int, i: nat, j: nat)
    requires i < j < |Best(results, limit)|
    ensures var r := Best(results, limit);
            && r[i].score >= r[j].score && r[i].id != r[j].id
            && (r[i].score == r[j].score ==> exists p, q :: 0 <= p < q < |results| && results[p] == r[i] && results[q] == r[j])
            && (exists p :: FirstOf(results, p) && results[p] == r[i]) && (exists p :: FirstOf(results, p) && results[p] == r[j])
  {
    hide Deduped;
    var s := Deduped(results);
    var all := StableSorted(s, ByScore);
    var r := Best(results, limit);
    assert r[i] == all[i] && r[j] == all[j];
    StableSortedLaws(s, ByScore);
    StableOrder(s, ByScore, i, j);
    assert all[i] in multiset(all) && all[j] in multiset(all);
    DedupedAre(results, all[i]);
    DedupedAre(results, all[j]);
    DedupedLaws(results);
    SortedUnique(s, i, j);
    if r[i].score == r[j].score {
      var a, b :| 0 <= a < b < |s| && s[a] == all[i] && s[b] == all[j];
      DedupedOrder(results, a, b);
    }
  }

  lemma SortedUnique(s: seq<SearchResult>, i: nat, j: nat)
    requires UniqueIds(s) && i < j < |StableSorted(s, ByScore)|
    ensures StableSorted(s, ByScore)[i].id != StableSorted(s, ByScore)[j].id
  {
    var all := StableSorted(s, ByScore);
    StableSortedLaws(s, ByScore);
    if all[i].id == all[j].id {
      assert all[i] in multiset(all) && all[j] in multiset(all);
      assert all[i] in s && all[j] in s;
      var a :| 0 <= a < |s| && s[a] == all[i];
      var b :| 0 <= b < |s| && s[b] == all[j];
      assert s[a].id == s[b].id ==> a == b;
      TwiceIn(all, i, j);
      UniqueOnce(s, all[i]);
    }
  }

  lemma TwiceIn(s: seq<SearchResult>, i: nat, j: nat)
    requires i < j < |s| && s[i] == s[j]
    ensures multiset(s)[s[i]] >= 2
  {
    assert s == s[..i] + [s[i]] + s[i + 1..j] + [s[j]] + s[j + 1..];
  }

  lemma {:induction false} UniqueOnce(s: seq<SearchResult>, x: SearchResult)
    requires UniqueIds(s)
    ensures multiset(s)[x] <= 1
  {
    if s != [] {
      var n := |s| - 1;
      UniqueOnce(s[..n], x);
      assert s == s[..n] + [s[n]];
      if s[n] == x { assert forall k | 0 <= k < n :: s[k].id != x.id; }
    }
  }

  /** Nothing better is left out: a missing result ranks no higher than any merged one, and only when the
      limit is reached. */
  lemma NothingBetterIsLeftOut(results: seq<SearchResult>, limit: int, p: nat, i: nat)
    requires FirstOf(results, p) && results[p] !in Best(results, limit)
    ensures 0 < limit && |Best(results, limit)| == limit
    ensures i < |Best(results, limit)| ==> Best(results, limit)[i].score >= results[p].score
  {
    hide Deduped;
    var s := Deduped(results);
    var all := StableSorted(s, ByScore);
    StableSortedLaws(s, ByScore);
    DedupedAre(results, results[p]);
    assert results[p] in multiset(all);
    var k :| 0 <= k < |all| && all[k] == results[p];
    var r := Best(results, limit);
    assert forall j | 0 <= j < |r| :: r[j] == all[j] && r[j] in r;
    if i < |r| { StableOrder(s, ByScore, i, k); }
  }
}
