/** The in-place insertion sort used for edge priorities and search scores
    (mcp/backend.go), and what makes its result unique: ordered, and stable within a rank.

    Elements are compared by a rank; lower ranks come first.  Edge priorities are ranks, and a
    score is ranked by its negation. */
module StableSort {

  // ---------------------------------------------------------------- specification

  predicate Sorted<T>(s: seq<T>, rank: T -> real) {
    forall i, j | 0 <= i < j < |s| :: rank(s[i]) <= rank(s[j])
  }

  /** The elements of one rank, in order. */
  function OfRank<T>(s: seq<T>, rank: T -> real, v: real): seq<T> {
    if s == [] then []
    else if rank(s[0]) == v then [s[0]] + OfRank(s[1..], rank, v)
    else OfRank(s[1..], rank, v)
  }

  /** `x` goes behind every element that does not rank above it. */
  function Inserted<T>(s: seq<T>, x: T, rank: T -> real): (r: seq<T>)
    ensures |r| == |s| + 1
  {
    if s == [] then [x]
    else
      var n := |s| - 1;
      if rank(x) < rank(s[n]) then Inserted(s[..n], x, rank) + [s[n]] else s + [x]
  }

  function StableSorted<T>(s: seq<T>, rank: T -> real): (r: seq<T>)
    ensures |r| == |s|
  {
    if s == [] then [] else Inserted(StableSorted(s[..|s| - 1], rank), s[|s| - 1], rank)
  }

  // ---------------------------------------------------------------- laws

  lemma {:induction false} OfRankAppend<T>(a: seq<T>, b: seq<T>, rank: T -> real, v: real)
    ensures OfRank(a + b, rank, v) == OfRank(a, rank, v) + OfRank(b, rank, v)
  {
    if a == [] {
      assert a + b == b;
    } else {
      assert (a + b)[1..] == a[1..] + b;
      OfRankAppend(a[1..], b, rank, v);
    }
  }

  lemma OfRankSingle<T>(x: T, rank: T -> real, v: real)
    ensures OfRank([x], rank, v) == if rank(x) == v then [x] else []
  {
    assert [x][1..] == [];
  }

  lemma {:induction false} InsertedPermutes<T>(s: seq<T>, x: T, rank: T -> real)
    ensures multiset(Inserted(s, x, rank)) == multiset(s) + multiset{x}
    decreases |s|
  {
    if s != [] {
      var n := |s| - 1;
      assert s == s[..n] + [s[n]];
      InsertedPermutes(s[..n], x, rank);
    }
  }

  lemma {:induction false} InsertedSorted<T>(s: seq<T>, x: T, rank: T -> real)
    requires Sorted(s, rank)
    ensures Sorted(Inserted(s, x, rank), rank)
    decreases |s|
  {
    if s != [] {
      var n := |s| - 1;
      var r := Inserted(s[..n], x, rank);
      InsertedSorted(s[..n], x, rank);
      InsertedPermutes(s[..n], x, rank);
      forall i | 0 <= i < |r| && rank(x) < rank(s[n]) ensures rank(r[i]) <= rank(s[n]) {
        assert r[i] in multiset(r);
        assert r[i] in s[..n] || r[i] == x;
      }
    }
  }

  lemma InsertedStep<T>(s: seq<T>, x: T, rank: T -> real)
    ensures Inserted(s, x, rank) ==
            if s != [] && rank(x) < rank(s[|s| - 1]) then Inserted(s[..|s| - 1], x, rank) + [s[|s| - 1]] else s + [x]
  {
  }

  lemma {:induction false} InsertedOfRank<T>(s: seq<T>, x: T, rank: T -> real, v: real)
    ensures OfRank(Inserted(s, x, rank), rank, v) == OfRank(s, rank, v) + OfRank([x], rank, v)
    decreases |s|
  {
    hide Inserted, OfRank;
    InsertedStep(s, x, rank);
    if s != [] && rank(x) < rank(s[|s| - 1]) {
      var n := |s| - 1;
      InsertedOfRank(s[..n], x, rank, v);
      OfRankAppend(Inserted(s[..n], x, rank), [s[n]], rank, v);
      OfRankAppend(s[..n], [s[n]], rank, v);
      OfRankSingle(x, rank, v);
      OfRankSingle(s[n], rank, v);
      assert s == s[..n] + [s[n]];
    } else {
      OfRankAppend(s, [x], rank, v);
    }
  }

  lemma {:induction false} StableSortedPermutes<T>(s: seq<T>, rank: T -> real)
    ensures multiset(StableSorted(s, rank)) == multiset(s)
    decreases |s|
  {
    hide Inserted;
    if s != [] {
      var n := |s| - 1;
      StableSortedPermutes(s[..n], rank);
      InsertedPermutes(StableSorted(s[..n], rank), s[n], rank);
      assert s == s[..n] + [s[n]];
    }
  }

  lemma {:induction false} StableSortedOfRank<T>(s: seq<T>, rank: T -> real, v: real)
    ensures OfRank(StableSorted(s, rank), rank, v) == OfRank(s, rank, v)
    decreases |s|
  {
    hide Inserted, OfRank;
    if s != [] {
      var n := |s| - 1;
      StableSortedOfRank(s[..n], rank, v);
      InsertedOfRank(StableSorted(s[..n], rank), s[n], rank, v);
      OfRankAppend(s[..n], [s[n]], rank, v);
      assert s == s[..n] + [s[n]];
    }
  }

  /** The result is ordered, is a permutation, and keeps the input order within each rank. */
  lemma {:induction false} StableSortedLaws<T>(s: seq<T>, rank: T -> real)
    ensures Sorted(StableSorted(s, rank), rank)
    ensures multiset(StableSorted(s, rank)) == multiset(s)
    ensures forall v :: OfRank(StableSorted(s, rank), rank, v) == OfRank(s, rank, v)
    decreases |s|
  {
    hide Inserted, OfRank, Sorted;
    if s == [] {
      SortedEmpty(s, rank);
    } else {
      var n := |s| - 1;
      StableSortedLaws(s[..n], rank);
      InsertedSorted(StableSorted(s[..n], rank), s[n], rank);
    }
    StableSortedPermutes(s, rank);
    forall v ensures OfRank(StableSorted(s, rank), rank, v) == OfRank(s, rank, v) { StableSortedOfRank(s, rank, v); }
  }

  lemma SortedEmpty<T>(s: seq<T>, rank: T -> real)
    requires s == []
    ensures Sorted(s, rank)
  {
  }

  lemma {:induction false} OfRankMember<T>(s: seq<T>, rank: T -> real, v: real)
    ensures forall x | x in OfRank(s, rank, v) :: x in s && rank(x) == v
    ensures OfRank(s, rank, v) == [] <==> forall x | x in s :: rank(x) != v
  {
    if s != [] { OfRankMember(s[1..], rank, v); }
  }

  lemma EmptyIffNoRank<T>(s: seq<T>, rank: T -> real)
    ensures s == [] <==> forall v :: OfRank(s, rank, v) == []
  {
    if s != [] {
      OfRankMember(s, rank, rank(s[0]));
      assert s[0] in s;
      assert OfRank(s, rank, rank(s[0])) != [];
    }
  }

  /** Order and the per-rank subsequences determine a sequence. */
  lemma {:induction false} SortedIsDetermined<T>(a: seq<T>, b: seq<T>, rank: T -> real)
    requires Sorted(a, rank) && Sorted(b, rank)
    requires forall v :: OfRank(a, rank, v) == OfRank(b, rank, v)
    ensures a == b
    decreases |a|
  {
    EmptyIffNoRank(a, rank);
    EmptyIffNoRank(b, rank);
    if a != [] {
      HeadsAgree(a, b, rank);
      forall v ensures OfRank(a[1..], rank, v) == OfRank(b[1..], rank, v) {
        assert OfRank(a, rank, v) == OfRank(b, rank, v);
        OfRankTail(a, rank, v);
        OfRankTail(b, rank, v);
      }
      SortedIsDetermined(a[1..], b[1..], rank);
      assert a == [a[0]] + a[1..] && b == [b[0]] + b[1..];
    }
  }

  lemma HeadsAgree<T>(a: seq<T>, b: seq<T>, rank: T -> real)
    requires a != [] && b != [] && Sorted(a, rank) && Sorted(b, rank)
    requires forall v :: OfRank(a, rank, v) == OfRank(b, rank, v)
    ensures a[0] == b[0]
  {
    var x, y := rank(a[0]), rank(b[0]);
    assert OfRank(a, rank, x)[0] == a[0] && OfRank(b, rank, y)[0] == b[0];
    OfRankMember(b, rank, x);
    OfRankMember(a, rank, y);
    assert OfRank(a, rank, x) == OfRank(b, rank, x) && OfRank(a, rank, y) == OfRank(b, rank, y);
    assert a[0] in b && b[0] in a;
    assert y <= x && x <= y;
  }

  lemma OfRankTail<T>(s: seq<T>, rank: T -> real, v: real)
    requires s != []
    ensures OfRank(s[1..], rank, v) == if rank(s[0]) == v then OfRank(s, rank, v)[1..] else OfRank(s, rank, v)
  {
  }

  lemma SortedIsFixed<T>(s: seq<T>, rank: T -> real)
    requires Sorted(s, rank)
    ensures StableSorted(s, rank) == s
  {
    StableSortedLaws(s, rank);
    SortedIsDetermined(StableSorted(s, rank), s, rank);
  }

  lemma {:induction false} OfRankHas<T>(s: seq<T>, rank: T -> real, p: nat, q: nat)
    requires p < q < |s| && rank(s[p]) == rank(s[q])
    ensures exists i, j :: 0 <= i < j < |OfRank(s, rank, rank(s[p]))|
              && OfRank(s, rank, rank(s[p]))[i] == s[p] && OfRank(s, rank, rank(s[p]))[j] == s[q]
  {
    var v := rank(s[p]);
    var rest := OfRank(s[1..], rank, v);
    if p == 0 {
      OfRankHasOne(s[1..], rank, q - 1);
      var j :| 0 <= j < |rest| && rest[j] == s[q];
      assert OfRank(s, rank, v)[0] == s[0] && OfRank(s, rank, v)[j + 1] == s[q];
    } else {
      OfRankHas(s[1..], rank, p - 1, q - 1);
      var i, j :| 0 <= i < j < |rest| && rest[i] == s[p] && rest[j] == s[q];
      if rank(s[0]) == v {
        assert OfRank(s, rank, v)[i + 1] == s[p] && OfRank(s, rank, v)[j + 1] == s[q];
      } else {
        assert OfRank(s, rank, v)[i] == s[p] && OfRank(s, rank, v)[j] == s[q];
      }
    }
  }

  lemma {:induction false} OfRankHasOne<T>(s: seq<T>, rank: T -> real, p: nat)
    requires p < |s|
    ensures exists i :: 0 <= i < |OfRank(s, rank, rank(s[p]))| && OfRank(s, rank, rank(s[p]))[i] == s[p]
  {
    if p == 0 {
      assert OfRank(s, rank, rank(s[p]))[0] == s[0];
    } else {
      OfRankHasOne(s[1..], rank, p - 1);
      var rest := OfRank(s[1..], rank, rank(s[p]));
      var i :| 0 <= i < |rest| && rest[i] == s[p];
      assert OfRank(s, rank, rank(s[p]))[if rank(s[0]) == rank(s[p]) then i + 1 else i] == s[p];
    }
  }

  lemma {:induction false} OfRankFrom<T>(s: seq<T>, rank: T -> real, v: real, i: nat, j: nat)
    requires i < j < |OfRank(s, rank, v)|
    ensures exists p, q :: 0 <= p < q < |s| && s[p] == OfRank(s, rank, v)[i] && s[q] == OfRank(s, rank, v)[j]
  {
    var rest := OfRank(s[1..], rank, v);
    if rank(s[0]) == v && i == 0 {
      OfRankFromOne(s[1..], rank, v, j - 1);
      var q :| 0 <= q < |s| - 1 && s[1..][q] == rest[j - 1];
      assert s[0] == OfRank(s, rank, v)[i] && s[q + 1] == OfRank(s, rank, v)[j];
    } else {
      var d := if rank(s[0]) == v then 1 else 0;
      OfRankFrom(s[1..], rank, v, i - d, j - d);
      var p, q :| 0 <= p < q < |s| - 1 && s[1..][p] == rest[i - d] && s[1..][q] == rest[j - d];
      assert s[p + 1] == OfRank(s, rank, v)[i] && s[q + 1] == OfRank(s, rank, v)[j];
    }
  }

  lemma {:induction false} OfRankFromOne<T>(s: seq<T>, rank: T -> real, v: real, i: nat)
    requires i < |OfRank(s, rank, v)|
    ensures exists p :: 0 <= p < |s| && s[p] == OfRank(s, rank, v)[i]
  {
    if rank(s[0]) == v && i == 0 {
      assert s[0] == OfRank(s, rank, v)[0];
    } else {
      var d := if rank(s[0]) == v then 1 else 0;
      OfRankFromOne(s[1..], rank, v, i - d);
      var p :| 0 <= p < |s| - 1 && s[1..][p] == OfRank(s[1..], rank, v)[i - d];
      assert s[p + 1] == OfRank(s, rank, v)[i];
    }
  }

  /** Position by position: ranks never fall, and elements of one rank come in their old order. */
  lemma StableOrder<T>(s: seq<T>, rank: T -> real, p: nat, q: nat)
    requires p < q < |s|
    ensures var r := StableSorted(s, rank);
            && rank(r[p]) <= rank(r[q])
            && (rank(r[p]) == rank(r[q]) ==> exists i, j :: 0 <= i < j < |s| && s[i] == r[p] && s[j] == r[q])
  {
    hide OfRank;
    StableSortedLaws(s, rank);
    var r := StableSorted(s, rank);
    if rank(r[p]) == rank(r[q]) {
      var v := rank(r[p]);
      OfRankHas(r, rank, p, q);
      var i, j :| 0 <= i < j < |OfRank(r, rank, v)| && OfRank(r, rank, v)[i] == r[p] && OfRank(r, rank, v)[j] == r[q];
      OfRankFrom(s, rank, v, i, j);
    }
  }

  // ---------------------------------------------------------------- merging sorted lists

  function Merged<T>(a: seq<T>, b: seq<T>, rank: T -> real): (r: seq<T>)
    ensures |r| == |a| + |b|
    decreases |a| + |b|
  {
    if a == [] then b
    else if b == [] then a
    else if rank(b[0]) < rank(a[0]) then [b[0]] + Merged(a, b[1..], rank)
    else [a[0]] + Merged(a[1..], b, rank)
  }

  lemma {:induction false} MergedMember<T>(a: seq<T>, b: seq<T>, rank: T -> real, x: T)
    ensures x in Merged(a, b, rank) <==> x in a || x in b
    decreases |a| + |b|
  {
    hide Merged;
    if a == [] || b == [] {
      MergedWithNone(a, b, rank);
    } else {
      MergedStep(a, b, rank);
      if rank(b[0]) < rank(a[0]) { MergedMember(a, b[1..], rank, x); } else { MergedMember(a[1..], b, rank, x); }
    }
  }

  lemma MergedWithNone<T>(a: seq<T>, b: seq<T>, rank: T -> real)
    requires a == [] || b == []
    ensures Merged(a, b, rank) == a + b
  {
  }

  lemma SortedCons<T>(x: T, s: seq<T>, rank: T -> real)
    ensures Sorted([x] + s, rank) <==> Sorted(s, rank) && forall y | y in s :: rank(x) <= rank(y)
  {
    var t := [x] + s;
    if Sorted(t, rank) {
      forall i, j | 0 <= i < j < |s| ensures rank(s[i]) <= rank(s[j]) { assert t[i + 1] == s[i] && t[j + 1] == s[j]; }
      forall y | y in s ensures rank(x) <= rank(y) {
        var i :| 0 <= i < |s| && s[i] == y;
        assert t[0] == x && t[i + 1] == y;
      }
    }
  }

  lemma HeadOrTail<T>(s: seq<T>, y: T)
    requires y in s
    ensures y == s[0] || y in s[1..]
  {
    var i :| 0 <= i < |s| && s[i] == y;
    if i > 0 { assert s[1..][i - 1] == y; }
  }

  lemma {:induction false} MergedSorted<T>(a: seq<T>, b: seq<T>, rank: T -> real)
    requires Sorted(a, rank) && Sorted(b, rank)
    ensures Sorted(Merged(a, b, rank), rank)
    decreases |a| + |b|
  {
    hide Merged, Sorted;
    if a == [] || b == [] {
      MergedWithNone(a, b, rank);
      assert a + b == if a == [] then b else a;
    } else {
      assert a == [a[0]] + a[1..] && b == [b[0]] + b[1..];
      SortedCons(a[0], a[1..], rank);
      SortedCons(b[0], b[1..], rank);
      MergedStep(a, b, rank);
      if rank(b[0]) < rank(a[0]) {
        MergedSorted(a, b[1..], rank);
        forall y | y in Merged(a, b[1..], rank) ensures rank(b[0]) <= rank(y) {
          MergedMember(a, b[1..], rank, y);
          if y in a { HeadOrTail(a, y); }
        }
        SortedCons(b[0], Merged(a, b[1..], rank), rank);
      } else {
        MergedSorted(a[1..], b, rank);
        forall y | y in Merged(a[1..], b, rank) ensures rank(a[0]) <= rank(y) {
          MergedMember(a[1..], b, rank, y);
          if y in b { HeadOrTail(b, y); }
        }
        SortedCons(a[0], Merged(a[1..], b, rank), rank);
      }
    }
  }

  lemma OfRankCons<T>(x: T, s: seq<T>, rank: T -> real, v: real)
    ensures OfRank([x] + s, rank, v) == (if rank(x) == v then [x] else []) + OfRank(s, rank, v)
  {
    assert ([x] + s)[1..] == s;
  }

  lemma {:induction false} MergedOfRank<T>(a: seq<T>, b: seq<T>, rank: T -> real, v: real)
    requires Sorted(a, rank) && Sorted(b, rank)
    ensures OfRank(Merged(a, b, rank), rank, v) == OfRank(a, rank, v) + OfRank(b, rank, v)
    decreases |a| + |b|
  {
    hide Merged, Sorted, OfRank;
    if a == [] || b == [] {
      MergedWithNone(a, b, rank);
      OfRankAppend(a, b, rank, v);
    } else {
      assert a == [a[0]] + a[1..] && b == [b[0]] + b[1..];
      SortedCons(a[0], a[1..], rank);
      SortedCons(b[0], b[1..], rank);
      OfRankCons(a[0], a[1..], rank, v);
      OfRankCons(b[0], b[1..], rank, v);
      MergedStep(a, b, rank);
      if rank(b[0]) < rank(a[0]) {
        MergedOfRank(a, b[1..], rank, v);
        OfRankCons(b[0], Merged(a, b[1..], rank), rank, v);
        if v == rank(b[0]) {
          OfRankMember(a, rank, v);
          assert OfRank(a, rank, v) == [];
        }
      } else {
        MergedOfRank(a[1..], b, rank, v);
        OfRankCons(a[0], Merged(a[1..], b, rank), rank, v);
      }
    }
  }

  lemma MergedLaws<T>(a: seq<T>, b: seq<T>, rank: T -> real)
    requires Sorted(a, rank) && Sorted(b, rank)
    ensures Sorted(Merged(a, b, rank), rank)
    ensures forall x :: x in Merged(a, b, rank) <==> x in a || x in b
    ensures forall v :: OfRank(Merged(a, b, rank), rank, v) == OfRank(a, rank, v) + OfRank(b, rank, v)
  {
    hide *;
    MergedSorted(a, b, rank);
    forall x ensures x in Merged(a, b, rank) <==> x in a || x in b { MergedMember(a, b, rank, x); }
    forall v ensures OfRank(Merged(a, b, rank), rank, v) == OfRank(a, rank, v) + OfRank(b, rank, v) {
      MergedOfRank(a, b, rank, v);
    }
  }

  /** Sorting a concatenation is merging the sorted parts, the left part first on ties. */
  lemma SortOfAppend<T>(a: seq<T>, b: seq<T>, rank: T -> real)
    ensures StableSorted(a + b, rank) == Merged(StableSorted(a, rank), StableSorted(b, rank), rank)
  {
    var p, q := StableSorted(a, rank), StableSorted(b, rank);
    StableSortedLaws(a, rank);
    StableSortedLaws(b, rank);
    StableSortedLaws(a + b, rank);
    MergedLaws(p, q, rank);
    forall v ensures OfRank(StableSorted(a + b, rank), rank, v) == OfRank(Merged(p, q, rank), rank, v) {
      OfRankAppend(a, b, rank, v);
    }
    SortedIsDetermined(StableSorted(a + b, rank), Merged(p, q, rank), rank);
  }

  function Take<T>(s: seq<T>, n: nat): seq<T> { if |s| <= n then s else s[..n] }

  /** The first `n` of a merge need only the first `n` of each side. */
  lemma {:induction false} TakeOfMerge<T>(a: seq<T>, b: seq<T>, rank: T -> real, n: nat)
    ensures Take(Merged(a, b, rank), n) == Take(Merged(Take(a, n), Take(b, n), rank), n)
    decreases n, |a| + |b|, 1
  {
    hide Merged, Take;
    if n == 0 {
      TakeNone(Merged(a, b, rank));
      TakeNone(Merged(Take(a, n), Take(b, n), rank));
    } else if a == [] || b == [] {
      TakeOfOne(a, b, rank, n);
    } else {
      TakeTail(a, n);
      TakeTail(b, n);
      MergedStep(a, b, rank);
      MergedStep(Take(a, n), Take(b, n), rank);
      if rank(b[0]) < rank(a[0]) {
        TakeOfMergeRight(a, b, rank, n);
      } else {
        TakeOfMergeLeft(a, b, rank, n);
      }
    }
  }

  lemma TakeNone<T>(s: seq<T>)
    ensures Take(s, 0) == []
  {
  }

  lemma TakeOfOne<T>(a: seq<T>, b: seq<T>, rank: T -> real, n: nat)
    requires a == [] || b == []
    ensures Take(Merged(a, b, rank), n) == Take(Merged(Take(a, n), Take(b, n), rank), n)
  {
  }

  lemma TakeOfMergeRight<T>(a: seq<T>, b: seq<T>, rank: T -> real, n: nat)
    requires 0 < n && a != [] && b != []
    ensures Take([b[0]] + Merged(a, b[1..], rank), n) == Take([b[0]] + Merged(Take(a, n), Take(b[1..], n - 1), rank), n)
    decreases n, |a| + |b|, 0
  {
    hide Merged, Take;
    TakeOfMerge(a, b[1..], rank, n - 1);
    TakeOfMerge(Take(a, n), Take(b[1..], n - 1), rank, n - 1);
    TakeTwice(b[1..], n - 1);
    TakeLess(a, n);
    TakeCons(b[0], Merged(a, b[1..], rank), n);
    TakeCons(b[0], Merged(Take(a, n), Take(b[1..], n - 1), rank), n);
  }

  lemma TakeOfMergeLeft<T>(a: seq<T>, b: seq<T>, rank: T -> real, n: nat)
    requires 0 < n && a != [] && b != []
    ensures Take([a[0]] + Merged(a[1..], b, rank), n) == Take([a[0]] + Merged(Take(a[1..], n - 1), Take(b, n), rank), n)
    decreases n, |a| + |b|, 0
  {
    hide Merged, Take;
    TakeOfMerge(a[1..], b, rank, n - 1);
    TakeOfMerge(Take(a[1..], n - 1), Take(b, n), rank, n - 1);
    TakeTwice(a[1..], n - 1);
    TakeLess(b, n);
    TakeCons(a[0], Merged(a[1..], b, rank), n);
    TakeCons(a[0], Merged(Take(a[1..], n - 1), Take(b, n), rank), n);
  }

  lemma MergedStep<T>(a: seq<T>, b: seq<T>, rank: T -> real)
    requires a != [] && b != []
    ensures Merged(a, b, rank) ==
            if rank(b[0]) < rank(a[0]) then [b[0]] + Merged(a, b[1..], rank) else [a[0]] + Merged(a[1..], b, rank)
  {
  }

  lemma TakeIsSorted<T>(s: seq<T>, n: nat, rank: T -> real)
    requires Sorted(s, rank)
    ensures Sorted(Take(s, n), rank)
  {
  }

  lemma TakeTail<T>(s: seq<T>, n: nat)
    requires s != [] && 0 < n
    ensures Take(s, n) != [] && Take(s, n)[0] == s[0] && Take(s, n)[1..] == Take(s[1..], n - 1)
  {
  }

  lemma TakeTwice<T>(s: seq<T>, n: nat)
    ensures Take(Take(s, n), n) == Take(s, n)
  {
  }

  lemma TakeLess<T>(s: seq<T>, n: nat)
    requires 0 < n
    ensures Take(Take(s, n), n - 1) == Take(s, n - 1)
  {
  }

  lemma TakeCons<T>(x: T, s: seq<T>, n: nat)
    requires 0 < n
    ensures Take([x] + s, n) == [x] + Take(s, n - 1)
  {
  }

  // ---------------------------------------------------------------- the sort in place

  /** One turn of the outer loop, on the whole sequence: the element at `i` finds its place in front. */
  function OneMore<T>(s: seq<T>, i: nat, rank: T -> real): seq<T>
    requires i < |s|
  {
    Inserted(s[..i], s[i], rank) + s[i + 1..]
  }

  lemma SortedOneMore<T>(was: seq<T>, now: seq<T>, i: nat, rank: T -> real)
    requires i < |was| && now == StableSorted(was[..i], rank) + was[i..]
    ensures |now| == |was| && OneMore(now, i, rank) == StableSorted(was[..i + 1], rank) + was[i + 1..]
  {
    hide Inserted;
    assert now[..i] == StableSorted(was[..i], rank) && now[i] == was[i] && now[i + 1..] == was[i + 1..];
    assert was[..i + 1][..i] == was[..i];
  }

  lemma SortedFirst<T>(was: seq<T>, rank: T -> real)
    requires was != []
    ensures was == StableSorted(was[..1], rank) + was[1..]
  {
    assert was[..1][..0] == [] && was == was[..1] + was[1..];
  }

  method InsertionSort<T>(a: array<T>, rank: T -> real)
    modifies a
    ensures a[..] == StableSorted(old(a[..]), rank)
  {
    hide StableSorted, OneMore;
    ghost var was := a[..];
    var i := 1;
    if a.Length == 0 {
      SortedNothing(was, rank);
      return;
    }
    SortedFirst(was, rank);
    while i < a.Length
      invariant 1 <= i <= a.Length
      invariant a[..] == StableSorted(was[..i], rank) + was[i..]
    {
      SortedOneMore(was, a[..], i, rank);
      SiftDown(a, i, rank);
      i := i + 1;
    }
    assert was[..a.Length] == was && was[a.Length..] == [];
  }

  lemma SortedNothing<T>(was: seq<T>, rank: T -> real)
    requires was == []
    ensures StableSorted(was, rank) == was
  {
  }

  /** What is left of a turn: `now` is `was` with the element of position `i` moved to position `j`,
      and it belongs there or further to the front. */
  ghost predicate Sifting<T>(was: seq<T>, i: nat, now: seq<T>, j: nat, rank: T -> real) {
    && j <= i < |was| && now == was[..j] + [was[i]] + was[j..i] + was[i + 1..]
    && Inserted(was[..i], was[i], rank) == Inserted(was[..j], was[i], rank) + was[j..i]
  }

  function Swapped<T>(s: seq<T>, j: nat): seq<T>
    requires 0 < j < |s|
  {
    s[j - 1 := s[j]][j := s[j - 1]]
  }

  lemma SiftStarts<T>(was: seq<T>, i: nat, rank: T -> real)
    requires i < |was|
    ensures Sifting(was, i, was, i, rank)
  {
    assert was[i..i] == [] && was == was[..i] + [was[i]] + was[i + 1..];
  }

  lemma SwapDown<T>(was: seq<T>, i: nat, now: seq<T>, j: nat, rank: T -> real)
    requires Sifting(was, i, now, j, rank) && 0 < j < |now| && rank(now[j]) < rank(now[j - 1])
    ensures Sifting(was, i, Swapped(now, j), j - 1, rank)
  {
    assert now[j] == was[i] && now[j - 1] == was[j - 1];
    assert was[..j][..j - 1] == was[..j - 1];
    assert was[j - 1..i] == [was[j - 1]] + was[j..i];
    assert Swapped(now, j) == was[..j - 1] + [was[i]] + was[j - 1..i] + was[i + 1..];
  }

  lemma StopHere<T>(was: seq<T>, i: nat, now: seq<T>, j: nat, rank: T -> real)
    requires Sifting(was, i, now, j, rank) && j < |now| && (j > 0 ==> rank(now[j - 1]) <= rank(now[j]))
    ensures now == OneMore(was, i, rank)
  {
    assert now[j] == was[i] && (j > 0 ==> was[..j][j - 1] == now[j - 1]);
    assert now == (was[..j] + [was[i]] + was[j..i]) + was[i + 1..];
  }

  method SwapWithPrevious<T>(a: array<T>, j: nat)
    requires 0 < j < a.Length
    modifies a
    ensures a[..] == Swapped(old(a[..]), j)
  {
    a[j], a[j - 1] := a[j - 1], a[j];
  }

  /** The inner loop: swap the element at `i` towards the front while it ranks strictly lower. */
  method SiftDown<T>(a: array<T>, i: nat, rank: T -> real)
    requires i < a.Length
    modifies a
    ensures a[..] == OneMore(old(a[..]), i, rank)
  {
    hide OneMore, Sifting, Swapped;
    ghost var was := a[..];
    var j := i;
    SiftStarts(was, i, rank);
    while j > 0 && rank(a[j]) < rank(a[j - 1])
      invariant 0 <= j <= i
      invariant Sifting(was, i, a[..], j, rank)
    {
      SwapDown(was, i, a[..], j, rank);
      SwapWithPrevious(a, j);
      j := j - 1;
    }
    StopHere(was, i, a[..], j, rank);
  }
}
