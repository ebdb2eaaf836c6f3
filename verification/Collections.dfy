/** Options, filtered sequences, and sequences and sets of each other's elements. */
module Collections {

  datatype Option<+T> = None | Some(value: T)

  /** The elements that satisfy `keep`, in order. */
  function Select<T>(s: seq<T>, keep: T -> bool): seq<T> {
    if s == [] then []
    else
      var n := |s| - 1;
      if keep(s[n]) then Select(s[..n], keep) + [s[n]] else Select(s[..n], keep)
  }

  lemma {:induction false} SelectMembers<T>(s: seq<T>, keep: T -> bool)
    ensures forall x :: x in Select(s, keep) <==> x in s && keep(x)
  {
    if s != [] {
      var n := |s| - 1;
      SelectMembers(s[..n], keep);
      assert s == s[..n] + [s[n]];
    }
  }

  lemma {:induction false} SelectMember<T>(s: seq<T>, keep: T -> bool, x: T)
    ensures x in Select(s, keep) <==> x in s && keep(x)
  {
    if s != [] {
      var n := |s| - 1;
      SelectMember(s[..n], keep, x);
      assert s == s[..n] + [s[n]];
    }
  }

  lemma {:induction false} SelectKeepsOrder<T>(s: seq<T>, keep: T -> bool, i: nat, j: nat)
    requires i < j < |Select(s, keep)|
    ensures exists p, q :: 0 <= p < q < |s| && s[p] == Select(s, keep)[i] && s[q] == Select(s, keep)[j]
  {
    var n := |s| - 1;
    var front := Select(s[..n], keep);
    if j < |front| {
      SelectKeepsOrder(s[..n], keep, i, j);
      var p, q :| 0 <= p < q < n && s[..n][p] == front[i] && s[..n][q] == front[j];
      assert s[p] == s[..n][p] && s[q] == s[..n][q];
    } else {
      SelectMember(s[..n], keep, front[i]);
      var p :| 0 <= p < n && s[..n][p] == front[i];
      assert s[p] == s[..n][p];
    }
  }

  lemma {:induction false} SelectAppend<T>(a: seq<T>, b: seq<T>, keep: T -> bool)
    ensures Select(a + b, keep) == Select(a, keep) + Select(b, keep)
    decreases |b|
  {
    if b == [] {
      assert a + b == a;
    } else {
      var n := |b| - 1;
      assert (a + b)[..|a| + n] == a + b[..n];
      SelectAppend(a, b[..n], keep);
    }
  }

  lemma {:induction false} SelectSame<T>(s: seq<T>, a: T -> bool, b: T -> bool)
    requires forall x | x in s :: a(x) == b(x)
    ensures Select(s, a) == Select(s, b)
  {
    if s != [] { SelectSame(s[..|s| - 1], a, b); }
  }

  lemma {:induction false} SelectAll<T>(s: seq<T>, a: T -> bool)
    requires forall x | x in s :: a(x)
    ensures Select(s, a) == s
  {
    if s != [] { SelectAll(s[..|s| - 1], a); }
  }

  lemma {:induction false} SelectNone<T>(s: seq<T>, a: T -> bool)
    requires forall x | x in s :: !a(x)
    ensures Select(s, a) == []
  {
    if s != [] { SelectNone(s[..|s| - 1], a); }
  }

  lemma {:induction false} SelectTwice<T>(s: seq<T>, a: T -> bool, b: T -> bool, both: T -> bool)
    requires forall x | x in s :: both(x) == (a(x) && b(x))
    ensures Select(Select(s, a), b) == Select(s, both)
  {
    if s != [] {
      var n := |s| - 1;
      SelectTwice(s[..n], a, b, both);
      if a(s[n]) { SelectAppend(Select(s[..n], a), [s[n]], b); assert [s[n]][..0] == []; }
    }
  }

  function ToSet<T>(s: seq<T>): set<T> { set x | x in s }

  predicate Distinct<T(==)>(s: seq<T>) { forall i, j | 0 <= i < j < |s| :: s[i] != s[j] }

  lemma DistinctConcat<T>(a: seq<T>, b: seq<T>)
    ensures Distinct(a + b) <==> Distinct(a) && Distinct(b) && forall x | x in a :: x !in b
  {
    var s := a + b;
    if Distinct(a) && Distinct(b) && forall x | x in a :: x !in b {
      forall i, j | 0 <= i < j < |s| ensures s[i] != s[j] {
        if i < |a| <= j { assert a[i] == s[i] && a[i] in a && b[j - |a|] == s[j]; }
        else if i < |a| { assert a[i] != a[j]; }
        else { assert b[i - |a|] != b[j - |a|]; }
      }
    }
    if Distinct(s) {
      forall i, j | 0 <= i < |a| && 0 <= j < |b| ensures a[i] != b[j] { assert s[i] == a[i] && s[|a| + j] == b[j]; }
      forall i, j | 0 <= i < j < |b| ensures b[i] != b[j] { assert s[|a| + i] == b[i] && s[|a| + j] == b[j]; }
      forall i, j | 0 <= i < j < |a| ensures a[i] != a[j] { assert s[i] == a[i] && s[j] == a[j]; }
      forall x | x in a ensures x !in b {
        var i :| 0 <= i < |a| && a[i] == x;
        assert forall j | 0 <= j < |b| :: a[i] != b[j];
      }
    }
  }

  lemma {:induction false} SelectDistinct<T>(s: seq<T>, keep: T -> bool)
    requires Distinct(s)
    ensures Distinct(Select(s, keep))
  {
    if s != [] {
      var n := |s| - 1;
      SelectDistinct(s[..n], keep);
      SelectMembers(s[..n], keep);
      DistinctConcat(s[..n], [s[n]]);
      DistinctConcat(Select(s[..n], keep), [s[n]]);
      assert s == s[..n] + [s[n]];
    }
  }

  /** As many elements as members exactly when nothing repeats. */
  lemma {:induction false} DistinctCardinality<T>(s: seq<T>)
    ensures |ToSet(s)| <= |s|
    ensures Distinct(s) <==> |ToSet(s)| == |s|
  {
    if s != [] {
      var n := |s| - 1;
      DistinctCardinality(s[..n]);
      assert s == s[..n] + [s[n]];
      assert ToSet(s) == ToSet(s[..n]) + {s[n]};
    }
  }

  /** Some element; maps and sets are visited in no particular order. */
  method Pick<T(==)>(s: set<T>) returns (x: T)
    requires s != {}
    ensures x in s
  {
    x :| x in s;
  }

  lemma MissingFrom<T>(a: set<T>, b: set<T>) returns (x: T)
    requires a <= b && a != b
    ensures x in b && x !in a
  {
    x :| x in b && x !in a;
  }

  lemma SubsetIsSmaller<T>(a: set<T>, b: set<T>)
    requires a <= b
    ensures |a| <= |b| && (a != b ==> |a| < |b|)
  {
    assert b == a + (b - a);
  }

  /** A permutation has the same elements and repeats as often. */
  lemma SamePermutation<T>(s: seq<T>, t: seq<T>)
    requires multiset(s) == multiset(t)
    ensures ToSet(s) == ToSet(t) && (Distinct(s) ==> Distinct(t))
  {
    hide Distinct;
    assert |s| == |multiset(s)| == |multiset(t)| == |t|;
    assert forall x :: x in s <==> x in multiset(s);
    assert forall x :: x in t <==> x in multiset(t);
    DistinctCardinality(s);
    DistinctCardinality(t);
  }
}
