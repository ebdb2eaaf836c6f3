/** Sorting lists of strings in place, as the standard library does for paths and ids. */
module StringOrder {
  import opened Collections

  /** The byte order of strings. */
  predicate Leq(a: string, b: string) {
    a == [] || (b != [] && (a[0] < b[0] || (a[0] == b[0] && Leq(a[1..], b[1..]))))
  }

  /** The first difference, at `i`. */
  ghost predicate DiffersAt(a: string, b: string, i: nat) {
    i < |a| && i < |b| && a[..i] == b[..i] && a[i] < b[i]
  }

  lemma DiffersLater(a: string, b: string, i: nat)
    requires a != [] && b != []
    ensures a[0] == b[0] ==> (DiffersAt(a, b, i + 1) <==> DiffersAt(a[1..], b[1..], i))
    ensures DiffersAt(a, b, 0) <==> a[0] < b[0]
    ensures a[0] != b[0] ==> !DiffersAt(a, b, i + 1)
  {
    if i < |a| - 1 && i < |b| - 1 {
      assert a[..i + 1] == [a[0]] + a[1..][..i] && b[..i + 1] == [b[0]] + b[1..][..i];
      assert a[..i + 1][0] == a[0] && b[..i + 1][0] == b[0];
      assert a[..i + 1] == b[..i + 1] ==> a[1..][..i] == a[..i + 1][1..] && b[1..][..i] == b[..i + 1][1..];
    }
  }

  /** By the first difference; a proper beginning comes first. */
  lemma {:induction false} LeqIs(a: string, b: string)
    ensures Leq(a, b) <==> a <= b || exists i: nat :: DiffersAt(a, b, i)
  {
    if a == [] {
      assert a <= b;
    } else if b != [] {
      hide DiffersAt;
      LeqIs(a[1..], b[1..]);
      assert a == [a[0]] + a[1..] && b == [b[0]] + b[1..];
      assert a <= b <==> a[0] == b[0] && a[1..] <= b[1..];
      DiffersLater(a, b, 0);
      if i: nat :| DiffersAt(a[1..], b[1..], i) { DiffersLater(a, b, i); }
      if i: nat :| DiffersAt(a, b, i) { if i > 0 { DiffersLater(a, b, i - 1); } }
    }
  }

  lemma {:induction false} LeqTotal(a: string, b: string)
    ensures Leq(a, b) || Leq(b, a)
  {
    if a != [] && b != [] { LeqTotal(a[1..], b[1..]); }
  }

  lemma {:induction false} LeqTransitive(a: string, b: string, c: string)
    requires Leq(a, b) && Leq(b, c)
    ensures Leq(a, c)
  {
    if a != [] && a[0] == b[0] == c[0] { LeqTransitive(a[1..], b[1..], c[1..]); }
  }

  predicate Ordered(s: seq<string>) { forall i, j | 0 <= i < j < |s| :: Leq(s[i], s[j]) }

  function Inserted(s: seq<string>, x: string): seq<string> {
    if s == [] || Leq(s[|s| - 1], x) then s + [x] else Inserted(s[..|s| - 1], x) + [s[|s| - 1]]
  }

  lemma {:induction false} InsertedIsOrdered(s: seq<string>, x: string)
    requires Ordered(s)
    ensures Ordered(Inserted(s, x)) && multiset(Inserted(s, x)) == multiset(s) + multiset{x}
  {
    hide Leq;
    if s != [] {
      var n := |s| - 1;
      var last := s[n];
      assert s == s[..n] + [last];
      if Leq(last, x) {
        forall i | 0 <= i < |s| ensures Leq(s[i], x) { if i < n { LeqTransitive(s[i], last, x); } }
      } else {
        LeqTotal(last, x);
        InsertedIsOrdered(s[..n], x);
        var t := Inserted(s[..n], x);
        forall i | 0 <= i < |t| ensures Leq(t[i], last) {
          assert t[i] in multiset(t);
          assert t[i] in multiset(s[..n]) || t[i] == x;
          assert t[i] in s[..n] || t[i] == x;
        }
      }
    }
  }

  lemma NothingOrdered()
    ensures Ordered([])
  {
  }

  method Sorted(values: seq<string>) returns (s: seq<string>)
    ensures Ordered(s) && multiset(s) == multiset(values)
  {
    hide Ordered, Inserted;
    NothingOrdered();
    s := [];
    for i := 0 to |values|
      invariant Ordered(s) && multiset(s) == multiset(values[..i])
    {
      InsertedIsOrdered(s, values[i]);
      assert values[..i + 1] == values[..i] + [values[i]];
      s := Inserted(s, values[i]);
    }
    assert values[..|values|] == values;
  }

  /** Sorts the first `n` elements in place. */
  method SortPrefix(a: array<string>, n: nat)
    requires n <= a.Length && Distinct(a[..n])
    modifies a
    ensures Distinct(a[..n]) && Ordered(a[..n]) && ToSet(a[..n]) == ToSet(old(a[..n]))
  {
    hide Ordered, Distinct, ToSet;
    var s := Sorted(a[..n]);
    SamePermutation(a[..n], s);
    assert |s| == |multiset(s)| == |multiset(a[..n])| == n;
    for i := 0 to n
      invariant a[..i] == s[..i]
    {
      a[i] := s[i];
    }
    assert s[..n] == s;
  }

  /** Map keys in no particular order, then sorted. */
  method SortedKeys(keys: set<string>) returns (out: seq<string>)
    ensures Distinct(out) && Ordered(out) && ToSet(out) == keys
  {
    hide Ordered, Inserted;
    NothingOrdered();
    out := [];
    var rest := keys;
    assert ToSet(out) == {};
    while rest != {}
      invariant rest <= keys && ToSet(out) == keys - rest && Distinct(out) && Ordered(out)
      decreases rest
    {
      var key := Pick(rest);
      InsertedIsOrdered(out, key);
      InsertedIsDistinct(out, key);
      out := Inserted(out, key);
      rest := rest - {key};
    }
  }

  lemma InsertedIsDistinct(s: seq<string>, x: string)
    requires Ordered(s) && Distinct(s) && x !in ToSet(s)
    ensures Distinct(Inserted(s, x)) && ToSet(Inserted(s, x)) == ToSet(s) + {x}
  {
    hide Ordered, Inserted;
    InsertedIsOrdered(s, x);
    assert multiset(s + [x]) == multiset(s) + multiset{x};
    SamePermutation(s + [x], Inserted(s, x));
    assert ToSet(s + [x]) == ToSet(s) + {x};
    assert forall y | y in s :: y in ToSet(s);
  }

  lemma GreatestIsLast(a: seq<string>, b: seq<string>)
    requires a != [] && Ordered(a) && Ordered(b) && ToSet(a) == ToSet(b)
    ensures b != [] && Leq(a[|a| - 1], b[|b| - 1])
  {
    hide Leq;
    var last := a[|a| - 1];
    assert last in ToSet(b);
    var i :| 0 <= i < |b| && b[i] == last;
    LeqReflexive(last);
  }

  /** A sorted list without repetition is determined by its elements. */
  lemma {:induction false} SortedListIsDetermined(a: seq<string>, b: seq<string>)
    requires Ordered(a) && Ordered(b) && Distinct(a) && Distinct(b) && ToSet(a) == ToSet(b)
    ensures a == b
  {
    hide Leq;
    if a != [] {
      GreatestIsLast(a, b);
      GreatestIsLast(b, a);
      var m, n := |a| - 1, |b| - 1;
      LeqAntisymmetric(a[m], b[n]);
      WithoutLast(a);
      WithoutLast(b);
      SortedListIsDetermined(a[..m], b[..n]);
      assert a == a[..m] + [a[m]] && b == b[..n] + [b[n]];
    } else {
      DistinctCardinality(b);
      assert ToSet(a) == {};
    }
  }

  lemma WithoutLast(a: seq<string>)
    requires a != [] && Ordered(a) && Distinct(a)
    ensures var m := |a| - 1; Ordered(a[..m]) && Distinct(a[..m]) && ToSet(a[..m]) == ToSet(a) - {a[m]}
  {
    hide Leq;
    assert a == a[..|a| - 1] + [a[|a| - 1]];
  }

  lemma {:induction false} LeqReflexive(a: string)
    ensures Leq(a, a)
  {
    if a != [] { LeqReflexive(a[1..]); }
  }

  lemma {:induction false} LeqAntisymmetric(a: string, b: string)
    requires Leq(a, b) && Leq(b, a)
    ensures a == b
  {
    if a != [] { LeqAntisymmetric(a[1..], b[1..]); }
  }
}
