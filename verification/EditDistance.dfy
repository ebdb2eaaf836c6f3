/** The bounded Levenshtein distance behind fuzzy symbol search (query/parser.go).

    `Distance` is the textbook recurrence on prefixes.  It is given a meaning that does not
    mention the recurrence: it is the length of the shortest script of single-rune edits that
    turns one text into the other.  The two-row, early-exit procedure is proved against it.
    A text is the sequence of runes obtained from a Go string. */
module EditDistance {

  // ---------------------------------------------------------------- edit scripts

  datatype Edit = Insert(at: nat, rune: char) | Delete(at: nat) | Replace(at: nat, rune: char)

  predicate Fits(s: string, e: Edit) {
    if e.Insert? then e.at <= |s| else e.at < |s|
  }

  function Apply(s: string, e: Edit): string
    requires Fits(s, e)
  {
    match e
    case Insert(i, c) => s[..i] + [c] + s[i..]
    case Delete(i) => s[..i] + s[i + 1..]
    case Replace(i, c) => s[..i] + [c] + s[i + 1..]
  }

  /** `es` can be carried out on `s` from left to right and ends in `t`. */
  predicate Rewrites(s: string, es: seq<Edit>, t: string)
    decreases |es|
  {
    if es == [] then s == t
    else Fits(s, es[0]) && Rewrites(Apply(s, es[0]), es[1..], t)
  }

  lemma {:induction false} RewritesTrans(s: string, es: seq<Edit>, t: string, fs: seq<Edit>, u: string)
    requires Rewrites(s, es, t) && Rewrites(t, fs, u)
    ensures Rewrites(s, es + fs, u)
    decreases |es|
  {
    if es == [] {
      assert es + fs == fs;
    } else {
      RewritesTrans(Apply(s, es[0]), es[1..], t, fs, u);
      assert (es + fs)[1..] == es[1..] + fs;
    }
  }

  lemma {:induction false} RewritesInContext(s: string, es: seq<Edit>, t: string, tail: string)
    requires Rewrites(s, es, t)
    ensures Rewrites(s + tail, es, t + tail)
    decreases |es|
  {
    if es != [] {
      ApplyInContext(s, es[0], tail);
      hide Apply, Fits;
      RewritesInContext(Apply(s, es[0]), es[1..], t, tail);
    }
  }

  lemma ApplyInContext(s: string, e: Edit, tail: string)
    requires Fits(s, e)
    ensures Fits(s + tail, e) && Apply(s + tail, e) == Apply(s, e) + tail
  {
    assert (s + tail)[..e.at] == s[..e.at];
    assert (s + tail)[e.at..] == s[e.at..] + tail;
  }

  // ---------------------------------------------------------------- the recurrence

  function Min3(a: int, b: int, c: int): (m: int)
    ensures m <= a && m <= b && m <= c && m in {a, b, c}
  {
    if a <= b && a <= c then a else if b <= c then b else c
  }

  function Cost(x: char, y: char): nat { if x == y then 0 else 1 }

  function Init(s: string): string
    requires s != ""
  {
    s[..|s| - 1]
  }

  function Last(s: string): char
    requires s != ""
  {
    s[|s| - 1]
  }

  function Distance(a: string, b: string): nat
    decreases |a| + |b|
  {
    if a == "" then |b|
    else if b == "" then |a|
    else Min3(Distance(a, Init(b)) + 1,
              Distance(Init(a), b) + 1,
              Distance(Init(a), Init(b)) + Cost(Last(a), Last(b)))
  }

  // ---------------------------------------------------------------- Distance is the least script length

  lemma ThenOneEdit(s: string, es: seq<Edit>, t: string, e: Edit, u: string)
    requires Rewrites(s, es, t) && Fits(t, e) && Apply(t, e) == u
    ensures Rewrites(s, es + [e], u)
  {
    assert Rewrites(u, [e][1..], u);
    RewritesTrans(s, es, t, [e], u);
  }

  lemma OneEditThen(s: string, e: Edit, t: string, es: seq<Edit>, u: string)
    requires Fits(s, e) && Apply(s, e) == t && Rewrites(t, es, u)
    ensures Rewrites(s, [e] + es, u)
  {
    assert ([e] + es)[1..] == es;
  }

  lemma NoEdits(s: string)
    ensures Rewrites(s, [], s)
  {
  }

  lemma InsertLast(b: string)
    requires b != ""
    ensures Fits(Init(b), Insert(|b| - 1, Last(b))) && Apply(Init(b), Insert(|b| - 1, Last(b))) == b
  {
  }

  lemma DeleteLast(a: string)
    requires a != ""
    ensures Fits(a, Delete(|a| - 1)) && Apply(a, Delete(|a| - 1)) == Init(a)
  {
  }

  /** A script of exactly `Distance(a, b)` edits exists. */
  lemma {:induction false} ShortestScript(a: string, b: string) returns (es: seq<Edit>)
    ensures Rewrites(a, es, b) && |es| == Distance(a, b)
    decreases |a| + |b|
  {
    hide Rewrites, Apply, Fits;
    if a == "" && b == "" {
      es := [];
      NoEdits(a);
    } else if a == "" || (b != "" && Distance(a, b) == Distance(a, Init(b)) + 1) {
      es := ShortestScript(a, Init(b));
      InsertLast(b);
      ThenOneEdit(a, es, Init(b), Insert(|b| - 1, Last(b)), b);
      es := es + [Insert(|b| - 1, Last(b))];
    } else if b == "" || Distance(a, b) == Distance(Init(a), b) + 1 {
      es := ShortestScript(Init(a), b);
      DeleteLast(a);
      OneEditThen(a, Delete(|a| - 1), Init(a), es, b);
      es := [Delete(|a| - 1)] + es;
    } else {
      es := ShortestScript(Init(a), Init(b));
      es := RewriteThroughLast(a, b, es);
    }
  }

  lemma RewriteThroughLast(a: string, b: string, es: seq<Edit>) returns (fs: seq<Edit>)
    requires a != "" && b != "" && Rewrites(Init(a), es, Init(b))
    ensures Rewrites(a, fs, b) && |fs| == |es| + Cost(Last(a), Last(b))
  {
    hide Rewrites, Apply, Fits;
    RewritesInContext(Init(a), es, Init(b), [Last(a)]);
    assert Init(a) + [Last(a)] == a;
    var m := Init(b) + [Last(a)];
    if Last(a) == Last(b) {
      assert m == b;
      fs := es;
    } else {
      ReplaceLast(b, Last(a));
      ThenOneEdit(a, es, m, Replace(|b| - 1, Last(b)), b);
      fs := es + [Replace(|b| - 1, Last(b))];
    }
  }

  lemma ReplaceLast(b: string, c: char)
    requires b != ""
    ensures Fits(Init(b) + [c], Replace(|b| - 1, Last(b))) && Apply(Init(b) + [c], Replace(|b| - 1, Last(b))) == b
  {
  }

  lemma {:induction false} DistanceToSelf(a: string)
    ensures Distance(a, a) == 0
    decreases |a|
  {
    if a != "" { DistanceToSelf(Init(a)); }
  }

  lemma {:induction false} DropLast(a: string, u: string, x: char)
    ensures Distance(a, u) <= Distance(a, u + [x]) + 1
    ensures Distance(a, u + [x]) <= Distance(a, u) + 1
    decreases |a|
  {
    assert Init(u + [x]) == u;
    if a != "" { DropLast(Init(a), u, x); }
  }

  /** Inserting one rune anywhere moves the distance by at most one, in either direction. */
  lemma {:induction false} InsertionMovesByOne(a: string, u: string, x: char, v: string)
    ensures Distance(a, u + [x] + v) <= Distance(a, u + v) + 1
    ensures Distance(a, u + v) <= Distance(a, u + [x] + v) + 1
    decreases |a| + |v|
  {
    if v == "" {
      assert u + v == u && u + [x] + v == u + [x];
      DropLast(a, u, x);
    } else if a != "" {
      var w := Init(v);
      assert Init(u + [x] + v) == u + [x] + w && Last(u + [x] + v) == Last(v);
      assert Init(u + v) == u + w && Last(u + v) == Last(v);
      InsertionMovesByOne(a, u, x, w);
      InsertionMovesByOne(Init(a), u, x, v);
      InsertionMovesByOne(Init(a), u, x, w);
    }
  }

  lemma {:induction false} ReplacementMovesByOne(a: string, u: string, x: char, y: char, v: string)
    ensures Distance(a, u + [y] + v) <= Distance(a, u + [x] + v) + 1
    decreases |a| + |v|
  {
    if a != "" {
      if v == "" {
        assert u + [y] + v == u + [y] && u + [x] + v == u + [x];
        assert Init(u + [x]) == u && Init(u + [y]) == u;
        DropLast(a, u, x);
        ReplacementMovesByOne(Init(a), u, x, y, v);
      } else {
        var w := Init(v);
        assert Init(u + [x] + v) == u + [x] + w && Last(u + [x] + v) == Last(v);
        assert Init(u + [y] + v) == u + [y] + w && Last(u + [y] + v) == Last(v);
        ReplacementMovesByOne(a, u, x, y, w);
        ReplacementMovesByOne(Init(a), u, x, y, v);
        ReplacementMovesByOne(Init(a), u, x, y, w);
      }
    }
  }

  lemma EditMovesByOne(a: string, s: string, e: Edit)
    requires Fits(s, e)
    ensures Distance(a, Apply(s, e)) <= Distance(a, s) + 1
  {
    match e
    case Insert(i, c) =>
      assert s == s[..i] + s[i..];
      InsertionMovesByOne(a, s[..i], c, s[i..]);
    case Delete(i) =>
      assert s == s[..i] + [s[i]] + s[i + 1..];
      InsertionMovesByOne(a, s[..i], s[i], s[i + 1..]);
    case Replace(i, c) =>
      assert s == s[..i] + [s[i]] + s[i + 1..];
      ReplacementMovesByOne(a, s[..i], s[i], c, s[i + 1..]);
  }

  lemma {:induction false} ScriptBoundsDistance(a: string, s: string, es: seq<Edit>, t: string)
    requires Rewrites(s, es, t)
    ensures Distance(a, t) <= Distance(a, s) + |es|
    decreases |es|
  {
    if es != [] {
      EditMovesByOne(a, s, es[0]);
      ScriptBoundsDistance(a, Apply(s, es[0]), es[1..], t);
    }
  }

  /** No shorter script exists. */
  lemma NoShorterScript(a: string, b: string, es: seq<Edit>)
    requires Rewrites(a, es, b)
    ensures Distance(a, b) <= |es|
  {
    DistanceToSelf(a);
    ScriptBoundsDistance(a, a, es, b);
  }

  ghost predicate WithinEdits(a: string, b: string, n: int) {
    exists es :: Rewrites(a, es, b) && |es| <= n
  }

  lemma DistanceIsLeastScript(a: string, b: string, n: int)
    ensures Distance(a, b) <= n <==> WithinEdits(a, b, n)
  {
    var shortest := ShortestScript(a, b);
    forall es | Rewrites(a, es, b) ensures Distance(a, b) <= |es| {
      NoShorterScript(a, b, es);
    }
  }

  // ---------------------------------------------------------------- what the early exits rest on

  function AbsDiff(a: int, b: int): nat { if a > b then a - b else b - a }

  lemma {:induction false} LengthGap(a: string, b: string)
    ensures AbsDiff(|a|, |b|) <= Distance(a, b)
    decreases |a| + |b|
  {
    if a != "" && b != "" {
      LengthGap(a, Init(b));
      LengthGap(Init(a), b);
      LengthGap(Init(a), Init(b));
    }
  }

  ghost predicate RowAbove(a: string, b: string, i: nat, bound: int)
    requires i <= |a|
  {
    forall j | 0 <= j <= |b| :: bound < Distance(a[..i], b[..j])
  }

  /** One row entirely above a bound keeps the next row above it. */
  lemma {:induction false} NextRowAbove(a: string, b: string, i: nat, bound: int, j: nat)
    requires i < |a| && j <= |b| && RowAbove(a, b, i, bound)
    ensures bound < Distance(a[..i + 1], b[..j])
    decreases j
  {
    var p := a[..i + 1];
    assert Init(p) == a[..i];
    if j == 0 {
      assert bound < Distance(a[..i], b[..0]);
    } else {
      NextRowAbove(a, b, i, bound, j - 1);
      assert Init(b[..j]) == b[..j - 1];
    }
  }

  lemma {:induction false} RowsStayAbove(a: string, b: string, i: nat, bound: int)
    requires i <= |a| && RowAbove(a, b, i, bound)
    ensures bound < Distance(a, b)
    decreases |a| - i
  {
    if i == |a| {
      assert a[..i] == a && b[..|b|] == b;
    } else {
      forall j | 0 <= j <= |b| ensures bound < Distance(a[..i + 1], b[..j]) {
        NextRowAbove(a, b, i, bound, j);
      }
      RowsStayAbove(a, b, i + 1, bound);
    }
  }

  lemma FirstColumn(a: string, e: string)
    requires e == ""
    ensures Distance(a, e) == |a|
  {
  }

  lemma FirstRow(e: string, b: string)
    requires e == ""
    ensures Distance(e, b) == |b|
  {
  }

  lemma Cell(a: string, b: string, i: nat, j: nat)
    requires 0 < i <= |a| && 0 < j <= |b|
    ensures Distance(a[..i], b[..j]) ==
            Min3(Distance(a[..i], b[..j - 1]) + 1,
                 Distance(a[..i - 1], b[..j]) + 1,
                 Distance(a[..i - 1], b[..j - 1]) + Cost(a[i - 1], b[j - 1]))
  {
    assert Init(a[..i]) == a[..i - 1] && Init(b[..j]) == b[..j - 1];
  }

  /** The two reasons for giving up early. */
  ghost predicate CutOff(a: string, b: string, maxDist: int) {
    maxDist < AbsDiff(|a|, |b|) || exists i | 0 <= i <= |a| :: RowAbove(a, b, i, maxDist)
  }

  lemma OneTextEmpty(a: string, b: string, maxDist: int)
    requires (a == "" || b == "") && AbsDiff(|a|, |b|) <= maxDist
    ensures Distance(a, b) == |a| + |b| && !CutOff(a, b, maxDist)
  {
    forall i | 0 <= i <= |a| ensures !RowAbove(a, b, i, maxDist) {
      FirstColumn(a[..i], b[..0]);
      assert Distance(a[..i], b[..0]) <= maxDist;
    }
  }

  /** Giving up is never wrong: the true distance is then over the bound. */
  lemma CutOffIsSound(a: string, b: string, maxDist: int)
    ensures CutOff(a, b, maxDist) ==> maxDist < Distance(a, b)
  {
    LengthGap(a, b);
    forall i | 0 <= i <= |a| && RowAbove(a, b, i, maxDist) ensures maxDist < Distance(a, b) {
      RowsStayAbove(a, b, i, maxDist);
    }
  }

  lemma RowZero(a: string, b: string)
    ensures forall k | 0 <= k <= |b| :: Distance(a[..0], b[..k]) == k
    ensures forall bound | 0 <= bound :: !RowAbove(a, b, 0, bound)
  {
    assert Distance(a[..0], b[..0]) == 0;
  }

  // ---------------------------------------------------------------- the procedure

  /** The inner loop: `cur` becomes row `i` and `rowMin` a lower bound that the row attains. */
  method FillRow(a: string, b: string, i: nat, prev: array<int>, cur: array<int>) returns (rowMin: int)
    requires 0 < i <= |a| && prev != cur && prev.Length == cur.Length == |b| + 1
    requires forall k | 0 <= k <= |b| :: prev[k] == Distance(a[..i - 1], b[..k])
    modifies cur
    ensures forall k | 0 <= k <= |b| :: cur[k] == Distance(a[..i], b[..k])
    ensures forall k | 0 <= k <= |b| :: rowMin <= cur[k]
    ensures exists k | 0 <= k <= |b| :: rowMin == cur[k]
  {
    hide Distance;
    cur[0] := i;
    assert Distance(a[..i], b[..0]) == i by { FirstColumn(a[..i], b[..0]); }
    rowMin := cur[0];
    var j := 1;
    while j <= |b|
      invariant 1 <= j <= |b| + 1
      invariant forall k | 0 <= k < j :: cur[k] == Distance(a[..i], b[..k])
      invariant forall k | 0 <= k < j :: rowMin <= cur[k]
      invariant exists k | 0 <= k < j :: rowMin == cur[k]
    {
      var cost := if a[i - 1] == b[j - 1] then 0 else 1;
      Cell(a, b, i, j);
      cur[j] := Min3(cur[j - 1] + 1, prev[j] + 1, prev[j - 1] + cost);
      if cur[j] < rowMin { rowMin := cur[j]; }
      j := j + 1;
    }
  }

  /** The two-row procedure.  At or under the bound the answer is the true distance; above it
      the answer is either the true distance or `maxDist + 1`, so it is never under-reported. */
  method BoundedEditDistance(a: string, b: string, maxDist: int) returns (d: int)
    ensures 0 <= maxDist ==> d == if CutOff(a, b, maxDist) then maxDist + 1 else Distance(a, b)
    ensures 0 <= maxDist ==> (d <= maxDist <==> Distance(a, b) <= maxDist)
    ensures 0 <= maxDist && d <= maxDist ==> d == Distance(a, b)
    ensures maxDist < 0 ==> d == if a == b then 0 else maxDist + 1
  {
    hide Distance;
    CutOffIsSound(a, b, maxDist);
    if a == b {
      DistanceToSelf(a);
      return 0;
    }
    var al, bl := |a|, |b|;
    if AbsDiff(al, bl) > maxDist { return maxDist + 1; }
    if al == 0 { OneTextEmpty(a, b, maxDist); return bl; }
    if bl == 0 { OneTextEmpty(a, b, maxDist); return al; }

    var prev, cur := new int[bl + 1], new int[bl + 1];
    for j := 0 to bl + 1
      invariant forall k | 0 <= k < j :: prev[k] == k
    {
      prev[j] := j;
    }
    RowZero(a, b);
    var i := 1;
    while i <= al
      invariant 1 <= i <= al + 1
      invariant prev != cur && prev.Length == cur.Length == bl + 1
      invariant fresh(prev) && fresh(cur)
      invariant forall k | 0 <= k <= bl :: prev[k] == Distance(a[..i - 1], b[..k])
      invariant forall k | 0 <= k < i :: !RowAbove(a, b, k, maxDist)
    {
      var rowMin := FillRow(a, b, i, prev, cur);
      if rowMin > maxDist {
        assert RowAbove(a, b, i, maxDist);
        return maxDist + 1;
      }
      assert !RowAbove(a, b, i, maxDist);
      prev, cur := cur, prev;
      i := i + 1;
    }
    assert a[..al] == a && b[..bl] == b;
    d := prev[bl];
  }

  /** The doc comment promises `maxDist + 1` once the distance exceeds the bound.  A pair of
      texts whose every row touches the bound gets its larger true distance instead: each row
      of "xa" against "ayy" holds a cell of at most 1, so the answer for bound 1 is 3. */
  lemma AnswerCanExceedBoundPlusOne()
    ensures !CutOff("xa", "ayy", 1) && Distance("xa", "ayy") == 3
  {
    hide Distance;
    var a, b := "xa", "ayy";
    FirstColumn(a[..0], b[..0]);
    FirstColumn(a[..1], b[..0]);
    FirstColumn(a[..2], b[..0]);
    FirstRow(a[..0], b[..1]);
    FirstRow(a[..0], b[..2]);
    FirstRow(a[..0], b[..3]);
    Cell(a, b, 1, 1);
    Cell(a, b, 1, 2);
    Cell(a, b, 1, 3);
    Cell(a, b, 2, 1);
    Cell(a, b, 2, 2);
    Cell(a, b, 2, 3);
    assert Distance(a[..2], b[..1]) == 1;
    assert a[..2] == a && b[..3] == b;
  }
}
