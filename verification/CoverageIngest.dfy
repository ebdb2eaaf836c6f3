/** Ingesting coverage profiles, together or one after another (coverage/profile.go,
    coverage/ingest.go). Profile names are taken to be repository paths already. */
module CoverageIngest {
  import opened Collections
  import opened Coverage
  import RangeCoding

  type Path = string

  /** One parsed input. */
  datatype Profile = Profile(mode: string, files: map<Path, seq<Block>>)

  /** A file's blocks and the line sets that go with them. */
  datatype FileCover = FileCover(blocks: seq<Block>, lines: LineSets)

  // ---------------------------------------------------------------- merging profiles

  /** The block lists that the profiles give for a file, in order. */
  function Contribs(ps: seq<Profile>, f: Path): seq<seq<Block>> {
    if ps == [] then []
    else
      var n := |ps| - 1;
      Contribs(ps[..n], f) + if f in ps[n].files then [ps[n].files[f]] else []
  }

  predicate OneLayout(cs: seq<seq<Block>>) { forall k | 0 <= k < |cs| :: SameLayout(cs[0], cs[k]) }

  function MergeAll(cs: seq<seq<Block>>): (r: seq<Block>)
    requires cs != [] && OneLayout(cs)
    ensures SameLayout(cs[0], r)
  {
    var n := |cs| - 1;
    if n == 0 then cs[0]
    else
      assert forall k | 0 <= k < n :: cs[..n][k] == cs[k];
      Merged(MergeAll(cs[..n]), cs[n])
  }

  ghost predicate HitSomewhereIn(cs: seq<seq<Block>>, i: nat) {
    exists k :: 0 <= k < |cs| && i < |cs[k]| && cs[k][i].hit
  }

  /** The merge has the common layout, and a block is hit exactly when some run hit it. */
  lemma {:induction false} MergeAllIs(cs: seq<seq<Block>>)
    requires cs != [] && OneLayout(cs)
    ensures forall i | 0 <= i < |cs[0]| :: MergeAll(cs)[i] == cs[0][i].(hit := HitSomewhereIn(cs, i))
  {
    var n := |cs| - 1;
    assert forall k | 0 <= k < n :: cs[..n][k] == cs[k];
    if n > 0 {
      MergeAllIs(cs[..n]);
      forall i | 0 <= i < |cs[0]| ensures MergeAll(cs)[i] == cs[0][i].(hit := HitSomewhereIn(cs, i)) {
        assert SameLayout(cs[0], cs[n]);
        HitOneMore(cs, i);
      }
    } else {
      forall i | 0 <= i < |cs[0]| ensures cs[0][i].hit == HitSomewhereIn(cs, i) {
        if cs[0][i].hit { assert cs[0][i].hit; }
      }
    }
  }

  lemma HitOneMore(cs: seq<seq<Block>>, i: nat)
    requires cs != []
    ensures var n := |cs| - 1; HitSomewhereIn(cs, i) <==> HitSomewhereIn(cs[..n], i) || (i < |cs[n]| && cs[n][i].hit)
  {
    var n := |cs| - 1;
    if HitSomewhereIn(cs, i) {
      var k :| 0 <= k < |cs| && i < |cs[k]| && cs[k][i].hit;
      assert k < n ==> cs[..n][k] == cs[k];
    }
    if HitSomewhereIn(cs[..n], i) {
      var k :| 0 <= k < n && i < |cs[..n][k]| && cs[..n][k][i].hit;
      assert cs[k] == cs[..n][k];
    }
  }

  function Names(ps: seq<Profile>): set<Path> { set p, f | p in ps && f in p.files :: f }

  predicate OneMode(ps: seq<Profile>) { forall i | 0 <= i < |ps| :: ps[i].mode != "" && ps[i].mode == ps[0].mode }

  /** The profiles can be merged: some, of one mode, with one layout for each file. */
  ghost predicate Compatible(ps: seq<Profile>) {
    ps != [] && OneMode(ps) && forall f :: OneLayout(Contribs(ps, f))
  }

  /** A file of one profile keeps the line sets as read; a merged file has them derived again. */
  function Cover(cs: seq<seq<Block>>): FileCover
    requires cs != [] && OneLayout(cs)
  {
    if |cs| == 1 then FileCover(cs[0], ParsedLines(cs[0])) else FileCover(MergeAll(cs), LinesHit(MergeAll(cs)))
  }

  lemma {:induction false} NamedIffContributed(ps: seq<Profile>, f: Path)
    ensures f in Names(ps) <==> Contribs(ps, f) != []
  {
    if ps != [] {
      var n := |ps| - 1;
      NamedIffContributed(ps[..n], f);
      assert ps == ps[..n] + [ps[n]];
      if f in Names(ps) {
        var p :| p in ps && f in p.files;
        assert p in ps[..n] || p == ps[n];
      }
      if f in Names(ps[..n]) {
        var p :| p in ps[..n] && f in p.files;
        assert p in ps;
      }
      assert f in ps[n].files ==> ps[n] in ps;
    }
  }

  lemma {:induction false} ContribsAppend(a: seq<Profile>, b: seq<Profile>, f: Path)
    ensures Contribs(a + b, f) == Contribs(a, f) + Contribs(b, f)
    decreases |b|
  {
    if b == [] {
      assert a + b == a;
    } else {
      var n := |b| - 1;
      assert (a + b)[..|a| + n] == a + b[..n];
      ContribsAppend(a, b[..n], f);
    }
  }

  // ---------------------------------------------------------------- storing

  /** A stored row; of the line sets only the sizes are kept, and the line ranges are those of the blocks. */
  datatype Row = Row(hash: string, mode: string, ref: string, blocks: seq<Block>, lines: LineSets)

  type Rows = map<Path, Row>

  datatype Result = Failed | Stored(rows: Rows)

  /** What an ingest runs against: content hashes of the indexed files and the reference label. */
  datatype Setting = Setting(index: map<Path, string>, ref: string)

  predicate Mergeable(prev: Row, s: Setting, f: Path, mode: string, blocks: seq<Block>)
    requires f in s.index
  {
    prev.hash == s.index[f] && prev.mode == mode && prev.ref == s.ref && |prev.blocks| > 0 && SameLayout(blocks, prev.blocks)
  }

  function NewRow(s: Setting, f: Path, mode: string, c: FileCover): Row
    requires f in s.index
  {
    Row(s.index[f], mode, s.ref, c.blocks, c.lines)
  }

  function Onto(c: FileCover, prev: Row): FileCover
    requires SameLayout(c.blocks, prev.blocks)
  {
    FileCover(Merged(c.blocks, prev.blocks), LinesHit(Merged(c.blocks, prev.blocks)))
  }

  /** The files that an ingest writes. */
  function Indexed(s: Setting, ps: seq<Profile>): set<Path> { set f | f in Names(ps) && f in s.index }

  ghost predicate Accepts(rows: Rows, s: Setting, merge: bool, ps: seq<Profile>) {
    && Compatible(ps)
    && forall f | f in Indexed(s, ps) :: FileAccepted(rows, s, merge, ps, f)
  }

  ghost predicate FileAccepted(rows: Rows, s: Setting, merge: bool, ps: seq<Profile>, f: Path)
    requires Compatible(ps) && f in s.index
  {
    merge && f in rows && Contribs(ps, f) != [] ==> Mergeable(rows[f], s, f, ps[0].mode, Cover(Contribs(ps, f)).blocks)
  }

  ghost function RowFor(rows: Rows, s: Setting, merge: bool, ps: seq<Profile>, f: Path): Row
    requires Compatible(ps) && f in s.index && Contribs(ps, f) != [] && FileAccepted(rows, s, merge, ps, f)
  {
    var c := Cover(Contribs(ps, f));
    NewRow(s, f, ps[0].mode, if merge && f in rows then Onto(c, rows[f]) else c)
  }

  lemma IndexedContributes(s: Setting, ps: seq<Profile>)
    ensures forall f :: f in Indexed(s, ps) <==> f in s.index && Contribs(ps, f) != []
  {
    forall f ensures f in Indexed(s, ps) <==> f in s.index && Contribs(ps, f) != [] { NamedIffContributed(ps, f); }
  }

  /** Rows after an accepted ingest. */
  ghost predicate IsStored(rows: Rows, s: Setting, merge: bool, ps: seq<Profile>, r: Rows)
    requires Accepts(rows, s, merge, ps)
  {
    && r.Keys == rows.Keys + Indexed(s, ps)
    && (forall f | f in r && f !in Indexed(s, ps) :: f in rows && r[f] == rows[f])
    && (forall f | f in Indexed(s, ps) && Contribs(ps, f) != [] :: f in r && r[f] == RowFor(rows, s, merge, ps, f))
  }

  ghost predicate Ingested(rows: Rows, s: Setting, merge: bool, ps: seq<Profile>, result: Result) {
    if Accepts(rows, s, merge, ps) then result.Stored? && IsStored(rows, s, merge, ps, result.rows) else result.Failed?
  }

  /** The outcome of an ingest is determined. */
  lemma IngestedOnce(rows: Rows, s: Setting, merge: bool, ps: seq<Profile>, a: Result, b: Result)
    requires Ingested(rows, s, merge, ps, a) && Ingested(rows, s, merge, ps, b)
    ensures a == b
  {
    hide Accepts, RowFor;
    IndexedContributes(s, ps);
    if Accepts(rows, s, merge, ps) {
      forall f | f in a.rows ensures f in b.rows && a.rows[f] == b.rows[f] {
        assert f in rows.Keys + Indexed(s, ps);
        assert f in b.rows.Keys;
      }
      assert a.rows == b.rows;
    }
  }

  // ---------------------------------------------------------------- in any order

  /** Taking one profile out takes its contribution out. */
  lemma ContribsWithout(q: seq<Profile>, j: nat, f: Path)
    requires j < |q|
    ensures multiset(Contribs(q, f)) == multiset(Contribs(q[..j] + q[j + 1..], f)) + multiset(Contribs([q[j]], f))
    ensures multiset(q[..j] + q[j + 1..]) == multiset(q) - multiset{q[j]}
  {
    hide Contribs;
    var x, y, z := q[..j], [q[j]], q[j + 1..];
    assert q == (x + y) + z;
    ContribsAppend(x + y, z, f);
    ContribsAppend(x, y, f);
    ContribsAppend(x, z, f);
  }

  lemma {:induction false} ContribsPermute(p: seq<Profile>, q: seq<Profile>, f: Path)
    requires multiset(p) == multiset(q)
    ensures multiset(Contribs(p, f)) == multiset(Contribs(q, f))
    decreases |p|
  {
    hide Contribs;
    assert |p| == |multiset(p)| == |multiset(q)| == |q|;
    if p != [] {
      var n := |p| - 1;
      assert p[n] in multiset(q);
      var j :| 0 <= j < |q| && q[j] == p[n];
      ContribsWithout(p, n, f);
      ContribsWithout(q, j, f);
      assert p[..n] + p[n + 1..] == p[..n];
      ContribsPermute(p[..n], q[..j] + q[j + 1..], f);
    }
  }

  lemma LayoutPermutes(a: seq<seq<Block>>, b: seq<seq<Block>>)
    requires multiset(a) == multiset(b) && OneLayout(a)
    ensures OneLayout(b)
  {
    forall k | 0 <= k < |b| ensures SameLayout(b[0], b[k]) {
      assert b[0] in multiset(b) && b[k] in multiset(b);
      assert b[0] in a && b[k] in a;
      var i :| 0 <= i < |a| && a[i] == b[0];
      var j :| 0 <= j < |a| && a[j] == b[k];
      LayoutIsEquivalence(a[0], b[0], b[k]);
      LayoutIsEquivalence(b[0], a[0], b[k]);
    }
  }

  lemma CoverPermutes(a: seq<seq<Block>>, b: seq<seq<Block>>)
    requires multiset(a) == multiset(b) && a != [] && b != [] && OneLayout(a) && OneLayout(b)
    ensures Cover(a) == Cover(b)
  {
    assert |a| == |multiset(a)| == |multiset(b)| == |b|;
    if |a| == 1 {
      assert a == [a[0]] && b == [b[0]];
      assert a[0] in multiset(b);
    } else {
      MergeAllIs(a);
      MergeAllIs(b);
      assert a[0] in multiset(b);
      var j :| 0 <= j < |b| && b[j] == a[0];
      assert SameLayout(b[0], b[j]);
      forall i | 0 <= i < |a[0]| ensures MergeAll(a)[i] == MergeAll(b)[i] {
        HitsPermute(a, b, i);
        HitsPermute(b, a, i);
      }
      assert MergeAll(a) == MergeAll(b);
    }
  }

  lemma HitsPermute(a: seq<seq<Block>>, b: seq<seq<Block>>, i: nat)
    requires multiset(a) == multiset(b)
    ensures HitSomewhereIn(a, i) ==> HitSomewhereIn(b, i)
  {
    if HitSomewhereIn(a, i) {
      var k :| 0 <= k < |a| && i < |a[k]| && a[k][i].hit;
      assert a[k] in multiset(b);
      var j :| 0 <= j < |b| && b[j] == a[k];
    }
  }

  lemma CompatiblePermutes(p: seq<Profile>, q: seq<Profile>)
    requires multiset(p) == multiset(q) && Compatible(p)
    ensures Compatible(q) && p[0].mode == q[0].mode
  {
    assert |p| == |multiset(p)| == |multiset(q)| == |q|;
    forall i | 0 <= i < |q| ensures q[i].mode != "" && q[i].mode == p[0].mode {
      assert q[i] in multiset(p);
      var j :| 0 <= j < |p| && p[j] == q[i];
    }
    forall f ensures OneLayout(Contribs(q, f)) {
      ContribsPermute(p, q, f);
      LayoutPermutes(Contribs(p, f), Contribs(q, f));
    }
  }

  lemma FilePermutes(rows: Rows, s: Setting, merge: bool, p: seq<Profile>, q: seq<Profile>, f: Path)
    requires multiset(p) == multiset(q) && Compatible(p) && Compatible(q) && p[0].mode == q[0].mode
    ensures Contribs(p, f) == [] <==> Contribs(q, f) == []
    ensures f in s.index ==> FileAccepted(rows, s, merge, p, f) == FileAccepted(rows, s, merge, q, f)
    ensures f in s.index && Contribs(p, f) != [] && FileAccepted(rows, s, merge, p, f) ==>
              RowFor(rows, s, merge, p, f) == RowFor(rows, s, merge, q, f)
  {
    hide Cover, Compatible;
    ContribsPermute(p, q, f);
    CompatibleLayout(p, f);
    CompatibleLayout(q, f);
    assert |Contribs(p, f)| == |multiset(Contribs(p, f))| == |Contribs(q, f)|;
    if Contribs(p, f) != [] { CoverPermutes(Contribs(p, f), Contribs(q, f)); }
  }

  lemma CompatibleLayout(ps: seq<Profile>, f: Path)
    requires Compatible(ps)
    ensures OneLayout(Contribs(ps, f))
  {
  }

  /** The order of the profiles does not matter. */
  lemma OrderDoesNotMatter(rows: Rows, s: Setting, merge: bool, p: seq<Profile>, q: seq<Profile>, result: Result)
    requires multiset(p) == multiset(q) && Ingested(rows, s, merge, p, result)
    ensures Ingested(rows, s, merge, q, result)
  {
    hide Compatible, FileAccepted, RowFor;
    IndexedContributes(s, p);
    IndexedContributes(s, q);
    if Compatible(p) { CompatiblePermutes(p, q); }
    if Compatible(q) { CompatiblePermutes(q, p); }
    if Compatible(p) {
      forall f ensures (Contribs(p, f) == [] <==> Contribs(q, f) == [])
               ensures f in s.index ==> FileAccepted(rows, s, merge, p, f) == FileAccepted(rows, s, merge, q, f)
               ensures f in s.index && Contribs(p, f) != [] && FileAccepted(rows, s, merge, p, f) ==>
                         RowFor(rows, s, merge, p, f) == RowFor(rows, s, merge, q, f)
      {
        FilePermutes(rows, s, merge, p, q, f);
      }
      assert Indexed(s, p) == Indexed(s, q);
    }
  }

  // ---------------------------------------------------------------- together or one after the other

  /** Files of both batches whose layout has no blocks cannot be merged onto their stored row. */
  ghost predicate SharedHaveBlocks(s: Setting, a: seq<Profile>, b: seq<Profile>) {
    forall f | f in s.index && Contribs(a, f) != [] && Contribs(b, f) != [] :: |Contribs(a, f)[0]| > 0
  }

  lemma PartsAreCompatible(a: seq<Profile>, b: seq<Profile>)
    requires Compatible(a + b) && a != [] && b != []
    ensures Compatible(a) && Compatible(b) && a[0].mode == b[0].mode == (a + b)[0].mode
  {
    var ab := a + b;
    forall i | 0 <= i < |a| ensures a[i].mode == ab[0].mode != "" { assert ab[i] == a[i]; }
    forall i | 0 <= i < |b| ensures b[i].mode == ab[0].mode != "" { assert ab[|a| + i] == b[i]; }
    forall f ensures OneLayout(Contribs(a, f)) && OneLayout(Contribs(b, f)) {
      ContribsAppend(a, b, f);
      var x, y := Contribs(a, f), Contribs(b, f);
      assert OneLayout(x + y);
      forall k | 0 <= k < |x| ensures SameLayout(x[0], x[k]) { assert (x + y)[0] == x[0] && (x + y)[k] == x[k]; }
      forall k | 0 <= k < |y| ensures SameLayout(y[0], y[k]) {
        assert (x + y)[|x|] == y[0] && (x + y)[|x| + k] == y[k];
        LayoutIsEquivalence(y[0], (x + y)[0], y[k]);
        LayoutIsEquivalence((x + y)[0], y[0], y[k]);
      }
    }
  }

  lemma CoverShape(cs: seq<seq<Block>>)
    requires cs != [] && OneLayout(cs)
    ensures SameLayout(cs[0], Cover(cs).blocks)
    ensures forall i | 0 <= i < |cs[0]| :: Cover(cs).blocks[i] == cs[0][i].(hit := HitSomewhereIn(cs, i))
  {
    MergeAllIs(cs);
  }

  lemma HitsOfBoth(x: seq<seq<Block>>, y: seq<seq<Block>>, i: nat)
    ensures HitSomewhereIn(x + y, i) <==> HitSomewhereIn(x, i) || HitSomewhereIn(y, i)
  {
    if HitSomewhereIn(x, i) {
      var k :| 0 <= k < |x| && i < |x[k]| && x[k][i].hit;
      assert (x + y)[k] == x[k];
    }
    if HitSomewhereIn(y, i) {
      var k :| 0 <= k < |y| && i < |y[k]| && y[k][i].hit;
      assert (x + y)[|x| + k] == y[k];
    }
    if HitSomewhereIn(x + y, i) {
      var k :| 0 <= k < |x + y| && i < |(x + y)[k]| && (x + y)[k][i].hit;
      assert k < |x| ==> (x + y)[k] == x[k];
      assert k >= |x| ==> (x + y)[k] == y[k - |x|];
    }
  }

  /** Merging the later cover onto the earlier one is the cover of all contributions. */
  lemma CoverOfBoth(x: seq<seq<Block>>, y: seq<seq<Block>>)
    requires x != [] && y != [] && OneLayout(x) && OneLayout(y) && OneLayout(x + y)
    ensures SameLayout(Cover(y).blocks, Cover(x).blocks)
    ensures Cover(x + y).blocks == Merged(Cover(y).blocks, Cover(x).blocks)
    ensures Cover(x + y).lines == LinesHit(Cover(x + y).blocks)
  {
    hide Cover, MergeAll;
    CoverShape(x);
    CoverShape(y);
    CoverShape(x + y);
    assert (x + y)[0] == x[0] && (x + y)[|x|] == y[0];
    assert SameLayout(x[0], y[0]);
    forall i | 0 <= i < |x[0]| ensures Cover(x + y).blocks[i] == Merged(Cover(y).blocks, Cover(x).blocks)[i] {
      HitsOfBoth(x, y, i);
    }
    CoverOfMany(x + y);
  }

  lemma CoverOfMany(cs: seq<seq<Block>>)
    requires |cs| > 1 && OneLayout(cs)
    ensures Cover(cs).lines == LinesHit(Cover(cs).blocks)
  {
  }

  lemma MergedTwice(a: seq<Block>, b: seq<Block>, c: seq<Block>)
    requires SameLayout(a, b) && SameLayout(b, c)
    ensures SameLayout(a, Merged(b, c)) && SameLayout(Merged(a, b), c)
    ensures Merged(a, Merged(b, c)) == Merged(Merged(a, b), c)
  {
  }

  /** A row is mergeable with one cover exactly when it is with any other of the same layout. */
  lemma MergeableByLayout(prev: Row, s: Setting, f: Path, mode: string, a: seq<Block>, b: seq<Block>)
    requires f in s.index && SameLayout(a, b)
    ensures Mergeable(prev, s, f, mode, a) == Mergeable(prev, s, f, mode, b)
  {
    LayoutIsEquivalence(a, b, prev.blocks);
    LayoutIsEquivalence(b, a, prev.blocks);
  }

  lemma FirstAccepts(rows: Rows, s: Setting, a: seq<Profile>, b: seq<Profile>, f: Path)
    requires a != [] && b != [] && Compatible(a + b) && Compatible(a) && a[0].mode == (a + b)[0].mode
    requires f in s.index && Contribs(a, f) != []
    ensures FileAccepted(rows, s, true, a + b, f) == FileAccepted(rows, s, true, a, f)
  {
    hide Cover, Compatible, MergeAll, Mergeable, SameLayout;
    var x, y := Contribs(a, f), Contribs(b, f);
    ContribsAppend(a, b, f);
    CompatibleLayout(a, f);
    CompatibleLayout(a + b, f);
    CoverShape(x);
    CoverShape(x + y);
    assert (x + y)[0] == x[0];
    SameShapes(x[0], Cover(x).blocks, Cover(x + y).blocks);
    if f in rows { MergeableByLayout(rows[f], s, f, a[0].mode, Cover(x).blocks, Cover(x + y).blocks); }
  }

  lemma SameShapes(a: seq<Block>, b: seq<Block>, c: seq<Block>)
    requires SameLayout(a, b) && SameLayout(a, c)
    ensures SameLayout(b, c)
  {
  }

  /** The second batch on a file of both: accepted when the layout has blocks, and the outcome is the joint one. */
  lemma SecondOnShared(rows: Rows, s: Setting, merge: bool, a: seq<Profile>, b: seq<Profile>, r: Rows, f: Path)
    requires a != [] && b != [] && Compatible(a + b) && Compatible(a) && Compatible(b)
    requires a[0].mode == b[0].mode == (a + b)[0].mode
    requires f in s.index && Contribs(a, f) != [] && Contribs(b, f) != []
    requires FileAccepted(rows, s, merge, a, f) && FileAccepted(rows, s, merge, a + b, f)
    requires f in r && r[f] == RowFor(rows, s, merge, a, f)
    ensures FileAccepted(r, s, true, b, f) <==> |Contribs(a, f)[0]| > 0
    ensures Contribs(a + b, f) != []
    ensures FileAccepted(r, s, true, b, f) ==> RowFor(r, s, true, b, f) == RowFor(rows, s, merge, a + b, f)
  {
    hide Cover, Compatible, MergeAll;
    var x, y := Contribs(a, f), Contribs(b, f);
    ContribsAppend(a, b, f);
    CompatibleLayout(a, f);
    CompatibleLayout(b, f);
    CompatibleLayout(a + b, f);
    CoverShape(x);
    CoverOfBoth(x, y);
    if merge && f in rows {
      MergedTwice(Cover(y).blocks, Cover(x).blocks, rows[f].blocks);
    }
  }

  /** A file that only the second batch has: nothing of the first touched it. */
  lemma SecondAlone(rows: Rows, s: Setting, a: seq<Profile>, b: seq<Profile>, r: Rows, f: Path)
    requires a != [] && b != [] && Compatible(a + b) && Compatible(b) && b[0].mode == (a + b)[0].mode
    requires f in s.index && Contribs(a, f) == [] && Contribs(b, f) != []
    requires (f in r <==> f in rows) && (f in rows ==> r[f] == rows[f])
    ensures FileAccepted(r, s, true, b, f) == FileAccepted(rows, s, true, a + b, f)
    ensures Contribs(a + b, f) != []
    ensures FileAccepted(r, s, true, b, f) ==> RowFor(r, s, true, b, f) == RowFor(rows, s, true, a + b, f)
  {
    hide Cover, Compatible;
    ContribsAppend(a, b, f);
    assert [] + Contribs(b, f) == Contribs(b, f);
  }

  lemma FirstAlone(rows: Rows, s: Setting, merge: bool, a: seq<Profile>, b: seq<Profile>, f: Path)
    requires a != [] && Compatible(a + b) && Compatible(a) && a[0].mode == (a + b)[0].mode
    requires f in s.index && Contribs(a, f) != [] && Contribs(b, f) == []
    ensures FileAccepted(rows, s, merge, a, f) == FileAccepted(rows, s, merge, a + b, f)
    ensures Contribs(a + b, f) != []
    ensures FileAccepted(rows, s, merge, a, f) ==> RowFor(rows, s, merge, a, f) == RowFor(rows, s, merge, a + b, f)
  {
    hide Cover, Compatible;
    ContribsAppend(a, b, f);
    assert Contribs(a, f) + [] == Contribs(a, f);
  }

  lemma IndexedOfBoth(s: Setting, a: seq<Profile>, b: seq<Profile>)
    ensures Indexed(s, a + b) == Indexed(s, a) + Indexed(s, b)
  {
    IndexedContributes(s, a);
    IndexedContributes(s, b);
    IndexedContributes(s, a + b);
    forall f ensures f in Indexed(s, a + b) <==> f in Indexed(s, a) || f in Indexed(s, b) { ContribsAppend(a, b, f); }
  }

  /** Two merging ingests are accepted exactly when one of both batches is and no shared file is empty. */
  lemma SplitAccepts(rows: Rows, s: Setting, a: seq<Profile>, b: seq<Profile>, r: Rows)
    requires a != [] && b != [] && Compatible(a + b) && Compatible(a) && Compatible(b)
    requires a[0].mode == b[0].mode == (a + b)[0].mode
    requires Accepts(rows, s, true, a) && IsStored(rows, s, true, a, r)
    ensures Accepts(r, s, true, b) <==> Accepts(rows, s, true, a + b) && SharedHaveBlocks(s, a, b)
    ensures Accepts(r, s, true, b) ==>
              forall f | f in Indexed(s, b) && Contribs(b, f) != [] ::
                Contribs(a + b, f) != [] && RowFor(r, s, true, b, f) == RowFor(rows, s, true, a + b, f)
  {
    hide Compatible, FileAccepted, RowFor;
    IndexedContributes(s, a);
    IndexedContributes(s, b);
    IndexedOfBoth(s, a, b);
    forall f | f in s.index && Contribs(a, f) != [] ensures FileAccepted(rows, s, true, a + b, f) {
      FirstAccepts(rows, s, a, b, f);
    }
    forall f | f in s.index && Contribs(b, f) != []
      ensures FileAccepted(r, s, true, b, f) <==>
              FileAccepted(rows, s, true, a + b, f) && (Contribs(a, f) != [] ==> |Contribs(a, f)[0]| > 0)
      ensures Contribs(a + b, f) != []
      ensures FileAccepted(r, s, true, b, f) ==> RowFor(r, s, true, b, f) == RowFor(rows, s, true, a + b, f)
    {
      if Contribs(a, f) != [] { SecondOnShared(rows, s, true, a, b, r, f); } else { SecondAlone(rows, s, a, b, r, f); }
    }
  }

  /** For profiles that fit together, merging two batches one after the other gives what they give
      together, or fails: it fails exactly when the joint ingest does or when a file of both batches
      has no blocks. `SplitStoredIff` covers profiles that do not fit together. */
  lemma SplitEqualsJoint(rows: Rows, s: Setting, a: seq<Profile>, b: seq<Profile>, first: Result, second: Result, joint: Result)
    requires a != [] && b != []
    requires Ingested(rows, s, true, a, first) && Ingested(rows, s, true, a + b, joint)
    requires first.Stored? ==> Ingested(first.rows, s, true, b, second)
    ensures first.Stored? && second.Stored? && Compatible(a + b) <==> joint.Stored? && SharedHaveBlocks(s, a, b)
    ensures first.Stored? && second.Stored? && Compatible(a + b) ==> second == joint
  {
    hide Compatible, FileAccepted, RowFor, SharedHaveBlocks;
    if !Compatible(a + b) { return; }
    PartsAreCompatible(a, b);
    IndexedContributes(s, a);
    IndexedContributes(s, b);
    IndexedOfBoth(s, a, b);
    if first.Stored? {
      SplitAccepts(rows, s, a, b, first.rows);
      if second.Stored? { SplitRows(rows, s, true, a, b, first.rows, second.rows, joint.rows); }
    } else {
      forall f | f in Indexed(s, a) && FileAccepted(rows, s, true, a + b, f) ensures FileAccepted(rows, s, true, a, f) {
        FirstAccepts(rows, s, a, b, f);
      }
    }
  }

  /** In one mode, one layout and with blocks: what two ingests need of a file of both batches. */
  ghost predicate SharedAgree(s: Setting, a: seq<Profile>, b: seq<Profile>)
    requires a != [] && b != []
  {
    forall f | f in s.index && Contribs(a, f) != [] && Contribs(b, f) != [] ::
      a[0].mode == b[0].mode && SameLayout(Contribs(a, f)[0], Contribs(b, f)[0]) && |Contribs(a, f)[0]| > 0
  }

  lemma SharedAcceptedIff(rows: Rows, s: Setting, merge: bool, a: seq<Profile>, b: seq<Profile>, r: Rows, f: Path)
    requires a != [] && b != [] && Compatible(a) && Compatible(b)
    requires f in s.index && Contribs(a, f) != [] && Contribs(b, f) != []
    requires FileAccepted(rows, s, merge, a, f) && f in r && r[f] == RowFor(rows, s, merge, a, f)
    ensures FileAccepted(r, s, true, b, f) <==>
              a[0].mode == b[0].mode && SameLayout(Contribs(a, f)[0], Contribs(b, f)[0]) && |Contribs(a, f)[0]| > 0
  {
    hide Cover, Compatible, MergeAll;
    CompatibleLayout(a, f);
    CompatibleLayout(b, f);
    CoverShape(Contribs(a, f));
    CoverShape(Contribs(b, f));
  }

  lemma NewAcceptedIff(rows: Rows, s: Setting, b: seq<Profile>, r: Rows, f: Path)
    requires b != [] && Compatible(b) && f in s.index
    requires (f in r <==> f in rows) && (f in rows ==> r[f] == rows[f])
    ensures FileAccepted(r, s, true, b, f) == FileAccepted(rows, s, true, b, f)
  {
    hide Cover, Compatible;
  }

  /** Two ingests in a row, the second merging: both succeed exactly when each batch fits together, the
      first is accepted, files of both agree, and the others fit what was stored before.  Here the two
      batches need not fit together: their modes may differ when they share no indexed file. */
  lemma SplitStoredIff(rows: Rows, s: Setting, merge: bool, a: seq<Profile>, b: seq<Profile>, first: Result, second: Result)
    requires a != [] && b != [] && Ingested(rows, s, merge, a, first)
    requires first.Stored? ==> Ingested(first.rows, s, true, b, second)
    ensures first.Stored? && second.Stored? <==>
              && Accepts(rows, s, merge, a) && Compatible(b) && SharedAgree(s, a, b)
              && forall f | f in s.index && Contribs(a, f) == [] && Contribs(b, f) != [] :: FileAccepted(rows, s, true, b, f)
  {
    hide Compatible, FileAccepted, RowFor, SameLayout;
    IndexedContributes(s, a);
    IndexedContributes(s, b);
    if first.Stored? && Compatible(b) {
      var r := first.rows;
      forall f | f in s.index && Contribs(b, f) != []
        ensures FileAccepted(r, s, true, b, f) <==>
                if Contribs(a, f) == [] then FileAccepted(rows, s, true, b, f)
                else a[0].mode == b[0].mode && SameLayout(Contribs(a, f)[0], Contribs(b, f)[0]) && |Contribs(a, f)[0]| > 0
      {
        if Contribs(a, f) != [] {
          SharedAcceptedIff(rows, s, merge, a, b, r, f);
        } else {
          NewAcceptedIff(rows, s, b, r, f);
        }
      }
    }
  }

  lemma StoredRow(rows: Rows, s: Setting, merge: bool, ps: seq<Profile>, r: Rows, f: Path)
    requires Accepts(rows, s, merge, ps) && IsStored(rows, s, merge, ps, r) && f in r
    ensures Compatible(ps)
    ensures if f in Indexed(s, ps)
            then f in s.index && Contribs(ps, f) != [] && FileAccepted(rows, s, merge, ps, f) && r[f] == RowFor(rows, s, merge, ps, f)
            else f in rows && r[f] == rows[f]
  {
    hide RowFor, FileAccepted, Compatible;
    IndexedContributes(s, ps);
  }

  lemma StoredKeys(rows: Rows, s: Setting, merge: bool, ps: seq<Profile>, r: Rows)
    requires Accepts(rows, s, merge, ps) && IsStored(rows, s, merge, ps, r)
    ensures r.Keys == rows.Keys + Indexed(s, ps)
  {
  }

  lemma SplitRow(rows: Rows, s: Setting, merge: bool, a: seq<Profile>, b: seq<Profile>, r: Rows, second: Rows, joint: Rows, f: Path)
    requires a != [] && b != [] && Compatible(a + b) && a[0].mode == (a + b)[0].mode
    requires Accepts(rows, s, merge, a) && IsStored(rows, s, merge, a, r)
    requires Accepts(r, s, true, b) && IsStored(r, s, true, b, second)
    requires Accepts(rows, s, merge, a + b) && IsStored(rows, s, merge, a + b, joint)
    requires f in Indexed(s, b) && Contribs(b, f) != [] ==>
               Contribs(a + b, f) != [] && RowFor(r, s, true, b, f) == RowFor(rows, s, merge, a + b, f)
    requires f in second && f in joint
    ensures second[f] == joint[f]
  {
    StoredRow(rows, s, merge, a + b, joint, f);
    StoredRow(r, s, true, b, second, f);
    hide Compatible, FileAccepted, RowFor, IsStored;
    IndexedContributes(s, b);
    IndexedOfBoth(s, a, b);
    if f !in Indexed(s, b) {
      StoredRow(rows, s, merge, a, r, f);
      IndexedContributes(s, a);
      if f in Indexed(s, a) { FirstAlone(rows, s, merge, a, b, f); }
    }
  }

  lemma SplitRows(rows: Rows, s: Setting, merge: bool, a: seq<Profile>, b: seq<Profile>, r: Rows, second: Rows, joint: Rows)
    requires a != [] && b != [] && Compatible(a + b) && a[0].mode == (a + b)[0].mode
    requires Accepts(rows, s, merge, a) && IsStored(rows, s, merge, a, r)
    requires Accepts(r, s, true, b) && IsStored(r, s, true, b, second)
    requires Accepts(rows, s, merge, a + b) && IsStored(rows, s, merge, a + b, joint)
    requires forall f | f in Indexed(s, b) && Contribs(b, f) != [] ::
               Contribs(a + b, f) != [] && RowFor(r, s, true, b, f) == RowFor(rows, s, merge, a + b, f)
    ensures second == joint
  {
    hide *;
    StoredKeys(rows, s, merge, a, r);
    StoredKeys(r, s, true, b, second);
    StoredKeys(rows, s, merge, a + b, joint);
    IndexedOfBoth(s, a, b);
    assert second.Keys == joint.Keys;
    forall f | f in second ensures f in joint && second[f] == joint[f] {
      assert f in joint.Keys;
      SplitRow(rows, s, merge, a, b, r, second, joint, f);
    }
  }

  lemma SecondOnNew(rows: Rows, s: Setting, a: seq<Profile>, b: seq<Profile>, r: Rows, f: Path)
    requires Compatible(a + b) && Compatible(b) && a + b != [] && b != [] && b[0].mode == (a + b)[0].mode
    requires f in s.index && Contribs(a, f) == [] && Contribs(b, f) != [] && f !in r
    ensures Contribs(a + b, f) != [] && RowFor(r, s, true, b, f) == RowFor(rows, s, false, a + b, f)
  {
    hide Cover, Compatible;
    ContribsAppend(a, b, f);
    assert [] + Contribs(b, f) == Contribs(b, f);
  }

  /** A stored row onto which a batch is accepted and in which it has nothing left to hit, with line
      sets that reading and deriving agree on. */
  ghost predicate OldAddsNothing(rows: Rows, s: Setting, b: seq<Profile>, f: Path)
    requires f in s.index && f in rows && Contribs(b, f) != []
  {
    && Compatible(b) && FileAccepted(rows, s, true, b, f)
    && var c := Cover(Contribs(b, f));
    (forall i | 0 <= i < |c.blocks| && rows[f].blocks[i].hit :: c.blocks[i].hit) && c.lines == LinesHit(c.blocks)
  }

  /** Exactly then merging onto the stored row is replacing it. */
  lemma MergedIsReplacedIff(rows: Rows, s: Setting, b: seq<Profile>, f: Path)
    requires b != [] && Compatible(b) && f in s.index && f in rows && Contribs(b, f) != []
    requires FileAccepted(rows, s, true, b, f)
    ensures RowFor(rows, s, true, b, f) == RowFor(rows, s, false, b, f) <==> OldAddsNothing(rows, s, b, f)
  {
    hide Compatible, Cover, LinesHit;
    CompatibleLayout(b, f);
    var c, prev := Cover(Contribs(b, f)), rows[f].blocks;
    var merged := Merged(c.blocks, prev);
    assert merged == c.blocks <==> forall i | 0 <= i < |c.blocks| && prev[i].hit :: c.blocks[i].hit by {
      if merged == c.blocks {
        forall i | 0 <= i < |c.blocks| && prev[i].hit ensures c.blocks[i].hit { assert merged[i].hit; }
      }
    }
  }

  /** Files of the second batch alone that were stored before. */
  ghost predicate OldAddNothing(rows: Rows, s: Setting, a: seq<Profile>, b: seq<Profile>) {
    forall f | f in s.index && Contribs(a, f) == [] && Contribs(b, f) != [] && f in rows :: OldAddsNothing(rows, s, b, f)
  }

  /** A file of the second batch alone: merged onto its old row or stored as new. */
  lemma SecondOnOld(rows: Rows, s: Setting, a: seq<Profile>, b: seq<Profile>, r: Rows, f: Path)
    requires a != [] && b != [] && Compatible(a + b) && Compatible(b) && b[0].mode == (a + b)[0].mode
    requires f in s.index && Contribs(a, f) == [] && Contribs(b, f) != []
    requires (f in r <==> f in rows) && (f in rows ==> r[f] == rows[f])
    ensures Contribs(a + b, f) != []
    ensures FileAccepted(r, s, true, b, f) && RowFor(r, s, true, b, f) == RowFor(rows, s, false, a + b, f) <==>
              f !in rows || OldAddsNothing(rows, s, b, f)
  {
    hide Compatible, Cover, OldAddsNothing;
    ContribsAppend(a, b, f);
    assert [] + Contribs(b, f) == Contribs(b, f);
    if f !in rows {
      SecondOnNew(rows, s, a, b, r, f);
    } else {
      NewAcceptedIff(rows, s, b, r, f);
      if OldAddsNothing(rows, s, b, f) { OnlyIfAccepted(rows, s, b, f); }
      if FileAccepted(rows, s, true, b, f) { MergedIsReplacedIff(rows, s, b, f); }
    }
  }

  lemma OnlyIfAccepted(rows: Rows, s: Setting, b: seq<Profile>, f: Path)
    requires f in s.index && f in rows && Contribs(b, f) != [] && OldAddsNothing(rows, s, b, f)
    ensures Compatible(b) && FileAccepted(rows, s, true, b, f)
  {
  }

  /** Replacing with the first batch and merging the second gives what replacing with both gives,
      exactly when the profiles fit together, shared files have blocks, and files of the second batch
      alone were not stored before or have nothing to add. */
  lemma ReplaceThenMerge(rows: Rows, s: Setting, a: seq<Profile>, b: seq<Profile>, first: Result, second: Result, joint: Result)
    requires a != [] && b != []
    requires Ingested(rows, s, false, a, first) && Ingested(rows, s, false, a + b, joint)
    requires first.Stored? ==> Ingested(first.rows, s, true, b, second)
    ensures first.Stored? && second.Stored? && joint == second <==>
              Compatible(a + b) && SharedHaveBlocks(s, a, b) && OldAddNothing(rows, s, a, b)
  {
    hide Compatible, RowFor, FileAccepted, OldAddsNothing;
    if !Compatible(a + b) { return; }
    PartsAreCompatible(a, b);
    IndexedContributes(s, a);
    IndexedContributes(s, b);
    IndexedOfBoth(s, a, b);
    ReplacingAccepts(rows, s, a);
    ReplacingAccepts(rows, s, a + b);
    var r := first.rows;
    forall f | f in s.index && Contribs(b, f) != []
      ensures Contribs(a + b, f) != []
      ensures FileAccepted(r, s, true, b, f) && RowFor(r, s, true, b, f) == RowFor(rows, s, false, a + b, f) <==>
              if Contribs(a, f) != [] then |Contribs(a, f)[0]| > 0 else f !in rows || OldAddsNothing(rows, s, b, f)
    {
      if Contribs(a, f) != [] {
        AlwaysAccepted(rows, s, a, f);
        AlwaysAccepted(rows, s, a + b, f);
        SecondOnShared(rows, s, false, a, b, r, f);
      } else {
        SecondOnOld(rows, s, a, b, r, f);
      }
    }
    if SharedHaveBlocks(s, a, b) && OldAddNothing(rows, s, a, b) {
      SplitRows(rows, s, false, a, b, r, second.rows, joint.rows);
    }
  }

  lemma AlwaysAccepted(rows: Rows, s: Setting, ps: seq<Profile>, f: Path)
    requires Compatible(ps) && f in s.index
    ensures FileAccepted(rows, s, false, ps, f)
  {
  }

  lemma ReplacingAccepts(rows: Rows, s: Setting, ps: seq<Profile>)
    requires Compatible(ps)
    ensures Accepts(rows, s, false, ps)
  {
  }

  // ---------------------------------------------------------------- the lines of a merge

  /** Covered lines of several runs are those that any run covers; the other measured lines are uncovered. */
  lemma {:induction false} MergedLines(cs: seq<seq<Block>>, ln: int)
    requires cs != [] && OneLayout(cs)
    ensures ln in LinesHit(MergeAll(cs)).covered <==> exists k :: 0 <= k < |cs| && ln in LinesHit(cs[k]).covered
    ensures Measured(MergeAll(cs)) == Measured(cs[0])
    ensures LinesHit(MergeAll(cs)).uncovered == Measured(cs[0]) - LinesHit(MergeAll(cs)).covered
  {
    hide LinesHit, Touched;
    var n := |cs| - 1;
    UncoveredIsRest(MergeAll(cs));
    if n > 0 {
      assert forall k | 0 <= k < n :: cs[..n][k] == cs[k];
      MergedLines(cs[..n], ln);
      MergeUnitesLines(MergeAll(cs[..n]), cs[n]);
      TouchedSame(MergeAll(cs[..n]), cs[n]);
      var rest := cs[..n];
      if k :| 0 <= k < |rest| && ln in LinesHit(rest[k]).covered { assert ln in LinesHit(cs[k]).covered; }
      if k :| 0 <= k < |cs| && ln in LinesHit(cs[k]).covered { assert k < n ==> ln in LinesHit(rest[k]).covered; }
    }
  }

  lemma UncoveredIsRest(blocks: seq<Block>)
    ensures LinesHit(blocks).uncovered == Measured(blocks) - LinesHit(blocks).covered
  {
  }

  // ---------------------------------------------------------------- the code

  /** What is known of one file after some profiles. */
  ghost predicate CoveredUpTo(byName: map<Path, FileCover>, ps: seq<Profile>, f: Path) {
    if Contribs(ps, f) == [] then f !in byName
    else f in byName && OneLayout(Contribs(ps, f)) && byName[f] == Cover(Contribs(ps, f))
  }

  ghost predicate AllCovered(byName: map<Path, FileCover>, ps: seq<Profile>) { forall f :: CoveredUpTo(byName, ps, f) }

  lemma CoverOneMore(cs: seq<seq<Block>>, blocks: seq<Block>)
    requires cs != [] && OneLayout(cs)
    ensures OneLayout(cs + [blocks]) <==> SameLayout(Cover(cs).blocks, blocks)
    ensures SameLayout(Cover(cs).blocks, blocks) ==>
              Cover(cs + [blocks]) == FileCover(Merged(Cover(cs).blocks, blocks), LinesHit(Merged(Cover(cs).blocks, blocks)))
  {
    CoverShape(cs);
    var more := cs + [blocks];
    assert more[..|cs|] == cs && more[0] == cs[0] && more[|cs|] == blocks;
    assert forall k | 0 <= k < |cs| :: more[k] == cs[k];
    LayoutIsEquivalence(cs[0], Cover(cs).blocks, blocks);
    LayoutIsEquivalence(Cover(cs).blocks, cs[0], blocks);
    assert Cover(cs).blocks == MergeAll(cs);
    if SameLayout(Cover(cs).blocks, blocks) {
      assert MergeAll(more) == Merged(MergeAll(cs), blocks);
    }
  }

  lemma LaterKeepsLayout(ps: seq<Profile>, k: nat, f: Path)
    requires k <= |ps| && OneLayout(Contribs(ps, f))
    ensures OneLayout(Contribs(ps[..k], f))
  {
    assert ps == ps[..k] + ps[k..];
    ContribsAppend(ps[..k], ps[k..], f);
    var x, y := Contribs(ps[..k], f), Contribs(ps[k..], f);
    assert forall i | 0 <= i < |x| :: (x + y)[i] == x[i];
  }

  /** One file of one profile, new or merged in place onto the earlier blocks. */
  method AddFile(byName: map<Path, FileCover>, ghost ps: seq<Profile>, k: nat, f: Path, blocks: seq<Block>)
    returns (ok: bool, byName': map<Path, FileCover>)
    requires k < |ps| && f in ps[k].files && ps[k].files[f] == blocks && CoveredUpTo(byName, ps[..k], f)
    ensures ok ==> CoveredUpTo(byName', ps[..k + 1], f) && forall g | g != f :: (g in byName' <==> g in byName) && (g in byName ==> byName'[g] == byName[g])
    ensures !ok ==> !Compatible(ps)
  {
    hide Cover, Compatible, OneLayout;
    ghost var cs := Contribs(ps[..k], f);
    assert ps[..k + 1][..k] == ps[..k];
    assert Contribs(ps[..k + 1], f) == cs + [blocks];
    if f !in byName {
      var covered, uncovered := ReadLineSets(blocks);
      CoverOfOne(blocks);
      assert cs + [blocks] == [blocks];
      return true, byName[f := FileCover(blocks, LineSets(covered, uncovered))];
    }
    CoverOneMore(cs, blocks);
    var merged, same := MergeSequences(byName[f].blocks, blocks);
    if !same {
      if OneLayout(Contribs(ps, f)) { LaterKeepsLayout(ps, k + 1, f); }
      IncompatibleLayout(ps, f);
      return false, byName;
    }
    var covered, uncovered := DeriveLineSets(merged);
    return true, byName[f := FileCover(merged, LineSets(covered, uncovered))];
  }

  lemma CoverOfOne(blocks: seq<Block>)
    ensures OneLayout([blocks]) && Cover([blocks]) == FileCover(blocks, ParsedLines(blocks))
  {
    LayoutIsEquivalence(blocks, blocks, blocks);
  }

  lemma IncompatibleLayout(ps: seq<Profile>, f: Path)
    ensures !OneLayout(Contribs(ps, f)) ==> !Compatible(ps)
  {
  }

  method MergeSequences(a: seq<Block>, b: seq<Block>) returns (merged: seq<Block>, same: bool)
    ensures same <==> SameLayout(a, b)
    ensures same ==> merged == Merged(a, b)
  {
    var dst := new Block[|a|](i requires 0 <= i < |a| => a[i]);
    var src := new Block[|b|](i requires 0 <= i < |b| => b[i]);
    assert dst[..] == a && src[..] == b;
    same := MergeBlocks(dst, src);
    merged := dst[..];
  }

  /** All files of one profile. */
  method AddProfile(byName: map<Path, FileCover>, ps: seq<Profile>, k: nat) returns (ok: bool, byName': map<Path, FileCover>)
    requires k < |ps| && AllCovered(byName, ps[..k])
    ensures ok ==> AllCovered(byName', ps[..k + 1])
    ensures !ok ==> !Compatible(ps)
  {
    hide CoveredUpTo, Compatible;
    ok, byName' := true, byName;
    var rest := ps[k].files.Keys;
    ghost var now, next := ps[..k], ps[..k + 1];
    forall f | f !in rest ensures CoveredUpTo(byName, next, f) { Untouched(byName, ps, k, f); }
    while rest != {}
      invariant ok && rest <= ps[k].files.Keys
      invariant forall f | f in rest :: CoveredUpTo(byName', now, f)
      invariant forall f | f !in rest :: CoveredUpTo(byName', next, f)
      decreases rest
    {
      var f := Pick(rest);
      ghost var before := byName';
      ok, byName' := AddFile(byName', ps, k, f, ps[k].files[f]);
      if !ok { return; }
      forall g | g != f ensures g in rest ==> CoveredUpTo(byName', now, g)
                        ensures g !in rest ==> CoveredUpTo(byName', next, g)
      {
        SameEntry(before, byName', now, g);
        SameEntry(before, byName', next, g);
      }
      rest := rest - {f};
    }
  }

  lemma Untouched(byName: map<Path, FileCover>, ps: seq<Profile>, k: nat, f: Path)
    requires k < |ps| && f !in ps[k].files && CoveredUpTo(byName, ps[..k], f)
    ensures CoveredUpTo(byName, ps[..k + 1], f)
  {
    assert ps[..k + 1][..k] == ps[..k];
    assert Contribs(ps[..k + 1], f) == Contribs(ps[..k], f);
  }

  lemma SameEntry(a: map<Path, FileCover>, b: map<Path, FileCover>, ps: seq<Profile>, f: Path)
    requires (f in a <==> f in b) && (f in a ==> a[f] == b[f])
    ensures CoveredUpTo(a, ps, f) == CoveredUpTo(b, ps, f)
  {
  }

  method MergeProfiles(inputs: seq<Profile>) returns (ok: bool, byName: map<Path, FileCover>, mode: string)
    ensures ok <==> Compatible(inputs)
    ensures ok ==> mode == inputs[0].mode && AllCovered(byName, inputs)
  {
    hide CoveredUpTo;
    ok, byName, mode := false, map[], "";
    if |inputs| == 0 { return; }
    assert inputs[..0] == [];
    forall f ensures CoveredUpTo(byName, [], f) { NothingCovered(f); }
    for k := 0 to |inputs|
      invariant AllCovered(byName, inputs[..k])
      invariant forall i | 0 <= i < k :: inputs[i].mode == mode && mode != ""
      invariant k == 0 ==> mode == ""
    {
      if inputs[k].mode == "" { return; }
      if mode != "" && mode != inputs[k].mode {
        assert inputs[0].mode != inputs[k].mode;
        return;
      }
      mode := inputs[k].mode;
      ok, byName := AddProfile(byName, inputs, k);
      if !ok { return; }
      ok := false;
    }
    assert inputs[..|inputs|] == inputs;
    forall f ensures OneLayout(Contribs(inputs, f)) { CoveredHasLayout(byName, inputs, f); }
    ok := true;
  }

  lemma NothingCovered(f: Path)
    ensures CoveredUpTo(map[], [], f)
  {
  }

  lemma CoveredHasLayout(byName: map<Path, FileCover>, ps: seq<Profile>, f: Path)
    requires CoveredUpTo(byName, ps, f)
    ensures OneLayout(Contribs(ps, f))
  {
  }

  type Coded = map<Path, seq<RangeCoding.Range>>

  /** The ranges of a file are the canonical ones of its blocks. */
  ghost predicate CodedAs(coded: Coded, f: Path, blocks: seq<Block>) {
    f in coded && RangeCoding.Canonical(coded[f]) && RangeCoding.Expand(coded[f]) == RangeCoding.LineStates(blocks)
  }

  /** The row of one file, or a refusal. */
  method IngestFile(rows: Rows, s: Setting, merge: bool, ghost ps: seq<Profile>, mode: string, f: Path, c: FileCover)
    returns (ok: bool, row: Row)
    requires Compatible(ps) && mode == ps[0].mode && f in s.index && Contribs(ps, f) != [] && c == Cover(Contribs(ps, f))
    ensures ok <==> FileAccepted(rows, s, merge, ps, f)
    ensures ok ==> row == RowFor(rows, s, merge, ps, f)
  {
    hide Cover, Compatible;
    row := NewRow(s, f, mode, c);
    if merge && f in rows {
      var prev := rows[f];
      if prev.hash != s.index[f] || prev.mode != mode || prev.ref != s.ref || |prev.blocks| == 0 { return false, row; }
      var merged, same := MergeSequences(c.blocks, prev.blocks);
      if !same { return false, row; }
      var covered, uncovered := DeriveLineSets(merged);
      row := NewRow(s, f, mode, FileCover(merged, LineSets(covered, uncovered)));
    }
    return true, row;
  }

  /** The rows prepared so far are those of the specification, with canonical ranges. */
  ghost predicate Prepared(rows: Rows, s: Setting, merge: bool, ps: seq<Profile>, fileRows: Rows, coded: Coded)
    requires Compatible(ps)
  {
    forall f | f in fileRows ::
      && f in s.index && Contribs(ps, f) != [] && FileAccepted(rows, s, merge, ps, f)
      && fileRows[f] == RowFor(rows, s, merge, ps, f) && CodedAs(coded, f, fileRows[f].blocks)
  }

  lemma PreparedMore(rows: Rows, s: Setting, merge: bool, ps: seq<Profile>, fileRows: Rows, coded: Coded,
                     f: Path, row: Row, ranges: seq<RangeCoding.Range>)
    requires Compatible(ps) && Prepared(rows, s, merge, ps, fileRows, coded)
    requires f in s.index && Contribs(ps, f) != [] && FileAccepted(rows, s, merge, ps, f) && row == RowFor(rows, s, merge, ps, f)
    requires RangeCoding.Canonical(ranges) && RangeCoding.Expand(ranges) == RangeCoding.LineStates(row.blocks)
    ensures Prepared(rows, s, merge, ps, fileRows[f := row], coded[f := ranges])
  {
    CodedMore(coded, f, ranges, row.blocks);
    hide Compatible, FileAccepted, RowFor, CodedAs;
  }

  lemma PreparedIsStored(rows: Rows, s: Setting, merge: bool, ps: seq<Profile>, fileRows: Rows, coded: Coded)
    requires Compatible(ps) && Prepared(rows, s, merge, ps, fileRows, coded) && fileRows.Keys == Indexed(s, ps)
    ensures Ingested(rows, s, merge, ps, Stored(rows + fileRows))
    ensures forall f | f in Indexed(s, ps) && f in rows + fileRows :: CodedAs(coded, f, (rows + fileRows)[f].blocks)
  {
    hide Compatible, FileAccepted, RowFor, CodedAs;
  }

  /** All rows are prepared first and written together; the first refusal leaves the store as it was. */
  method IngestMany(rows: Rows, s: Setting, merge: bool, profiles: seq<Profile>) returns (result: Result, coded: Coded)
    ensures Ingested(rows, s, merge, profiles, result)
    ensures result.Stored? ==> forall f | f in Indexed(s, profiles) && f in result.rows :: CodedAs(coded, f, result.rows[f].blocks)
  {
    hide Compatible, FileAccepted, RowFor, CodedAs, Prepared, CoveredUpTo;
    coded := map[];
    var ok, byName, mode := MergeProfiles(profiles);
    if !ok { return Failed, coded; }
    NamesCovered(byName, s, profiles);
    NothingPrepared(rows, s, merge, profiles);
    var fileRows: Rows := map[];
    var rest := byName.Keys;
    while rest != {}
      invariant rest <= byName.Keys
      invariant fileRows.Keys == (byName.Keys - rest) * s.index.Keys
      invariant Prepared(rows, s, merge, profiles, fileRows, coded)
      decreases rest
    {
      var f := Pick(rest);
      FileIsCovered(byName, profiles, f);
      if f in s.index {
        var accepted, row := IngestFile(rows, s, merge, profiles, mode, f, byName[f]);
        if !accepted {
          assert f in Indexed(s, profiles);
          return Failed, coded;
        }
        var states := RangeCoding.DeriveLineStates(row.blocks);
        var ranges := RangeCoding.RangesFromStates(states);
        PreparedMore(rows, s, merge, profiles, fileRows, coded, f, row, ranges);
        fileRows, coded := fileRows[f := row], coded[f := ranges];
      }
      rest := rest - {f};
    }
    PreparedIsStored(rows, s, merge, profiles, fileRows, coded);
    result := Stored(rows + fileRows);
  }

  lemma NothingPrepared(rows: Rows, s: Setting, merge: bool, ps: seq<Profile>)
    requires Compatible(ps)
    ensures Prepared(rows, s, merge, ps, map[], map[])
  {
  }

  lemma CodedMore(coded: Coded, f: Path, ranges: seq<RangeCoding.Range>, blocks: seq<Block>)
    requires RangeCoding.Canonical(ranges) && RangeCoding.Expand(ranges) == RangeCoding.LineStates(blocks)
    ensures CodedAs(coded[f := ranges], f, blocks)
    ensures forall g, other | g != f && CodedAs(coded, g, other) :: CodedAs(coded[f := ranges], g, other)
  {
  }

  lemma NamesCovered(byName: map<Path, FileCover>, s: Setting, ps: seq<Profile>)
    requires AllCovered(byName, ps)
    ensures forall f :: f in byName <==> Contribs(ps, f) != []
    ensures Indexed(s, ps) == byName.Keys * s.index.Keys
  {
    IndexedContributes(s, ps);
    forall f ensures f in byName <==> Contribs(ps, f) != [] { assert CoveredUpTo(byName, ps, f); }
  }

  lemma FileIsCovered(byName: map<Path, FileCover>, ps: seq<Profile>, f: Path)
    requires CoveredUpTo(byName, ps, f) && f in byName
    ensures Contribs(ps, f) != [] && OneLayout(Contribs(ps, f)) && byName[f] == Cover(Contribs(ps, f))
  {
  }
}
