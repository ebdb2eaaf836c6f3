/** What an ingest accepts and what it leaves in the store, profile by profile and block by block
    (coverage/ingest.go, coverage/profile.go). */
module CoverageRows {
  import opened Collections
  import opened Coverage
  import opened CoverageIngest

  /** The same instrumented blocks: everything but the outcome agrees. */
  ghost predicate Alike(a: seq<Block>, b: seq<Block>) {
    |a| == |b| && forall i | 0 <= i < |a| ::
      && a[i].startLine == b[i].startLine && a[i].startCol == b[i].startCol
      && a[i].endLine == b[i].endLine && a[i].endCol == b[i].endCol && a[i].numStmt == b[i].numStmt
  }

  lemma AlikeIs(a: seq<Block>, b: seq<Block>)
    ensures SameLayout(a, b) <==> Alike(a, b)
  {
  }

  /** Some profile has these blocks for the file. */
  ghost predicate Gives(ps: seq<Profile>, f: Path, blocks: seq<Block>) {
    exists p :: p in ps && f in p.files && p.files[f] == blocks
  }

  lemma {:induction false} ContribsAre(ps: seq<Profile>, f: Path, c: seq<Block>)
    ensures c in Contribs(ps, f) <==> Gives(ps, f, c)
  {
    if ps != [] {
      var n := |ps| - 1;
      ContribsAre(ps[..n], f, c);
      assert ps == ps[..n] + [ps[n]];
      assert forall p :: p in ps <==> p in ps[..n] || p == ps[n];
    }
  }

  // ---------------------------------------------------------------- what is accepted

  /** The profiles fit together: some, of one known mode, alike wherever two name a file. */
  ghost predicate FitTogether(ps: seq<Profile>) {
    && ps != []
    && (forall p, q | p in ps && q in ps :: p.mode == q.mode && p.mode != "")
    && (forall f, a, b | Gives(ps, f, a) && Gives(ps, f, b) :: Alike(a, b))
  }

  lemma CompatibleIs(ps: seq<Profile>)
    ensures Compatible(ps) <==> FitTogether(ps)
  {
    hide SameLayout, Alike, Gives;
    forall f ensures OneLayout(Contribs(ps, f)) <==> forall a, b | Gives(ps, f, a) && Gives(ps, f, b) :: Alike(a, b) {
      LayoutIs(ps, f);
    }
    assert forall i | 0 <= i < |ps| :: ps[i] in ps;
    if Compatible(ps) {
      forall p, q | p in ps && q in ps ensures p.mode == q.mode && p.mode != "" {
        var i :| 0 <= i < |ps| && ps[i] == p;
        var j :| 0 <= j < |ps| && ps[j] == q;
      }
      forall f, a, b | Gives(ps, f, a) && Gives(ps, f, b) ensures Alike(a, b) { assert OneLayout(Contribs(ps, f)); }
    }
    if FitTogether(ps) {
      forall f ensures OneLayout(Contribs(ps, f)) { assert forall a, b | Gives(ps, f, a) && Gives(ps, f, b) :: Alike(a, b); }
      assert OneMode(ps);
    }
  }

  lemma LayoutIs(ps: seq<Profile>, f: Path)
    ensures OneLayout(Contribs(ps, f)) <==> forall a, b | Gives(ps, f, a) && Gives(ps, f, b) :: Alike(a, b)
  {
    hide SameLayout, Alike, Gives;
    var cs := Contribs(ps, f);
    forall a ensures a in cs <==> Gives(ps, f, a) { ContribsAre(ps, f, a); }
    forall a, b ensures SameLayout(a, b) <==> Alike(a, b) { AlikeIs(a, b); }
    if OneLayout(cs) {
      forall a, b | Gives(ps, f, a) && Gives(ps, f, b) ensures Alike(a, b) {
        var i :| 0 <= i < |cs| && cs[i] == a;
        var j :| 0 <= j < |cs| && cs[j] == b;
        LayoutIsEquivalence(cs[0], a, b);
        LayoutIsEquivalence(a, cs[0], b);
      }
    } else {
      var k :| 0 <= k < |cs| && !SameLayout(cs[0], cs[k]);
      assert cs[0] in cs && cs[k] in cs;
    }
  }

  /** Merging onto a stored row: it is of the same content, mode and label and has the same blocks. */
  ghost predicate FitsStored(rows: Rows, s: Setting, ps: seq<Profile>, f: Path)
    requires f in s.index && f in rows
  {
    forall p | p in ps && f in p.files ::
      && rows[f].hash == s.index[f] && rows[f].mode == p.mode && rows[f].ref == s.ref
      && rows[f].blocks != [] && Alike(p.files[f], rows[f].blocks)
  }

  lemma CoverIsAlike(ps: seq<Profile>, f: Path, c: seq<Block>)
    requires Compatible(ps) && Gives(ps, f, c)
    ensures Contribs(ps, f) != [] && OneLayout(Contribs(ps, f)) && SameLayout(c, Cover(Contribs(ps, f)).blocks)
  {
    hide Cover, SameLayout;
    var cs := Contribs(ps, f);
    ContribsAre(ps, f, c);
    CompatibleLayout(ps, f);
    CoverShape(cs);
    var k :| 0 <= k < |cs| && cs[k] == c;
    LayoutIsEquivalence(cs[0], c, c);
    LayoutIsEquivalence(c, cs[0], Cover(cs).blocks);
  }

  lemma FileAcceptedIs(rows: Rows, s: Setting, merge: bool, ps: seq<Profile>, f: Path)
    requires Compatible(ps) && f in s.index
    ensures FileAccepted(rows, s, merge, ps, f) <==> (merge && f in rows ==> FitsStored(rows, s, ps, f))
  {
    hide Cover, SameLayout, Alike;
    var cs := Contribs(ps, f);
    CompatibleIs(ps);
    forall p | p in ps && f in p.files
      ensures cs != [] && OneLayout(cs) && p.mode == ps[0].mode && (f in rows ==> (SameLayout(Cover(cs).blocks, rows[f].blocks) <==> Alike(p.files[f], rows[f].blocks)))
    {
      assert Gives(ps, f, p.files[f]) && ps[0] in ps;
      CoverIsAlike(ps, f, p.files[f]);
      if f in rows {
        AlikeIs(p.files[f], rows[f].blocks);
        LayoutIsEquivalence(p.files[f], Cover(cs).blocks, rows[f].blocks);
        LayoutIsEquivalence(Cover(cs).blocks, p.files[f], rows[f].blocks);
      }
    }
    if cs != [] {
      assert cs[0] in cs;
      ContribsAre(ps, f, cs[0]);
      var p :| p in ps && f in p.files && p.files[f] == cs[0];
    } else {
      NeverNamed(ps, f);
    }
  }

  /** An ingest is stored exactly when its profiles fit together and, merging, fit what is stored. */
  lemma StoredIff(rows: Rows, s: Setting, merge: bool, ps: seq<Profile>, result: Result)
    requires Ingested(rows, s, merge, ps, result)
    ensures result.Stored? <==>
              FitTogether(ps) && (merge ==> forall f | f in s.index && f in rows :: FitsStored(rows, s, ps, f))
  {
    hide FitTogether, FitsStored, FileAccepted, IsStored, Compatible;
    CompatibleIs(ps);
    if Compatible(ps) {
      IndexedContributes(s, ps);
      forall f | f in s.index ensures FileAccepted(rows, s, merge, ps, f) <==> (merge && f in rows ==> FitsStored(rows, s, ps, f)) {
        FileAcceptedIs(rows, s, merge, ps, f);
      }
      forall f | f in s.index && Contribs(ps, f) == [] ensures FileAccepted(rows, s, merge, ps, f) { NobodyGives(rows, s, merge, ps, f); }
    }
  }

  lemma NobodyGives(rows: Rows, s: Setting, merge: bool, ps: seq<Profile>, f: Path)
    requires Compatible(ps) && f in s.index && Contribs(ps, f) == []
    ensures FileAccepted(rows, s, merge, ps, f)
  {
  }

  // ---------------------------------------------------------------- what is stored

  /** A block runs from its first to its last line. */
  predicate Touches(b: Block, ln: int) { b.startLine <= ln <= b.endLine }

  /** The block was hit in a run of the ingest, or before when merging. */
  ghost predicate HitIn(rows: Rows, merge: bool, ps: seq<Profile>, f: Path, i: nat) {
    || (exists p: Profile :: p in ps && f in p.files && i < |p.files[f]| && p.files[f][i].hit)
    || (merge && f in rows && i < |rows[f].blocks| && rows[f].blocks[i].hit)
  }

  ghost predicate LinesAre(blocks: seq<Block>, lines: LineSets, least: int -> bool) {
    forall ln: int ::
      && (ln in lines.covered <==> least(ln) && exists b :: b in blocks && b.hit && Touches(b, ln))
      && (ln in lines.uncovered <==> least(ln) && (exists b :: b in blocks && Touches(b, ln)) && !exists b :: b in blocks && b.hit && Touches(b, ln))
  }

  lemma LinesHitAre(blocks: seq<Block>)
    ensures LinesAre(blocks, LinesHit(blocks), ln => true) && LinesAre(blocks, ParsedLines(blocks), ln => 0 < ln)
  {
    forall ln: int
      ensures ln in Touched(blocks, true) <==> exists b :: b in blocks && b.hit && Touches(b, ln)
      ensures ln in Touched(blocks, false) <==> exists b :: b in blocks && !b.hit && Touches(b, ln)
    {
      assert forall b: Block :: ln in LinesOf(b) <==> Touches(b, ln) by {
        forall b: Block ensures ln in LinesOf(b) <==> Touches(b, ln) { assert Within(ln, b.startLine, b.endLine + 1) <==> Touches(b, ln); }
      }
    }
  }

  /** How many of the profiles name the file. */
  ghost function TimesNamed(ps: seq<Profile>, f: Path): nat {
    if ps == [] then 0 else TimesNamed(ps[..|ps| - 1], f) + if f in ps[|ps| - 1].files then 1 else 0
  }

  lemma {:induction false} NeverNamed(ps: seq<Profile>, f: Path)
    ensures Contribs(ps, f) == [] <==> forall i | 0 <= i < |ps| :: f !in ps[i].files
    ensures Contribs(ps, f) == [] <==> forall p | p in ps :: f !in p.files
  {
    if ps != [] {
      var n := |ps| - 1;
      NeverNamed(ps[..n], f);
      assert ps == ps[..n] + [ps[n]];
    }
    assert forall i | 0 <= i < |ps| :: ps[i] in ps;
  }

  lemma {:induction false} OneContribution(ps: seq<Profile>, f: Path)
    ensures |Contribs(ps, f)| == TimesNamed(ps, f)
  {
    if ps != [] { OneContribution(ps[..|ps| - 1], f); }
  }

  /** The row of a file that the ingest names. */
  ghost predicate RowIs(rows: Rows, s: Setting, merge: bool, ps: seq<Profile>, f: Path, p: Profile, r: Row)
    requires f in s.index && f in p.files
  {
    && r.hash == s.index[f] && r.mode == p.mode && r.ref == s.ref
    && Alike(r.blocks, p.files[f]) && (forall i | 0 <= i < |r.blocks| :: r.blocks[i].hit <==> HitIn(rows, merge, ps, f, i))
    && LinesAre(r.blocks, r.lines, if TimesNamed(ps, f) == 1 && !(merge && f in rows) then ln => 0 < ln else ln => true)
  }

  lemma HitSomewhereIs(ps: seq<Profile>, f: Path, i: nat)
    ensures HitSomewhereIn(Contribs(ps, f), i) <==> exists p: Profile :: p in ps && f in p.files && i < |p.files[f]| && p.files[f][i].hit
  {
    hide Contribs;
    var cs: seq<seq<Block>> := Contribs(ps, f);
    if k :| 0 <= k < |cs| && i < |cs[k]| && cs[k][i].hit {
      assert cs[k] in cs;
      ContribsAre(ps, f, cs[k]);
    }
    if p: Profile :| p in ps && f in p.files && i < |p.files[f]| && p.files[f][i].hit {
      assert Gives(ps, f, p.files[f]);
      ContribsAre(ps, f, p.files[f]);
      var k :| 0 <= k < |cs| && cs[k] == p.files[f];
      assert cs[k][i].hit;
    }
  }

  lemma CoverLines(cs: seq<seq<Block>>)
    requires cs != [] && OneLayout(cs)
    ensures LinesAre(Cover(cs).blocks, Cover(cs).lines, if |cs| == 1 then ln => 0 < ln else ln => true)
  {
    hide LinesAre, LinesHit, ParsedLines, MergeAll;
    LinesHitAre(cs[0]);
    LinesHitAre(MergeAll(cs));
  }

  lemma RowForIs(rows: Rows, s: Setting, merge: bool, ps: seq<Profile>, f: Path, p: Profile)
    requires Compatible(ps) && f in s.index && p in ps && f in p.files && Contribs(ps, f) != [] && FileAccepted(rows, s, merge, ps, f)
    ensures RowIs(rows, s, merge, ps, f, p, RowFor(rows, s, merge, ps, f))
  {
    hide Cover, Alike, LinesAre, LinesHit, TimesNamed, HitSomewhereIn, Contribs;
    var cs := Contribs(ps, f);
    var r := RowFor(rows, s, merge, ps, f);
    CompatibleIs(ps);
    CompatibleLayout(ps, f);
    assert Gives(ps, f, p.files[f]) && ps[0] in ps;
    CoverIsAlike(ps, f, p.files[f]);
    CoverShape(cs);
    CoverLines(cs);
    OneContribution(ps, f);
    LinesHitAre(r.blocks);
    forall i | 0 <= i < |Cover(cs).blocks| ensures Cover(cs).blocks[i].hit <==> exists q: Profile :: q in ps && f in q.files && i < |q.files[f]| && q.files[f][i].hit {
      HitSomewhereIs(ps, f, i);
    }
    LayoutIsEquivalence(p.files[f], Cover(cs).blocks, r.blocks);
    LayoutIsEquivalence(r.blocks, p.files[f], r.blocks);
    AlikeIs(r.blocks, p.files[f]);
  }

  /** After a stored ingest each file that is indexed and named has its row. */
  lemma RowsAfter(rows: Rows, s: Setting, merge: bool, ps: seq<Profile>, result: Result, f: Path, p: Profile)
    requires Ingested(rows, s, merge, ps, result) && result.Stored? && f in s.index && p in ps && f in p.files
    ensures f in result.rows && RowIs(rows, s, merge, ps, f, p, result.rows[f])
  {
    hide RowIs, RowFor, FileAccepted, Compatible, Contribs;
    IndexedContributes(s, ps);
    NeverNamed(ps, f);
    RowForIs(rows, s, merge, ps, f, p);
  }

  /** All other rows are as before. */
  lemma OtherRowsAfter(rows: Rows, s: Setting, merge: bool, ps: seq<Profile>, result: Result, f: Path)
    requires Ingested(rows, s, merge, ps, result) && result.Stored?
    requires f !in s.index || forall p | p in ps :: f !in p.files
    ensures (f in result.rows <==> f in rows) && (f in rows ==> result.rows[f] == rows[f])
  {
    hide RowFor, FileAccepted, Compatible, Contribs;
    IndexedContributes(s, ps);
    NeverNamed(ps, f);
    assert f in result.rows <==> f in result.rows.Keys;
  }
}
