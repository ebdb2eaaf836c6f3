/** Merging the blocks of Go coverage runs of one instrumentation layout, and the line sets that follow
    from them (coverage/profile.go). */
module Coverage {

  datatype Block = Block(startLine: int, startCol: int, endLine: int, endCol: int, numStmt: int, hit: bool)

  // ---------------------------------------------------------------- block layouts

  predicate SameShape(a: Block, b: Block) { a == b.(hit := a.hit) }

  predicate SameLayout(a: seq<Block>, b: seq<Block>) {
    |a| == |b| && forall i | 0 <= i < |a| :: SameShape(a[i], b[i])
  }

  /** A block is hit when either run hit it; counts are never added. */
  function Merged(a: seq<Block>, b: seq<Block>): (r: seq<Block>)
    requires SameLayout(a, b)
    ensures SameLayout(r, a)
  {
    seq(|a|, i requires 0 <= i < |a| => a[i].(hit := a[i].hit || b[i].hit))
  }

  lemma LayoutIsEquivalence(a: seq<Block>, b: seq<Block>, c: seq<Block>)
    ensures SameLayout(a, a)
    ensures SameLayout(a, b) ==> SameLayout(b, a)
    ensures SameLayout(a, b) && SameLayout(b, c) ==> SameLayout(a, c)
  {
  }

  /** Writes into `dst`. On a layout that differs, earlier blocks have already been merged. */
  method MergeBlocks(dst: array<Block>, src: array<Block>) returns (ok: bool)
    requires dst != src
    modifies dst
    ensures ok <==> SameLayout(old(dst[..]), src[..])
    ensures ok ==> dst[..] == Merged(old(dst[..]), src[..])
    ensures SameLayout(dst[..], old(dst[..]))
    ensures forall i | 0 <= i < dst.Length && old(dst[i]).hit :: dst[i].hit
  {
    if dst.Length != src.Length { return false; }
    for i := 0 to dst.Length
      invariant SameLayout(old(dst[..i]), src[..i])
      invariant forall j | 0 <= j < i :: dst[j] == old(dst[j]).(hit := old(dst[j]).hit || src[j].hit)
      invariant forall j | i <= j < dst.Length :: dst[j] == old(dst[j])
    {
      var a, b := dst[i], src[i];
      if a.startLine != b.startLine || a.startCol != b.startCol || a.endLine != b.endLine || a.endCol != b.endCol || a.numStmt != b.numStmt {
        assert !SameShape(old(dst[..])[i], src[..][i]);
        return false;
      }
      dst[i] := a.(hit := a.hit || b.hit);
    }
    assert old(dst[..dst.Length]) == old(dst[..]) && src[..src.Length] == src[..];
    return true;
  }

  // ---------------------------------------------------------------- line sets

  predicate Within(ln: int, from: int, to: int) { from <= ln < to }

  /** The lines from one to before the other. */
  function Span(from: int, to: int): set<int> { set ln: int | from <= ln < to && Within(ln, from, to) }

  function LinesOf(b: Block): set<int> { Span(b.startLine, b.endLine + 1) }

  /** Lines of blocks with the given outcome. */
  function Touched(blocks: seq<Block>, hit: bool): set<int> {
    set b, ln | b in blocks && b.hit == hit && ln in LinesOf(b) :: ln
  }

  function Measured(blocks: seq<Block>): set<int> { Touched(blocks, true) + Touched(blocks, false) }

  datatype LineSets = LineSets(covered: set<int>, uncovered: set<int>)

  /** A hit wins over a miss. */
  function LinesHit(blocks: seq<Block>): LineSets {
    LineSets(Touched(blocks, true), Touched(blocks, false) - Touched(blocks, true))
  }

  function Positive(lines: set<int>): set<int> { set ln | ln in lines && 0 < ln }

  /** What reading a profile keeps: lines below 1 are dropped. */
  function ParsedLines(blocks: seq<Block>): LineSets {
    LineSets(Positive(LinesHit(blocks).covered), Positive(LinesHit(blocks).uncovered))
  }

  /** Reading and re-deriving the line sets agree exactly when no block touches a line below 1. */
  lemma ParsedAgreesIff(blocks: seq<Block>)
    ensures ParsedLines(blocks) == LinesHit(blocks) <==> forall ln | ln in Measured(blocks) :: 0 < ln
  {
    var h := LinesHit(blocks);
    assert forall ln :: ln in Measured(blocks) <==> ln in h.covered || ln in h.uncovered;
  }

  lemma TouchedSame(a: seq<Block>, b: seq<Block>)
    requires SameLayout(a, b)
    ensures Touched(Merged(a, b), true) == Touched(a, true) + Touched(b, true)
    ensures Measured(Merged(a, b)) == Measured(a) == Measured(b)
  {
    var m := Merged(a, b);
    forall ln ensures ln in Touched(m, true) <==> ln in Touched(a, true) || ln in Touched(b, true) {
      HitSomewhere(m, true, ln);
      HitSomewhere(a, true, ln);
      HitSomewhere(b, true, ln);
      assert forall i | 0 <= i < |m| :: LinesOf(m[i]) == LinesOf(a[i]) == LinesOf(b[i]);
    }
    forall ln ensures ln in Measured(m) <==> ln in Measured(a)
              ensures ln in Measured(a) <==> ln in Measured(b) {
      MeasuredSomewhere(m, ln);
      MeasuredSomewhere(a, ln);
      MeasuredSomewhere(b, ln);
      assert forall i | 0 <= i < |m| :: LinesOf(m[i]) == LinesOf(a[i]) == LinesOf(b[i]);
    }
  }

  lemma HitSomewhere(blocks: seq<Block>, hit: bool, ln: int)
    ensures ln in Touched(blocks, hit) <==> exists i :: 0 <= i < |blocks| && blocks[i].hit == hit && ln in LinesOf(blocks[i])
  {
    if ln in Touched(blocks, hit) {
      var b :| b in blocks && b.hit == hit && ln in LinesOf(b);
      var i :| 0 <= i < |blocks| && blocks[i] == b;
    }
  }

  lemma MeasuredSomewhere(blocks: seq<Block>, ln: int)
    ensures ln in Measured(blocks) <==> exists i :: 0 <= i < |blocks| && ln in LinesOf(blocks[i])
  {
    HitSomewhere(blocks, true, ln);
    HitSomewhere(blocks, false, ln);
  }

  /** The covered lines of a merge are those of either run; the uncovered ones are the rest. */
  lemma MergeUnitesLines(a: seq<Block>, b: seq<Block>)
    requires SameLayout(a, b)
    ensures LinesHit(Merged(a, b)).covered == LinesHit(a).covered + LinesHit(b).covered
    ensures LinesHit(Merged(a, b)).uncovered == Measured(a) - (LinesHit(a).covered + LinesHit(b).covered)
  {
    TouchedSame(a, b);
    var m := Merged(a, b);
    assert Measured(m) - Touched(m, true) == Touched(m, false) - Touched(m, true);
  }

  /** The loops over blocks and their lines, and the removal of covered lines at the end. */
  method DeriveLineSets(blocks: seq<Block>) returns (covered: set<int>, uncovered: set<int>)
    ensures LineSets(covered, uncovered) == LinesHit(blocks)
  {
    covered, uncovered := {}, {};
    for i := 0 to |blocks|
      invariant covered == Touched(blocks[..i], true) && uncovered == Touched(blocks[..i], false)
    {
      var b := blocks[i];
      TouchedOneMore(blocks, i);
      var ln := b.startLine;
      while ln <= b.endLine
        invariant if b.startLine <= b.endLine then b.startLine <= ln <= b.endLine + 1 else ln == b.startLine
        invariant covered == Touched(blocks[..i], true) + if b.hit then Before(b, ln) else {}
        invariant uncovered == Touched(blocks[..i], false) + if b.hit then {} else Before(b, ln)
      {
        if b.hit { covered := covered + {ln}; } else { uncovered := uncovered + {ln}; }
        assert Before(b, ln + 1) == Before(b, ln) + {ln};
        ln := ln + 1;
      }
      assert Before(b, ln) == LinesOf(b);
    }
    assert blocks[..|blocks|] == blocks;
    uncovered := uncovered - covered;
  }

  function Before(b: Block, next: int): set<int> { Span(b.startLine, next) }

  lemma TouchedOneMore(blocks: seq<Block>, i: nat)
    requires i < |blocks|
    ensures forall hit :: Touched(blocks[..i + 1], hit) ==
                          Touched(blocks[..i], hit) + if blocks[i].hit == hit then LinesOf(blocks[i]) else {}
  {
    assert blocks[..i + 1] == blocks[..i] + [blocks[i]];
    forall hit, ln ensures ln in Touched(blocks[..i + 1], hit) <==>
                           ln in Touched(blocks[..i], hit) || (blocks[i].hit == hit && ln in LinesOf(blocks[i])) {
      assert forall b :: b in blocks[..i + 1] <==> b in blocks[..i] || b == blocks[i];
    }
  }

  /** One block of a profile: a miss is recorded only on lines that are not yet covered. */
  method ReadBlock(b: Block, covered: set<int>, uncovered: set<int>) returns (covered': set<int>, uncovered': set<int>)
    ensures covered' == covered + if b.hit then Positive(LinesOf(b)) else {}
    ensures uncovered' == uncovered + if b.hit then {} else Positive(LinesOf(b)) - covered
  {
    covered', uncovered' := covered, uncovered;
    var ln := b.startLine;
    while ln <= b.endLine
      invariant if b.startLine <= b.endLine then b.startLine <= ln <= b.endLine + 1 else ln == b.startLine
      invariant covered' == covered + if b.hit then Positive(Before(b, ln)) else {}
      invariant uncovered' == uncovered + if b.hit then {} else Positive(Before(b, ln)) - covered
    {
      assert Positive(Before(b, ln + 1)) == Positive(Before(b, ln)) + if 0 < ln then {ln} else {};
      if ln > 0 {
        if b.hit {
          covered' := covered' + {ln};
        } else if ln !in covered' {
          uncovered' := uncovered' + {ln};
        }
      }
      ln := ln + 1;
    }
    assert Before(b, ln) == LinesOf(b);
  }

  lemma PositiveJoins(a: set<int>, b: set<int>)
    ensures Positive(a + b) == Positive(a) + Positive(b)
  {
  }

  /** The loop that reads a profile, and the removal of covered lines at the end. */
  method ReadLineSets(blocks: seq<Block>) returns (covered: set<int>, uncovered: set<int>)
    ensures LineSets(covered, uncovered) == ParsedLines(blocks)
  {
    hide Positive, Touched, LinesOf;
    covered, uncovered := {}, {};
    NothingTouched();
    assert blocks[..0] == [];
    for i := 0 to |blocks|
      invariant covered == Positive(Touched(blocks[..i], true))
      invariant uncovered <= Positive(Touched(blocks[..i], false)) <= uncovered + covered
    {
      TouchedOneMore(blocks, i);
      PositiveJoins(Touched(blocks[..i], blocks[i].hit), LinesOf(blocks[i]));
      assert Touched(blocks[..i], !blocks[i].hit) + {} == Touched(blocks[..i], !blocks[i].hit);
      covered, uncovered := ReadBlock(blocks[i], covered, uncovered);
    }
    assert blocks[..|blocks|] == blocks;
    uncovered := uncovered - covered;
    PositiveDifference(Touched(blocks, false), Touched(blocks, true));
  }

  lemma NothingTouched()
    ensures forall hit :: Positive(Touched([], hit)) == {}
  {
  }

  lemma PositiveDifference(a: set<int>, b: set<int>)
    ensures Positive(a - b) == Positive(a) - Positive(b)
  {
  }
}
