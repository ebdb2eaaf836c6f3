/** Line states of exact blocks and their run-length coding (coverage/rle.go). */
module RangeCoding {
  import opened Collections
  import opened Coverage
  import StableSort

  datatype Kind = Hit | Miss | Partial

  /** Consecutive lines of one state, both ends included. */
  datatype Range = Range(start: int, end: int, kind: Kind)

  type States = map<int, Kind>

  // ---------------------------------------------------------------- line states

  /** A block that ends at the very beginning of a later line does not touch that line. */
  predicate EndSkipped(b: Block) { b.endCol <= 1 && b.endLine != b.startLine }

  function StateLines(b: Block): set<int> {
    if EndSkipped(b) then LinesOf(b) - {b.endLine} else LinesOf(b)
  }

  function StateTouched(blocks: seq<Block>, hit: bool): set<int> {
    set b, ln | b in blocks && b.hit == hit && ln in StateLines(b) :: ln
  }

  function StateOf(hit: bool, miss: bool): Kind {
    if hit && miss then Partial else if hit then Hit else Miss
  }

  function LineStates(blocks: seq<Block>): States {
    var hit, miss := StateTouched(blocks, true), StateTouched(blocks, false);
    map ln | ln in hit + miss :: StateOf(ln in hit, ln in miss)
  }

  /** Some block of the outcome touches the line, and not with a skipped end. */
  ghost predicate TouchedBy(blocks: seq<Block>, hit: bool, ln: int) {
    exists b :: b in blocks && b.hit == hit && b.startLine <= ln <= b.endLine && !(ln == b.endLine && b.endCol <= 1 && ln != b.startLine)
  }

  /** A line has a state when some block touches it, and is partial when hit and missed ones do. */
  lemma StatesAre(blocks: seq<Block>, ln: int)
    ensures ln in LineStates(blocks) <==> TouchedBy(blocks, true, ln) || TouchedBy(blocks, false, ln)
    ensures ln in LineStates(blocks) ==>
              LineStates(blocks)[ln] ==
                if !TouchedBy(blocks, false, ln) then Hit else if !TouchedBy(blocks, true, ln) then Miss else Partial
  {
    forall hit: bool ensures ln in StateTouched(blocks, hit) <==> TouchedBy(blocks, hit, ln) {
      forall b: Block ensures ln in StateLines(b) <==> b.startLine <= ln <= b.endLine && !(ln == b.endLine && b.endCol <= 1 && ln != b.startLine) {
        assert Coverage.Within(ln, b.startLine, b.endLine + 1) <==> b.startLine <= ln <= b.endLine;
      }
    }
  }

  lemma StateLinesArePart(b: Block)
    ensures StateLines(b) <= LinesOf(b)
    ensures LinesOf(b) - StateLines(b) == if EndSkipped(b) && b.startLine <= b.endLine then {b.endLine} else {}
  {
  }

  /** The line sets and the line states measure the same lines exactly when every skipped end line
      is touched by some block that does not skip it. */
  lemma SameMeasuredIff(blocks: seq<Block>)
    ensures LineStates(blocks).Keys <= Measured(blocks)
    ensures LineStates(blocks).Keys == Measured(blocks) <==>
            forall b | b in blocks && EndSkipped(b) && b.startLine <= b.endLine ::
              exists c :: c in blocks && b.endLine in StateLines(c)
  {
    var keys := LineStates(blocks).Keys;
    forall ln ensures ln in keys <==> exists b :: b in blocks && ln in StateLines(b) {
      StateSomewhere(blocks, ln);
    }
    forall ln ensures ln in Measured(blocks) <==> exists b :: b in blocks && ln in LinesOf(b) {
      MeasuredByBlock(blocks, ln);
    }
    forall ln | ln in keys ensures ln in Measured(blocks) {
      var b :| b in blocks && ln in StateLines(b);
      StateLinesArePart(b);
    }
    if keys == Measured(blocks) {
      forall b | b in blocks && EndSkipped(b) && b.startLine <= b.endLine
        ensures exists c :: c in blocks && b.endLine in StateLines(c)
      {
        assert Coverage.Within(b.endLine, b.startLine, b.endLine + 1);
        assert b.endLine in LinesOf(b) && b.endLine in keys;
      }
    } else {
      var ln := MissingFrom(keys, Measured(blocks));
      var b :| b in blocks && ln in LinesOf(b);
      StateLinesArePart(b);
    }
  }

  lemma StateSomewhere(blocks: seq<Block>, ln: int)
    ensures ln in LineStates(blocks) <==> exists b :: b in blocks && ln in StateLines(b)
  {
    forall b | b in blocks && ln in StateLines(b) ensures ln in StateTouched(blocks, b.hit) {}
  }

  lemma MeasuredByBlock(blocks: seq<Block>, ln: int)
    ensures ln in Measured(blocks) <==> exists b :: b in blocks && ln in LinesOf(b)
  {
    forall b | b in blocks && ln in LinesOf(b) ensures ln in Touched(blocks, b.hit) {}
  }

  /** Where no end line is skipped, covered lines are the hit and partial ones and uncovered the missed. */
  lemma StatesRefineLineSets(blocks: seq<Block>)
    requires forall b | b in blocks :: !EndSkipped(b)
    ensures forall ln :: ln in LinesHit(blocks).covered <==> ln in LineStates(blocks) && LineStates(blocks)[ln] != Miss
    ensures forall ln :: ln in LinesHit(blocks).uncovered <==> ln in LineStates(blocks) && LineStates(blocks)[ln] == Miss
  {
    hide LinesOf;
    SameTouched(blocks, true);
    SameTouched(blocks, false);
  }

  lemma SameTouched(blocks: seq<Block>, hit: bool)
    requires forall b | b in blocks :: !EndSkipped(b)
    ensures StateTouched(blocks, hit) == Touched(blocks, hit)
  {
    hide LinesOf;
    forall ln ensures ln in StateTouched(blocks, hit) <==> ln in Touched(blocks, hit) {
      if ln in Touched(blocks, hit) {
        var b :| b in blocks && b.hit == hit && ln in LinesOf(b);
        assert ln in StateLines(b);
      }
    }
  }

  /** A single block whose end line is skipped: three lines are counted and two have a state. */
  lemma SkippedEndLineIsCounted()
    ensures var blocks := [Block(1, 1, 3, 1, 1, true)];
            LinesHit(blocks).covered == {1, 2, 3} && LineStates(blocks).Keys == {1, 2}
  {
    var b := Block(1, 1, 3, 1, 1, true);
    OneBlock(b);
    forall ln ensures ln in LinesOf(b) <==> ln in {1, 2, 3} {}
    assert StateLines(b) == {1, 2};
  }

  lemma OneBlock(b: Block)
    ensures Touched([b], b.hit) == LinesOf(b) && Touched([b], !b.hit) == {}
    ensures StateTouched([b], b.hit) == StateLines(b) && StateTouched([b], !b.hit) == {}
  {
    hide LinesOf, StateLines;
    assert b in [b];
    forall ln ensures ln in Touched([b], b.hit) <==> ln in LinesOf(b) {}
    forall ln ensures ln in StateTouched([b], b.hit) <==> ln in StateLines(b) {}
  }

  /** Whether a line was touched by a hit block and whether by a missed one. */
  datatype Hits = Hits(hit: bool, miss: bool)

  function SeenOf(hit: set<int>, miss: set<int>): map<int, Hits> {
    map ln | ln in hit + miss :: Hits(ln in hit, ln in miss)
  }

  /** The lines of a block before `next`, without a skipped end line. */
  function StateLinesBefore(b: Block, next: int): set<int> { Span(b.startLine, next) * StateLines(b) }

  method MarkLines(b: Block, seen: map<int, Hits>, ghost hit: set<int>, ghost miss: set<int>) returns (seen': map<int, Hits>)
    requires seen == SeenOf(hit, miss)
    ensures seen' == if b.hit then SeenOf(hit + StateLines(b), miss) else SeenOf(hit, miss + StateLines(b))
  {
    hide SeenOf, StateLines, StateLinesBefore;
    seen' := seen;
    var ln := b.startLine;
    NoLinesYet(b);
    assert hit + {} == hit && miss + {} == miss;
    while ln <= b.endLine
      invariant if b.startLine <= b.endLine then b.startLine <= ln <= b.endLine + 1 else ln == b.startLine
      invariant seen' == if b.hit then SeenOf(hit + StateLinesBefore(b, ln), miss) else SeenOf(hit, miss + StateLinesBefore(b, ln))
    {
      LineCounts(b, ln);
      ghost var before := StateLinesBefore(b, ln);
      assert hit + (before + {ln}) == hit + before + {ln} && miss + (before + {ln}) == miss + before + {ln};
      assert before + {} == before;
      if !(ln == b.endLine && b.endCol <= 1 && ln != b.startLine) {
        var h := if ln in seen' then seen'[ln] else Hits(false, false);
        if b.hit {
          MarkOne(hit + before, miss, ln);
          h := h.(hit := true);
        } else {
          MarkOne(hit, miss + before, ln);
          h := h.(miss := true);
        }
        seen' := seen'[ln := h];
      }
      ln := ln + 1;
    }
    AllStateLines(b, ln);
  }

  lemma NoLinesYet(b: Block)
    ensures StateLinesBefore(b, b.startLine) == {}
  {
  }

  lemma LineCounts(b: Block, ln: int)
    requires b.startLine <= ln <= b.endLine
    ensures StateLinesBefore(b, ln + 1) ==
            StateLinesBefore(b, ln) + if ln == b.endLine && b.endCol <= 1 && ln != b.startLine then {} else {ln}
  {
    assert Span(b.startLine, ln + 1) == Span(b.startLine, ln) + {ln};
    assert ln in LinesOf(b) by { assert Coverage.Within(ln, b.startLine, b.endLine + 1); }
  }

  lemma MarkOne(hit: set<int>, miss: set<int>, ln: int)
    ensures SeenOf(hit + {ln}, miss) == SeenOf(hit, miss)[ln := Hits(true, ln in miss)]
    ensures SeenOf(hit, miss + {ln}) == SeenOf(hit, miss)[ln := Hits(ln in hit, true)]
    ensures ln in SeenOf(hit, miss) <==> ln in hit || ln in miss
    ensures ln in SeenOf(hit, miss) ==> SeenOf(hit, miss)[ln] == Hits(ln in hit, ln in miss)
  {
  }

  lemma AllStateLines(b: Block, next: int)
    requires if b.startLine <= b.endLine then next == b.endLine + 1 else next == b.startLine
    ensures StateLinesBefore(b, next) == StateLines(b)
  {
  }

  lemma StateTouchedOneMore(blocks: seq<Block>, i: nat, hit: bool)
    requires i < |blocks|
    ensures StateTouched(blocks[..i + 1], hit) ==
            StateTouched(blocks[..i], hit) + if blocks[i].hit == hit then StateLines(blocks[i]) else {}
  {
    hide StateLines;
    var more := StateTouched(blocks[..i], hit) + if blocks[i].hit == hit then StateLines(blocks[i]) else {};
    assert blocks[..i + 1] == blocks[..i] + [blocks[i]];
    assert forall b :: b in blocks[..i + 1] <==> b in blocks[..i] || b == blocks[i];
    forall ln | ln in StateTouched(blocks[..i + 1], hit) ensures ln in more {
      var b :| b in blocks[..i + 1] && b.hit == hit && ln in StateLines(b);
    }
    forall ln | ln in more ensures ln in StateTouched(blocks[..i + 1], hit) {
      if ln in StateTouched(blocks[..i], hit) {
        var b :| b in blocks[..i] && b.hit == hit && ln in StateLines(b);
        assert b in blocks[..i + 1];
      } else {
        assert blocks[i] in blocks[..i + 1] && ln in StateLines(blocks[i]);
      }
    }
  }

  method DeriveLineStates(blocks: seq<Block>) returns (out: States)
    ensures out == LineStates(blocks)
  {
    hide SeenOf, StateTouched;
    var seen: map<int, Hits> := map[];
    NothingSeen();
    assert blocks[..0] == [];
    for i := 0 to |blocks|
      invariant seen == SeenOf(StateTouched(blocks[..i], true), StateTouched(blocks[..i], false))
    {
      StateTouchedOneMore(blocks, i, true);
      StateTouchedOneMore(blocks, i, false);
      assert StateTouched(blocks[..i], !blocks[i].hit) + {} == StateTouched(blocks[..i], !blocks[i].hit);
      seen := MarkLines(blocks[i], seen, StateTouched(blocks[..i], true), StateTouched(blocks[..i], false));
    }
    assert blocks[..|blocks|] == blocks;
    out := map ln | ln in seen :: if seen[ln].hit && seen[ln].miss then Partial else if seen[ln].hit then Hit else Miss;
    SeenGivesStates(blocks);
  }

  lemma NothingSeen()
    ensures SeenOf(StateTouched([], true), StateTouched([], false)) == map[]
  {
  }

  lemma SeenGivesStates(blocks: seq<Block>)
    ensures var seen := SeenOf(StateTouched(blocks, true), StateTouched(blocks, false));
            LineStates(blocks) == map ln | ln in seen :: if seen[ln].hit && seen[ln].miss then Partial else if seen[ln].hit then Hit else Miss
  {
  }

  // ---------------------------------------------------------------- ranges

  /** Ranges in line order that neither overlap nor could be joined. */
  predicate Canonical(ranges: seq<Range>) {
    && (forall i | 0 <= i < |ranges| :: ranges[i].start <= ranges[i].end)
    && (forall i | 0 < i < |ranges| :: Follows(ranges[i - 1], ranges[i]))
  }

  predicate Follows(a: Range, b: Range) {
    a.end < b.start && (a.end + 1 == b.start ==> a.kind != b.kind)
  }

  function RangeLines(r: Range): set<int> { Span(r.start, r.end + 1) }

  function Painted(r: Range): States { map ln | ln in RangeLines(r) :: r.kind }

  /** The lines of the ranges with their states; later ranges win. */
  function Expand(ranges: seq<Range>): States {
    if ranges == [] then map[] else Expand(ranges[..|ranges| - 1]) + Painted(ranges[|ranges| - 1])
  }

  /** One line more: the last range grows, or a new one starts. */
  function Extend(ranges: seq<Range>, ln: int, kind: Kind): seq<Range> {
    if Grows(ranges, ln, kind)
    then ranges[..|ranges| - 1] + [ranges[|ranges| - 1].(end := ln)]
    else ranges + [Range(ln, ln, kind)]
  }

  predicate Grows(ranges: seq<Range>, ln: int, kind: Kind) {
    ranges != [] && ranges[|ranges| - 1].kind == kind && ranges[|ranges| - 1].end == ln - 1
  }

  lemma PaintedGrows(r: Range, ln: int)
    requires r.end == ln - 1 && r.start <= r.end
    ensures Painted(r.(end := ln)) == Painted(r)[ln := r.kind]
  {
    assert RangeLines(r.(end := ln)) == RangeLines(r) + {ln};
  }

  lemma ExtendIsCanonical(ranges: seq<Range>, ln: int, kind: Kind)
    requires Canonical(ranges) && (ranges != [] ==> ranges[|ranges| - 1].end < ln)
    ensures Canonical(Extend(ranges, ln, kind))
  {
    var r := Extend(ranges, ln, kind);
    var n := |ranges| - 1;
    forall i | 0 < i < |r| ensures Follows(r[i - 1], r[i]) {
      if i <= n { assert Follows(ranges[i - 1], ranges[i]); }
    }
  }

  lemma ExpandAppend(ranges: seq<Range>, r: Range)
    ensures Expand(ranges + [r]) == Expand(ranges) + Painted(r)
  {
    assert (ranges + [r])[..|ranges|] == ranges;
  }

  lemma ExtendExpands(ranges: seq<Range>, ln: int, kind: Kind)
    requires Canonical(ranges) && (ranges != [] ==> ranges[|ranges| - 1].end < ln)
    ensures Expand(Extend(ranges, ln, kind)) == Expand(ranges)[ln := kind]
  {
    hide Painted, Expand;
    var n := |ranges| - 1;
    if Grows(ranges, ln, kind) {
      assert ranges == ranges[..n] + [ranges[n]];
      ExpandAppend(ranges[..n], ranges[n]);
      ExpandAppend(ranges[..n], ranges[n].(end := ln));
      PaintedGrows(ranges[n], ln);
    } else {
      ExpandAppend(ranges, Range(ln, ln, kind));
      PaintedOne(ln, kind);
    }
  }

  lemma PaintedOne(ln: int, kind: Kind)
    ensures Painted(Range(ln, ln, kind)) == map[ln := kind]
  {
    assert RangeLines(Range(ln, ln, kind)) == {ln};
  }

  /** The lines of a set in ascending order, each once. */
  predicate SortedLines(lines: seq<int>, set': set<int>) {
    ToSet(lines) == set' && forall i, j | 0 <= i < j < |lines| :: lines[i] < lines[j]
  }

  method SortLines(set': set<int>) returns (lines: seq<int>)
    ensures SortedLines(lines, set')
  {
    var list: seq<int> := [];
    var rest := set';
    assert ToSet(list) == {};
    while rest != {}
      invariant rest <= set' && ToSet(list) == set' - rest && Distinct(list)
      decreases rest
    {
      var ln := Pick(rest);
      assert ln !in ToSet(list);
      assert ToSet(list + [ln]) == ToSet(list) + {ln};
      list := list + [ln];
      rest := rest - {ln};
    }
    var a := new int[|list|](i requires 0 <= i < |list| => list[i]);
    assert a[..] == list;
    var rank := (x: int) => x as real;
    StableSort.InsertionSort(a, rank);
    lines := a[..];
    SortedDistinct(list, lines, rank);
  }

  lemma SortedDistinct(list: seq<int>, lines: seq<int>, rank: int -> real)
    requires forall x :: rank(x) == x as real
    requires Distinct(list) && lines == StableSort.StableSorted(list, rank)
    ensures SortedLines(lines, ToSet(list))
  {
    StableSort.StableSortedLaws(list, rank);
    SamePermutation(list, lines);
    forall i, j | 0 <= i < j < |lines| ensures lines[i] < lines[j] {
      assert rank(lines[i]) <= rank(lines[j]);
    }
  }

  /** The states of the first lines in order. */
  function Restrict(states: States, lines: seq<int>): States
    requires forall ln | ln in lines :: ln in states
  {
    map ln | ln in lines :: states[ln]
  }

  method RangesFromStates(states: States) returns (out: seq<Range>)
    ensures Canonical(out) && Expand(out) == states
  {
    hide Canonical, Expand, Extend, Restrict;
    var lines := SortLines(states.Keys);
    assert forall ln | ln in lines :: ln in ToSet(lines);
    out := [];
    EmptyRanges();
    RestrictNone(states);
    for k := 0 to |lines|
      invariant Canonical(out) && Expand(out) == Restrict(states, lines[..k])
      invariant if k == 0 then out == [] else out != [] && out[|out| - 1].end == lines[k - 1]
    {
      var ln := lines[k];
      var kind := states[ln];
      assert k > 0 ==> lines[k - 1] < lines[k];
      ExtendIsCanonical(out, ln, kind);
      ExtendExpands(out, ln, kind);
      RestrictOneMore(states, lines, k);
      ExtendIs(out, ln, kind);
      var n := |out|;
      if n > 0 && out[n - 1].kind == kind && out[n - 1].end == ln - 1 {
        out := out[n - 1 := out[n - 1].(end := ln)];
      } else {
        out := out + [Range(ln, ln, kind)];
      }
    }
    assert lines[..|lines|] == lines;
    RestrictAll(states, lines);
  }

  lemma RestrictNone(states: States)
    ensures Restrict(states, []) == map[]
  {
  }

  lemma RestrictOneMore(states: States, lines: seq<int>, k: nat)
    requires k < |lines| && forall ln | ln in lines :: ln in states
    ensures Restrict(states, lines[..k + 1]) == Restrict(states, lines[..k])[lines[k] := states[lines[k]]]
  {
    assert lines[..k + 1] == lines[..k] + [lines[k]];
  }

  lemma RestrictAll(states: States, lines: seq<int>)
    requires ToSet(lines) == states.Keys && forall ln | ln in lines :: ln in states
    ensures Restrict(states, lines) == states
  {
    assert forall ln :: ln in lines <==> ln in ToSet(lines);
  }

  lemma EmptyRanges()
    ensures Canonical([]) && Expand([]) == map[]
  {
  }

  lemma ExtendIs(ranges: seq<Range>, ln: int, kind: Kind)
    ensures Extend(ranges, ln, kind) ==
            if Grows(ranges, ln, kind)
            then ranges[|ranges| - 1 := ranges[|ranges| - 1].(end := ln)]
            else ranges + [Range(ln, ln, kind)]
  {
  }

  // ---------------------------------------------------------------- canonical ranges are unique

  lemma {:induction false} ExpandMembers(ranges: seq<Range>, ln: int)
    requires Canonical(ranges)
    ensures ln in Expand(ranges) <==> exists i :: 0 <= i < |ranges| && ranges[i].start <= ln <= ranges[i].end
    ensures forall i | 0 <= i < |ranges| && ranges[i].start <= ln <= ranges[i].end :: ln in Expand(ranges) && Expand(ranges)[ln] == ranges[i].kind
    ensures ranges != [] && ranges[|ranges| - 1].end < ln ==> ln !in Expand(ranges)
  {
    if ranges != [] {
      var n := |ranges| - 1;
      var rest := ranges[..n];
      ExpandMembers(rest, ln);
      InOrder(ranges);
      assert ln in RangeLines(ranges[n]) <==> ranges[n].start <= ln <= ranges[n].end;
      assert forall i | 0 <= i < n :: rest[i] == ranges[i];
    }
  }

  lemma {:induction false} InOrder(ranges: seq<Range>)
    requires Canonical(ranges)
    ensures forall i, j | 0 <= i < j < |ranges| :: ranges[i].end < ranges[j].start
  {
    if |ranges| > 1 {
      var n := |ranges| - 1;
      assert forall i | 0 <= i < n :: ranges[..n][i] == ranges[i];
      forall i | 0 < i < n ensures Follows(ranges[..n][i - 1], ranges[..n][i]) { assert Follows(ranges[i - 1], ranges[i]); }
      InOrder(ranges[..n]);
      assert Follows(ranges[n - 1], ranges[n]);
    }
  }

  /** Two canonical lists with the same states have the same last range. */
  lemma SameLast(a: seq<Range>, b: seq<Range>)
    requires Canonical(a) && Canonical(b) && Expand(a) == Expand(b) && a != [] && b != []
    ensures a[|a| - 1] == b[|b| - 1]
  {
    hide Expand;
    var x, y := a[|a| - 1], b[|b| - 1];
    ExpandMembers(a, x.end);
    ExpandMembers(b, x.end);
    ExpandMembers(a, y.end);
    ExpandMembers(b, y.end);
    assert x.end == y.end && x.kind == y.kind;
    if x.start < y.start { NoEarlierStart(a, b); } else if y.start < x.start { NoEarlierStart(b, a); }
  }

  /** A last range that started earlier would be cut in two by the other list. */
  lemma NoEarlierStart(a: seq<Range>, b: seq<Range>)
    requires Canonical(a) && Canonical(b) && Expand(a) == Expand(b) && a != [] && b != []
    requires a[|a| - 1].end == b[|b| - 1].end && a[|a| - 1].kind == b[|b| - 1].kind
    ensures b[|b| - 1].start <= a[|a| - 1].start
  {
    hide Expand;
    var x, y := a[|a| - 1], b[|b| - 1];
    var ln := y.start - 1;
    ExpandMembers(a, ln);
    ExpandMembers(b, ln);
    forall j | 0 <= j < |b| && b[j].start <= ln <= b[j].end ensures b[j].kind != y.kind {
      BeforeLast(b, j);
    }
  }

  /** The range that ends right before the last one has another state. */
  lemma BeforeLast(b: seq<Range>, j: nat)
    requires Canonical(b) && j < |b| && b[j].start <= b[|b| - 1].start - 1 <= b[j].end
    ensures b[j].kind != b[|b| - 1].kind
  {
    InOrder(b);
    var n := |b| - 1;
    forall i | 0 <= i < n - 1 ensures b[i].end < b[n].start - 1 {
      assert b[i].end < b[n - 1].start <= b[n - 1].end < b[n].start;
    }
    assert j == n - 1;
    assert Follows(b[n - 1], b[n]);
  }

  lemma CanonicalPrefix(ranges: seq<Range>)
    requires Canonical(ranges) && ranges != []
    ensures Canonical(ranges[..|ranges| - 1])
  {
    var n := |ranges| - 1;
    forall i | 0 < i < n ensures Follows(ranges[..n][i - 1], ranges[..n][i]) { assert Follows(ranges[i - 1], ranges[i]); }
  }

  lemma ExpandPrefix(ranges: seq<Range>)
    requires Canonical(ranges) && ranges != []
    ensures var n := |ranges| - 1;
            Expand(ranges[..n]) == Expand(ranges) - RangeLines(ranges[n])
  {
    var n := |ranges| - 1;
    CanonicalPrefix(ranges);
    InOrder(ranges);
    forall ln | ln in Expand(ranges[..n]) ensures ln !in RangeLines(ranges[n]) {
      ExpandMembers(ranges[..n], ln);
    }
  }

  /** A canonical list is the only one with its states. */
  lemma {:induction false} CanonicalIsUnique(a: seq<Range>, b: seq<Range>)
    requires Canonical(a) && Canonical(b) && Expand(a) == Expand(b)
    ensures a == b
  {
    if a == [] || b == [] {
      if a != [] { ExpandMembers(a, a[0].start); }
      if b != [] { ExpandMembers(b, b[0].start); }
    } else {
      SameLast(a, b);
      ExpandPrefix(a);
      ExpandPrefix(b);
      CanonicalPrefix(a);
      CanonicalPrefix(b);
      CanonicalIsUnique(a[..|a| - 1], b[..|b| - 1]);
      assert a == a[..|a| - 1] + [a[|a| - 1]] && b == b[..|b| - 1] + [b[|b| - 1]];
    }
  }

  // ---------------------------------------------------------------- encoding line sets

  function StatesOf(covered: set<int>, uncovered: set<int>): States {
    map ln | ln in covered + uncovered :: if ln in covered then Hit else Miss
  }

  method EncodeRanges(covered: set<int>, uncovered: set<int>) returns (ranges: seq<Range>)
    ensures Canonical(ranges) && Expand(ranges) == StatesOf(covered, uncovered)
  {
    var kindByLine: States := map ln | ln in uncovered :: Miss;
    kindByLine := kindByLine + map ln | ln in covered :: Hit;
    assert kindByLine == StatesOf(covered, uncovered);
    ranges := RangesFromStates(kindByLine);
  }

  /** The lines of ranges of one kind. */
  function LinesOfKind(ranges: seq<Range>, kind: Kind): set<int> {
    set r, ln | r in ranges && r.kind == kind && ln in RangeLines(r) :: ln
  }

  lemma KindOneMore(ranges: seq<Range>, i: nat, kind: Kind)
    requires i < |ranges|
    ensures LinesOfKind(ranges[..i + 1], kind) ==
            LinesOfKind(ranges[..i], kind) + if ranges[i].kind == kind then RangeLines(ranges[i]) else {}
  {
    hide RangeLines;
    var more := LinesOfKind(ranges[..i], kind) + if ranges[i].kind == kind then RangeLines(ranges[i]) else {};
    assert ranges[..i + 1] == ranges[..i] + [ranges[i]];
    assert forall r :: r in ranges[..i + 1] <==> r in ranges[..i] || r == ranges[i];
    forall ln | ln in LinesOfKind(ranges[..i + 1], kind) ensures ln in more {
      var r :| r in ranges[..i + 1] && r.kind == kind && ln in RangeLines(r);
    }
    forall ln | ln in more ensures ln in LinesOfKind(ranges[..i + 1], kind) {
      if ln in LinesOfKind(ranges[..i], kind) {
        var r :| r in ranges[..i] && r.kind == kind && ln in RangeLines(r);
        assert r in ranges[..i + 1];
      } else {
        assert ranges[i] in ranges[..i + 1] && ln in RangeLines(ranges[i]);
      }
    }
  }

  /** The lines of one range, added to the set of its state. */
  method DecodeRange(r: Range, covered: set<int>, uncovered: set<int>) returns (covered': set<int>, uncovered': set<int>)
    ensures covered' == covered + if r.kind.Hit? then RangeLines(r) else {}
    ensures uncovered' == uncovered + if r.kind.Miss? then RangeLines(r) else {}
  {
    covered', uncovered' := covered, uncovered;
    var ln := r.start;
    while ln <= r.end
      invariant if r.start <= r.end then r.start <= ln <= r.end + 1 else ln == r.start
      invariant covered' == covered + if r.kind.Hit? then Span(r.start, ln) else {}
      invariant uncovered' == uncovered + if r.kind.Miss? then Span(r.start, ln) else {}
    {
      assert Span(r.start, ln + 1) == Span(r.start, ln) + {ln};
      match r.kind {
        case Hit => covered' := covered' + {ln};
        case Miss => uncovered' := uncovered' + {ln};
        case Partial =>
      }
      ln := ln + 1;
    }
    assert Span(r.start, ln) == RangeLines(r);
  }

  method DecodeRanges(ranges: seq<Range>) returns (covered: set<int>, uncovered: set<int>)
    ensures covered == LinesOfKind(ranges, Hit) && uncovered == LinesOfKind(ranges, Miss)
  {
    hide RangeLines;
    covered, uncovered := {}, {};
    for i := 0 to |ranges|
      invariant covered == LinesOfKind(ranges[..i], Hit) && uncovered == LinesOfKind(ranges[..i], Miss)
    {
      KindOneMore(ranges, i, Hit);
      KindOneMore(ranges, i, Miss);
      covered, uncovered := DecodeRange(ranges[i], covered, uncovered);
    }
    assert ranges[..|ranges|] == ranges;
  }

  lemma KindIsState(ranges: seq<Range>, kind: Kind)
    requires Canonical(ranges)
    ensures LinesOfKind(ranges, kind) == set ln | ln in Expand(ranges) && Expand(ranges)[ln] == kind
  {
    forall ln ensures ln in LinesOfKind(ranges, kind) <==> ln in Expand(ranges) && Expand(ranges)[ln] == kind {
      ExpandMembers(ranges, ln);
      if ln in LinesOfKind(ranges, kind) {
        var r :| r in ranges && r.kind == kind && ln in RangeLines(r);
        var i :| 0 <= i < |ranges| && ranges[i] == r;
      }
      if ln in Expand(ranges) && Expand(ranges)[ln] == kind {
        var i :| 0 <= i < |ranges| && ranges[i].start <= ln <= ranges[i].end;
        assert Coverage.Within(ln, ranges[i].start, ranges[i].end + 1);
        assert ranges[i] in ranges && ln in RangeLines(ranges[i]);
      }
    }
  }

  /** Decoding an encoding gives the covered lines back and, where they do not overlap, the uncovered. */
  lemma DecodeOfEncode(covered: set<int>, uncovered: set<int>, ranges: seq<Range>)
    requires Canonical(ranges) && Expand(ranges) == StatesOf(covered, uncovered)
    ensures LinesOfKind(ranges, Hit) == covered && LinesOfKind(ranges, Miss) == uncovered - covered
    ensures LinesOfKind(ranges, Miss) == uncovered <==> covered !! uncovered
  {
    hide Canonical, Expand, LinesOfKind;
    KindIsState(ranges, Hit);
    KindIsState(ranges, Miss);
  }

  /** The two methods together. */
  method RoundTrip(covered: set<int>, uncovered: set<int>) returns (c: set<int>, u: set<int>)
    ensures c == covered && u == uncovered - covered
  {
    var ranges := EncodeRanges(covered, uncovered);
    c, u := DecodeRanges(ranges);
    DecodeOfEncode(covered, uncovered, ranges);
  }
}
