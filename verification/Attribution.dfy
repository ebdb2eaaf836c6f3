/** Attributing statements and lines to the innermost function that contains them
    (coverage/attribute.go), and the statement totals they add up to (coverage/ingest.go). */
module Attribution {
  import opened Collections
  import opened Coverage
  import opened StringOrder

  /** What attribution reads of a node. An end column of zero means that it is unknown. */
  datatype Symbol = Symbol(id: string, kind: string, startLine: int, endLine: int, startColumn: int, endColumn: int)

  // ---------------------------------------------------------------- the least element of a list

  /** The last improvement in a scan that keeps the best admissible element. */
  function Best(s: seq<Symbol>, ok: Symbol -> bool, less: (Symbol, Symbol) -> bool): Option<Symbol> {
    if s == [] then None
    else
      var n := |s| - 1;
      var best := Best(s[..n], ok, less);
      if ok(s[n]) && (best.None? || less(s[n], best.value)) then Some(s[n]) else best
  }

  ghost predicate StrictOrder(less: (Symbol, Symbol) -> bool, s: seq<Symbol>) {
    && (forall a | a in s :: !less(a, a))
    && (forall a, b | a in s && b in s :: a == b || less(a, b) || less(b, a))
    && (forall a, b, c | a in s && b in s && c in s && less(a, b) && less(b, c) :: less(a, c))
  }

  ghost predicate IsLeast(s: seq<Symbol>, ok: Symbol -> bool, less: (Symbol, Symbol) -> bool, m: Symbol) {
    m in s && ok(m) && forall x | x in s && ok(x) :: x == m || less(m, x)
  }

  lemma {:induction false} BestIsLeast(s: seq<Symbol>, ok: Symbol -> bool, less: (Symbol, Symbol) -> bool)
    requires StrictOrder(less, s)
    ensures Best(s, ok, less).None? <==> forall x | x in s :: !ok(x)
    ensures Best(s, ok, less).Some? ==> IsLeast(s, ok, less, Best(s, ok, less).value)
  {
    if s != [] {
      var n := |s| - 1;
      assert s == s[..n] + [s[n]];
      assert forall x :: x in s <==> x in s[..n] || x == s[n];
      BestIsLeast(s[..n], ok, less);
    }
  }

  lemma LeastIsUnique(s: seq<Symbol>, ok: Symbol -> bool, less: (Symbol, Symbol) -> bool, a: Symbol, b: Symbol)
    requires StrictOrder(less, s) && IsLeast(s, ok, less, a) && IsLeast(s, ok, less, b)
    ensures a == b
  {
    assert a != b ==> less(a, b) && less(b, a);
  }

  /** The owner depends on the nodes and not on their order or repetition. */
  lemma BestIgnoresOrder(s: seq<Symbol>, t: seq<Symbol>, ok: Symbol -> bool, less: (Symbol, Symbol) -> bool)
    requires StrictOrder(less, s) && StrictOrder(less, t) && ToSet(s) == ToSet(t)
    ensures Best(s, ok, less) == Best(t, ok, less)
  {
    BestIsLeast(s, ok, less);
    BestIsLeast(t, ok, less);
    assert forall x :: x in s <==> x in ToSet(s);
    assert forall x :: x in t <==> x in ToSet(t);
    var a, b := Best(s, ok, less), Best(t, ok, less);
    if a.Some? && b.Some? {
      assert IsLeast(s, ok, less, b.value);
      LeastIsUnique(s, ok, less, a.value, b.value);
    }
  }

  // ---------------------------------------------------------------- the two orders

  predicate Before(a: string, b: string) { Leq(a, b) && a != b }

  /** Narrower starts later, or else ends earlier; equal spans are told apart by id. */
  predicate NarrowerPosition(a: Symbol, b: Symbol) {
    if a.startLine != b.startLine then a.startLine > b.startLine
    else if a.endLine != b.endLine then a.endLine < b.endLine
    else if a.startColumn != b.startColumn then a.startColumn > b.startColumn
    else if a.endColumn != b.endColumn then a.endColumn < b.endColumn
    else Before(a.id, b.id)
  }

  predicate Tighter(a: Symbol, b: Symbol) {
    var aspan, bspan := a.endLine - a.startLine, b.endLine - b.startLine;
    if aspan != bspan then aspan < bspan else Before(a.id, b.id)
  }

  /** Ids identify nodes. */
  ghost predicate Keyed(s: seq<Symbol>) { forall a, b | a in s && b in s && a.id == b.id :: a == b }

  lemma BeforeIsStrict(a: string, b: string, c: string)
    ensures !Before(a, a)
    ensures a == b || Before(a, b) || Before(b, a)
    ensures Before(a, b) && Before(b, c) ==> Before(a, c)
  {
    hide Leq;
    LeqTotal(a, b);
    if Before(a, b) && Before(b, c) {
      LeqTransitive(a, b, c);
      if a == c { LeqAntisymmetric(a, b); }
    }
  }

  lemma NarrowerIsStrict(s: seq<Symbol>)
    requires Keyed(s)
    ensures StrictOrder(NarrowerPosition, s)
  {
    hide Before;
    forall a: Symbol, b: Symbol, c: Symbol
      ensures !Before(a.id, a.id)
      ensures a.id == b.id || Before(a.id, b.id) || Before(b.id, a.id)
      ensures Before(a.id, b.id) && Before(b.id, c.id) ==> Before(a.id, c.id)
    {
      BeforeIsStrict(a.id, b.id, c.id);
    }
  }

  lemma TighterIsStrict(s: seq<Symbol>)
    requires Keyed(s)
    ensures StrictOrder(Tighter, s)
  {
    hide Before;
    forall a: Symbol, b: Symbol, c: Symbol
      ensures !Before(a.id, a.id)
      ensures a.id == b.id || Before(a.id, b.id) || Before(b.id, a.id)
      ensures Before(a.id, b.id) && Before(b.id, c.id) ==> Before(a.id, c.id)
    {
      BeforeIsStrict(a.id, b.id, c.id);
    }
  }

  // ---------------------------------------------------------------- containment

  predicate ContainsPosition(n: Symbol, line: int, col: int) {
    && n.startLine <= line <= n.endLine
    && !(line == n.startLine && col < n.startColumn)
    && !(line == n.endLine && n.endColumn > 0 && col >= n.endColumn)
  }

  function AtPosition(line: int, col: int): Symbol -> bool { (n: Symbol) => ContainsPosition(n, line, col) }

  function OnLine(line: int): Symbol -> bool { (n: Symbol) => n.startLine <= line <= n.endLine }

  /** Functions and methods with a sensible span. */
  predicate Owns(n: Symbol) { (n.kind == "function" || n.kind == "method") && n.startLine > 0 && n.endLine >= n.startLine }

  function Functions(nodes: seq<Symbol>): seq<Symbol> { Select(nodes, Owns) }

  function OwnerAt(fns: seq<Symbol>, line: int, col: int): Option<Symbol> { Best(fns, AtPosition(line, col), NarrowerPosition) }

  function OwnerOn(fns: seq<Symbol>, line: int): Option<Symbol> { Best(fns, OnLine(line), Tighter) }

  /** The owner of a position is the one least containing function, in whatever order they are listed. */
  lemma OwnerAtIsLeast(fns: seq<Symbol>, other: seq<Symbol>, line: int, col: int)
    requires Keyed(fns) && ToSet(fns) == ToSet(other)
    ensures OwnerAt(fns, line, col) == OwnerAt(other, line, col)
    ensures var o := OwnerAt(fns, line, col);
            if o.Some? then IsLeast(fns, AtPosition(line, col), NarrowerPosition, o.value)
            else forall n | n in fns :: !ContainsPosition(n, line, col)
  {
    assert forall x :: x in fns <==> x in ToSet(fns);
    assert forall x :: x in other <==> x in ToSet(other);
    NarrowerIsStrict(fns);
    NarrowerIsStrict(other);
    BestIsLeast(fns, AtPosition(line, col), NarrowerPosition);
    BestIgnoresOrder(fns, other, AtPosition(line, col), NarrowerPosition);
  }

  lemma OwnerOnIsLeast(fns: seq<Symbol>, other: seq<Symbol>, line: int)
    requires Keyed(fns) && ToSet(fns) == ToSet(other)
    ensures OwnerOn(fns, line) == OwnerOn(other, line)
    ensures var o := OwnerOn(fns, line);
            if o.Some? then IsLeast(fns, OnLine(line), Tighter, o.value)
            else forall n | n in fns :: !(n.startLine <= line <= n.endLine)
  {
    assert forall x :: x in fns <==> x in ToSet(fns);
    assert forall x :: x in other <==> x in ToSet(other);
    TighterIsStrict(fns);
    TighterIsStrict(other);
    BestIsLeast(fns, OnLine(line), Tighter);
    BestIgnoresOrder(fns, other, OnLine(line), Tighter);
  }

  // ---------------------------------------------------------------- nesting

  /** Text order of positions. */
  predicate NotAfter(l1: int, c1: int, l2: int, c2: int) { l1 < l2 || (l1 == l2 && c1 <= c2) }

  /** A span of unknown end column reaches to the end of its last line. */
  predicate EndsNotAfter(a: Symbol, b: Symbol) {
    a.endLine < b.endLine || (a.endLine == b.endLine && (b.endColumn <= 0 || 0 < a.endColumn <= b.endColumn))
  }

  predicate EndsBefore(a: Symbol, b: Symbol) {
    a.endLine < b.startLine || (a.endLine == b.startLine && 0 < a.endColumn <= b.startColumn)
  }

  predicate Inside(a: Symbol, b: Symbol) {
    NotAfter(b.startLine, b.startColumn, a.startLine, a.startColumn) && EndsNotAfter(a, b)
  }

  predicate Apart(a: Symbol, b: Symbol) { EndsBefore(a, b) || EndsBefore(b, a) }

  /** Any two spans are apart or one lies inside the other. */
  ghost predicate Nested(fns: seq<Symbol>) { forall a, b | a in fns && b in fns :: Apart(a, b) || Inside(a, b) || Inside(b, a) }

  /** One start and one last line, but only the end column of `b` is known. */
  predicate OpenTwin(a: Symbol, b: Symbol) {
    && a.startLine == b.startLine && a.startColumn == b.startColumn && a.endLine == b.endLine
    && a.endColumn <= 0 < b.endColumn
  }

  /** With nested spans the owner lies inside every other function that contains the position, unless
      its end column is unknown and the other differs from it in that alone. */
  lemma OwnerIsInnermost(fns: seq<Symbol>, line: int, col: int, o: Symbol, n: Symbol)
    requires Keyed(fns) && Nested(fns) && OwnerAt(fns, line, col) == Some(o)
    requires n in fns && ContainsPosition(n, line, col)
    ensures ContainsPosition(o, line, col) && o in fns
    ensures Inside(o, n) <==> !OpenTwin(o, n)
  {
    OwnerAtIsLeast(fns, fns, line, col);
    assert !Apart(o, n);
    if n != o { assert NarrowerPosition(o, n); }
  }

  /** The owner of the position, if any, lies inside every function that contains it. */
  ghost predicate InnermostOwner(fns: seq<Symbol>, line: int, col: int) {
    forall n | n in fns && ContainsPosition(n, line, col) ::
      OwnerAt(fns, line, col).Some? && Inside(OwnerAt(fns, line, col).value, n)
  }

  /** A function of unknown end that comes before all others here, one of which is its twin. */
  ghost predicate OpenTwinsFirst(fns: seq<Symbol>, line: int, col: int, a: Symbol, b: Symbol) {
    && IsLeast(fns, AtPosition(line, col), NarrowerPosition, a)
    && b in fns && ContainsPosition(b, line, col) && OpenTwin(a, b)
  }

  /** Ownership of a position is innermost exactly when no such twins are there. */
  lemma InnermostIff(fns: seq<Symbol>, line: int, col: int)
    requires Keyed(fns) && Nested(fns)
    ensures InnermostOwner(fns, line, col) <==> !exists a, b :: OpenTwinsFirst(fns, line, col, a, b)
  {
    hide Keyed, Nested, OwnerAt, Inside, OpenTwin, ContainsPosition, NarrowerPosition;
    OwnerAtIsLeast(fns, fns, line, col);
    NarrowerIsStrict(fns);
    var owner := OwnerAt(fns, line, col);
    forall n | n in fns && ContainsPosition(n, line, col)
      ensures owner.Some? && (Inside(owner.value, n) <==> !OpenTwinsFirst(fns, line, col, owner.value, n))
    {
      OwnerIsInnermost(fns, line, col, owner.value, n);
    }
    forall a, b | OpenTwinsFirst(fns, line, col, a, b) ensures owner == Some(a) {
      LeastIsUnique(fns, AtPosition(line, col), NarrowerPosition, a, owner.value);
    }
  }

  /** Such twins: a function of unknown end wins over one that ends earlier. */
  lemma UnknownEndColumnWins()
    ensures var outer, inner := Symbol("a", "function", 1, 3, 0, 0), Symbol("b", "function", 1, 3, 0, 5);
            && OwnerAt([outer, inner], 3, 2) == Some(outer) && OpenTwin(outer, inner)
            && ContainsPosition(inner, 3, 2) && ContainsPosition(outer, 3, 9) && !ContainsPosition(inner, 3, 9)
  {
    var outer, inner := Symbol("a", "function", 1, 3, 0, 0), Symbol("b", "function", 1, 3, 0, 5);
    var fns := [outer, inner];
    assert fns[..1] == [outer] && fns[..1][..0] == [];
    assert Best([], AtPosition(3, 2), NarrowerPosition) == None;
    assert Best(fns[..1], AtPosition(3, 2), NarrowerPosition) == Some(outer);
  }

  /** Line spans that are apart or one inside the other. */
  ghost predicate NestedLines(fns: seq<Symbol>) {
    forall a, b | a in fns && b in fns ::
      || a.endLine < b.startLine || b.endLine < a.startLine
      || (b.startLine <= a.startLine && a.endLine <= b.endLine) || (a.startLine <= b.startLine && b.endLine <= a.endLine)
  }

  lemma LineOwnerIsInnermost(fns: seq<Symbol>, line: int, o: Symbol, n: Symbol)
    requires Keyed(fns) && NestedLines(fns) && OwnerOn(fns, line) == Some(o)
    requires n in fns && n.startLine <= line <= n.endLine
    ensures o in fns && o.startLine <= line <= o.endLine && n.startLine <= o.startLine && o.endLine <= n.endLine
  {
    OwnerOnIsLeast(fns, fns, line);
    if n != o { assert Tighter(o, n); }
  }

  // ---------------------------------------------------------------- statements are conserved

  /** The function that owns the start of a block; columns of blocks count from one. */
  function BlockOwner(fns: seq<Symbol>, b: Block): Option<Symbol> { OwnerAt(fns, b.startLine, b.startCol - 1) }

  predicate OwnedBy(fns: seq<Symbol>, b: Block, id: string) {
    BlockOwner(fns, b).Some? && BlockOwner(fns, b).value.id == id
  }

  /** A function or method of the file whose span has the position; columns of spans count from zero. */
  ghost predicate HasPosition(nodes: seq<Symbol>, n: Symbol, line: int, col: int) {
    && n in nodes && n.kind in {"function", "method"} && 0 < n.startLine <= n.endLine
    && n.startLine <= line <= n.endLine && (line == n.startLine ==> n.startColumn <= col)
    && (line == n.endLine && 0 < n.endColumn ==> col < n.endColumn)
  }

  /** A block's owner is such a function that has the block's start, and there is one unless none has. */
  lemma OwnerHasTheStart(nodes: seq<Symbol>, b: Block)
    requires Keyed(Functions(nodes))
    ensures BlockOwner(Functions(nodes), b).Some? ==> HasPosition(nodes, BlockOwner(Functions(nodes), b).value, b.startLine, b.startCol - 1)
    ensures BlockOwner(Functions(nodes), b).None? <==> forall n | n in nodes :: !HasPosition(nodes, n, b.startLine, b.startCol - 1)
  {
    SelectMembers(nodes, Owns);
    OwnerAtIsLeast(Functions(nodes), Functions(nodes), b.startLine, b.startCol - 1);
  }

  /** A line's owner likewise. */
  lemma OwnerHasTheLine(nodes: seq<Symbol>, line: int)
    requires Keyed(Functions(nodes))
    ensures OwnerOn(Functions(nodes), line).Some? ==>
              var o := OwnerOn(Functions(nodes), line).value;
              o in nodes && o.kind in {"function", "method"} && 0 < o.startLine <= line <= o.endLine
    ensures OwnerOn(Functions(nodes), line).None? <==>
              forall n | n in nodes && n.kind in {"function", "method"} && 0 < n.startLine :: !(n.startLine <= line <= n.endLine)
  {
    SelectMembers(nodes, Owns);
    OwnerOnIsLeast(Functions(nodes), Functions(nodes), line);
  }

  /** Statements of the blocks with one outcome, in all. */
  function Statements(blocks: seq<Block>, hit: bool): int {
    if blocks == [] then 0
    else
      var n := |blocks| - 1;
      Statements(blocks[..n], hit) + if blocks[n].hit == hit then blocks[n].numStmt else 0
  }

  function Owned(fns: seq<Symbol>, blocks: seq<Block>, id: string, hit: bool): int {
    if blocks == [] then 0
    else
      var n := |blocks| - 1;
      Owned(fns, blocks[..n], id, hit) + if blocks[n].hit == hit && OwnedBy(fns, blocks[n], id) then blocks[n].numStmt else 0
  }

  function Unowned(fns: seq<Symbol>, blocks: seq<Block>, hit: bool): int {
    if blocks == [] then 0
    else
      var n := |blocks| - 1;
      Unowned(fns, blocks[..n], hit) + if blocks[n].hit == hit && BlockOwner(fns, blocks[n]).None? then blocks[n].numStmt else 0
  }

  function SumOwned(fns: seq<Symbol>, blocks: seq<Block>, ids: seq<string>, hit: bool): int {
    if ids == [] then 0
    else
      var n := |ids| - 1;
      SumOwned(fns, blocks, ids[..n], hit) + Owned(fns, blocks, ids[n], hit)
  }

  function BlockOwners(fns: seq<Symbol>, blocks: seq<Block>): set<string> {
    set b | b in blocks && BlockOwner(fns, b).Some? :: BlockOwner(fns, b).value.id
  }

  lemma {:induction false} SumOwnedNothing(fns: seq<Symbol>, ids: seq<string>, hit: bool)
    ensures SumOwned(fns, [], ids, hit) == 0
  {
    if ids != [] { SumOwnedNothing(fns, ids[..|ids| - 1], hit); }
  }

  /** A further block counts once, for its owner. */
  lemma {:induction false} SumOwnedOneMore(fns: seq<Symbol>, blocks: seq<Block>, ids: seq<string>, hit: bool)
    requires blocks != [] && Distinct(ids)
    ensures var n := |blocks| - 1;
            SumOwned(fns, blocks, ids, hit) == SumOwned(fns, blocks[..n], ids, hit) +
              if blocks[n].hit == hit && BlockOwner(fns, blocks[n]).Some? && BlockOwner(fns, blocks[n]).value.id in ids
              then blocks[n].numStmt else 0
  {
    hide BlockOwner;
    if ids != [] {
      var k := |ids| - 1;
      SumOwnedOneMore(fns, blocks, ids[..k], hit);
      assert ids == ids[..k] + [ids[k]];
      assert ids[k] !in ids[..k];
    }
  }

  /** The counts of all owners and the unattributed blocks add up to the statement total. */
  lemma {:induction false} StatementsAreConserved(fns: seq<Symbol>, blocks: seq<Block>, ids: seq<string>, hit: bool)
    requires Distinct(ids) && BlockOwners(fns, blocks) <= ToSet(ids)
    ensures SumOwned(fns, blocks, ids, hit) + Unowned(fns, blocks, hit) == Statements(blocks, hit)
  {
    hide BlockOwner;
    if blocks == [] {
      SumOwnedNothing(fns, ids, hit);
    } else {
      var n := |blocks| - 1;
      assert blocks == blocks[..n] + [blocks[n]];
      assert blocks[n] in blocks && forall b | b in blocks[..n] :: b in blocks;
      assert BlockOwners(fns, blocks[..n]) <= BlockOwners(fns, blocks);
      StatementsAreConserved(fns, blocks[..n], ids, hit);
      SumOwnedOneMore(fns, blocks, ids, hit);
      if BlockOwner(fns, blocks[n]).Some? {
        assert BlockOwner(fns, blocks[n]).value.id in BlockOwners(fns, blocks);
        assert BlockOwner(fns, blocks[n]).value.id in ToSet(ids);
      }
    }
  }

  // ---------------------------------------------------------------- lines are conserved

  predicate LineOwnedBy(fns: seq<Symbol>, line: int, id: string) {
    OwnerOn(fns, line).Some? && OwnerOn(fns, line).value.id == id
  }

  function LinesOwned(fns: seq<Symbol>, lines: set<int>, id: string): set<int> {
    set ln | ln in lines && LineOwnedBy(fns, ln, id)
  }

  function LinesUnowned(fns: seq<Symbol>, lines: set<int>): set<int> { set ln | ln in lines && OwnerOn(fns, ln).None? }

  function LineOwners(fns: seq<Symbol>, lines: set<int>): set<string> {
    set ln | ln in lines && OwnerOn(fns, ln).Some? :: OwnerOn(fns, ln).value.id
  }

  function SumLines(fns: seq<Symbol>, lines: set<int>, ids: seq<string>): nat {
    if ids == [] then 0
    else
      var n := |ids| - 1;
      SumLines(fns, lines, ids[..n]) + |LinesOwned(fns, lines, ids[n])|
  }

  function OwnedByNone(fns: seq<Symbol>, lines: set<int>, ids: seq<string>): set<int> {
    set ln | ln in lines && (OwnerOn(fns, ln).None? || OwnerOn(fns, ln).value.id !in ids)
  }

  lemma OwnedByOneMore(fns: seq<Symbol>, lines: set<int>, ids: seq<string>, id: string)
    requires id !in ids
    ensures |OwnedByNone(fns, lines, ids)| == |LinesOwned(fns, lines, id)| + |OwnedByNone(fns, lines, ids + [id])|
  {
    hide OwnerOn;
    var mine, after := LinesOwned(fns, lines, id), OwnedByNone(fns, lines, ids + [id]);
    assert OwnedByNone(fns, lines, ids) == mine + after;
    assert mine !! after;
  }

  lemma {:induction false} LinesPartition(fns: seq<Symbol>, lines: set<int>, ids: seq<string>)
    requires Distinct(ids)
    ensures SumLines(fns, lines, ids) + |OwnedByNone(fns, lines, ids)| == |lines|
  {
    if ids == [] {
      assert OwnedByNone(fns, lines, ids) == lines;
    } else {
      hide OwnerOn, OwnedByNone, LinesOwned;
      var n := |ids| - 1;
      LinesPartition(fns, lines, ids[..n]);
      assert ids == ids[..n] + [ids[n]] && ids[n] !in ids[..n];
      OwnedByOneMore(fns, lines, ids[..n], ids[n]);
    }
  }

  /** Every line counts once: for its owner, or for the file alone. */
  lemma LinesAreConserved(fns: seq<Symbol>, lines: set<int>, ids: seq<string>)
    requires Distinct(ids) && LineOwners(fns, lines) <= ToSet(ids)
    ensures SumLines(fns, lines, ids) + |LinesUnowned(fns, lines)| == |lines|
  {
    hide OwnerOn;
    LinesPartition(fns, lines, ids);
    forall ln | ln in lines && OwnerOn(fns, ln).Some? ensures OwnerOn(fns, ln).value.id in ids {
      assert OwnerOn(fns, ln).value.id in LineOwners(fns, lines);
    }
    assert OwnedByNone(fns, lines, ids) == LinesUnowned(fns, lines);
  }

  // ---------------------------------------------------------------- the code

  method FunctionsOf(nodes: seq<Symbol>) returns (fns: seq<Symbol>)
    ensures fns == Functions(nodes)
  {
    fns := [];
    for k := 0 to |nodes|
      invariant fns == Functions(nodes[..k])
    {
      var n := nodes[k];
      assert nodes[..k + 1][..k] == nodes[..k];
      if (n.kind == "function" || n.kind == "method") && n.startLine > 0 && n.endLine >= n.startLine { fns := fns + [n]; }
    }
    assert nodes[..|nodes|] == nodes;
  }

  method InnermostPosition(fns: seq<Symbol>, line: int, col: int) returns (best: Option<Symbol>)
    ensures best == OwnerAt(fns, line, col)
  {
    best := None;
    for k := 0 to |fns|
      invariant best == OwnerAt(fns[..k], line, col)
    {
      var n := fns[k];
      assert fns[..k + 1][..k] == fns[..k];
      if line < n.startLine || line > n.endLine { continue; }
      if line == n.startLine && col < n.startColumn { continue; }
      if line == n.endLine && n.endColumn > 0 && col >= n.endColumn { continue; }
      if best.None? || NarrowerPosition(n, best.value) { best := Some(n); }
    }
    assert fns[..|fns|] == fns;
  }

  method Innermost(fns: seq<Symbol>, line: int) returns (best: Option<Symbol>)
    ensures best == OwnerOn(fns, line)
  {
    best := None;
    for k := 0 to |fns|
      invariant best == OwnerOn(fns[..k], line)
    {
      var n := fns[k];
      assert fns[..k + 1][..k] == fns[..k];
      if line < n.startLine || line > n.endLine { continue; }
      if best.None? || Tighter(n, best.value) { best := Some(n); }
    }
    assert fns[..|fns|] == fns;
  }

  method StatementTotals(blocks: seq<Block>) returns (covered: int, uncovered: int)
    ensures covered == Statements(blocks, true) && uncovered == Statements(blocks, false)
  {
    covered, uncovered := 0, 0;
    for k := 0 to |blocks|
      invariant covered == Statements(blocks[..k], true) && uncovered == Statements(blocks[..k], false)
    {
      assert blocks[..k + 1][..k] == blocks[..k];
      if blocks[k].hit { covered := covered + blocks[k].numStmt; } else { uncovered := uncovered + blocks[k].numStmt; }
    }
    assert blocks[..|blocks|] == blocks;
  }

  datatype Count = Count(covered: int, uncovered: int) {
    function Of(hit: bool): int { if hit then covered else uncovered }
  }

  datatype NodeCount = NodeCount(id: string, count: Count)

  function IdsOf(counts: seq<NodeCount>): seq<string> { seq(|counts|, i requires 0 <= i < |counts| => counts[i].id) }

  function Sum(counts: seq<NodeCount>, hit: bool): int {
    if counts == [] then 0 else Sum(counts[..|counts| - 1], hit) + counts[|counts| - 1].count.Of(hit)
  }

  /** The counters as a list, in no particular order. */
  method Listed(counts: map<string, Count>) returns (out: seq<NodeCount>)
    ensures Distinct(IdsOf(out)) && ToSet(IdsOf(out)) == counts.Keys
    ensures forall c | c in out :: c.id in counts && c.count == counts[c.id]
  {
    out := [];
    var rest := counts.Keys;
    assert ToSet(IdsOf(out)) == {};
    while rest != {}
      invariant rest <= counts.Keys && Distinct(IdsOf(out)) && ToSet(IdsOf(out)) == counts.Keys - rest
      invariant forall c | c in out :: c.id in counts && c.count == counts[c.id]
      decreases rest
    {
      var id := Pick(rest);
      assert id !in ToSet(IdsOf(out));
      assert IdsOf(out + [NodeCount(id, counts[id])]) == IdsOf(out) + [id];
      assert ToSet(IdsOf(out) + [id]) == ToSet(IdsOf(out)) + {id};
      out := out + [NodeCount(id, counts[id])];
      rest := rest - {id};
    }
  }

  lemma {:induction false} SumIsSumOwned(fns: seq<Symbol>, blocks: seq<Block>, out: seq<NodeCount>, hit: bool)
    requires forall c | c in out :: c.count.Of(hit) == Owned(fns, blocks, c.id, hit)
    ensures Sum(out, hit) == SumOwned(fns, blocks, IdsOf(out), hit)
  {
    if out != [] {
      var n := |out| - 1;
      SumIsSumOwned(fns, blocks, out[..n], hit);
      assert IdsOf(out)[..n] == IdsOf(out[..n]);
    }
  }

  lemma BlockOwnersOneMore(fns: seq<Symbol>, blocks: seq<Block>, k: nat)
    requires k < |blocks|
    ensures BlockOwners(fns, blocks[..k + 1]) ==
            BlockOwners(fns, blocks[..k]) + if BlockOwner(fns, blocks[k]).Some? then {BlockOwner(fns, blocks[k]).value.id} else {}
  {
    hide BlockOwner;
    assert blocks[..k + 1] == blocks[..k] + [blocks[k]];
    assert forall b :: b in blocks[..k + 1] <==> b in blocks[..k] || b == blocks[k];
  }

  lemma {:induction false} OwnersOwn(fns: seq<Symbol>, blocks: seq<Block>, id: string, hit: bool)
    requires id !in BlockOwners(fns, blocks)
    ensures Owned(fns, blocks, id, hit) == 0
  {
    hide BlockOwner;
    if blocks != [] {
      var n := |blocks| - 1;
      assert blocks[n] in blocks && forall b | b in blocks[..n] :: b in blocks;
      OwnersOwn(fns, blocks[..n], id, hit);
    }
  }

  /** One counter for each owner; together with the unattributed blocks they make up the totals. */
  method AttributeBlocks(nodes: seq<Symbol>, blocks: seq<Block>) returns (out: seq<NodeCount>)
    ensures Distinct(IdsOf(out)) && ToSet(IdsOf(out)) == BlockOwners(Functions(nodes), blocks)
    ensures forall c, hit | c in out :: c.count.Of(hit) == Owned(Functions(nodes), blocks, c.id, hit)
    ensures forall hit :: Sum(out, hit) + Unowned(Functions(nodes), blocks, hit) == Statements(blocks, hit)
  {
    hide BlockOwner;
    var fns := FunctionsOf(nodes);
    var counts: map<string, Count> := map[];
    assert BlockOwners(fns, []) == {} && blocks[..0] == [];
    for k := 0 to |blocks|
      invariant counts.Keys == BlockOwners(fns, blocks[..k])
      invariant forall id | id in counts :: counts[id] == Count(Owned(fns, blocks[..k], id, true), Owned(fns, blocks[..k], id, false))
    {
      var b := blocks[k];
      assert blocks[..k + 1][..k] == blocks[..k];
      BlockOwnersOneMore(fns, blocks, k);
      var owner := OwnerOf(fns, b);
      if owner.Some? {
        var id := owner.value.id;
        if id !in counts {
          OwnersOwn(fns, blocks[..k], id, true);
          OwnersOwn(fns, blocks[..k], id, false);
        }
        var c := if id in counts then counts[id] else Count(0, 0);
        counts := counts[id := if b.hit then c.(covered := c.covered + b.numStmt) else c.(uncovered := c.uncovered + b.numStmt)];
      }
    }
    assert blocks[..|blocks|] == blocks;
    out := Listed(counts);
    forall hit ensures Sum(out, hit) + Unowned(fns, blocks, hit) == Statements(blocks, hit) {
      SumIsSumOwned(fns, blocks, out, hit);
      StatementsAreConserved(fns, blocks, IdsOf(out), hit);
    }
  }

  method OwnerOf(fns: seq<Symbol>, b: Block) returns (owner: Option<Symbol>)
    ensures owner == BlockOwner(fns, b)
  {
    owner := InnermostPosition(fns, b.startLine, b.startCol - 1);
  }

  lemma LinesOwnedOneMore(fns: seq<Symbol>, lines: set<int>, ln: int)
    requires ln !in lines
    ensures forall id :: |LinesOwned(fns, lines + {ln}, id)| == |LinesOwned(fns, lines, id)| + if LineOwnedBy(fns, ln, id) then 1 else 0
    ensures LineOwners(fns, lines + {ln}) == LineOwners(fns, lines) + if OwnerOn(fns, ln).Some? then {OwnerOn(fns, ln).value.id} else {}
  {
    hide OwnerOn;
    forall id ensures |LinesOwned(fns, lines + {ln}, id)| == |LinesOwned(fns, lines, id)| + if LineOwnedBy(fns, ln, id) then 1 else 0 {
      assert LinesOwned(fns, lines + {ln}, id) == LinesOwned(fns, lines, id) + if LineOwnedBy(fns, ln, id) then {ln} else {};
    }
    assert ln in lines + {ln} && forall x | x in lines :: x in lines + {ln};
  }

  /** What the counters hold after some covered and some uncovered lines. */
  ghost predicate Counted(fns: seq<Symbol>, counts: map<string, Count>, covered: set<int>, uncovered: set<int>) {
    && counts.Keys == LineOwners(fns, covered) + LineOwners(fns, uncovered)
    && forall id | id in counts :: counts[id] == Count(|LinesOwned(fns, covered, id)|, |LinesOwned(fns, uncovered, id)|)
  }

  lemma NotAnOwner(fns: seq<Symbol>, lines: set<int>, id: string)
    requires id !in LineOwners(fns, lines)
    ensures LinesOwned(fns, lines, id) == {}
  {
  }

  method Assign(fns: seq<Symbol>, counts: map<string, Count>, line: int, isCovered: bool, ghost covered: set<int>, ghost uncovered: set<int>)
    returns (counts': map<string, Count>)
    requires Counted(fns, counts, covered, uncovered)
    requires if isCovered then line !in covered else line !in uncovered
    ensures if isCovered then Counted(fns, counts', covered + {line}, uncovered) else Counted(fns, counts', covered, uncovered + {line})
  {
    hide OwnerOn, LinesOwned, LineOwners;
    counts' := counts;
    LinesOwnedOneMore(fns, if isCovered then covered else uncovered, line);
    var owner := Innermost(fns, line);
    if owner.Some? {
      var id := owner.value.id;
      if id !in counts {
        NotAnOwner(fns, covered, id);
        NotAnOwner(fns, uncovered, id);
      }
      var c := if id in counts then counts[id] else Count(0, 0);
      counts' := counts[id := if isCovered then c.(covered := c.covered + 1) else c.(uncovered := c.uncovered + 1)];
    }
  }

  lemma {:induction false} SumIsSumLines(fns: seq<Symbol>, lines: set<int>, out: seq<NodeCount>, hit: bool)
    requires forall c | c in out :: c.count.Of(hit) == |LinesOwned(fns, lines, c.id)|
    ensures Sum(out, hit) == SumLines(fns, lines, IdsOf(out))
  {
    if out != [] {
      var n := |out| - 1;
      SumIsSumLines(fns, lines, out[..n], hit);
      assert IdsOf(out)[..n] == IdsOf(out[..n]);
    }
  }

  /** Every measured line goes to the tightest function on it, and none is counted twice. */
  method AttributeLines(nodes: seq<Symbol>, covered: set<int>, uncovered: set<int>) returns (out: seq<NodeCount>)
    ensures Distinct(IdsOf(out))
    ensures forall c | c in out ::
              c.count == Count(|LinesOwned(Functions(nodes), covered, c.id)|, |LinesOwned(Functions(nodes), uncovered, c.id)|)
    ensures Sum(out, true) + |LinesUnowned(Functions(nodes), covered)| == |covered|
    ensures Sum(out, false) + |LinesUnowned(Functions(nodes), uncovered)| == |uncovered|
  {
    hide Counted, OwnerOn, LinesOwned, LinesUnowned, LineOwners;
    var fns := FunctionsOf(nodes);
    var counts: map<string, Count> := map[];
    NothingCounted(fns);
    var rest := covered;
    while rest != {}
      invariant rest <= covered && Counted(fns, counts, covered - rest, {})
      decreases rest
    {
      var ln := Pick(rest);
      counts := Assign(fns, counts, ln, true, covered - rest, {});
      assert covered - rest + {ln} == covered - (rest - {ln});
      rest := rest - {ln};
    }
    assert covered - {} == covered;
    rest := uncovered;
    assert uncovered - uncovered == {};
    while rest != {}
      invariant rest <= uncovered && Counted(fns, counts, covered, uncovered - rest)
      decreases rest
    {
      var ln := Pick(rest);
      counts := Assign(fns, counts, ln, false, covered, uncovered - rest);
      assert uncovered - rest + {ln} == uncovered - (rest - {ln});
      rest := rest - {ln};
    }
    assert uncovered - {} == uncovered;
    out := Listed(counts);
    CountsAddUp(fns, counts, covered, uncovered, out);
  }

  lemma NothingCounted(fns: seq<Symbol>)
    ensures Counted(fns, map[], {}, {})
    ensures forall lines: set<int> :: Counted(fns, map[], lines - lines, {})
  {
    forall lines: set<int> ensures lines - lines == {} {}
  }

  lemma CountsAddUp(fns: seq<Symbol>, counts: map<string, Count>, covered: set<int>, uncovered: set<int>, out: seq<NodeCount>)
    requires Counted(fns, counts, covered, uncovered)
    requires Distinct(IdsOf(out)) && ToSet(IdsOf(out)) == counts.Keys
    requires forall c | c in out :: c.id in counts && c.count == counts[c.id]
    ensures forall c | c in out :: c.count == Count(|LinesOwned(fns, covered, c.id)|, |LinesOwned(fns, uncovered, c.id)|)
    ensures Sum(out, true) + |LinesUnowned(fns, covered)| == |covered|
    ensures Sum(out, false) + |LinesUnowned(fns, uncovered)| == |uncovered|
  {
    hide OwnerOn, LinesOwned, LinesUnowned, LineOwners;
    SumIsSumLines(fns, covered, out, true);
    SumIsSumLines(fns, uncovered, out, false);
    LinesAreConserved(fns, covered, IdsOf(out));
    LinesAreConserved(fns, uncovered, IdsOf(out));
  }
}
