/** Looking up a C++ member on a type and, through `extends` edges, on its bases
    (resolve/resolve.go). Bases are followed by name, so the walk may run in circles. */
module InheritedMember {
  import opened Collections
  import opened Graph

  // ---------------------------------------------------------------- qualified names

  predicate SeparatorAt(s: string, i: int) { 0 <= i && i + 1 < |s| && s[i] == ':' && s[i + 1] == ':' }

  /** The position of the last "::", or -1. */
  function LastSeparator(s: string): (i: int)
    ensures i == -1 || SeparatorAt(s, i)
    ensures forall j | i < j :: !SeparatorAt(s, j)
  {
    if |s| < 2 then -1
    else if SeparatorAt(s, |s| - 2) then |s| - 2
    else
      var i := LastSeparator(s[..|s| - 1]);
      assert forall j | i < j :: SeparatorAt(s, j) ==> j == |s| - 2 || SeparatorAt(s[..|s| - 1], j);
      i
  }

  /** The segment before the last one: "geo::Circle::area" gives "Circle". */
  function CppMemberParentName(qn: string): string {
    var i := LastSeparator(qn);
    if i < 0 then ""
    else
      var parent := qn[..i];
      var j := LastSeparator(parent);
      if j >= 0 then parent[j + 2..] else parent
  }

  predicate Segment(s: string) { ':' !in s }

  lemma LastSeparatorIs(s: string, i: nat)
    requires SeparatorAt(s, i) && forall k | i + 2 <= k < |s| :: s[k] != ':'
    ensures LastSeparator(s) == i
  {
    hide LastSeparator;
    var j := LastSeparator(s);
    assert j < i ==> !SeparatorAt(s, i);
    assert i < j ==> i + 2 <= j + 1 < |s|;
  }

  lemma Concatenated(a: string, b: string, k: nat)
    requires k < |a + b|
    ensures (a + b)[k] == if k < |a| then a[k] else b[k - |a|]
  {
  }

  lemma SeparatorBetween(scope: string, segment: string)
    ensures SeparatorAt(scope + ("::" + segment), |scope|)
  {
    Concatenated(scope, "::" + segment, |scope|);
    Concatenated(scope, "::" + segment, |scope| + 1);
  }

  lemma LastSeparatorBefore(scope: string, segment: string)
    requires Segment(segment)
    ensures LastSeparator(scope + "::" + segment) == |scope|
  {
    hide LastSeparator, SeparatorAt;
    var s := scope + ("::" + segment);
    assert s == scope + "::" + segment;
    SeparatorBetween(scope, segment);
    forall k | |scope| + 2 <= k < |s| ensures s[k] != ':' {
      Concatenated(scope, "::" + segment, k);
      Concatenated("::", segment, k - |scope|);
    }
    LastSeparatorIs(s, |scope|);
  }

  lemma NoSeparator(segment: string)
    requires Segment(segment)
    ensures LastSeparator(segment) == -1
  {
  }

  /** The parent of a member is its class, at the top level or within any scope; a plain name has none. */
  lemma ParentOfMember(scope: string, parent: string, member: string)
    requires Segment(parent) && Segment(member)
    ensures CppMemberParentName(scope + "::" + parent + "::" + member) == parent
    ensures CppMemberParentName(parent + "::" + member) == parent
    ensures CppMemberParentName(member) == ""
  {
    var outer := scope + "::" + parent;
    LastSeparatorBefore(outer, member);
    assert (outer + "::" + member)[..|outer|] == outer;
    LastSeparatorBefore(scope, parent);
    assert outer[|scope| + 2..] == parent;
    LastSeparatorBefore(parent, member);
    assert (parent + "::" + member)[..|parent|] == parent;
    NoSeparator(parent);
    NoSeparator(member);
  }

  // ---------------------------------------------------------------- symbols and their bases

  /** The node rows in table order and the edge rows. */
  datatype Symbols = Symbols(rows: seq<Node>, edges: seq<Edge>) {
    function ByName(name: string): seq<Node> { Select(rows, (n: Node) => n.name == name) }

    function ById(id: NodeId): Option<Node> {
      var hits := Select(rows, (n: Node) => n.id == id);
      if hits == [] then None else Some(hits[0])
    }

    function Extends(id: NodeId): seq<Edge> {
      Select(edges, (e: Edge) => e.source == id && KindAllowed(e, ["extends"]))
    }
  }

  predicate IsMember(n: Node, typeName: string, member: string) {
    n.name == member && n.language == "cpp" && CppMemberParentName(n.qualifiedName) == typeName
  }

  ghost predicate Declares(s: Symbols, typeName: string, member: string) {
    exists n :: n in s.rows && IsMember(n, typeName, member)
  }

  predicate IsClassNamed(n: Node, name: string) {
    n.name == name && n.language == "cpp" && (n.kind == "class" || n.kind == "struct")
  }

  /** `base` is named by the target of an `extends` edge of a class named `typeName`. */
  ghost predicate Base(s: Symbols, typeName: string, base: string) {
    exists c, e :: BaseVia(s, typeName, base, c, e)
  }

  ghost predicate BaseVia(s: Symbols, typeName: string, base: string, c: Node, e: Edge) {
    && c in s.rows && IsClassNamed(c, typeName)
    && e in s.Extends(c.id) && s.ById(e.target).Some? && s.ById(e.target).value.name == base
  }

  /** No two rows have one id. */
  ghost predicate UniqueIds(s: Symbols) { forall a, b | a in s.rows && b in s.rows && a.id == b.id :: a == b }

  /** A C++ class or struct of one name, an `extends` edge of it, and the node it leads to. */
  ghost predicate ExtendsTo(s: Symbols, typeName: string, base: string, c: Node, e: Edge, d: Node) {
    && c in s.rows && e in s.edges && d in s.rows
    && c.name == typeName && c.language == "cpp" && c.kind in {"class", "struct"}
    && e.source == c.id && e.kind == "extends" && e.target == d.id && d.name == base
  }

  /** A base over the stored rows. */
  lemma BaseIs(s: Symbols, typeName: string, base: string)
    requires UniqueIds(s)
    ensures Base(s, typeName, base) <==> exists c, e, d :: ExtendsTo(s, typeName, base, c, e, d)
  {
    hide ExtendsTo, BaseVia;
    if Base(s, typeName, base) {
      var c, e :| BaseVia(s, typeName, base, c, e);
      ViaExtends(s, typeName, base, c, e);
    }
    if c, e, d :| ExtendsTo(s, typeName, base, c, e, d) { ExtendsVia(s, typeName, base, c, e, d); }
  }

  lemma ViaExtends(s: Symbols, typeName: string, base: string, c: Node, e: Edge)
    requires BaseVia(s, typeName, base, c, e)
    ensures s.ById(e.target).Some? && ExtendsTo(s, typeName, base, c, e, s.ById(e.target).value)
  {
    ExtendsIs(s, c, e);
    ByIdIs(s, e.target);
  }

  lemma ExtendsVia(s: Symbols, typeName: string, base: string, c: Node, e: Edge, d: Node)
    requires UniqueIds(s) && ExtendsTo(s, typeName, base, c, e, d)
    ensures BaseVia(s, typeName, base, c, e)
  {
    ExtendsIs(s, c, e);
    ByIdIs(s, e.target);
  }

  lemma ExtendsIs(s: Symbols, c: Node, e: Edge)
    ensures e in s.Extends(c.id) <==> e in s.edges && e.source == c.id && e.kind == "extends"
  {
    SelectMembers(s.edges, (e: Edge) => e.source == c.id && KindAllowed(e, ["extends"]));
  }

  lemma ByIdIs(s: Symbols, id: NodeId)
    ensures s.ById(id).Some? ==> s.ById(id).value in s.rows && s.ById(id).value.id == id
    ensures s.ById(id).None? ==> forall n | n in s.rows :: n.id != id
  {
    var hits := Select(s.rows, (n: Node) => n.id == id);
    SelectMembers(s.rows, (n: Node) => n.id == id);
    if hits != [] { assert hits[0] in hits; }
  }

  /** A member over its stored row: a C++ node of that name whose qualified name ends in the type and
      the member. */
  lemma MemberIs(n: Node, outer: string, typeName: string, member: string)
    requires Segment(typeName) && Segment(member) && n.qualifiedName == outer + "::" + member
    ensures IsMember(n, typeName, member) <==>
              n.name == member && n.language == "cpp" && (outer == typeName || exists scope: string :: outer == scope + "::" + typeName)
  {
    LastSeparatorBefore(outer, member);
    assert (outer + "::" + member)[..|outer|] == outer;
    if outer == typeName {
      NoSeparator(outer);
    } else if scope: string :| outer == scope + "::" + typeName {
      ParentOfMember(scope, typeName, member);
    } else {
      var j := LastSeparator(outer);
      if j >= 0 { assert outer == outer[..j] + "::" + outer[j + 2..]; }
    }
  }

  /** `name` is `steps` base steps above `typeName`. */
  ghost predicate Above(s: Symbols, typeName: string, name: string, steps: nat)
    decreases steps
  {
    if steps == 0 then name == typeName
    else exists base :: Base(s, typeName, base) && Above(s, base, name, steps - 1)
  }

  ghost predicate Inherits(s: Symbols, typeName: string, name: string) { exists k: nat :: Above(s, typeName, name, k) }

  ghost predicate Inherited(s: Symbols, typeName: string, member: string) {
    exists name :: Inherits(s, typeName, name) && Declares(s, name, member)
  }

  lemma InheritsThroughBase(s: Symbols, typeName: string, base: string, name: string)
    requires Base(s, typeName, base) && Inherits(s, base, name)
    ensures Inherits(s, typeName, name)
  {
    var k: nat :| Above(s, base, name, k);
    assert Above(s, typeName, name, k + 1);
  }

  lemma InheritsItself(s: Symbols, typeName: string)
    ensures Inherits(s, typeName, typeName)
  {
    assert Above(s, typeName, typeName, 0);
  }

  // ---------------------------------------------------------------- the walk

  function Names(s: Symbols): set<string> { set n | n in s.rows :: n.name }

  /** The names settled so far declare nothing and have only settled bases. */
  ghost predicate Settled(s: Symbols, member: string, names: set<string>, seen: set<string>) {
    forall t | t in names :: !Declares(s, t, member) && forall base | Base(s, t, base) :: base in seen
  }

  /** A finished walk has settled everything above its start. */
  lemma {:induction false} SettledAbove(s: Symbols, member: string, seen: set<string>, t: string, name: string, k: nat)
    requires Settled(s, member, seen, seen) && t in seen && Above(s, t, name, k)
    ensures name in seen
    decreases k
  {
    if k > 0 {
      var base :| Base(s, t, base) && Above(s, base, name, k - 1);
      SettledAbove(s, member, seen, base, name, k - 1);
    }
  }

  lemma NothingInherited(s: Symbols, typeName: string, member: string, seen: set<string>)
    requires Settled(s, member, seen, seen) && typeName in seen
    ensures !Inherited(s, typeName, member)
  {
    hide Declares, Base;
    forall name | Inherits(s, typeName, name) ensures !Declares(s, name, member) {
      var k: nat :| Above(s, typeName, name, k);
      SettledAbove(s, member, seen, typeName, name, k);
    }
  }

  // ---------------------------------------------------------------- which member is taken

  /** The names of a class's bases, in the order of its edges. */
  function NamesOf(s: Symbols, edges: seq<Edge>): seq<string> {
    if edges == [] then []
    else
      var n := |edges| - 1;
      var base := s.ById(edges[n].target);
      NamesOf(s, edges[..n]) + if base.Some? then [base.value.name] else []
  }

  /** The bases of all classes among some rows, in row order. */
  function BasesAmong(s: Symbols, rows: seq<Node>, typeName: string): seq<string> {
    if rows == [] then []
    else
      var n := |rows| - 1;
      BasesAmong(s, rows[..n], typeName) + if IsClassNamed(rows[n], typeName) then NamesOf(s, s.Extends(rows[n].id)) else []
  }

  function Bases(s: Symbols, typeName: string): seq<string> { BasesAmong(s, s.rows, typeName) }

  lemma {:induction false} InNamesOf(s: Symbols, edges: seq<Edge>, base: string)
    ensures base in NamesOf(s, edges) <==> exists e :: e in edges && s.ById(e.target).Some? && s.ById(e.target).value.name == base
  {
    if edges != [] {
      InNamesOf(s, edges[..|edges| - 1], base);
      assert edges == edges[..|edges| - 1] + [edges[|edges| - 1]];
    }
  }

  lemma {:induction false} InBasesAmong(s: Symbols, rows: seq<Node>, typeName: string, base: string)
    ensures base in BasesAmong(s, rows, typeName) <==>
              exists c, e :: c in rows && IsClassNamed(c, typeName) && e in s.Extends(c.id)
                && s.ById(e.target).Some? && s.ById(e.target).value.name == base
  {
    if rows != [] {
      var n := |rows| - 1;
      InBasesAmong(s, rows[..n], typeName, base);
      InNamesOf(s, s.Extends(rows[n].id), base);
      assert rows == rows[..n] + [rows[n]];
    }
  }

  lemma BasesAre(s: Symbols, typeName: string)
    ensures forall base :: base in Bases(s, typeName) <==> Base(s, typeName, base)
  {
    forall base ensures base in Bases(s, typeName) <==> Base(s, typeName, base) {
      InBasesAmong(s, s.rows, typeName, base);
      if Base(s, typeName, base) {
        var c, e :| BaseVia(s, typeName, base, c, e);
      }
      if c, e :| c in s.rows && IsClassNamed(c, typeName) && e in s.Extends(c.id) && s.ById(e.target).Some? && s.ById(e.target).value.name == base {
        assert BaseVia(s, typeName, base, c, e);
      }
    }
  }

  /** `name` is above `from`, over names outside `stack`. */
  ghost predicate AboveOutside(s: Symbols, stack: set<string>, from: string, name: string, steps: nat)
    decreases steps
  {
    from !in stack && if steps == 0 then name == from else exists base :: Base(s, from, base) && AboveOutside(s, stack, base, name, steps - 1)
  }

  /** Nothing that declares the member is above `from` outside `stack`. */
  ghost predicate NoneAbove(s: Symbols, member: string, stack: set<string>, from: string) {
    forall name, k: nat | AboveOutside(s, stack, from, name, k) :: !Declares(s, name, member)
  }

  /** The way to the member: at each type that does not declare it, to the first base above which it is
      declared outside the types passed through so far. */
  ghost predicate FirstWay(s: Symbols, member: string, stack: set<string>, way: seq<string>)
    decreases |way|
  {
    && way != [] && way[0] !in stack
    && (if |way| == 1 then Declares(s, way[0], member)
        else !Declares(s, way[0], member) && FirstBase(s, member, stack + {way[0]}, way[0], way[1])
             && FirstWay(s, member, stack + {way[0]}, way[1..]))
  }

  ghost predicate FirstBase(s: Symbols, member: string, stack: set<string>, typeName: string, base: string) {
    FirstIn(s, member, stack, Bases(s, typeName), base)
  }

  /** `base` stands in the list, and before it nothing above which the member is declared. */
  ghost predicate FirstIn(s: Symbols, member: string, stack: set<string>, list: seq<string>, base: string) {
    exists k :: 0 <= k < |list| && list[k] == base && forall j | 0 <= j < k :: NoneAbove(s, member, stack, list[j])
  }

  lemma FirstInMore(s: Symbols, member: string, stack: set<string>, list: seq<string>, more: seq<string>, base: string)
    requires FirstIn(s, member, stack, list, base)
    ensures FirstIn(s, member, stack, list + more, base)
  {
    hide NoneAbove;
    var k :| 0 <= k < |list| && list[k] == base && forall j | 0 <= j < k :: NoneAbove(s, member, stack, list[j]);
    assert (list + more)[k] == base && forall j | 0 <= j < k :: (list + more)[j] == list[j];
  }

  /** Behind settled bases the next one is the first. */
  lemma NextIsFirst(s: Symbols, member: string, stack: set<string>, seen: set<string>, list: seq<string>, base: string)
    requires Settled(s, member, seen - stack, seen) && forall b | b in list :: b in seen
    ensures FirstIn(s, member, stack, list + [base], base)
  {
    hide NoneAbove, Settled;
    forall j | 0 <= j < |list| ensures NoneAbove(s, member, stack, (list + [base])[j]) {
      assert list[j] in list;
      NoneAboveSettled(s, member, stack, seen, list[j]);
    }
    assert (list + [base])[|list|] == base;
  }

  lemma {:induction false} BasesAppend(s: Symbols, a: seq<Node>, b: seq<Node>, typeName: string)
    ensures BasesAmong(s, a + b, typeName) == BasesAmong(s, a, typeName) + BasesAmong(s, b, typeName)
    decreases |b|
  {
    hide IsClassNamed, NamesOf;
    if b == [] {
      assert a + b == a;
    } else {
      var n := |b| - 1;
      assert (a + b)[..|a| + n] == a + b[..n];
      BasesAppend(s, a, b[..n], typeName);
    }
  }

  lemma {:induction false} OnlyNamedCount(s: Symbols, rows: seq<Node>, typeName: string)
    ensures BasesAmong(s, Select(rows, (n: Node) => n.name == typeName), typeName) == BasesAmong(s, rows, typeName)
  {
    hide NamesOf;
    if rows != [] {
      var n := |rows| - 1;
      OnlyNamedCount(s, rows[..n], typeName);
      var named := Select(rows[..n], (n: Node) => n.name == typeName);
      if rows[n].name == typeName { assert (named + [rows[n]])[..|named|] == named; }
    }
  }

  /** Settled names outside the stack have nothing above them. */
  lemma {:induction false} SettledHasNone(s: Symbols, member: string, stack: set<string>, seen: set<string>, from: string, name: string, k: nat)
    requires Settled(s, member, seen - stack, seen) && from in seen && AboveOutside(s, stack, from, name, k)
    ensures name in seen - stack && !Declares(s, name, member)
    decreases k
  {
    assert from in seen - stack;
    if k > 0 {
      var base :| Base(s, from, base) && AboveOutside(s, stack, base, name, k - 1);
      SettledHasNone(s, member, stack, seen, base, name, k - 1);
    }
  }

  lemma NoneAboveSettled(s: Symbols, member: string, stack: set<string>, seen: set<string>, from: string)
    requires Settled(s, member, seen - stack, seen) && from in seen
    ensures NoneAbove(s, member, stack, from)
  {
    hide Declares, Settled;
    forall name, k: nat | AboveOutside(s, stack, from, name, k) ensures !Declares(s, name, member) {
      SettledHasNone(s, member, stack, seen, from, name, k);
    }
  }

  /** The first row that declares the member in the type. */
  ghost predicate FirstRow(s: Symbols, typeName: string, member: string, n: Node) {
    exists i :: 0 <= i < |s.rows| && s.rows[i] == n && IsMember(n, typeName, member)
      && forall j | 0 <= j < i :: !IsMember(s.rows[j], typeName, member)
  }

  /** The first row with the member's name that lies directly in the type. */
  method DirectMember(s: Symbols, typeName: string, member: string) returns (found: Option<Node>)
    ensures found.Some? <==> Declares(s, typeName, member)
    ensures found.Some? ==> found.value in s.rows && IsMember(found.value, typeName, member)
    ensures found.Some? ==> FirstRow(s, typeName, member, found.value)
  {
    var candidates := s.ByName(member);
    SelectMembers(s.rows, (n: Node) => n.name == member);
    for i := 0 to |candidates|
      invariant forall j | 0 <= j < i :: !IsMember(candidates[j], typeName, member)
    {
      var n := candidates[i];
      assert n in candidates;
      if n.language == "cpp" && CppMemberParentName(n.qualifiedName) == typeName {
        FirstOfCandidates(s, typeName, member, i);
        return Some(n);
      }
    }
    return None;
  }

  lemma FirstOfCandidates(s: Symbols, typeName: string, member: string, i: nat)
    requires i < |s.ByName(member)| && IsMember(s.ByName(member)[i], typeName, member)
    requires forall j | 0 <= j < i :: !IsMember(s.ByName(member)[j], typeName, member)
    ensures FirstRow(s, typeName, member, s.ByName(member)[i])
  {
    FirstKept(s.rows, (n: Node) => n.name == member, (n: Node) => IsMember(n, typeName, member), i);
  }

  /** The first of the kept elements that is wanted is the first wanted of all, when only kept ones are. */
  lemma {:induction false} FirstKept<T>(s: seq<T>, keep: T -> bool, want: T -> bool, i: nat)
    requires i < |Select(s, keep)| && want(Select(s, keep)[i]) && forall j | 0 <= j < i :: !want(Select(s, keep)[j])
    requires forall x | want(x) :: keep(x)
    ensures exists k :: 0 <= k < |s| && s[k] == Select(s, keep)[i] && forall j | 0 <= j < k :: !want(s[j])
  {
    var n := |s| - 1;
    var front := Select(s[..n], keep);
    assert forall j | 0 <= j < |front| :: Select(s, keep)[j] == front[j];
    if i < |front| {
      FirstKept(s[..n], keep, want, i);
      var k :| 0 <= k < n && s[..n][k] == front[i] && forall j | 0 <= j < k :: !want(s[..n][j]);
      assert s[k] == s[..n][k] && forall j | 0 <= j < k :: s[j] == s[..n][j];
    } else {
      assert forall x | x in front :: !want(x);
      forall j | 0 <= j < n ensures !want(s[j]) {
        SelectMember(s[..n], keep, s[j]);
        assert s[..n][j] == s[j];
      }
      assert s[n] == Select(s, keep)[i];
    }
  }

  /** What one call leaves behind: a member of something inherited and the way to it, or more settled
      names. `stack` are the types that are being looked at. */
  ghost predicate WalkResult(s: Symbols, typeName: string, member: string, stack: set<string>, seen: set<string>,
                             found: Option<Node>, seen': set<string>, way: seq<string>) {
    && seen <= seen'
    && (found.Some? ==>
          && found.value in s.rows && found.value.name == member && found.value.language == "cpp"
          && Inherits(s, typeName, CppMemberParentName(found.value.qualifiedName))
          && LedBy(s, typeName, member, stack, found.value, way))
    && (found.None? ==> typeName in seen' && Settled(s, member, seen' - stack, seen'))
  }

  ghost predicate LedBy(s: Symbols, typeName: string, member: string, stack: set<string>, n: Node, way: seq<string>) {
    way != [] && FirstWay(s, member, stack, way) && way[0] == typeName && FirstRow(s, way[|way| - 1], member, n)
  }

  lemma RowsFirst(s: Symbols, typeName: string, member: string, n: Node)
    requires FirstRow(s, typeName, member, n)
    ensures IsMember(n, typeName, member) && n in s.rows
  {
  }

  method CppFindMember(s: Symbols, universe: set<string>, typeName: string, member: string, ghost stack: set<string>, seen: set<string>)
    returns (found: Option<Node>, seen': set<string>, ghost way: seq<string>)
    requires typeName in universe && Names(s) <= universe
    requires stack <= seen && Settled(s, member, seen - stack, seen)
    ensures WalkResult(s, typeName, member, stack, seen, found, seen', way)
    ensures typeName !in seen && Declares(s, typeName, member) ==>
              found.Some? && CppMemberParentName(found.value.qualifiedName) == typeName
    decreases universe - seen, 0
  {
    hide Declares, Settled, FirstRow, Bases, FirstWay;
    seen', way := seen, [];
    if typeName in seen { return None, seen', []; }
    assert universe - (seen + {typeName}) < universe - seen by { assert typeName in universe - seen; }
    seen' := seen' + {typeName};
    InheritsItself(s, typeName);
    found := DirectMember(s, typeName, member);
    if found.Some? {
      way := [typeName];
      DirectWay(s, member, stack, typeName);
      return;
    }
    NotYetSettled(s, member, stack, seen, typeName);
    found, seen', way := InBases(s, universe, typeName, member, stack + {typeName}, seen');
    if found.None? {
      BasesAre(s, typeName);
      NowSettled(s, member, stack, seen', typeName);
    } else {
      way := [typeName] + way;
      OneMoreType(s, member, stack, way);
    }
  }

  lemma DirectWay(s: Symbols, member: string, stack: set<string>, typeName: string)
    requires typeName !in stack && Declares(s, typeName, member)
    ensures FirstWay(s, member, stack, [typeName])
  {
  }

  lemma OneMoreType(s: Symbols, member: string, stack: set<string>, way: seq<string>)
    requires |way| > 1 && way[0] !in stack && !Declares(s, way[0], member)
    requires FirstBase(s, member, stack + {way[0]}, way[0], way[1]) && FirstWay(s, member, stack + {way[0]}, way[1..])
    ensures FirstWay(s, member, stack, way)
  {
  }

  lemma NotYetSettled(s: Symbols, member: string, stack: set<string>, seen: set<string>, typeName: string)
    requires Settled(s, member, seen - stack, seen) && typeName !in seen
    ensures Settled(s, member, (seen + {typeName}) - (stack + {typeName}), seen + {typeName})
  {
    assert forall t | t in (seen + {typeName}) - (stack + {typeName}) :: t in seen - stack;
  }

  lemma NowSettled(s: Symbols, member: string, stack: set<string>, seen: set<string>, typeName: string)
    requires Settled(s, member, seen - (stack + {typeName}), seen) && !Declares(s, typeName, member)
    requires forall base | Base(s, typeName, base) :: base in seen
    ensures Settled(s, member, seen - stack, seen)
  {
  }

  /** All bases of all classes of that name, depth first. */
  method InBases(s: Symbols, universe: set<string>, typeName: string, member: string, ghost stack: set<string>, seen: set<string>)
    returns (found: Option<Node>, seen': set<string>, ghost way: seq<string>)
    requires Names(s) <= universe && stack <= seen && Settled(s, member, seen - stack, seen)
    ensures seen <= seen'
    ensures found.Some? ==>
              && found.value in s.rows && found.value.name == member && found.value.language == "cpp"
              && Inherits(s, typeName, CppMemberParentName(found.value.qualifiedName))
              && way != [] && LedBy(s, way[0], member, stack, found.value, way) && FirstBase(s, member, stack, typeName, way[0])
    ensures found.None? ==> Settled(s, member, seen' - stack, seen') && forall base | base in Bases(s, typeName) :: base in seen'
    decreases universe - seen, 2
  {
    hide Declares, Settled, LedBy, Inherits, FirstIn, BasesAmong;
    found, seen', way := None, seen, [];
    var classNodes := s.ByName(typeName);
    SelectMembers(s.rows, (n: Node) => n.name == typeName);
    OnlyNamedCount(s, s.rows, typeName);
    NoBasesYet(s, classNodes, typeName);
    for i := 0 to |classNodes|
      invariant found.None? && seen <= seen' && Settled(s, member, seen' - stack, seen')
      invariant forall base | base in BasesAmong(s, classNodes[..i], typeName) :: base in seen'
    {
      var c := classNodes[i];
      assert c in classNodes;
      BasesUpTo(s, classNodes, typeName, i);
      if c.language == "cpp" && (c.kind == "class" || c.kind == "struct") {
        ghost var before := BasesAmong(s, classNodes[..i], typeName);
        found, seen', way := InBasesOf(s, universe, typeName, c, member, stack, before, seen');
        if found.Some? {
          FirstInMore(s, member, stack, before + NamesOf(s, s.Extends(c.id)), BasesAmong(s, classNodes[i + 1..], typeName), way[0]);
          return;
        }
      }
    }
    assert classNodes[..|classNodes|] == classNodes;
  }

  lemma NoBasesYet(s: Symbols, rows: seq<Node>, typeName: string)
    ensures BasesAmong(s, rows[..0], typeName) == []
  {
  }

  lemma BasesUpTo(s: Symbols, rows: seq<Node>, typeName: string, i: nat)
    requires i < |rows|
    ensures var own := if IsClassNamed(rows[i], typeName) then NamesOf(s, s.Extends(rows[i].id)) else [];
            && BasesAmong(s, rows[..i + 1], typeName) == BasesAmong(s, rows[..i], typeName) + own
            && BasesAmong(s, rows, typeName) == BasesAmong(s, rows[..i], typeName) + own + BasesAmong(s, rows[i + 1..], typeName)
  {
    hide NamesOf;
    assert rows[..i + 1][..i] == rows[..i];
    BasesAppend(s, rows[..i + 1], rows[i + 1..], typeName);
    assert rows[..i + 1] + rows[i + 1..] == rows;
  }

  /** The bases of one class node; `before` are those of the nodes before it. */
  method InBasesOf(s: Symbols, universe: set<string>, typeName: string, c: Node, member: string, ghost stack: set<string>,
                   ghost before: seq<string>, seen: set<string>)
    returns (found: Option<Node>, seen': set<string>, ghost way: seq<string>)
    requires Names(s) <= universe && c in s.rows && IsClassNamed(c, typeName)
    requires stack <= seen && Settled(s, member, seen - stack, seen) && forall b | b in before :: b in seen
    ensures seen <= seen'
    ensures found.Some? ==>
              && found.value in s.rows && found.value.name == member && found.value.language == "cpp"
              && Inherits(s, typeName, CppMemberParentName(found.value.qualifiedName))
              && way != [] && LedBy(s, way[0], member, stack, found.value, way)
              && FirstIn(s, member, stack, before + NamesOf(s, s.Extends(c.id)), way[0])
    ensures found.None? ==>
              Settled(s, member, seen' - stack, seen') && forall b | b in before + NamesOf(s, s.Extends(c.id)) :: b in seen'
    decreases universe - seen, 1
  {
    hide Declares, Inherits, Settled, FirstIn, NamesOf, FirstWay, FirstRow;
    found, seen', way := None, seen, [];
    var edges := s.Extends(c.id);
    NoNamesYet(s, edges);
    for i := 0 to |edges|
      invariant found.None? && seen <= seen' && Settled(s, member, seen' - stack, seen')
      invariant forall b | b in before + NamesOf(s, edges[..i]) :: b in seen'
    {
      var base := s.ById(edges[i].target);
      NamesUpTo(s, edges, i);
      if base.Some? {
        var name := base.value.name;
        SelectMembers(s.rows, (n: Node) => n.id == edges[i].target);
        assert BaseVia(s, typeName, name, c, edges[i]);
        ghost var list := before + NamesOf(s, edges[..i]);
        NextIsFirst(s, member, stack, seen', list, name);
        found, seen', way := CppFindMember(s, universe, name, member, stack, seen');
        if found.Some? {
          InheritsThroughBase(s, typeName, name, CppMemberParentName(found.value.qualifiedName));
          FirstInMore(s, member, stack, list + [name], NamesOf(s, edges[i + 1..]), name);
          assert before + NamesOf(s, edges) == list + [name] + NamesOf(s, edges[i + 1..]);
          return;
        }
      }
    }
    assert edges[..|edges|] == edges;
  }

  lemma NoNamesYet(s: Symbols, edges: seq<Edge>)
    ensures NamesOf(s, edges[..0]) == []
  {
  }

  lemma {:induction false} NamesAppend(s: Symbols, a: seq<Edge>, b: seq<Edge>)
    ensures NamesOf(s, a + b) == NamesOf(s, a) + NamesOf(s, b)
    decreases |b|
  {
    if b == [] {
      assert a + b == a;
    } else {
      var n := |b| - 1;
      assert (a + b)[..|a| + n] == a + b[..n];
      NamesAppend(s, a, b[..n]);
    }
  }

  lemma NamesUpTo(s: Symbols, edges: seq<Edge>, i: nat)
    requires i < |edges|
    ensures var base := s.ById(edges[i].target);
            var own := if base.Some? then [base.value.name] else [];
            && NamesOf(s, edges[..i + 1]) == NamesOf(s, edges[..i]) + own
            && NamesOf(s, edges) == NamesOf(s, edges[..i]) + own + NamesOf(s, edges[i + 1..])
  {
    assert edges[..i + 1][..i] == edges[..i];
    NamesAppend(s, edges[..i + 1], edges[i + 1..]);
    assert edges[..i + 1] + edges[i + 1..] == edges;
  }

  /** The lookup finds a member exactly when the type or something it inherits from declares one. It is
      the first row that declares it in the type to which the first way leads; in particular the type's
      own comes first. */
  method ResolveCppMemberOnType(s: Symbols, typeName: string, member: string) returns (found: Option<Node>, ghost way: seq<string>)
    ensures found.Some? <==> Inherited(s, typeName, member)
    ensures found.Some? ==>
              && found.value in s.rows && IsMember(found.value, CppMemberParentName(found.value.qualifiedName), member)
              && Inherits(s, typeName, CppMemberParentName(found.value.qualifiedName))
    ensures found.Some? ==>
              way != [] && FirstWay(s, member, {}, way) && way[0] == typeName && FirstRow(s, way[|way| - 1], member, found.value)
    ensures Declares(s, typeName, member) ==> found.Some? && IsMember(found.value, typeName, member)
  {
    hide FirstWay, FirstRow;
    var seen;
    found, seen, way := CppFindMember(s, Names(s) + {typeName}, typeName, member, {}, {});
    if found.None? {
      assert seen - {} == seen;
      NothingInherited(s, typeName, member, seen);
    } else {
      assert Declares(s, CppMemberParentName(found.value.qualifiedName), member);
    }
  }
}
