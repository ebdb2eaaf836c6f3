/** Graph relevance by random walk with restart (mcp/explore.go), over exact reals.

    The walk is first defined on vectors: `Push` moves each node's mass along its adjacency
    list, `Iterate` mixes the result with the restart vector.  The laws are stated about
    these functions for any multigraph, and the array program is proved to compute them. */
module RandomWalk {
  import opened Graph

  type Vector = seq<real>
  type Adjacency = seq<seq<nat>>

  const RANK_EDGE_KINDS: set<string> :=
    {"calls", "references", "extends", "implements", "overrides",
     "instantiates", "returns", "type_of", "imports"}

  const ITERATIONS: nat := 25

  // ---------------------------------------------------------------- vectors

  function Zeros(n: nat): (v: Vector)
    ensures |v| == n && forall i | 0 <= i < n :: v[i] == 0.0
  {
    seq(n, i => 0.0)
  }

  function Sum(v: Vector): real {
    if v == [] then 0.0 else Sum(v[..|v| - 1]) + v[|v| - 1]
  }

  function Abs(x: real): real { if x < 0.0 then -x else x }

  /** The L1 distance of two vectors of equal length. */
  function L1(u: Vector, v: Vector): real
    requires |u| == |v|
  {
    if u == [] then 0.0
    else L1(u[..|u| - 1], v[..|v| - 1]) + Abs(u[|u| - 1] - v[|v| - 1])
  }

  predicate NonNegative(v: Vector) { forall i | 0 <= i < |v| :: 0.0 <= v[i] }

  lemma {:induction false} SumUpdate(v: Vector, i: nat, x: real)
    requires i < |v|
    ensures Sum(v[i := x]) == Sum(v) - v[i] + x
    decreases |v|
  {
    var n := |v| - 1;
    if i == n {
      assert v[i := x][..n] == v[..n];
    } else {
      assert v[i := x][..n] == v[..n][i := x];
      SumUpdate(v[..n], i, x);
    }
  }

  lemma {:induction false} SumZeros(v: Vector)
    requires forall i | 0 <= i < |v| :: v[i] == 0.0
    ensures Sum(v) == 0.0
  {
    if v != [] { SumZeros(v[..|v| - 1]); }
  }

  lemma {:induction false} SumAffine(u: Vector, v: Vector, a: real, b: real, w: Vector)
    requires |u| == |v| == |w| && forall i | 0 <= i < |w| :: w[i] == a * u[i] + b * v[i]
    ensures Sum(w) == a * Sum(u) + b * Sum(v)
  {
    if w != [] {
      var n := |w| - 1;
      SumAffine(u[..n], v[..n], a, b, w[..n]);
    }
  }

  lemma {:induction false} L1Update(u: Vector, v: Vector, i: nat, x: real, y: real)
    requires |u| == |v| && i < |u|
    ensures L1(u[i := x], v[i := y]) == L1(u, v) - Abs(u[i] - v[i]) + Abs(x - y)
    decreases |u|
  {
    var n := |u| - 1;
    if i == n {
      assert u[i := x][..n] == u[..n] && v[i := y][..n] == v[..n];
    } else {
      assert u[i := x][..n] == u[..n][i := x] && v[i := y][..n] == v[..n][i := y];
      L1Update(u[..n], v[..n], i, x, y);
    }
  }

  lemma {:induction false} L1Separates(u: Vector, v: Vector)
    requires |u| == |v|
    ensures 0.0 <= L1(u, v)
    ensures L1(u, v) == 0.0 <==> u == v
  {
    if u != [] {
      var n := |u| - 1;
      L1Separates(u[..n], v[..n]);
      assert u == u[..n] + [u[n]] && v == v[..n] + [v[n]];
    }
  }

  // ---------------------------------------------------------------- one iteration

  predicate Closed(adj: Adjacency) {
    forall i, k | 0 <= i < |adj| && 0 <= k < |adj[i]| :: adj[i][k] < |adj|
  }

  predicate Within(targets: seq<nat>, n: nat) {
    forall k | 0 <= k < |targets| :: targets[k] < n
  }

  /** Add `share` to every target, one entry of the adjacency list at a time. */
  function Spread(v: Vector, targets: seq<nat>, share: real): (w: Vector)
    requires Within(targets, |v|)
    ensures |w| == |v|
    decreases |targets|
  {
    if targets == [] then v
    else
      var n := |targets| - 1;
      var u := Spread(v, targets[..n], share);
      u[targets[n] := u[targets[n]] + share]
  }

  /** The vector `next` after nodes `0..i` have handed on their mass. */
  function Push(adj: Adjacency, s: Vector, i: nat): (next: Vector)
    requires Closed(adj) && |s| == |adj| && i <= |adj|
    ensures |next| == |adj|
  {
    if i == 0 then Zeros(|adj|)
    else
      var next := Push(adj, s, i - 1);
      var si := s[i - 1];
      if si == 0.0 then next
      else if adj[i - 1] == [] then next[i - 1 := next[i - 1] + si]
      else Spread(next, adj[i - 1], si / (|adj[i - 1]| as real))
  }

  function Iterate(adj: Adjacency, r: Vector, s: Vector): (t: Vector)
    requires Closed(adj) && |r| == |s| == |adj|
    ensures |t| == |adj|
  {
    var next := Push(adj, s, |adj|);
    seq(|adj|, i requires 0 <= i < |adj| => 0.75 * next[i] + 0.25 * r[i])
  }

  function Walk(adj: Adjacency, r: Vector, s: Vector, rounds: nat): (t: Vector)
    requires Closed(adj) && |r| == |s| == |adj|
    ensures |t| == |adj|
  {
    if rounds == 0 then s else Iterate(adj, r, Walk(adj, r, s, rounds - 1))
  }

  // ---------------------------------------------------------------- conservation

  /** `n` copies of `x` added up. */
  function Copies(n: nat, x: real): real {
    if n == 0 then 0.0 else Copies(n - 1, x) + x
  }

  lemma {:induction false} CopiesIsProduct(n: nat, x: real)
    ensures Copies(n, x) == (n as real) * x
  {
    if n > 0 { CopiesIsProduct(n - 1, x); }
  }

  /** Handing out equal shares hands out everything. */
  lemma SharesAddUp(n: nat, x: real)
    requires 0 < n
    ensures Copies(n, x / (n as real)) == x
    ensures 0.0 <= x ==> 0.0 <= x / (n as real)
    ensures 0.0 < x ==> 0.0 < x / (n as real)
  {
    CopiesIsProduct(n, x / (n as real));
  }

  lemma {:induction false} SpreadSum(v: Vector, targets: seq<nat>, share: real)
    requires Within(targets, |v|)
    ensures Sum(Spread(v, targets, share)) == Sum(v) + Copies(|targets|, share)
    decreases |targets|
  {
    if targets != [] {
      var n := |targets| - 1;
      SpreadSum(v, targets[..n], share);
      var u := Spread(v, targets[..n], share);
      SumUpdate(u, targets[n], u[targets[n]] + share);
    }
  }

  lemma {:induction false} SpreadNonNegative(v: Vector, targets: seq<nat>, share: real)
    requires Within(targets, |v|) && NonNegative(v) && 0.0 <= share
    ensures NonNegative(Spread(v, targets, share))
    decreases |targets|
  {
    if targets != [] { SpreadNonNegative(v, targets[..|targets| - 1], share); }
  }

  lemma {:induction false} PushSum(adj: Adjacency, s: Vector, i: nat)
    requires Closed(adj) && |s| == |adj| && i <= |adj|
    ensures Sum(Push(adj, s, i)) == Sum(s[..i])
  {
    if i == 0 {
      SumZeros(Zeros(|adj|));
    } else {
      PushSum(adj, s, i - 1);
      var next, list := Push(adj, s, i - 1), adj[i - 1];
      assert s[..i][..i - 1] == s[..i - 1];
      if list == [] {
        SumUpdate(next, i - 1, next[i - 1] + s[i - 1]);
      } else {
        SharesAddUp(|list|, s[i - 1]);
        SpreadSum(next, list, s[i - 1] / (|list| as real));
      }
    }
  }

  lemma {:induction false} PushNonNegative(adj: Adjacency, s: Vector, i: nat)
    requires Closed(adj) && |s| == |adj| && i <= |adj| && NonNegative(s)
    ensures NonNegative(Push(adj, s, i))
  {
    if i > 0 {
      PushNonNegative(adj, s, i - 1);
      var list := adj[i - 1];
      if list != [] {
        SharesAddUp(|list|, s[i - 1]);
        SpreadNonNegative(Push(adj, s, i - 1), list, s[i - 1] / (|list| as real));
      }
    }
  }

  predicate Distribution(v: Vector) { NonNegative(v) && Sum(v) == 1.0 }

  /** Every round of the walk keeps a probability distribution. */
  lemma {:induction false} WalkConserves(adj: Adjacency, r: Vector, s: Vector, rounds: nat)
    requires Closed(adj) && |r| == |s| == |adj| && Distribution(r) && Distribution(s)
    ensures Distribution(Walk(adj, r, s, rounds))
  {
    if rounds > 0 {
      WalkConserves(adj, r, s, rounds - 1);
      var t := Walk(adj, r, s, rounds - 1);
      PushSum(adj, t, |adj|);
      PushNonNegative(adj, t, |adj|);
      assert t[..|adj|] == t;
      SumAffine(Push(adj, t, |adj|), r, 0.75, 0.25, Iterate(adj, r, t));
    }
  }

  // ---------------------------------------------------------------- contraction

  lemma {:induction false} SpreadZero(v: Vector, targets: seq<nat>)
    requires Within(targets, |v|)
    ensures Spread(v, targets, 0.0) == v
    decreases |targets|
  {
    if targets != [] { SpreadZero(v, targets[..|targets| - 1]); }
  }

  lemma {:induction false} SpreadDistance(u: Vector, v: Vector, targets: seq<nat>, a: real, b: real)
    requires |u| == |v| && Within(targets, |u|)
    ensures L1(Spread(u, targets, a), Spread(v, targets, b)) <= L1(u, v) + Copies(|targets|, Abs(a - b))
    decreases |targets|
  {
    if targets != [] {
      var n := |targets| - 1;
      SpreadDistance(u, v, targets[..n], a, b);
      var p, q := Spread(u, targets[..n], a), Spread(v, targets[..n], b);
      var j := targets[n];
      L1Update(p, q, j, p[j] + a, q[j] + b);
    }
  }

  lemma ShareDistance(x: real, y: real, n: nat)
    requires 0 < n
    ensures Copies(n, Abs(x / (n as real) - y / (n as real))) == Abs(x - y)
  {
    var d := n as real;
    assert x / d - y / d == (x - y) / d;
    assert y / d - x / d == (y - x) / d;
    SharesAddUp(n, x - y);
    SharesAddUp(n, y - x);
    if x - y < 0.0 {
      assert 0.0 <= (y - x) / d;
    }
  }

  /** What node `i` adds to `next`; a node without mass adds nothing whichever way it is read. */
  function PushOne(next: Vector, list: seq<nat>, i: nat, si: real): (w: Vector)
    requires i < |next| && Within(list, |next|)
    ensures |w| == |next|
  {
    if list == [] then next[i := next[i] + si] else Spread(next, list, si / (|list| as real))
  }

  lemma PushUnfold(adj: Adjacency, s: Vector, i: nat)
    requires Closed(adj) && |s| == |adj| && i < |adj|
    ensures Push(adj, s, i + 1) == PushOne(Push(adj, s, i), adj[i], i, s[i])
  {
    if s[i] == 0.0 { SpreadZero(Push(adj, s, i), adj[i]); }
  }

  lemma PushOneDistance(u: Vector, v: Vector, list: seq<nat>, i: nat, x: real, y: real)
    requires |u| == |v| && i < |u| && Within(list, |u|)
    ensures L1(PushOne(u, list, i, x), PushOne(v, list, i, y)) <= L1(u, v) + Abs(x - y)
  {
    hide L1, Spread, Abs, Copies;
    if list == [] {
      L1Update(u, v, i, u[i] + x, v[i] + y);
      AbsShift(u[i], v[i], x, y);
    } else {
      var a, b := x / (|list| as real), y / (|list| as real);
      ShareDistance(x, y, |list|);
      SpreadDistance(u, v, list, a, b);
    }
  }

  lemma AbsShift(p: real, q: real, x: real, y: real)
    ensures Abs((p + x) - (q + y)) - Abs(p - q) <= Abs(x - y)
  {
  }

  lemma {:induction false} PushDistance(adj: Adjacency, s: Vector, t: Vector, i: nat)
    requires Closed(adj) && |s| == |t| == |adj| && i <= |adj|
    ensures L1(Push(adj, s, i), Push(adj, t, i)) <= L1(s[..i], t[..i])
  {
    if i == 0 {
      L1Separates(Push(adj, s, 0), Push(adj, t, 0));
    } else {
      PushDistance(adj, s, t, i - 1);
      assert s[..i][..i - 1] == s[..i - 1] && t[..i][..i - 1] == t[..i - 1];
      PushUnfold(adj, s, i - 1);
      PushUnfold(adj, t, i - 1);
      PushOneDistance(Push(adj, s, i - 1), Push(adj, t, i - 1), adj[i - 1], i - 1, s[i - 1], t[i - 1]);
    }
  }

  lemma {:induction false} L1Scaled(u: Vector, v: Vector, r: Vector, p: Vector, q: Vector)
    requires |u| == |v| == |r| == |p| == |q|
    requires forall i | 0 <= i < |r| :: p[i] == 0.75 * u[i] + 0.25 * r[i] && q[i] == 0.75 * v[i] + 0.25 * r[i]
    ensures L1(p, q) == 0.75 * L1(u, v)
  {
    if r != [] {
      var n := |r| - 1;
      L1Scaled(u[..n], v[..n], r[..n], p[..n], q[..n]);
    }
  }

  /** One round shrinks the distance between any two score vectors by a quarter. */
  lemma IterateContracts(adj: Adjacency, r: Vector, s: Vector, t: Vector)
    requires Closed(adj) && |r| == |s| == |t| == |adj|
    ensures L1(Iterate(adj, r, s), Iterate(adj, r, t)) <= 0.75 * L1(s, t)
  {
    var n := |adj|;
    PushDistance(adj, s, t, n);
    assert s[..n] == s && t[..n] == t;
    L1Scaled(Push(adj, s, n), Push(adj, t, n), r, Iterate(adj, r, s), Iterate(adj, r, t));
  }

  function Power(base: real, n: nat): real {
    if n == 0 then 1.0 else base * Power(base, n - 1)
  }

  lemma Scale(before: real, after: real, p: real, d: real)
    requires after <= 0.75 * before && before <= p * d
    ensures after <= (0.75 * p) * d
  {
    assert (0.75 * p) * d == 0.75 * (p * d);
  }

  /** After any number of rounds the walk is geometrically close to any fixed point. */
  lemma {:induction false} WalkApproaches(adj: Adjacency, r: Vector, s: Vector, fixed: Vector, rounds: nat)
    requires Closed(adj) && |r| == |s| == |fixed| == |adj| && Iterate(adj, r, fixed) == fixed
    ensures L1(Walk(adj, r, s, rounds), fixed) <= Power(0.75, rounds) * L1(s, fixed)
  {
    hide Iterate, L1, Closed;
    if rounds > 0 {
      WalkApproaches(adj, r, s, fixed, rounds - 1);
      var before := Walk(adj, r, s, rounds - 1);
      IterateContracts(adj, r, before, fixed);
      Scale(L1(before, fixed), L1(Walk(adj, r, s, rounds), fixed), Power(0.75, rounds - 1), L1(s, fixed));
    }
  }

  lemma FixedPointIsUnique(adj: Adjacency, r: Vector, f: Vector, g: Vector)
    requires Closed(adj) && |r| == |f| == |g| == |adj|
    requires Iterate(adj, r, f) == f && Iterate(adj, r, g) == g
    ensures f == g
  {
    IterateContracts(adj, r, f, g);
    L1Separates(f, g);
  }

  // ---------------------------------------------------------------- which nodes get a score

  ghost predicate Reaches(adj: Adjacency, near: set<nat>, i: nat) {
    exists j :: j in near && j < |adj| && i in adj[j]
  }

  /** Nodes at most `k` adjacency steps from a node with positive restart mass. */
  ghost function Hops(adj: Adjacency, r: Vector, k: nat): set<nat>
    requires |r| == |adj|
  {
    if k == 0 then set i: nat | i < |adj| && 0.0 < r[i]
    else
      var near := Hops(adj, r, k - 1);
      near + set i: nat | i < |adj| && Reaches(adj, near, i)
  }

  lemma {:induction false} HopsInRange(adj: Adjacency, r: Vector, k: nat)
    requires |r| == |adj|
    ensures forall i | i in Hops(adj, r, k) :: i < |adj|
    ensures forall i: nat | i < |adj| && 0.0 < r[i] :: i in Hops(adj, r, k)
  {
    if k > 0 { HopsInRange(adj, r, k - 1); }
  }

  /** A node near a restart node is a restart node or next to a node that is near one. */
  lemma {:induction false} HopsStep(adj: Adjacency, r: Vector, k: nat, i: nat)
    requires |r| == |adj| && i < |adj| && i in Hops(adj, r, k)
    ensures 0.0 < r[i] || Reaches(adj, Hops(adj, r, k), i)
  {
    if k > 0 {
      if i in Hops(adj, r, k - 1) { HopsStep(adj, r, k - 1, i); }
      var near := Hops(adj, r, k - 1);
      if Reaches(adj, near, i) {
        var j :| j in near && j < |adj| && i in adj[j];
        assert j in Hops(adj, r, k);
      }
    }
  }

  lemma {:induction false} SpreadPositive(v: Vector, targets: seq<nat>, share: real, i: nat)
    requires Within(targets, |v|) && NonNegative(v) && 0.0 < share && i < |v|
    ensures 0.0 < Spread(v, targets, share)[i] <==> 0.0 < v[i] || i in targets
    decreases |targets|
  {
    if targets != [] {
      var n := |targets| - 1;
      SpreadPositive(v, targets[..n], share, i);
      SpreadNonNegative(v, targets[..n], share);
      assert targets == targets[..n] + [targets[n]];
    }
  }

  ghost predicate Feeds(adj: Adjacency, s: Vector, j: nat, i: nat)
    requires |s| == |adj|
  {
    j < |adj| && 0.0 < s[j] && (i in adj[j] || (adj[j] == [] && i == j))
  }

  lemma {:induction false} PushPositive(adj: Adjacency, s: Vector, m: nat, i: nat)
    requires Closed(adj) && |s| == |adj| && m <= |adj| && NonNegative(s) && i < |adj|
    ensures 0.0 < Push(adj, s, m)[i] <==> exists j :: 0 <= j < m && Feeds(adj, s, j, i)
  {
    if m > 0 {
      PushPositive(adj, s, m - 1, i);
      PushNonNegative(adj, s, m - 1);
      var next := Push(adj, s, m - 1);
      var j := m - 1;
      if s[j] != 0.0 && adj[j] != [] {
        SharesAddUp(|adj[j]|, s[j]);
        SpreadPositive(next, adj[j], s[j] / (|adj[j]| as real), i);
      }
      assert 0.0 < Push(adj, s, m)[i] <==> 0.0 < next[i] || Feeds(adj, s, j, i);
    }
  }

  lemma PositiveAfterOneMore(adj: Adjacency, r: Vector, k: nat, s: Vector, i: nat)
    requires Closed(adj) && |r| == |s| == |adj| && NonNegative(r) && NonNegative(s) && i < |adj|
    requires forall j: nat | j < |adj| :: 0.0 < s[j] <==> j in Hops(adj, r, k)
    ensures 0.0 < Iterate(adj, r, s)[i] <==> i in Hops(adj, r, k + 1)
  {
    var near := Hops(adj, r, k);
    PushPositive(adj, s, |adj|, i);
    PushNonNegative(adj, s, |adj|);
    HopsInRange(adj, r, k);
    var next := Push(adj, s, |adj|);
    assert Iterate(adj, r, s)[i] == 0.75 * next[i] + 0.25 * r[i];
    if 0.0 < next[i] {
      var j :| 0 <= j < |adj| && Feeds(adj, s, j, i);
      assert i in near || Reaches(adj, near, i);
    }
    if i in near { HopsStep(adj, r, k, i); }
    if Reaches(adj, near, i) {
      var j :| j in near && j < |adj| && i in adj[j];
      assert Feeds(adj, s, j, i);
    }
  }

  /** After `k` rounds exactly the nodes within `k` steps of a restart node have a score. */
  lemma {:induction false} PositiveWithinHops(adj: Adjacency, r: Vector, k: nat)
    requires Closed(adj) && |r| == |adj| && NonNegative(r)
    ensures NonNegative(Walk(adj, r, r, k))
    ensures forall i: nat | i < |adj| :: 0.0 < Walk(adj, r, r, k)[i] <==> i in Hops(adj, r, k)
  {
    if k > 0 {
      PositiveWithinHops(adj, r, k - 1);
      var s := Walk(adj, r, r, k - 1);
      PushNonNegative(adj, s, |adj|);
      forall i: nat | i < |adj| ensures 0.0 < Walk(adj, r, r, k)[i] <==> i in Hops(adj, r, k) {
        PositiveAfterOneMore(adj, r, k - 1, s, i);
      }
    }
  }

  // ---------------------------------------------------------------- from a graph to vectors

  /** The position of each id; for a repeated id the last position wins. */
  function IndexOf(ids: seq<string>): (idx: map<string, nat>)
    ensures forall id :: id in idx <==> id in ids
    ensures forall id | id in idx :: idx[id] < |ids| && ids[idx[id]] == id
  {
    if ids == [] then map[]
    else
      var n := |ids| - 1;
      assert ids == ids[..n] + [ids[n]];
      IndexOf(ids[..n])[ids[n] := n]
  }

  predicate Joins(idx: map<string, nat>, e: Edge, i: nat, j: nat) {
    && e.kind in RANK_EDGE_KINDS && e.source in idx && e.target in idx
    && idx[e.source] == i && idx[e.target] == j && i != j
  }

  function Link(adj: Adjacency, i: nat, j: nat): (r: Adjacency)
    requires i < |adj| && j < |adj| && i != j
    ensures |r| == |adj|
  {
    adj[i := adj[i] + [j]][j := adj[j] + [i]]
  }

  predicate Ranked(idx: map<string, nat>, e: Edge) {
    e.source in idx && e.target in idx && Joins(idx, e, idx[e.source], idx[e.target])
  }

  function Neighbours(n: nat, idx: map<string, nat>, edges: seq<Edge>): (adj: Adjacency)
    requires forall id | id in idx :: idx[id] < n
    ensures |adj| == n && Closed(adj)
  {
    if edges == [] then seq(n, i => [])
    else
      var m := |edges| - 1;
      var adj := Neighbours(n, idx, edges[..m]);
      if Ranked(idx, edges[m]) then Link(adj, idx[edges[m].source], idx[edges[m].target]) else adj
  }

  /** Two positions are adjacent exactly when a ranked edge joins them, whichever way it points. */
  lemma {:induction false} NeighboursAreRankedEdges(n: nat, idx: map<string, nat>, edges: seq<Edge>, i: nat, j: nat)
    requires (forall id | id in idx :: idx[id] < n) && i < n && j < n
    ensures j in Neighbours(n, idx, edges)[i] <==>
            exists k :: 0 <= k < |edges| && (Joins(idx, edges[k], i, j) || Joins(idx, edges[k], j, i))
  {
    if edges != [] {
      var m := |edges| - 1;
      NeighboursAreRankedEdges(n, idx, edges[..m], i, j);
      var adj := Neighbours(n, idx, edges[..m]);
      var e := edges[m];
      assert j in Neighbours(n, idx, edges)[i] <==> j in adj[i] || Joins(idx, e, i, j) || Joins(idx, e, j, i);
      assert forall k | 0 <= k < m :: edges[..m][k] == edges[k];
    }
  }

  /** One for the position that stands for a seed, zero elsewhere. */
  function Marks(ids: seq<string>, seeds: set<string>): (v: Vector)
    ensures |v| == |ids|
  {
    seq(|ids|, i requires 0 <= i < |ids| => if ids[i] in seeds && IndexOf(ids)[ids[i]] == i then 1.0 else 0.0)
  }

  /** The unscaled restart mass: the seeds present, or every node when none is. */
  function Mass(ids: seq<string>, seeds: set<string>): (v: Vector)
    ensures |v| == |ids|
  {
    if Sum(Marks(ids, seeds)) == 0.0 then seq(|ids|, i => 1.0) else Marks(ids, seeds)
  }

  function Normalised(u: Vector): (v: Vector)
    requires Sum(u) != 0.0
    ensures |v| == |u|
  {
    seq(|u|, i requires 0 <= i < |u| => u[i] / Sum(u))
  }

  function Restart(ids: seq<string>, seeds: set<string>): (v: Vector)
    requires ids != []
    ensures |v| == |ids|
  {
    MassIsPositive(ids, seeds);
    Normalised(Mass(ids, seeds))
  }

  lemma {:induction false} SumDivided(u: Vector, d: real, v: Vector)
    requires d != 0.0 && |u| == |v| && forall i | 0 <= i < |u| :: v[i] == u[i] / d
    ensures Sum(v) == Sum(u) / d
  {
    if u != [] {
      var n := |u| - 1;
      SumDivided(u[..n], d, v[..n]);
      assert Sum(u) / d == Sum(u[..n]) / d + u[n] / d;
    }
  }

  lemma {:induction false} SumOfOnes(u: Vector)
    requires forall i | 0 <= i < |u| :: u[i] == 1.0
    ensures Sum(u) == |u| as real
  {
    if u != [] { SumOfOnes(u[..|u| - 1]); }
  }

  lemma {:induction false} SumNonNegative(u: Vector)
    requires NonNegative(u)
    ensures 0.0 <= Sum(u)
    ensures Sum(u) == 0.0 <==> forall i | 0 <= i < |u| :: u[i] == 0.0
  {
    if u != [] {
      var n := |u| - 1;
      SumNonNegative(u[..n]);
      assert forall i | 0 <= i < n :: u[..n][i] == u[i];
    }
  }

  predicate SeedPresent(ids: seq<string>, seeds: set<string>) { exists id :: id in seeds && id in ids }

  lemma TotalCountsSeeds(ids: seq<string>, seeds: set<string>)
    ensures NonNegative(Marks(ids, seeds)) && 0.0 <= Sum(Marks(ids, seeds))
    ensures SeedPresent(ids, seeds) <==> Sum(Marks(ids, seeds)) != 0.0
  {
    var m := Marks(ids, seeds);
    SumNonNegative(m);
    if SeedPresent(ids, seeds) {
      var id :| id in seeds && id in ids;
      assert m[IndexOf(ids)[id]] == 1.0;
    } else {
      forall i | 0 <= i < |m| ensures m[i] == 0.0 { assert ids[i] in ids; }
    }
  }

  lemma MassIsPositive(ids: seq<string>, seeds: set<string>)
    requires ids != []
    ensures NonNegative(Mass(ids, seeds)) && 0.0 < Sum(Mass(ids, seeds))
    ensures !SeedPresent(ids, seeds) ==> Sum(Mass(ids, seeds)) == |ids| as real
  {
    TotalCountsSeeds(ids, seeds);
    if Sum(Marks(ids, seeds)) == 0.0 { SumOfOnes(Mass(ids, seeds)); }
  }

  lemma Quotient(x: real)
    requires 0.0 < x
    ensures x / x == 1.0
  {
  }

  lemma PartOfTotal(x: real, total: real)
    requires 0.0 <= x && 0.0 < total
    ensures 0.0 <= x / total && (0.0 < x / total <==> 0.0 < x)
  {
    if 0.0 < x { assert 0.0 < x / total; } else { assert x / total == 0.0; }
  }

  lemma NormalisedIsDistribution(u: Vector)
    requires NonNegative(u) && 0.0 < Sum(u)
    ensures Distribution(Normalised(u))
    ensures forall i | 0 <= i < |u| :: 0.0 < Normalised(u)[i] <==> 0.0 < u[i]
  {
    hide Sum;
    var total, v := Sum(u), Normalised(u);
    SumDivided(u, total, v);
    Quotient(total);
    forall i | 0 <= i < |u| ensures 0.0 <= v[i] && (0.0 < v[i] <==> 0.0 < u[i]) { PartOfTotal(u[i], total); }
  }

  lemma RestartIsDistribution(ids: seq<string>, seeds: set<string>)
    requires ids != []
    ensures Distribution(Restart(ids, seeds))
    ensures forall i | 0 <= i < |ids| :: 0.0 < Restart(ids, seeds)[i] <==>
              !SeedPresent(ids, seeds) || (ids[i] in seeds && IndexOf(ids)[ids[i]] == i)
  {
    TotalCountsSeeds(ids, seeds);
    MassIsPositive(ids, seeds);
    NormalisedIsDistribution(Mass(ids, seeds));
  }

  function GraphOf(ids: seq<string>, edges: seq<Edge>): (adj: Adjacency)
    ensures |adj| == |ids| && Closed(adj)
  {
    Neighbours(|ids|, IndexOf(ids), edges)
  }

  /** The score of each position after a number of rounds; the program runs 25. */
  function Scores(ids: seq<string>, edges: seq<Edge>, seeds: set<string>, rounds: nat): (v: Vector)
    requires ids != []
    ensures |v| == |ids|
  {
    Walk(GraphOf(ids, edges), Restart(ids, seeds), Restart(ids, seeds), rounds)
  }

  /** For every multigraph, seed set and number of rounds the scores are a distribution. */
  lemma ScoresAreDistribution(ids: seq<string>, edges: seq<Edge>, seeds: set<string>, rounds: nat)
    requires ids != []
    ensures Distribution(Scores(ids, edges, seeds, rounds))
  {
    RestartIsDistribution(ids, seeds);
    WalkConserves(GraphOf(ids, edges), Restart(ids, seeds), Restart(ids, seeds), rounds);
  }

  /** A node is scored exactly when it is within `rounds` ranked edges of a restart node. */
  lemma ScoredIffNear(ids: seq<string>, edges: seq<Edge>, seeds: set<string>, rounds: nat, i: nat)
    requires i < |ids|
    ensures 0.0 < Scores(ids, edges, seeds, rounds)[i] <==>
            i in Hops(GraphOf(ids, edges), Restart(ids, seeds), rounds)
  {
    RestartIsDistribution(ids, seeds);
    PositiveWithinHops(GraphOf(ids, edges), Restart(ids, seeds), rounds);
  }

  /** The scores are geometrically close to the walk's (unique) fixed point. */
  lemma ScoresApproachFixedPoint(ids: seq<string>, edges: seq<Edge>, seeds: set<string>, rounds: nat, f: Vector)
    requires ids != [] && |f| == |ids|
    requires Iterate(GraphOf(ids, edges), Restart(ids, seeds), f) == f
    ensures L1(Scores(ids, edges, seeds, rounds), f) <= Power(0.75, rounds) * L1(Restart(ids, seeds), f)
  {
    hide L1, Power, Iterate, Restart, GraphOf, Walk;
    WalkApproaches(GraphOf(ids, edges), Restart(ids, seeds), Restart(ids, seeds), f, rounds);
  }

  // ---------------------------------------------------------------- the equation of one score

  /** What position `i` receives from the first `m` positions: from each its score, in equal parts over
      its adjacency list, as often as `i` stands there. */
  function Received(adj: Adjacency, s: Vector, i: nat, m: nat): real
    requires |s| == |adj| && m <= |adj|
  {
    if m == 0 then 0.0
    else
      var list := adj[m - 1];
      Received(adj, s, i, m - 1) +
      if list == [] then 0.0 else s[m - 1] * (multiset(list)[i] as real) / (|list| as real)
  }

  lemma CountLast(targets: seq<nat>, i: nat)
    requires targets != []
    ensures multiset(targets)[i] == multiset(targets[..|targets| - 1])[i] + if targets[|targets| - 1] == i then 1 else 0
  {
    assert targets == targets[..|targets| - 1] + [targets[|targets| - 1]];
  }

  lemma {:induction false} SpreadAt(v: Vector, targets: seq<nat>, share: real, i: nat)
    requires Within(targets, |v|) && i < |v|
    ensures Spread(v, targets, share)[i] == v[i] + Copies(multiset(targets)[i], share)
    decreases |targets|
  {
    if targets != [] {
      SpreadAt(v, targets[..|targets| - 1], share, i);
      CountLast(targets, i);
    }
  }

  lemma Portion(s: real, times: nat, d: nat)
    requires 0 < d
    ensures Copies(times, s / (d as real)) == s * (times as real) / (d as real)
    ensures s == 0.0 ==> s * (times as real) / (d as real) == 0.0
  {
    CopiesIsProduct(times, s / (d as real));
  }

  lemma {:induction false} PushAt(adj: Adjacency, s: Vector, m: nat, i: nat)
    requires Closed(adj) && |s| == |adj| && m <= |adj| && i < |adj|
    ensures Push(adj, s, m)[i] == Received(adj, s, i, m) + if i < m && adj[i] == [] then s[i] else 0.0
  {
    hide Spread, Copies;
    if m > 0 {
      PushAt(adj, s, m - 1, i);
      OneMoreGives(adj, s, m, i);
      OneMoreReceived(adj, s, m, i);
    }
  }

  lemma OneMoreReceived(adj: Adjacency, s: Vector, m: nat, i: nat)
    requires |s| == |adj| && 0 < m <= |adj|
    ensures Received(adj, s, i, m) == Received(adj, s, i, m - 1) +
            if adj[m - 1] == [] then 0.0 else Copies(multiset(adj[m - 1])[i], s[m - 1] / (|adj[m - 1]| as real))
  {
    hide Copies;
    if adj[m - 1] != [] { Portion(s[m - 1], multiset(adj[m - 1])[i], |adj[m - 1]|); }
  }

  lemma OneMoreGives(adj: Adjacency, s: Vector, m: nat, i: nat)
    requires Closed(adj) && |s| == |adj| && 0 < m <= |adj| && i < |adj|
    ensures Push(adj, s, m)[i] == Push(adj, s, m - 1)[i] +
            if adj[m - 1] == [] then (if i == m - 1 then s[i] else 0.0)
            else Copies(multiset(adj[m - 1])[i], s[m - 1] / (|adj[m - 1]| as real))
  {
    hide Spread, Copies;
    var list, x := adj[m - 1], s[m - 1];
    if list != [] {
      if x == 0.0 {
        NothingGiven(multiset(list)[i], |list|);
      } else {
        SpreadAt(Push(adj, s, m - 1), list, x / (|list| as real), i);
      }
    }
  }

  lemma NothingGiven(times: nat, d: nat)
    requires 0 < d
    ensures Copies(times, 0.0 / (d as real)) == 0.0
  {
    Portion(0.0, times, d);
  }

  /** One score after one more round: three quarters of what it receives, and what it keeps when it has
      no neighbour, and one quarter of its restart mass. */
  lemma ScoreEquation(ids: seq<string>, edges: seq<Edge>, seeds: set<string>, k: nat, i: nat)
    requires i < |ids|
    ensures var adj, s := GraphOf(ids, edges), Scores(ids, edges, seeds, k);
            Scores(ids, edges, seeds, k + 1)[i] ==
              0.75 * (Received(adj, s, i, |ids|) + if adj[i] == [] then s[i] else 0.0) + 0.25 * Restart(ids, seeds)[i]
    ensures Scores(ids, edges, seeds, 0)[i] == Restart(ids, seeds)[i]
  {
    hide Push, Received, Restart, GraphOf;
    PushAt(GraphOf(ids, edges), Scores(ids, edges, seeds, k), |ids|, i);
  }

  /** The last position of an id. */
  ghost predicate StandsFor(ids: seq<string>, i: nat, id: string) {
    i < |ids| && ids[i] == id && forall j | i < j < |ids| :: ids[j] != id
  }

  lemma {:induction false} IndexIsLast(ids: seq<string>, i: nat, id: string)
    ensures StandsFor(ids, i, id) <==> id in ids && IndexOf(ids)[id] == i
  {
    if ids != [] {
      var n := |ids| - 1;
      IndexIsLast(ids[..n], i, id);
      assert ids == ids[..n] + [ids[n]];
      assert forall j | 0 <= j < n :: ids[..n][j] == ids[j];
    }
  }

  /** How many of the edges join the nodes at two positions, either way. */
  ghost function EdgesBetween(ids: seq<string>, edges: seq<Edge>, i: nat, j: nat): nat {
    if edges == [] then 0
    else
      var m := |edges| - 1;
      EdgesBetween(ids, edges[..m], i, j) + if JoinedBy(ids, edges[m], i, j) || JoinedBy(ids, edges[m], j, i) then 1 else 0
  }

  /** An edge of one of the nine ranked kinds from the node at `i` to another at `j`. */
  ghost predicate JoinedBy(ids: seq<string>, e: Edge, i: nat, j: nat) {
    && e.kind in {"calls", "references", "extends", "implements", "overrides", "instantiates", "returns", "type_of", "imports"}
    && StandsFor(ids, i, e.source) && StandsFor(ids, j, e.target) && i != j
  }

  lemma JoinsIs(ids: seq<string>, e: Edge, i: nat, j: nat)
    ensures Joins(IndexOf(ids), e, i, j) <==> JoinedBy(ids, e, i, j)
  {
    IndexIsLast(ids, i, e.source);
    IndexIsLast(ids, j, e.target);
  }

  /** In `j`'s list `i` stands once for every edge that joins them. */
  lemma {:induction false} NeighbourCount(ids: seq<string>, edges: seq<Edge>, i: nat, j: nat)
    requires i < |ids| && j < |ids|
    ensures multiset(GraphOf(ids, edges)[j])[i] == EdgesBetween(ids, edges, i, j)
  {
    hide IndexOf, StandsFor, JoinedBy;
    if edges != [] {
      var m := |edges| - 1;
      NeighbourCount(ids, edges[..m], i, j);
      var e := edges[m];
      JoinsIs(ids, e, i, j);
      JoinsIs(ids, e, j, i);
      var adj := GraphOf(ids, edges[..m]);
      var idx := IndexOf(ids);
      if Ranked(idx, e) {
        assert multiset(adj[j] + [i]) == multiset(adj[j]) + multiset{i};
      }
    }
  }

  /** How many of the edges have an end at a position. */
  ghost function EdgesAt(ids: seq<string>, edges: seq<Edge>, j: nat): nat {
    if edges == [] then 0
    else
      var m := |edges| - 1;
      EdgesAt(ids, edges[..m], j) +
      if exists i :: 0 <= i < |ids| && (JoinedBy(ids, edges[m], i, j) || JoinedBy(ids, edges[m], j, i)) then 1 else 0
  }

  lemma {:induction false} ListLength(ids: seq<string>, edges: seq<Edge>, j: nat)
    requires j < |ids|
    ensures |GraphOf(ids, edges)[j]| == EdgesAt(ids, edges, j)
  {
    hide IndexOf, StandsFor, JoinedBy;
    if edges != [] {
      var m := |edges| - 1;
      ListLength(ids, edges[..m], j);
      var e, idx := edges[m], IndexOf(ids);
      if Ranked(idx, e) {
        JoinsIs(ids, e, idx[e.source], idx[e.target]);
      }
      forall i | 0 <= i < |ids| ensures (JoinedBy(ids, e, i, j) <==> Joins(idx, e, i, j)) && (JoinedBy(ids, e, j, i) <==> Joins(idx, e, j, i)) {
        JoinsIs(ids, e, i, j);
        JoinsIs(ids, e, j, i);
      }
    }
  }

  /** Seeds that stand somewhere. */
  function PresentSeeds(ids: seq<string>, seeds: set<string>): set<string> { set id | id in seeds && id in ids }

  lemma {:induction false} MarksAddUp(ids: seq<string>, seeds: set<string>)
    ensures Sum(Marks(ids, seeds)) == |PresentSeeds(ids, seeds)| as real
    decreases |seeds|
  {
    hide Marks, Sum;
    if seeds == {} {
      NoMarks(ids);
      assert PresentSeeds(ids, seeds) == {};
    } else {
      var id :| id in seeds;
      var rest := seeds - {id};
      MarksAddUp(ids, rest);
      assert seeds == rest + {id};
      MarkOne(ids, rest, id);
      if id in ids {
        assert PresentSeeds(ids, seeds) == PresentSeeds(ids, rest) + {id};
      } else {
        assert PresentSeeds(ids, seeds) == PresentSeeds(ids, rest);
      }
    }
  }

  lemma NoMarks(ids: seq<string>)
    ensures Sum(Marks(ids, {})) == 0.0
  {
    SumZeros(Marks(ids, {}));
  }

  /** The restart mass: equal parts over the seeds that are listed, or over everything when none is. */
  lemma RestartIs(ids: seq<string>, seeds: set<string>, i: nat)
    requires i < |ids|
    ensures var present := PresentSeeds(ids, seeds);
            Restart(ids, seeds)[i] ==
              if present == {} then 1.0 / (|ids| as real)
              else if ids[i] in seeds && StandsFor(ids, i, ids[i]) then 1.0 / (|present| as real) else 0.0
  {
    hide Sum, IndexOf, StandsFor;
    MarksAddUp(ids, seeds);
    MassIsPositive(ids, seeds);
    IndexIsLast(ids, i, ids[i]);
    assert ids[i] in ids;
    if PresentSeeds(ids, seeds) == {} {
      OnesAddUp(Mass(ids, seeds));
    } else {
      NotEmpty(PresentSeeds(ids, seeds));
    }
  }

  lemma OnesAddUp(u: Vector)
    requires forall k | 0 <= k < |u| :: u[k] == 1.0
    ensures Sum(u) == |u| as real
  {
    SumOfOnes(u);
  }

  lemma NotEmpty(s: set<string>)
    requires s != {}
    ensures 0 < |s|
  {
  }

  /** The program's number of rounds: twenty-five hops far, and close to the fixed point. */
  lemma ProgramRounds(ids: seq<string>, edges: seq<Edge>, seeds: set<string>, f: Vector)
    requires ids != [] && |f| == |ids|
    ensures Iterate(GraphOf(ids, edges), Restart(ids, seeds), f) == f ==>
              L1(Scores(ids, edges, seeds, ITERATIONS), f) <= 0.00076 * L1(Restart(ids, seeds), f)
    ensures forall i | 0 <= i < |ids| :: 0.0 < Scores(ids, edges, seeds, ITERATIONS)[i] <==>
              i in Hops(GraphOf(ids, edges), Restart(ids, seeds), 25)
  {
    hide L1, Iterate, Restart, GraphOf, Walk, Power, Scores, Hops;
    forall i | 0 <= i < |ids| ensures 0.0 < Scores(ids, edges, seeds, ITERATIONS)[i] <==> i in Hops(GraphOf(ids, edges), Restart(ids, seeds), 25) {
      ScoredIffNear(ids, edges, seeds, ITERATIONS, i);
    }
    if Iterate(GraphOf(ids, edges), Restart(ids, seeds), f) == f {
      ScoresApproachFixedPoint(ids, edges, seeds, ITERATIONS, f);
      TwentyFiveRounds();
      L1Separates(Restart(ids, seeds), f);
      Smaller(Power(0.75, ITERATIONS), 0.00076, L1(Restart(ids, seeds), f));
    }
  }

  lemma Smaller(a: real, b: real, x: real)
    requires a <= b && 0.0 <= x
    ensures a * x <= b * x
  {
  }

  lemma PowerAdd(x: real, a: nat, b: nat)
    ensures Power(x, a + b) == Power(x, a) * Power(x, b)
    decreases b
  {
    if b > 0 {
      PowerAdd(x, a, b - 1);
      assert Power(x, a + b) == x * Power(x, a + b - 1);
    }
  }

  lemma TwentyFiveRounds()
    ensures Power(0.75, 25) <= 0.00076
  {
    PowerAdd(0.75, 12, 13);
    PowerAdd(0.75, 6, 6);
    PowerAdd(0.75, 6, 7);
    assert Power(0.75, 6) == 0.177978515625;
    assert Power(0.75, 7) == 0.13348388671875;
  }

  // ---------------------------------------------------------------- the program

  method BuildAdjacency(ids: seq<string>, edges: seq<Edge>) returns (idx: map<string, nat>, adj: array<seq<nat>>)
    ensures idx == IndexOf(ids) && fresh(adj) && adj[..] == GraphOf(ids, edges)
  {
    var n := |ids|;
    idx := map[];
    for i := 0 to n
      invariant idx == IndexOf(ids[..i])
    {
      assert ids[..i + 1][..i] == ids[..i];
      idx := idx[ids[i] := i];
    }
    assert ids[..n] == ids;
    adj := new seq<nat>[n](_ => []);
    for k := 0 to |edges|
      invariant adj[..] == Neighbours(n, idx, edges[..k])
    {
      var e := edges[k];
      assert edges[..k + 1][..k] == edges[..k];
      if Ranked(idx, e) {
        var i, j := idx[e.source], idx[e.target];
        adj[i] := adj[i] + [j];
        adj[j] := adj[j] + [i];
      }
    }
    assert edges[..|edges|] == edges;
  }

  lemma MarkOne(ids: seq<string>, done: set<string>, id: string)
    ensures id in ids && id !in done ==>
              Marks(ids, done + {id}) == Marks(ids, done)[IndexOf(ids)[id] := 1.0] &&
              Sum(Marks(ids, done + {id})) == Sum(Marks(ids, done)) + 1.0
    ensures id !in ids ==> Marks(ids, done + {id}) == Marks(ids, done)
  {
    if id in ids && id !in done {
      var i := IndexOf(ids)[id];
      assert Marks(ids, done + {id}) == Marks(ids, done)[i := 1.0];
      SumUpdate(Marks(ids, done), i, 1.0);
    } else if id !in ids {
      assert Marks(ids, done + {id}) == Marks(ids, done);
    }
  }

  method MarkSeeds(ids: seq<string>, idx: map<string, nat>, seeds: set<string>) returns (r: array<real>, rsum: real)
    requires idx == IndexOf(ids)
    ensures fresh(r) && r[..] == Marks(ids, seeds) && rsum == Sum(Marks(ids, seeds))
  {
    r, rsum := new real[|ids|](_ => 0.0), 0.0;
    var rest := seeds;
    assert r[..] == Marks(ids, {});
    SumZeros(Marks(ids, {}));
    assert seeds - rest == {};
    while rest != {}
      invariant rest <= seeds
      invariant r[..] == Marks(ids, seeds - rest) && rsum == Sum(Marks(ids, seeds - rest))
      decreases rest
    {
      var id :| id in rest;
      MarkOne(ids, seeds - rest, id);
      assert seeds - (rest - {id}) == (seeds - rest) + {id};
      if id in idx {
        r[idx[id]] := 1.0;
        rsum := rsum + 1.0;
      }
      rest := rest - {id};
    }
    assert seeds - rest == seeds;
  }

  method BuildRestart(ids: seq<string>, idx: map<string, nat>, seeds: set<string>) returns (r: array<real>)
    requires ids != [] && idx == IndexOf(ids)
    ensures fresh(r) && r[..] == Restart(ids, seeds)
  {
    var n := |ids|;
    var rsum;
    r, rsum := MarkSeeds(ids, idx, seeds);
    TotalCountsSeeds(ids, seeds);
    MassIsPositive(ids, seeds);
    if rsum == 0.0 {
      for i := 0 to n
        invariant forall k | 0 <= k < i :: r[k] == 1.0
      {
        r[i] := 1.0;
      }
      rsum := n as real;
    }
    assert r[..] == Mass(ids, seeds) && rsum == Sum(r[..]);
    DivideAll(r, rsum);
  }

  /** The loop that scales the restart vector by its total. */
  method DivideAll(r: array<real>, total: real)
    requires total != 0.0 && total == Sum(r[..])
    modifies r
    ensures r[..] == Normalised(old(r[..]))
  {
    ghost var raw := r[..];
    for i := 0 to r.Length
      invariant forall k | 0 <= k < i :: r[k] == raw[k] / total
      invariant forall k | i <= k < r.Length :: r[k] == raw[k]
    {
      r[i] := r[i] / total;
    }
  }

  method HandOut(next: array<real>, list: seq<nat>, share: real)
    requires Within(list, next.Length)
    modifies next
    ensures next[..] == Spread(old(next[..]), list, share)
  {
    for k := 0 to |list|
      invariant next[..] == Spread(old(next[..]), list[..k], share)
    {
      assert list[..k + 1][..k] == list[..k];
      next[list[k]] := next[list[k]] + share;
    }
    assert list[..|list|] == list;
  }

  /** The first half of a round: the vector `next`, filled node by node. */
  method PushAll(adj: array<seq<nat>>, s: array<real>) returns (next: array<real>)
    requires adj.Length == s.Length && Closed(adj[..])
    ensures fresh(next) && next[..] == Push(adj[..], s[..], s.Length)
  {
    var n := s.Length;
    next := new real[n](_ => 0.0);
    ghost var graph, mass := adj[..], s[..];
    assert next[..] == Zeros(n);
    for i := 0 to n
      invariant fresh(next) && next.Length == n
      invariant next[..] == Push(graph, mass, i)
    {
      var si := s[i];
      if si != 0.0 {
        var d := |adj[i]|;
        if d == 0 {
          next[i] := next[i] + si;
        } else {
          HandOut(next, adj[i], si / (d as real));
        }
      }
    }
  }

  /** One round: push all mass, then mix the result with the restart vector back into `s`. */
  method Round(adj: array<seq<nat>>, r: array<real>, s: array<real>)
    requires adj.Length == r.Length == s.Length && r != s && Closed(adj[..])
    modifies s
    ensures s[..] == Iterate(adj[..], r[..], old(s[..]))
  {
    var next := PushAll(adj, s);
    for i := 0 to s.Length
      invariant next[..] == Push(old(adj[..]), old(s[..]), s.Length)
      invariant forall k | 0 <= k < i :: s[k] == 0.75 * next[k] + 0.25 * r[k]
    {
      s[i] := 0.75 * next[i] + 0.25 * r[i];
    }
    assert adj[..] == old(adj[..]);
  }

  method ComputeGraphRelevance(ids: seq<string>, edges: seq<Edge>, seeds: set<string>)
    returns (out: map<string, real>)
    ensures forall id :: id in out <==> id in ids
    ensures forall id | id in ids :: out[id] == Scores(ids, edges, seeds, ITERATIONS)[IndexOf(ids)[id]]
  {
    hide Iterate, IndexOf, Restart, GraphOf, Push;
    var n := |ids|;
    if n == 0 { return map[]; }
    var idx, adj := BuildAdjacency(ids, edges);
    var r := BuildRestart(ids, idx, seeds);
    ghost var graph, restart := adj[..], r[..];
    var s := new real[n](i requires 0 <= i < n reads r => r[i]);
    assert s[..] == r[..];
    var round := 0;
    while round < ITERATIONS
      invariant 0 <= round <= ITERATIONS
      invariant adj[..] == graph && r[..] == restart && s.Length == n
      invariant s[..] == Scores(ids, edges, seeds, round)
    {
      Round(adj, r, s);
      round := round + 1;
    }
    out := Named(ids, s[..]);
  }

  method Named(ids: seq<string>, s: Vector) returns (out: map<string, real>)
    requires |ids| == |s|
    ensures forall id :: id in out <==> id in ids
    ensures forall id | id in ids :: out[id] == s[IndexOf(ids)[id]]
  {
    out := map[];
    var n := |ids|;
    for i := 0 to n
      invariant forall id :: id in out <==> id in ids[..i]
      invariant forall id | id in out :: out[id] == s[IndexOf(ids[..i])[id]]
    {
      assert ids[..i + 1][..i] == ids[..i];
      assert ids[..i + 1] == ids[..i] + [ids[i]];
      out := out[ids[i] := s[i]];
    }
    assert ids[..n] == ids;
  }
}
