/** The freshness stamp (indexer/sync.go): every store carries the Git revision at which the whole
    index was last complete, and a change detector that trusts the stamp reads only Git's own lists.

    Each write of one store's stamp is a step of its own, and a writer may die or give up between
    any two steps. HEAD moves at any time. The history records when a refresh completed and at
    which revision, and when the graph was written. */
module Freshness {

  /** A revision name; the empty one means "no stamp". */
  type Head = string

  datatype Event = Completed(head: Head) | Mutated

  /** Where one writer is; `seen` is the revision that a refresh observed first, and None for a sync
      or rebuild that no refresh asked for. */
  datatype Phase =
    | Idle
    | Observed(head: Head)
    | Clearing(head: Head, next: nat)
    | ClearingLocked(seen: Seen, next: nat)
    | Mutating(seen: Seen)
    | Refreshed(head: Head)
    | Stamping(head: Head, next: nat)

  datatype Seen = Unasked | ByRefresh(head: Head)

  datatype State = State(stamps: seq<Head>, head: Head, holder: int, writers: seq<Phase>, history: seq<Event>)

  const NOBODY := -1

  // ---------------------------------------------------------------- steps

  datatype Action =
    | MoveHead(head: Head)
    | Observe(w: nat)
    | FindNothing(w: nat)
    | StartClearing(w: nat)
    | ClearOne(w: nat)
    | TakeLock(w: nat)
    | Mutate(w: nat, newStores: nat)
    | Finish(w: nat)
    | StartStamping(w: nat)
    | StampOne(w: nat)
    | GiveUp(w: nat)

  predicate AllCleared(s: State, next: nat) { next == |s.stamps| }

  predicate Enabled(s: State, a: Action) {
    if a.MoveHead? then a.head != ""
    else
      && a.w < |s.writers|
      && var p := s.writers[a.w];
         match a
         case Observe(_) => p.Idle? && s.head != ""
         case FindNothing(_) => p.Observed?
         case StartClearing(_) => p.Observed? || p.Refreshed?
         case ClearOne(_) => (p.Clearing? || p.ClearingLocked?) && p.next < |s.stamps|
         case TakeLock(_) => (p.Idle? || (p.Clearing? && AllCleared(s, p.next))) && s.holder == NOBODY
         case Mutate(_, _) => p.Mutating? || (p.ClearingLocked? && AllCleared(s, p.next))
         case Finish(_) => p.Mutating? || (p.ClearingLocked? && AllCleared(s, p.next))
         case StartStamping(_) => p.Refreshed? && s.head == p.head
         case StampOne(_) => p.Stamping? && p.next < |s.stamps|
         case GiveUp(_) => true
         case MoveHead(_) => false
  }

  function NoStamps(n: nat): seq<Head> { if n == 0 then [] else NoStamps(n - 1) + [""] }

  function Step(s: State, a: Action): State
    requires Enabled(s, a)
  {
    match a
    case MoveHead(h) => s.(head := h)
    case Observe(w) => s.(writers := s.writers[w := Observed(s.head)])
    case FindNothing(w) =>
      var h := s.writers[w].head;
      s.(writers := s.writers[w := Refreshed(h)], history := s.history + [Completed(h)])
    case StartClearing(w) => s.(writers := s.writers[w := Clearing(s.writers[w].head, 0)])
    case ClearOne(w) =>
      var p := s.writers[w];
      var after := if p.Clearing? then Clearing(p.head, p.next + 1) else ClearingLocked(p.seen, p.next + 1);
      s.(stamps := s.stamps[p.next := ""], writers := s.writers[w := after])
    case TakeLock(w) =>
      var seen := if s.writers[w].Clearing? then ByRefresh(s.writers[w].head) else Unasked;
      s.(holder := w, writers := s.writers[w := ClearingLocked(seen, 0)])
    case Mutate(w, newStores) =>
      s.(stamps := s.stamps + NoStamps(newStores), writers := s.writers[w := Mutating(s.writers[w].seen)],
         history := s.history + [Mutated])
    case Finish(w) =>
      var seen := s.writers[w].seen;
      var done := s.(holder := NOBODY);
      if seen.Unasked? then done.(writers := s.writers[w := Idle])
      else done.(writers := s.writers[w := Refreshed(seen.head)], history := s.history + [Completed(seen.head)])
    case StartStamping(w) => s.(writers := s.writers[w := Stamping(s.writers[w].head, 0)])
    case StampOne(w) =>
      var p := s.writers[w];
      s.(stamps := s.stamps[p.next := p.head], writers := s.writers[w := Stamping(p.head, p.next + 1)])
    case GiveUp(w) =>
      s.(holder := if s.holder == w then NOBODY else s.holder, writers := s.writers[w := Idle])
  }

  predicate Run(s: State, actions: seq<Action>, t: State)
    decreases |actions|
  {
    if actions == [] then s == t
    else Enabled(s, actions[0]) && Run(Step(s, actions[0]), actions[1..], t)
  }

  predicate Init(s: State) {
    && (forall i | 0 <= i < |s.stamps| :: s.stamps[i] == "")
    && (forall w | 0 <= w < |s.writers| :: s.writers[w] == Idle)
    && s.holder == NOBODY && s.history == []
  }

  // ---------------------------------------------------------------- what a stamp promises

  /** A refresh that observed `h` completed, and the graph was not written since. */
  predicate Certified(history: seq<Event>, h: Head) {
    history != [] &&
    var last := history[|history| - 1];
    last == Completed(h) || (last != Mutated && Certified(history[..|history| - 1], h))
  }

  lemma {:induction false} CertifiedMeans(history: seq<Event>, h: Head)
    ensures Certified(history, h) <==>
            exists k :: 0 <= k < |history| && history[k] == Completed(h) && forall j | k < j < |history| :: history[j] != Mutated
  {
    if history != [] {
      var n := |history| - 1;
      CertifiedMeans(history[..n], h);
      if history[n] != Mutated && history[n] != Completed(h) {
        forall k | 0 <= k < |history| && history[k] == Completed(h) && forall j | k < j < |history| :: history[j] != Mutated
          ensures Certified(history, h)
        {
          assert history[..n][k] == Completed(h);
        }
        if Certified(history[..n], h) {
          var k :| 0 <= k < n && history[..n][k] == Completed(h) && forall j | k < j < n :: history[..n][j] != Mutated;
          assert forall j | k < j < |history| && j < n :: history[j] == history[..n][j];
          assert history[k] == Completed(h);
        }
      }
    }
  }

  /** Every stamp is certified. */
  predicate StampsCertified(s: State) {
    forall i | 0 <= i < |s.stamps| && s.stamps[i] != "" :: Certified(s.history, s.stamps[i])
  }

  /** The gate of the fast path: some store, and the same stamp in all of them. */
  function Gate(stamps: seq<Head>): Head {
    if stamps != [] && forall i | 0 <= i < |stamps| :: stamps[i] == stamps[0] then stamps[0] else ""
  }

  /** What one writer knows at each point. */
  predicate PhaseInv(s: State, p: Phase) {
    match p
    case ClearingLocked(_, k) => forall i | 0 <= i < k && i < |s.stamps| :: s.stamps[i] == ""
    case Mutating(_) => forall i | 0 <= i < |s.stamps| :: s.stamps[i] == ""
    case Refreshed(h) => Certified(s.history, h)
    case Stamping(h, _) => Certified(s.history, h)
    case _ => true
  }

  predicate Inv(s: State) { |s.writers| <= 1 && StampsCertified(s) && forall p | p in s.writers :: PhaseInv(s, p) }

  lemma CertifiedStays(history: seq<Event>, h: Head, e: Event)
    requires Certified(history, h) && e != Mutated
    ensures Certified(history + [e], h)
  {
    assert (history + [e])[..|history|] == history;
  }

  lemma {:induction false} NoStampsAreEmpty(n: nat)
    ensures |NoStamps(n)| == n && forall i | 0 <= i < n :: NoStamps(n)[i] == ""
  {
    if n > 0 { NoStampsAreEmpty(n - 1); }
  }

  lemma StepKeepsInv(s: State, a: Action)
    requires Inv(s) && Enabled(s, a)
    ensures Inv(Step(s, a))
  {
    hide Certified;
    var t := Step(s, a);
    forall h, e: Event | Certified(s.history, h) && e != Mutated ensures Certified(s.history + [e], h) {
      CertifiedStays(s.history, h, e);
    }
    forall h ensures Certified(s.history + [Completed(h)], h) { JustCompleted(s.history, h); }
    if a.Mutate? { NoStampsAreEmpty(a.newStores); }
    if a.MoveHead? {
      assert t.writers == s.writers;
    } else {
      assert s.writers == [s.writers[0]] && t.writers == [t.writers[0]];
      assert s.writers[0] in s.writers && PhaseInv(s, s.writers[0]);
      assert PhaseInv(t, t.writers[0]);
    }
  }

  lemma JustCompleted(history: seq<Event>, h: Head)
    ensures Certified(history + [Completed(h)], h)
  {
  }

  lemma {:induction false} RunKeepsInv(s: State, actions: seq<Action>, t: State)
    requires Inv(s) && Run(s, actions, t)
    ensures Inv(t)
    decreases |actions|
  {
    if actions != [] {
      StepKeepsInv(s, actions[0]);
      RunKeepsInv(Step(s, actions[0]), actions[1..], t);
    }
  }

  /** With one writer, at every moment of every run, crashes included: a stamp that passes the gate
      is the revision of a completed refresh since which the graph was not written. */
  lemma GateIsCertified(s: State, actions: seq<Action>, t: State)
    requires Init(s) && |s.writers| <= 1 && Run(s, actions, t) && Gate(t.stamps) != ""
    ensures Certified(t.history, Gate(t.stamps))
    ensures forall i | 0 <= i < |t.stamps| :: t.stamps[i] == Gate(t.stamps)
  {
    hide Certified;
    assert forall p | p in s.writers :: p == Idle;
    RunKeepsInv(s, actions, t);
  }

  /** While the graph is being written no store carries a stamp, so the gate is shut. */
  lemma GateShutWhileMutating(s: State, actions: seq<Action>, t: State)
    requires Init(s) && |s.writers| <= 1 && Run(s, actions, t)
    requires |t.writers| == 1 && t.writers[0].Mutating?
    ensures Gate(t.stamps) == ""
  {
    hide Certified;
    assert forall p | p in s.writers :: p == Idle;
    RunKeepsInv(s, actions, t);
    assert t.writers[0] in t.writers;
  }

  /** The stores after the first `k` of them were stamped. */
  function Stamped(before: seq<Head>, h: Head, k: nat): seq<Head> {
    seq(|before|, i requires 0 <= i < |before| => if i < k then h else before[i])
  }

  /** A stamp that was written to some stores only passes exactly when the other stores already
      carried it; over cleared stores it does not pass before it is complete. */
  lemma PartialStampIsRejected(before: seq<Head>, h: Head, k: nat)
    requires 0 < k <= |before| && h != ""
    ensures Gate(Stamped(before, h, k)) in {"", h}
    ensures Gate(Stamped(before, h, k)) == h <==> forall i | k <= i < |before| :: before[i] == h
    ensures (forall i | 0 <= i < |before| :: before[i] == "") ==> (Gate(Stamped(before, h, k)) == h <==> k == |before|)
  {
    var after := Stamped(before, h, k);
    assert after[0] == h;
    assert k < |before| ==> after[k] == before[k];
    if i :| k <= i < |before| && before[i] != h { assert after[i] != after[0]; }
  }

  // ---------------------------------------------------------------- two writers

  /** The gate can be trusted in every run of `n` writers. */
  ghost predicate SafeFor(n: nat) {
    forall s: State, actions, t | Init(s) && |s.writers| == n && Run(s, actions, t) && Gate(t.stamps) != "" ::
      Certified(t.history, Gate(t.stamps))
  }

  /** A state at revision "h" with one store, two writers at work and the rest idle. */
  function Two(stamp: Head, holder: int, p: Phase, q: Phase, history: seq<Event>, n: nat): State
    requires 2 <= n
  {
    State([stamp], "h", holder, [p, q] + seq(n - 2, _ => Idle), history)
  }

  lemma SetFirst(p: Phase, q: Phase, rest: seq<Phase>, r: Phase)
    ensures ([p, q] + rest)[0 := r] == [r, q] + rest
  {
  }

  lemma SetSecond(p: Phase, q: Phase, rest: seq<Phase>, r: Phase)
    ensures ([p, q] + rest)[1 := r] == [p, r] + rest
  {
  }

  lemma Prepend(s: State, a: Action, actions: seq<Action>, t: State)
    requires Enabled(s, a) && Run(Step(s, a), actions, t)
    ensures Run(s, [a] + actions, t)
  {
    hide Step, Enabled;
    assert ([a] + actions)[1..] == actions;
  }

  /** The first writer finds nothing to do and is about to stamp. */
  lemma FirstGoes(n: nat, actions: seq<Action>, t: State)
    requires 2 <= n && Run(Two("", NOBODY, Stamping("h", 0), Idle, [Completed("h")], n), actions, t)
    ensures Run(Two("", NOBODY, Idle, Idle, [], n), [Observe(0)] + ([FindNothing(0)] + ([StartStamping(0)] + actions)), t)
  {
    hide Run;
    var rest := seq(n - 2, _ => Idle);
    SetFirst(Idle, Idle, rest, Observed("h"));
    SetFirst(Observed("h"), Idle, rest, Refreshed("h"));
    SetFirst(Refreshed("h"), Idle, rest, Stamping("h", 0));
    assert [] + [Completed("h")] == [Completed("h")];
    Prepend(Two("", NOBODY, Refreshed("h"), Idle, [Completed("h")], n), StartStamping(0), actions, t);
    Prepend(Two("", NOBODY, Observed("h"), Idle, [], n), FindNothing(0), [StartStamping(0)] + actions, t);
    Prepend(Two("", NOBODY, Idle, Idle, [], n), Observe(0), [FindNothing(0)] + ([StartStamping(0)] + actions), t);
  }

  /** The second takes the lock, clears the stamp and starts to write. */
  lemma SecondGoes(n: nat, history: seq<Event>, actions: seq<Action>, t: State)
    requires 2 <= n && Run(Two("", 1, Stamping("h", 0), Mutating(Unasked), history + [Mutated], n), actions, t)
    ensures Run(Two("", NOBODY, Stamping("h", 0), Idle, history, n),
                [TakeLock(1)] + ([ClearOne(1)] + ([Mutate(1, 0)] + actions)), t)
  {
    hide Run;
    var rest := seq(n - 2, _ => Idle);
    var p := Stamping("h", 0);
    SetSecond(p, Idle, rest, ClearingLocked(Unasked, 0));
    SetSecond(p, ClearingLocked(Unasked, 0), rest, ClearingLocked(Unasked, 1));
    SetSecond(p, ClearingLocked(Unasked, 1), rest, Mutating(Unasked));
    assert [""][0 := ""] == [""] && [""] + NoStamps(0) == [""];
    Prepend(Two("", 1, p, ClearingLocked(Unasked, 1), history, n), Mutate(1, 0), actions, t);
    Prepend(Two("", 1, p, ClearingLocked(Unasked, 0), history, n), ClearOne(1), [Mutate(1, 0)] + actions, t);
    Prepend(Two("", NOBODY, p, Idle, history, n), TakeLock(1), [ClearOne(1)] + ([Mutate(1, 0)] + actions), t);
  }

  /** Only then does the first write its stamp. */
  lemma TwoWritersBreakTheGate(n: nat) returns (s: State, actions: seq<Action>, t: State)
    requires 2 <= n
    ensures Init(s) && |s.writers| == n && Run(s, actions, t)
    ensures Gate(t.stamps) == "h" && !Certified(t.history, "h")
  {
    var history := [Completed("h")] + [Mutated];
    var last := Two("", 1, Stamping("h", 0), Mutating(Unasked), history, n);
    t := Two("h", 1, Stamping("h", 1), Mutating(Unasked), history, n);
    s := Two("", NOBODY, Idle, Idle, [], n);
    SetFirst(Stamping("h", 0), Mutating(Unasked), seq(n - 2, _ => Idle), Stamping("h", 1));
    assert [""][0 := "h"] == ["h"];
    assert Step(last, StampOne(0)) == t;
    assert Run(t, [], t);
    Prepend(last, StampOne(0), [], t);
    SecondGoes(n, [Completed("h")], [StampOne(0)] + [], t);
    var more := [TakeLock(1)] + ([ClearOne(1)] + ([Mutate(1, 0)] + ([StampOne(0)] + [])));
    FirstGoes(n, more, t);
    actions := [Observe(0)] + ([FindNothing(0)] + ([StartStamping(0)] + more));
  }

  /** One writer process is exactly what the gate needs. */
  lemma SafeIffOneWriter(n: nat)
    ensures SafeFor(n) <==> n <= 1
  {
    hide Certified;
    if n <= 1 {
      forall s: State, actions, t | Init(s) && |s.writers| == n && Run(s, actions, t) && Gate(t.stamps) != ""
        ensures Certified(t.history, Gate(t.stamps))
      {
        GateIsCertified(s, actions, t);
      }
    } else {
      var s, actions, t := TwoWritersBreakTheGate(n);
      assert Gate(t.stamps) != "" && !Certified(t.history, Gate(t.stamps));
    }
  }

  // ---------------------------------------------------------------- the writes themselves

  /** The metadata of all stores, in the order in which they are visited. */
  class Stores {
    var stamps: seq<Head>

    /** Store by store; a failed write leaves a prefix written, which the steps above cover. */
    method MarkGitHead(head: Head, failAt: nat) returns (ok: bool)
      modifies this
      ensures ok <==> |stamps| <= failAt
      ensures stamps == Stamped(old(stamps), head, failAt)
    {
      for i := 0 to |stamps|
        invariant |stamps| == |old(stamps)| && i <= failAt
        invariant forall j | 0 <= j < |stamps| :: stamps[j] == if j < i then head else old(stamps)[j]
      {
        if i == failAt { return false; }
        stamps := stamps[i := head];
      }
      return true;
    }

    /** The stamp that the fast path may trust, if any. */
    method IndexedHead() returns (head: Head)
      ensures head == Gate(stamps)
    {
      if |stamps| == 0 || stamps[0] == "" { return ""; }
      for i := 1 to |stamps|
        invariant forall j | 0 <= j < i :: stamps[j] == stamps[0]
      {
        if stamps[i] != stamps[0] { return ""; }
      }
      return stamps[0];
    }

    /** Stamps are written only while HEAD is what the refresh observed. */
    method MarkGitHeadIfCurrent(observed: Head, current: Head, failAt: nat) returns (ok: bool)
      modifies this
      ensures ok ==> current == observed && forall i | 0 <= i < |stamps| :: stamps[i] == observed
      ensures current != observed ==> !ok && stamps == old(stamps)
    {
      if current != observed { return false; }
      ok := MarkGitHead(observed, failAt);
    }
  }
}
