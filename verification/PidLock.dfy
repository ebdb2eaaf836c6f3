/** The cross-process PID-file lock (lock/lock.go).

    Any number of processes take small steps on one lock file while an abstract clock moves
    forward and processes crash and are restarted.  Looking at the lock file and unlinking it are
    separate steps.  A run is `Timely` when each unlink still finds the situation its check saw;
    timely runs are safe, and concrete runs show what each untimely unlink costs. */
module PidLock {

  type Pid = nat

  /** Milliseconds after which a lock file is stale whoever wrote it. */
  const STALE_TIMEOUT: nat := 120_000

  datatype Content = Empty | Written(pid: Pid)

  /** `creator` and `inode` identify the file created by one successful exclusive create. */
  datatype LockFile = LockFile(content: Content, mtime: nat, inode: nat, creator: Pid)

  datatype Disk = Absent | Present(file: LockFile)

  // ---------------------------------------------------------------- decisions on the lock file

  /** Old, or naming a valid PID whose process is dead.  A young file without a readable PID is
      not stale: its creator may be between create and write. */
  predicate Stale(f: LockFile, now: int, alive: set<Pid>) {
    now - f.mtime >= STALE_TIMEOUT || (f.content.Written? && f.content.pid !in alive)
  }

  predicate OwnFile(disk: Disk, pid: Pid) {
    disk.Present? && disk.file.content == Written(pid)
  }

  // ---------------------------------------------------------------- the protocol

  /** `Created` and `Owning` remember the process's file and when it last touched it on disk;
      `Judged` and `Leaving` are about to unlink after a stale check and after a PID check. */
  datatype Phase =
    | Idle
    | Judged
    | Cleared
    | Created(inode: nat, touched: nat)
    | Owning(inode: nat, touched: nat)
    | Leaving

  predicate HasFile(phase: Phase) { phase.Created? || phase.Owning? }

  datatype State = State(now: nat, disk: Disk, alive: set<Pid>, phase: map<Pid, Phase>, nextInode: nat)

  datatype Action =
    | Tick(ms: nat)
    | Inspect(p: Pid)
    | Reclaim(p: Pid)
    | Create(p: Pid)
    | WritePid(p: Pid)
    | WriteFails(p: Pid)
    | BeginRelease(p: Pid)
    | EndRelease(p: Pid)
    | Crash(p: Pid)
    | Spawn(p: Pid)

  function PhaseOf(s: State, p: Pid): Phase {
    if p in s.phase then s.phase[p] else Idle
  }

  predicate Enabled(s: State, a: Action) {
    match a
    case Tick(_) => true
    case Inspect(p) => p in s.alive && PhaseOf(s, p).Idle?
    case Reclaim(p) => p in s.alive && PhaseOf(s, p).Judged?
    case Create(p) => p in s.alive && PhaseOf(s, p).Cleared?
    case WritePid(p) => p in s.alive && PhaseOf(s, p).Created?
    case WriteFails(p) => p in s.alive && PhaseOf(s, p).Created?
    case BeginRelease(p) => p in s.alive && PhaseOf(s, p).Owning?
    case EndRelease(p) => p in s.alive && PhaseOf(s, p).Leaving?
    case Crash(p) => p in s.alive
    case Spawn(p) => p !in s.alive
  }

  function To(s: State, p: Pid, phase: Phase): State { s.(phase := s.phase[p := phase]) }

  /** The effect of a step.  Every unlink removes whatever is on the path; a PID written through
      a handle whose file was meanwhile unlinked changes nothing on the path. */
  function Step(s: State, a: Action): State
    requires Enabled(s, a)
  {
    match a
    case Tick(ms) => s.(now := s.now + ms)
    case Inspect(p) =>
      To(s, p, if s.disk.Absent? then Cleared
               else if Stale(s.disk.file, s.now, s.alive) then Judged else Idle)
    case Reclaim(p) => To(s.(disk := Absent), p, Cleared)
    case Create(p) =>
      if s.disk.Present? then To(s, p, Idle)
      else To(s.(disk := Present(LockFile(Empty, s.now, s.nextInode, p)), nextInode := s.nextInode + 1),
              p, Created(s.nextInode, s.now))
    case WritePid(p) =>
      var c := PhaseOf(s, p);
      if s.disk.Present? && s.disk.file.inode == c.inode
      then To(s.(disk := Present(s.disk.file.(content := Written(p), mtime := s.now))), p, Owning(c.inode, s.now))
      else To(s, p, Owning(c.inode, c.touched))
    case WriteFails(p) => To(s.(disk := Absent), p, Idle)
    case BeginRelease(p) => To(s, p, if OwnFile(s.disk, p) then Leaving else Idle)
    case EndRelease(p) => To(s.(disk := Absent), p, Idle)
    case Crash(p) => s.(alive := s.alive - {p})
    case Spawn(p) => To(s.(alive := s.alive + {p}), p, Idle)
  }

  /** A live process between its exclusive create and its release, whose lock file was last
      touched less than the timeout ago. */
  predicate Fresh(s: State, p: Pid) {
    p in s.alive && HasFile(PhaseOf(s, p)) && s.now - PhaseOf(s, p).touched < STALE_TIMEOUT
  }

  /** Each unlink still finds what its check saw: a stale file, the process's own PID, or, for
      the clean-up after a failed write, a file too young to have been taken over. */
  predicate Timely(s: State, a: Action) {
    && (a.Reclaim? && s.disk.Present? ==> Stale(s.disk.file, s.now, s.alive))
    && (a.EndRelease? && s.disk.Present? ==> OwnFile(s.disk, a.p))
    && (a.WriteFails? ==> Fresh(s, a.p))
  }

  ghost predicate MutualExclusion(s: State) {
    forall p, q | Fresh(s, p) && Fresh(s, q) :: p == q
  }

  // ---------------------------------------------------------------- the invariant

  /** The file on the path is the one `p` created, with the time `p` last touched it, and it is
      empty until `p` has written. */
  predicate Linked(s: State, p: Pid)
    requires HasFile(PhaseOf(s, p))
  {
    && s.disk.Present?
    && s.disk.file.creator == p
    && s.disk.file.inode == PhaseOf(s, p).inode
    && s.disk.file.mtime == PhaseOf(s, p).touched
    && (PhaseOf(s, p).Created? ==> s.disk.file.content == Empty)
  }

  /** Bookkeeping: inodes are handed out in order, and a file knows its creator. */
  ghost predicate Sound(s: State) {
    && (s.disk.Present? ==>
          && s.disk.file.inode < s.nextInode
          && (s.disk.file.content.Written? ==> s.disk.file.content.pid == s.disk.file.creator))
    && (forall p | HasFile(PhaseOf(s, p)) ::
          && PhaseOf(s, p).inode < s.nextInode
          && (s.disk.Present? && s.disk.file.inode == PhaseOf(s, p).inode ==> s.disk.file.creator == p))
  }

  ghost predicate Inv(s: State) {
    Sound(s) && forall p | Fresh(s, p) :: Linked(s, p)
  }

  predicate Init(s: State) { s.disk.Absent? && s.phase == map[] }

  lemma ExclusionFollows(s: State)
    requires Inv(s)
    ensures MutualExclusion(s)
  {
    forall p, q | Fresh(s, p) && Fresh(s, q) ensures p == q {
      assert Linked(s, p) && Linked(s, q);
    }
  }

  lemma StepKeepsSound(s: State, a: Action)
    requires Sound(s) && Enabled(s, a)
    ensures Sound(Step(s, a))
  {
    var t := Step(s, a);
    forall p | HasFile(PhaseOf(t, p))
      ensures PhaseOf(t, p).inode < t.nextInode
      ensures t.disk.Present? && t.disk.file.inode == PhaseOf(t, p).inode ==> t.disk.file.creator == p
    {
      assert HasFile(PhaseOf(s, p)) || a == Create(p);
    }
  }

  /** The only steps that can disturb a fresh lock are unlinks, and timely ones do not. */
  lemma StepKeepsLinked(s: State, a: Action, p: Pid)
    requires Inv(s) && Enabled(s, a) && Timely(s, a) && Fresh(Step(s, a), p)
    ensures Linked(Step(s, a), p)
  {
    assert Fresh(s, p) ==> Linked(s, p);
    ExclusionFollows(s);
    assert Fresh(s, p) || a == Create(p) || a == WritePid(p);
  }

  /** Every timely step of any process, and every crash, restart and clock tick, keeps the
      invariant. */
  lemma StepKeepsInv(s: State, a: Action)
    requires Inv(s) && Enabled(s, a) && Timely(s, a)
    ensures Inv(Step(s, a))
  {
    StepKeepsSound(s, a);
    forall p | Fresh(Step(s, a), p) ensures Linked(Step(s, a), p) {
      StepKeepsLinked(s, a, p);
    }
  }

  // ---------------------------------------------------------------- whole runs

  /** `t` is the state after carrying out `actions` in order. */
  predicate Run(s: State, actions: seq<Action>, t: State)
    decreases |actions|
  {
    if actions == [] then s == t
    else Enabled(s, actions[0]) && Run(Step(s, actions[0]), actions[1..], t)
  }

  predicate TimelyRun(s: State, actions: seq<Action>, t: State)
    decreases |actions|
  {
    if actions == [] then s == t
    else Enabled(s, actions[0]) && Timely(s, actions[0]) && TimelyRun(Step(s, actions[0]), actions[1..], t)
  }

  lemma {:induction false} RunKeepsInv(s: State, actions: seq<Action>, t: State)
    requires Inv(s) && TimelyRun(s, actions, t)
    ensures Inv(t)
    decreases |actions|
  {
    if actions != [] {
      StepKeepsInv(s, actions[0]);
      RunKeepsInv(Step(s, actions[0]), actions[1..], t);
    }
  }

  /** For any set of processes and any interleaving: at most one live process is in the
      created-or-held state with a lock file younger than the timeout. */
  lemma AtMostOneHolder(s: State, actions: seq<Action>, t: State)
    requires Init(s) && TimelyRun(s, actions, t)
    ensures MutualExclusion(t)
  {
    RunKeepsInv(s, actions, t);
    ExclusionFollows(t);
  }

  /** A release that begins while another process has a fresh lock ends at its PID check, and one
      that has passed its check before then has come too late to unlink in time. */
  lemma LateReleaseIsHarmless(s: State, actions: seq<Action>, t: State, p: Pid, q: Pid)
    requires Init(s) && TimelyRun(s, actions, t) && p != q && Fresh(t, q)
    ensures Enabled(t, BeginRelease(p)) ==> PhaseOf(Step(t, BeginRelease(p)), p).Idle?
    ensures Enabled(t, EndRelease(p)) ==> !Timely(t, EndRelease(p))
  {
    RunKeepsInv(s, actions, t);
    assert Linked(t, q);
  }

  /** Between create and write the file is empty, and no other process reclaims it while young. */
  lemma EmptyYoungFileSurvives(s: State, actions: seq<Action>, t: State, p: Pid, q: Pid)
    requires Init(s) && TimelyRun(s, actions, t) && Fresh(t, p) && PhaseOf(t, p).Created? && p != q
    ensures t.disk.Present? && t.disk.file.content == Empty
    ensures Enabled(t, Inspect(q)) ==> PhaseOf(Step(t, Inspect(q)), q).Idle?
    ensures Enabled(t, Reclaim(q)) ==> !Timely(t, Reclaim(q))
  {
    RunKeepsInv(s, actions, t);
    assert Linked(t, p);
  }

  /** A lock whose written owner is dead, or that is old, can be taken over at once. */
  lemma AbandonedLockIsReclaimed(s: State, q: Pid)
    requires Enabled(s, Inspect(q)) && s.disk.Present?
    requires s.now - s.disk.file.mtime >= STALE_TIMEOUT ||
             (s.disk.file.content.Written? && s.disk.file.content.pid !in s.alive)
    ensures exists t :: TimelyRun(s, [Inspect(q), Reclaim(q), Create(q)], t) && Fresh(t, q)
  {
    var s1 := Step(s, Inspect(q));
    var s2 := Step(s1, Reclaim(q));
    var t := Step(s2, Create(q));
    RunOfThree(s, Inspect(q), Reclaim(q), Create(q));
    assert Fresh(t, q);
  }

  lemma RunOfThree(s: State, a: Action, b: Action, c: Action)
    requires Enabled(s, a) && Timely(s, a)
    requires Enabled(Step(s, a), b) && Timely(Step(s, a), b)
    requires Enabled(Step(Step(s, a), b), c) && Timely(Step(Step(s, a), b), c)
    ensures TimelyRun(s, [a, b, c], Step(Step(Step(s, a), b), c))
  {
    var s1 := Step(s, a);
    var s2 := Step(s1, b);
    var t := Step(s2, c);
    assert TimelyRun(t, [c][1..], t);
    assert TimelyRun(s2, [c], t);
    assert [b, c][1..] == [c];
    assert TimelyRun(s1, [b, c], t);
    assert [a, b, c][1..] == [b, c];
  }

  // ---------------------------------------------------------------- what an untimely unlink costs

  /** Unlinking whatever is on the path keeps the invariant exactly when no process other than
      the one doing it has a fresh lock. */
  lemma BareUnlinkSafeIff(s: State, p: Pid)
    requires Inv(s)
    ensures Inv(To(s.(disk := Absent), p, Idle)) <==> forall q | Fresh(s, q) :: q == p
  {
    var t := To(s.(disk := Absent), p, Idle);
    assert forall q | q != p :: Fresh(t, q) == Fresh(s, q) && PhaseOf(t, q) == PhaseOf(s, q);
    if q :| Fresh(s, q) && q != p {
      assert Fresh(t, q) && !Linked(t, q);
    }
  }

  /** A process whose write fails unlinks the lock of one that took its stale file over, and a third
      gets in. */
  lemma LateCleanupLetsIn(s: State, p: Pid, q: Pid, r: Pid) returns (t: State)
    requires p != q && q != r && p != r && {p, q, r} <= s.alive
    requires PhaseOf(s, p).Created? && PhaseOf(s, q).Idle? && PhaseOf(s, r).Idle?
    requires s.disk.Present? && Stale(s.disk.file, s.now, s.alive)
    ensures Run(s, [Inspect(q), Reclaim(q), Create(q)] + ([WriteFails(p), Inspect(r), Create(r)] + []), t)
    ensures !MutualExclusion(t)
  {
    var s1 := Step(Step(Step(s, Inspect(q)), Reclaim(q)), Create(q));
    t := Step(Step(Step(s1, WriteFails(p)), Inspect(r)), Create(r));
    assert Fresh(t, q) && Fresh(t, r);
    Prepend(s1, WriteFails(p), Inspect(r), Create(r), [], t);
    Prepend(s, Inspect(q), Reclaim(q), Create(q), [WriteFails(p), Inspect(r), Create(r)] + [], t);
  }

  /** Late clean-up: process 1 creates and stalls, process 2 takes the stale file over, process
      1's write then fails and its clean-up unlinks process 2's lock, and process 3 gets in. */
  lemma LateCleanupBreaksExclusion() returns (s: State, actions: seq<Action>, t: State)
    ensures Init(s) && Run(s, actions, t) && !MutualExclusion(t)
    ensures forall a | a in actions :: !a.Crash? && !a.EndRelease?
  {
    s := State(0, Absent, {1, 2, 3}, map[], 0);
    var s1 := Step(Step(Step(s, Inspect(1)), Create(1)), Tick(STALE_TIMEOUT));
    t := LateCleanupLetsIn(s1, 1, 2, 3);
    actions := [Inspect(2), Reclaim(2), Create(2)] + ([WriteFails(1), Inspect(3), Create(3)] + []);
    Prepend(s, Inspect(1), Create(1), Tick(STALE_TIMEOUT), actions, t);
    actions := [Inspect(1), Create(1), Tick(STALE_TIMEOUT)] + actions;
  }

  /** A process past its PID check unlinks the lock of one that took the file over, and a third gets in. */
  lemma LateUnlinkLetsIn(s: State, p: Pid, q: Pid, r: Pid) returns (t: State)
    requires p != q && q != r && p != r && {p, q, r} <= s.alive
    requires PhaseOf(s, p).Leaving? && PhaseOf(s, q).Judged? && PhaseOf(s, r).Idle?
    ensures Run(s, [Reclaim(q), Create(q), EndRelease(p)] + ([Inspect(r), Create(r), WritePid(r)] + []), t)
    ensures !MutualExclusion(t)
  {
    var s1 := Step(Step(Step(s, Reclaim(q)), Create(q)), EndRelease(p));
    t := Step(Step(Step(s1, Inspect(r)), Create(r)), WritePid(r));
    assert Fresh(t, q) && Fresh(t, r);
    Prepend(s1, Inspect(r), Create(r), WritePid(r), [], t);
    Prepend(s, Reclaim(q), Create(q), EndRelease(p), [Inspect(r), Create(r), WritePid(r)] + [], t);
  }

  /** Late release: process 1 passes its PID check and stalls until process 2 finds the file old. */
  lemma LateUnlinkBreaksExclusion() returns (s: State, actions: seq<Action>, t: State)
    ensures Init(s) && Run(s, actions, t) && !MutualExclusion(t)
    ensures forall a | a in actions :: !a.Crash? && !a.WriteFails?
  {
    s := State(0, Absent, {1, 2, 3}, map[], 0);
    var s1 := Step(Step(Step(s, Inspect(1)), Create(1)), WritePid(1));
    var s2 := Step(Step(Step(s1, BeginRelease(1)), Tick(STALE_TIMEOUT)), Inspect(2));
    t := LateUnlinkLetsIn(s2, 1, 2, 3);
    actions := [Reclaim(2), Create(2), EndRelease(1)] + ([Inspect(3), Create(3), WritePid(3)] + []);
    Prepend(s1, BeginRelease(1), Tick(STALE_TIMEOUT), Inspect(2), actions, t);
    actions := [BeginRelease(1), Tick(STALE_TIMEOUT), Inspect(2)] + actions;
    Prepend(s, Inspect(1), Create(1), WritePid(1), actions, t);
    actions := [Inspect(1), Create(1), WritePid(1)] + actions;
  }

  /** Two processes that have both judged the file stale both get in, one after the other. */
  lemma BothJudgesEnter(s: State, p: Pid, q: Pid) returns (t: State)
    requires p != q && {p, q} <= s.alive && PhaseOf(s, p).Judged? && PhaseOf(s, q).Judged?
    ensures Run(s, [Reclaim(p), Create(p), Reclaim(q)] + [Create(q)], t) && !MutualExclusion(t)
  {
    var s1 := Step(s, Reclaim(p));
    var s2 := Step(s1, Create(p));
    var s3 := Step(s2, Reclaim(q));
    t := Step(s3, Create(q));
    assert Fresh(t, p) && Fresh(t, q);
    assert [Create(q)][1..] == [] && Run(s3, [Create(q)], t);
    Prepend(s, Reclaim(p), Create(p), Reclaim(q), [Create(q)], t);
  }

  /** Check and unlink apart: processes 2 and 3 both judge a dead owner's file stale; 2 unlinks
      and creates, then 3's remembered unlink removes 2's lock and 3 creates as well. */
  lemma SplitCheckBreaksExclusion() returns (s: State, actions: seq<Action>, t: State)
    ensures Init(s) && Run(s, actions, t) && !MutualExclusion(t)
    ensures forall a | a in actions :: !a.WriteFails? && !a.EndRelease?
  {
    s := State(0, Absent, {1, 2, 3}, map[], 0);
    var s1 := Step(Step(Step(s, Inspect(1)), Create(1)), WritePid(1));
    var s2 := Step(Step(Step(s1, Crash(1)), Inspect(2)), Inspect(3));
    t := BothJudgesEnter(s2, 2, 3);
    actions := [Reclaim(2), Create(2), Reclaim(3)] + [Create(3)];
    Prepend(s1, Crash(1), Inspect(2), Inspect(3), actions, t);
    actions := [Crash(1), Inspect(2), Inspect(3)] + actions;
    Prepend(s, Inspect(1), Create(1), WritePid(1), actions, t);
    actions := [Inspect(1), Create(1), WritePid(1)] + actions;
  }

  lemma Prepend(s: State, a: Action, b: Action, c: Action, rest: seq<Action>, t: State)
    requires Enabled(s, a) && Enabled(Step(s, a), b) && Enabled(Step(Step(s, a), b), c)
    requires Run(Step(Step(Step(s, a), b), c), rest, t)
    ensures Run(s, [a, b, c] + rest, t)
  {
    var s1 := Step(s, a);
    var s2 := Step(s1, b);
    assert ([c] + rest)[1..] == rest;
    assert Run(s2, [c] + rest, t);
    assert ([b, c] + rest)[1..] == [c] + rest;
    assert Run(s1, [b, c] + rest, t);
    assert ([a, b, c] + rest)[1..] == [b, c] + rest;
  }

  // ---------------------------------------------------------------- the lock object

  /** The file system, the clock and the process table that lock objects share. */
  class World {
    var disk: Disk
    var now: nat
    var alive: set<Pid>
    var nextInode: nat

    constructor () { disk, now, alive, nextInode := Absent, 0, {}, 0; }
  }

  class FileLock {
    const pid: Pid
    const world: World
    var held: bool

    constructor (pid: Pid, world: World)
      ensures this.pid == pid && this.world == world && !held
    {
      this.pid, this.world, held := pid, world, false;
    }

    /** Uninterrupted, `Acquire` is the composition of the protocol's inspect, create and write
        steps: it succeeds exactly when the path is free or stale. */
    method Acquire() returns (ok: bool)
      modifies this, world
      ensures ok <==> (old(world.disk).Present? ==> Stale(old(world.disk).file, world.now, world.alive))
      ensures ok ==> held && world.disk == Present(LockFile(Written(pid), world.now, old(world.nextInode), pid))
      ensures !ok ==> held == old(held) && world.disk == old(world.disk)
      ensures world.now == old(world.now) && world.alive == old(world.alive)
    {
      if world.disk.Present? {
        ok := HandleExistingLock();
        if !ok { return; }
      }
      ok := true;
      world.disk := Present(LockFile(Empty, world.now, world.nextInode, pid));
      world.nextInode := world.nextInode + 1;
      world.disk := Present(world.disk.file.(content := Written(pid)));
      held := true;
    }

    /** True, with the file removed, when the lock file was stale. */
    method HandleExistingLock() returns (reclaimed: bool)
      requires world.disk.Present?
      modifies world
      ensures reclaimed == Stale(old(world.disk.file), world.now, world.alive)
      ensures world.disk == if reclaimed then Absent else old(world.disk)
      ensures world.now == old(world.now) && world.alive == old(world.alive) && world.nextInode == old(world.nextInode)
    {
      var f := world.disk.file;
      var lockAge := world.now - f.mtime;
      reclaimed := lockAge >= STALE_TIMEOUT || (f.content.Written? && f.content.pid !in world.alive);
      if reclaimed { world.disk := Absent; }
    }

    /** A no-op unless held; unlinks the file only if it carries this process's PID. */
    method Release()
      modifies this, world`disk
      ensures !held
      ensures world.disk == if old(held) && OwnFile(old(world.disk), pid) then Absent else old(world.disk)
    {
      if !held { return; }
      held := false;
      if world.disk.Absent? { return; }
      if world.disk.file.content != Written(pid) { return; }
      world.disk := Absent;
    }
  }
}
