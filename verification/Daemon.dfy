/** The start/stop protocol of the single-user background daemon (daemon/manager.go,
    daemon/service.go).

    Managers (command invocations) serialise starts and stops with the start lock, daemons own
    the lifetime lock, and all of them share one state record that carries the nonce of the
    generation it belongs to.  Every read, write, lock operation and probe is a step of its own,
    and any process may die between two steps, except that a manager does not die while a child
    it launched lives and has not passed its ownership check.  Nonces are numbered in the order they are drawn. */
module Daemon {

  type Nonce = nat
  type ManagerId = nat

  datatype Lifecycle = Starting | Ready | Degraded | Stopping | Stopped | Failed

  datatype Record = NoState | Record(nonce: Nonce, life: Lifecycle)

  datatype LifetimeLock = Free | ByDaemon(nonce: Nonce) | ByProbe(manager: ManagerId)

  datatype StartLock = Unlocked | LockedBy(manager: ManagerId)

  /** What a manager was asked to do; `Restart` stops and then starts under one start lock. */
  datatype Request = Start | Stop | Restart

  datatype Manager =
    | Away
    | StatusProbing
    | Entered(req: Request)
    | HasRead(req: Request, seen: Record)
    | ReadyToProbe(req: Request, seen: Record)
    | Probing(req: Request, seen: Record)
    | Probed(req: Request, seen: Record, held: bool)
    | OwnerDead(req: Request, nonce: Nonce)
    | AwaitStop(req: Request, nonce: Nonce)
    | ConfirmingStop(req: Request, nonce: Nonce)
    | StopConfirmed(req: Request, nonce: Nonce)
    | MayStart
    | Recorded(nonce: Nonce)
    | LaunchFailed(nonce: Nonce)
    | Launched(nonce: Nonce)
    | Killed(nonce: Nonce)
    | Reaping(nonce: Nonce)

  /** A daemon process: launched, holding the lifetime lock, past its ownership check, gone. */
  datatype Daemon = Unborn | Spawned | Locked | Owner(life: Lifecycle) | Gone

  datatype State = State(
    disk: Record,
    start: StartLock,
    lifetime: LifetimeLock,
    managers: map<ManagerId, Manager>,
    daemons: map<Nonce, Daemon>,
    nextNonce: Nonce)

  function ManagerOf(s: State, m: ManagerId): Manager {
    if m in s.managers then s.managers[m] else Away
  }

  function DaemonOf(s: State, n: Nonce): Daemon {
    if n in s.daemons then s.daemons[n] else Unborn
  }

  predicate Live(d: Daemon) { d.Spawned? || d.Locked? || d.Owner? }

  predicate PastLock(d: Daemon) { d.Locked? || d.Owner? }

  predicate NothingRunning(seen: Record) { seen.NoState? || seen.life.Stopped? }

  // ---------------------------------------------------------------- steps

  datatype Action =
    | Enter(m: ManagerId, req: Request)
    | ReadState(m: ManagerId)
    | SkipControl(m: ManagerId)
    | ControlFails(m: ManagerId)
    | ControlAccepted(m: ManagerId)
    | TakeProbe(m: ManagerId)
    | DropProbe(m: ManagerId)
    | Conclude(m: ManagerId)
    | WriteStopped(m: ManagerId)
    | PollStopped(m: ManagerId)
    | SeeLockFree(m: ManagerId)
    | FinishStop(m: ManagerId)
    | GiveUpStop(m: ManagerId)
    | WriteInitial(m: ManagerId)
    | Launch(m: ManagerId)
    | LaunchError(m: ManagerId)
    | WriteFailure(m: ManagerId)
    | SeeReady(m: ManagerId)
    | Kill(m: ManagerId)
    | Reap(m: ManagerId)
    | ManagerDies(m: ManagerId)
    | StatusTake(m: ManagerId)
    | StatusDrop(m: ManagerId)
    | TakeLifetime(n: Nonce)
    | CheckOwnership(n: Nonce)
    | Persist(n: Nonce, life: Lifecycle)
    | LoseWrite(n: Nonce, life: Lifecycle)
    | DaemonDies(n: Nonce)

  /** How a running daemon's lifecycle moves; each move is written, or the write fails. */
  predicate MayBecome(old_: Lifecycle, new_: Lifecycle) {
    match old_
    case Starting => true
    case Ready => new_.Degraded? || new_.Ready? || new_.Stopping? || new_.Failed?
    case Degraded => new_.Degraded? || new_.Ready? || new_.Stopping? || new_.Failed?
    case Stopping => new_.Stopped? || new_.Failed?
    case Stopped => false
    case Failed => new_.Failed?
  }

  predicate SpawnWindow(p: Manager) { p.Launched? || p.Killed? || p.Reaping? }

  /** A child that has not passed its ownership check relies on the manager that launched it. */
  predicate ChildPending(s: State, p: Manager) {
    SpawnWindow(p) && Live(DaemonOf(s, p.nonce)) && !DaemonOf(s, p.nonce).Owner?
  }

  predicate Enabled(s: State, a: Action) {
    match a
    case Enter(m, _) => ManagerOf(s, m).Away? && s.start.Unlocked?
    case ReadState(m) => ManagerOf(s, m).Entered?
    case SkipControl(m) =>
      var p := ManagerOf(s, m);
      p.HasRead? && (p.req.Start? || NothingRunning(p.seen))
    case ControlFails(m) =>
      var p := ManagerOf(s, m);
      p.HasRead? && !p.req.Start? && !NothingRunning(p.seen)
    case ControlAccepted(m) =>
      var p := ManagerOf(s, m);
      p.HasRead? && !p.req.Start? && !NothingRunning(p.seen) && DaemonOf(s, p.seen.nonce).Owner?
    case TakeProbe(m) => ManagerOf(s, m).ReadyToProbe?
    case DropProbe(m) => ManagerOf(s, m).Probing?
    case Conclude(m) => ManagerOf(s, m).Probed?
    case WriteStopped(m) => ManagerOf(s, m).OwnerDead?
    case PollStopped(m) =>
      var p := ManagerOf(s, m);
      p.AwaitStop? && s.disk == Record(p.nonce, Stopped)
    case SeeLockFree(m) => ManagerOf(s, m).ConfirmingStop?
    case FinishStop(m) => ManagerOf(s, m).StopConfirmed?
    case GiveUpStop(m) => ManagerOf(s, m).AwaitStop?
    case WriteInitial(m) => ManagerOf(s, m).MayStart?
    case Launch(m) => ManagerOf(s, m).Recorded?
    case LaunchError(m) => ManagerOf(s, m).Recorded?
    case WriteFailure(m) => ManagerOf(s, m).LaunchFailed? || ManagerOf(s, m).Killed?
    case SeeReady(m) =>
      var p := ManagerOf(s, m);
      p.Launched? && DaemonOf(s, p.nonce) == Owner(Ready)
    case Kill(m) => ManagerOf(s, m).Launched?
    case Reap(m) =>
      var p := ManagerOf(s, m);
      p.Reaping? && DaemonOf(s, p.nonce).Gone?
    case ManagerDies(m) => !ChildPending(s, ManagerOf(s, m))
    case StatusTake(m) => ManagerOf(s, m).Away? && s.lifetime.Free?
    case StatusDrop(m) => ManagerOf(s, m).StatusProbing?
    case TakeLifetime(n) => DaemonOf(s, n).Spawned?
    case CheckOwnership(n) => DaemonOf(s, n).Locked?
    case Persist(n, life) => DaemonOf(s, n).Owner? && MayBecome(DaemonOf(s, n).life, life)
    case LoseWrite(n, life) => DaemonOf(s, n).Owner? && MayBecome(DaemonOf(s, n).life, life)
    case DaemonDies(n) => Live(DaemonOf(s, n))
  }

  function To(s: State, m: ManagerId, p: Manager): State { s.(managers := s.managers[m := p]) }

  function DaemonTo(s: State, n: Nonce, d: Daemon): State { s.(daemons := s.daemons[n := d]) }

  /** Returning from a command: the start lock and any probe are released by the process. */
  function Leave(s: State, m: ManagerId): State {
    To(s.(start := if s.start == LockedBy(m) then Unlocked else s.start,
          lifetime := if s.lifetime == ByProbe(m) then Free else s.lifetime), m, Away)
  }

  /** A finished stop either returns or, in a restart, goes on to start under the same lock. */
  function AfterStop(s: State, m: ManagerId, req: Request): State {
    if req.Restart? then To(s, m, Entered(Start)) else Leave(s, m)
  }

  function Step(s: State, a: Action): State
    requires Enabled(s, a)
  {
    match a
    case Enter(m, req) => To(s.(start := LockedBy(m)), m, Entered(req))
    case ReadState(m) => To(s, m, HasRead(ManagerOf(s, m).req, s.disk))
    case SkipControl(m) => To(s, m, ReadyToProbe(ManagerOf(s, m).req, ManagerOf(s, m).seen))
    case ControlFails(m) => To(s, m, ReadyToProbe(ManagerOf(s, m).req, ManagerOf(s, m).seen))
    case ControlAccepted(m) => To(s, m, AwaitStop(ManagerOf(s, m).req, ManagerOf(s, m).seen.nonce))
    case TakeProbe(m) =>
      var p := ManagerOf(s, m);
      if s.lifetime.Free? then To(s.(lifetime := ByProbe(m)), m, Probing(p.req, p.seen))
      else To(s, m, Probed(p.req, p.seen, true))
    case DropProbe(m) =>
      To(s.(lifetime := Free), m, Probed(ManagerOf(s, m).req, ManagerOf(s, m).seen, false))
    case Conclude(m) =>
      var p := ManagerOf(s, m);
      if p.held then Leave(s, m)
      else if p.req.Start? then To(s, m, MayStart)
      else if NothingRunning(p.seen) then AfterStop(s, m, p.req)
      else To(s, m, OwnerDead(p.req, p.seen.nonce))
    case WriteStopped(m) =>
      AfterStop(s.(disk := Record(ManagerOf(s, m).nonce, Stopped)), m, ManagerOf(s, m).req)
    case PollStopped(m) =>
      var p := ManagerOf(s, m);
      if s.lifetime.Free? then To(s.(lifetime := ByProbe(m)), m, ConfirmingStop(p.req, p.nonce)) else s
    case SeeLockFree(m) =>
      To(s.(lifetime := Free), m, StopConfirmed(ManagerOf(s, m).req, ManagerOf(s, m).nonce))
    case FinishStop(m) => AfterStop(s, m, ManagerOf(s, m).req)
    case GiveUpStop(m) => Leave(s, m)
    case WriteInitial(m) =>
      To(s.(disk := Record(s.nextNonce, Starting), nextNonce := s.nextNonce + 1), m, Recorded(s.nextNonce))
    case Launch(m) =>
      var n := ManagerOf(s, m).nonce;
      DaemonTo(To(s, m, Launched(n)), n, Spawned)
    case LaunchError(m) => To(s, m, LaunchFailed(ManagerOf(s, m).nonce))
    case WriteFailure(m) =>
      var p := ManagerOf(s, m);
      var t := if s.disk.Record? && s.disk.nonce == p.nonce then s.(disk := Record(p.nonce, Failed)) else s;
      if p.LaunchFailed? then Leave(t, m) else To(t, m, Reaping(p.nonce))
    case SeeReady(m) => Leave(s, m)
    case Kill(m) => To(s, m, Killed(ManagerOf(s, m).nonce))
    case Reap(m) => Leave(s, m)
    case ManagerDies(m) => Leave(s, m)
    case StatusTake(m) => To(s.(lifetime := ByProbe(m)), m, StatusProbing)
    case StatusDrop(m) => Leave(s, m)
    case TakeLifetime(n) =>
      if s.lifetime.Free? then DaemonTo(s.(lifetime := ByDaemon(n)), n, Locked) else DaemonTo(s, n, Gone)
    case CheckOwnership(n) =>
      if s.disk == Record(n, Starting) then DaemonTo(s, n, Owner(Starting))
      else DaemonTo(s.(lifetime := Free), n, Gone)
    case Persist(n, life) => DaemonTo(s.(disk := Record(n, life)), n, Owner(life))
    case LoseWrite(n, life) => DaemonTo(s, n, Owner(life))
    case DaemonDies(n) =>
      DaemonTo(s.(lifetime := if s.lifetime == ByDaemon(n) then Free else s.lifetime), n, Gone)
  }

  // ---------------------------------------------------------------- the invariant

  predicate NeedsStartLock(p: Manager) { !p.Away? && !p.StatusProbing? }

  predicate HoldsProbe(p: Manager) { p.StatusProbing? || p.Probing? || p.ConfirmingStop? }

  ghost predicate LocksConsistent(s: State) {
    && (forall m | NeedsStartLock(ManagerOf(s, m)) :: s.start == LockedBy(m))
    && (forall m | HoldsProbe(ManagerOf(s, m)) :: s.lifetime == ByProbe(m))
    && (forall n | PastLock(DaemonOf(s, n)) :: s.lifetime == ByDaemon(n))
  }

  /** A daemon that has not passed its check is in its manager's spawn window. */
  ghost predicate Supervised(s: State, n: Nonce) {
    exists m :: SpawnWindow(ManagerOf(s, m)) && ManagerOf(s, m).nonce == n
  }

  ghost predicate DaemonsConsistent(s: State) {
    && (forall n | Live(DaemonOf(s, n)) && !DaemonOf(s, n).Owner? :: Supervised(s, n))
    && (forall n | DaemonOf(s, n).Owner? :: s.disk.Record? && s.disk.nonce == n)
  }

  ghost predicate NobodyLives(s: State) { forall n :: !Live(DaemonOf(s, n)) }

  ghost predicate OnlyLives(s: State, n: Nonce) { forall k | Live(DaemonOf(s, k)) :: k == n }

  predicate SameGeneration(a: Record, b: Record) {
    a.NoState? == b.NoState? && (a.Record? && b.Record? ==> a.nonce == b.nonce)
  }

  /** What the manager inside the start lock knows at each point of its code. */
  ghost predicate Knows(s: State, p: Manager) {
    match p
    case HasRead(_, seen) => SameGeneration(seen, s.disk)
    case ReadyToProbe(_, seen) => SameGeneration(seen, s.disk)
    case Probing(_, seen) => SameGeneration(seen, s.disk) && NobodyLives(s)
    case Probed(_, seen, held) => SameGeneration(seen, s.disk) && (!held ==> NobodyLives(s))
    case OwnerDead(_, n) => s.disk.Record? && s.disk.nonce == n && NobodyLives(s)
    case ConfirmingStop(_, n) => NobodyLives(s)
    case StopConfirmed(_, n) => NobodyLives(s)
    case MayStart => NobodyLives(s)
    case Recorded(n) => s.disk.Record? && s.disk.nonce == n && NobodyLives(s) && n < s.nextNonce && DaemonOf(s, n).Unborn?
    case LaunchFailed(n) => s.disk.Record? && s.disk.nonce == n && NobodyLives(s)
    case Launched(n) => s.disk.Record? && s.disk.nonce == n && OnlyLives(s, n)
    case Killed(n) => s.disk.Record? && s.disk.nonce == n && OnlyLives(s, n)
    case Reaping(n) => s.disk.Record? && s.disk.nonce == n && OnlyLives(s, n)
    case _ => true
  }

  ghost predicate Inv(s: State) {
    && LocksConsistent(s)
    && DaemonsConsistent(s)
    && (forall m :: Knows(s, ManagerOf(s, m)))
    && (s.disk.Record? ==> s.disk.nonce < s.nextNonce)
    && (forall n | n in s.daemons :: n < s.nextNonce)
  }

  predicate Init(s: State) {
    s.disk.NoState? && s.start.Unlocked? && s.lifetime.Free? && s.managers == map[] && s.daemons == map[]
  }

  /** A manager leaves its spawn window only when its child is past the check or gone. */
  lemma WindowStays(s: State, a: Action, m: ManagerId)
    requires Enabled(s, a) && s.start == LockedBy(m) && ChildPending(s, ManagerOf(s, m))
    requires forall k | NeedsStartLock(ManagerOf(s, k)) :: k == m
    ensures ManagerOf(Step(s, a), m).nonce == ManagerOf(s, m).nonce && SpawnWindow(ManagerOf(Step(s, a), m))
  {
  }

  lemma PendingComesFromLaunch(s: State, a: Action, n: Nonce)
    requires Enabled(s, a) && Live(DaemonOf(Step(s, a), n)) && !DaemonOf(Step(s, a), n).Owner?
    ensures (a.Launch? && ManagerOf(s, a.m).nonce == n && SpawnWindow(ManagerOf(Step(s, a), a.m)) && ManagerOf(Step(s, a), a.m).nonce == n)
            || (Live(DaemonOf(s, n)) && !DaemonOf(s, n).Owner?)
  {
  }

  lemma StepKeepsSupervision(s: State, a: Action, n: Nonce)
    requires Inv(s) && Enabled(s, a)
    requires Live(DaemonOf(Step(s, a), n)) && !DaemonOf(Step(s, a), n).Owner?
    ensures Supervised(Step(s, a), n)
  {
    hide Step, Enabled, Knows;
    PendingComesFromLaunch(s, a, n);
    if Live(DaemonOf(s, n)) && !DaemonOf(s, n).Owner? {
      var m :| SpawnWindow(ManagerOf(s, m)) && ManagerOf(s, m).nonce == n;
      StartLockIsExclusive(s, m);
      WindowStays(s, a, m);
    }
  }

  /** The lock rules for one manager and one daemon. */
  predicate LocksOf(s: State, m: ManagerId, n: Nonce) {
    && (NeedsStartLock(ManagerOf(s, m)) ==> s.start == LockedBy(m))
    && (HoldsProbe(ManagerOf(s, m)) ==> s.lifetime == ByProbe(m))
    && (PastLock(DaemonOf(s, n)) ==> s.lifetime == ByDaemon(n))
  }

  predicate ByManager(a: Action) { !a.TakeLifetime? && !a.CheckOwnership? && !a.Persist? && !a.LoseWrite? && !a.DaemonDies? }

  lemma ManagerKeepsOwnLocks(s: State, a: Action, n: Nonce)
    requires ByManager(a) && Enabled(s, a) && LocksOf(s, a.m, n)
    ensures LocksOf(Step(s, a), a.m, n)
  {
  }

  lemma ManagerKeepsOtherLocks(s: State, a: Action, m: ManagerId, n: Nonce)
    requires ByManager(a) && Enabled(s, a) && LocksOf(s, m, n) && LocksOf(s, a.m, n) && m != a.m
    ensures LocksOf(Step(s, a), m, n)
  {
    OtherManagersStay(s, a, m);
    if PastLock(DaemonOf(Step(s, a), n)) { DaemonsStayPutByManager(s, a, n); }
  }

  lemma OtherManagersStay(s: State, a: Action, m: ManagerId)
    requires ByManager(a) && Enabled(s, a) && m != a.m
    ensures ManagerOf(Step(s, a), m) == ManagerOf(s, m)
  {
  }

  /** A manager takes no daemon past the lifetime lock. */
  lemma DaemonsStayPutByManager(s: State, a: Action, n: Nonce)
    requires ByManager(a) && Enabled(s, a) && PastLock(DaemonOf(Step(s, a), n))
    ensures PastLock(DaemonOf(s, n))
  {
  }

  lemma DaemonKeepsLocks(s: State, a: Action, m: ManagerId, n: Nonce)
    requires !ByManager(a) && Enabled(s, a) && LocksOf(s, m, n) && LocksOf(s, m, a.n)
    ensures LocksOf(Step(s, a), m, n)
  {
  }

  lemma StepKeepsLocks(s: State, a: Action)
    requires LocksConsistent(s) && Enabled(s, a)
    ensures LocksConsistent(Step(s, a))
  {
    hide Step, Enabled;
    var t := Step(s, a);
    forall m, n ensures LocksOf(t, m, n) {
      assert LocksOf(s, m, n) && (ByManager(a) ==> LocksOf(s, a.m, n));
      if !ByManager(a) {
        DaemonKeepsLocks(s, a, m, n);
      } else if m == a.m {
        ManagerKeepsOwnLocks(s, a, n);
      } else {
        ManagerKeepsOtherLocks(s, a, m, n);
      }
    }
    LocksOfAll(t);
  }

  lemma LocksOfAll(s: State)
    requires forall m, n :: LocksOf(s, m, n)
    ensures LocksConsistent(s)
  {
    forall m | NeedsStartLock(ManagerOf(s, m)) ensures s.start == LockedBy(m) { assert LocksOf(s, m, 0); }
    forall m | HoldsProbe(ManagerOf(s, m)) ensures s.lifetime == ByProbe(m) { assert LocksOf(s, m, 0); }
    forall n | PastLock(DaemonOf(s, n)) ensures s.lifetime == ByDaemon(n) { assert LocksOf(s, 0, n); }
  }

  lemma StepKeepsOwner(s: State, a: Action, n: Nonce)
    requires Inv(s) && Enabled(s, a) && DaemonOf(Step(s, a), n).Owner?
    ensures Step(s, a).disk.Record? && Step(s, a).disk.nonce == n
  {
    assert DaemonOf(s, n).Owner? || a == CheckOwnership(n);
    assert DaemonOf(s, n).Owner? ==> s.disk.Record? && s.disk.nonce == n;
    assert a.WriteStopped? || a.WriteInitial? || a.WriteFailure? ==> Knows(s, ManagerOf(s, a.m));
    assert a.Persist? ==> PastLock(DaemonOf(s, a.n)) && (DaemonOf(s, n).Owner? ==> PastLock(DaemonOf(s, n)));
  }

  /** Only a launch brings a daemon to life. */
  lemma LifeComesFromLaunch(s: State, a: Action)
    requires Enabled(s, a)
    ensures forall n | Live(DaemonOf(Step(s, a), n)) ::
              Live(DaemonOf(s, n)) || (a.Launch? && ManagerOf(s, a.m).nonce == n)
  {
  }

  lemma StartLockIsExclusive(s: State, m: ManagerId)
    requires LocksConsistent(s) && NeedsStartLock(ManagerOf(s, m))
    ensures forall k | NeedsStartLock(ManagerOf(s, k)) :: k == m
  {
    assert s.start == LockedBy(m);
  }

  /** Under the start lock and outside a spawn window, a free lifetime lock means no daemon. */
  lemma NoDaemonWhileLockFree(s: State, m: ManagerId)
    requires Inv(s) && NeedsStartLock(ManagerOf(s, m)) && !SpawnWindow(ManagerOf(s, m)) && s.lifetime.Free?
    ensures NobodyLives(s)
  {
    StartLockIsExclusive(s, m);
    assert forall k :: !SpawnWindow(ManagerOf(s, k));
    assert forall n :: !Supervised(s, n);
  }

  lemma OwnerIsOnDisk(s: State, n: Nonce)
    requires Inv(s) && DaemonOf(s, n).Owner?
    ensures s.disk.Record? && s.disk.nonce == n
  {
  }

  /** What the manager inside the start lock learns by its own step. */
  lemma OwnStepKeepsKnowledge(s: State, a: Action)
    requires ByManager(a) && Enabled(s, a) && Knows(s, ManagerOf(s, a.m)) && NeedsStartLock(ManagerOf(Step(s, a), a.m))
    requires forall n | Live(DaemonOf(Step(s, a), n)) :: Live(DaemonOf(s, n)) || (a.Launch? && ManagerOf(s, a.m).nonce == n)
    requires (a.TakeProbe? || a.PollStopped?) && s.lifetime.Free? ==> NobodyLives(s)
    requires forall n | n in s.daemons :: n < s.nextNonce
    ensures Knows(Step(s, a), ManagerOf(Step(s, a), a.m))
  {
  }

  /** A step of anyone else: managers outside the start lock write nothing, and a daemon writes into
      its own generation. */
  lemma OtherStepEffect(s: State, a: Action, m: ManagerId)
    requires Enabled(s, a) && (ByManager(a) ==> a.m != m && !NeedsStartLock(ManagerOf(s, a.m)) && s.start == LockedBy(m))
    ensures var t := Step(s, a);
            && ManagerOf(t, m) == ManagerOf(s, m) && t.nextNonce == s.nextNonce
            && (t.disk == s.disk || (a.Persist? && t.disk == Record(a.n, a.life)))
            && forall n | DaemonOf(s, n).Unborn? :: DaemonOf(t, n).Unborn?
  {
  }

  lemma OtherStepKeepsKnowledge(s: State, a: Action, m: ManagerId)
    requires Enabled(s, a) && NeedsStartLock(ManagerOf(s, m)) && Knows(s, ManagerOf(s, m))
    requires ByManager(a) ==> a.m != m && !NeedsStartLock(ManagerOf(s, a.m)) && s.start == LockedBy(m)
    requires forall n | Live(DaemonOf(Step(s, a), n)) :: Live(DaemonOf(s, n)) || (a.Launch? && ManagerOf(s, a.m).nonce == n)
    requires a.Persist? ==> s.disk.Record? && s.disk.nonce == a.n
    ensures Knows(Step(s, a), ManagerOf(Step(s, a), m))
  {
    hide Step, Enabled;
    OtherStepEffect(s, a, m);
    if a.Launch? { LaunchNeedsTheLock(s, a); }
  }

  lemma LaunchNeedsTheLock(s: State, a: Action)
    requires a.Launch? && Enabled(s, a)
    ensures NeedsStartLock(ManagerOf(s, a.m))
  {
  }

  lemma StepKeepsKnowledge(s: State, a: Action, m: ManagerId)
    requires Inv(s) && Enabled(s, a) && NeedsStartLock(ManagerOf(Step(s, a), m))
    ensures Knows(Step(s, a), ManagerOf(Step(s, a), m))
  {
    hide DaemonsConsistent, LocksConsistent, Step, Enabled, Knows;
    LifeComesFromLaunch(s, a);
    LockIsFreeOrMine(s, a, m);
    assert Knows(s, ManagerOf(s, m));
    InvLocks(s);
    if NeedsStartLock(ManagerOf(s, m)) { StartLockIsExclusive(s, m); }
    if ByManager(a) && a.m == m {
      if (a.TakeProbe? || a.PollStopped?) && s.lifetime.Free? {
        ProbesFollowTheLock(s, a);
        NoDaemonWhileLockFree(s, m);
      }
      OwnStepKeepsKnowledge(s, a);
    } else {
      if a.Persist? {
        PersistsAsOwner(s, a);
        OwnerIsOnDisk(s, a.n);
      }
      OtherStepKeepsKnowledge(s, a, m);
    }
  }

  /** Whoever needs the start lock after a step held it before or has just taken it. */
  lemma LockIsFreeOrMine(s: State, a: Action, m: ManagerId)
    requires Enabled(s, a) && NeedsStartLock(ManagerOf(Step(s, a), m))
    ensures NeedsStartLock(ManagerOf(s, m)) || (ByManager(a) && a.m == m)
  {
  }

  lemma ProbesFollowTheLock(s: State, a: Action)
    requires Enabled(s, a) && (a.TakeProbe? || a.PollStopped?)
    ensures NeedsStartLock(ManagerOf(s, a.m)) && !SpawnWindow(ManagerOf(s, a.m))
  {
  }

  lemma PersistsAsOwner(s: State, a: Action)
    requires a.Persist? && Enabled(s, a)
    ensures DaemonOf(s, a.n).Owner?
  {
  }

  lemma InvLocks(s: State)
    requires Inv(s)
    ensures LocksConsistent(s)
  {
  }

  lemma StepKeepsNumbers(s: State, a: Action)
    requires Inv(s) && Enabled(s, a)
    ensures var t := Step(s, a);
            (t.disk.Record? ==> t.disk.nonce < t.nextNonce) && forall n | n in t.daemons :: n < t.nextNonce
  {
    match a {
      case Launch(m) => assert Knows(s, ManagerOf(s, m));
      case WriteStopped(m) => assert Knows(s, ManagerOf(s, m));
      case WriteFailure(m) => assert Knows(s, ManagerOf(s, m));
      case Persist(n, life) => assert n in s.daemons;
      case _ =>
    }
  }

  lemma NothingToKnow(s: State, m: ManagerId)
    requires !NeedsStartLock(ManagerOf(s, m))
    ensures Knows(s, ManagerOf(s, m))
  {
  }

  /** Every step of every manager and daemon keeps the invariant. */
  lemma StepKeepsInv(s: State, a: Action)
    requires Inv(s) && Enabled(s, a)
    ensures Inv(Step(s, a))
  {
    hide Step, Enabled, Knows, LocksConsistent;
    StepKeepsLocks(s, a);
    StepKeepsNumbers(s, a);
    forall n | Live(DaemonOf(Step(s, a), n)) && !DaemonOf(Step(s, a), n).Owner?
      ensures Supervised(Step(s, a), n)
    {
      StepKeepsSupervision(s, a, n);
    }
    forall n | DaemonOf(Step(s, a), n).Owner?
      ensures Step(s, a).disk.Record? && Step(s, a).disk.nonce == n
    {
      StepKeepsOwner(s, a, n);
    }
    forall m ensures Knows(Step(s, a), ManagerOf(Step(s, a), m)) {
      if NeedsStartLock(ManagerOf(Step(s, a), m)) { StepKeepsKnowledge(s, a, m); }
      else { NothingToKnow(Step(s, a), m); }
    }
  }

  /** The death of a manager keeps the invariant exactly when it leaves no pending child behind. */
  lemma DeathIsHarmlessIff(s: State, m: ManagerId)
    requires Inv(s)
    ensures Inv(Leave(s, m)) <==> !ChildPending(s, ManagerOf(s, m))
  {
    hide Knows;
    if !ChildPending(s, ManagerOf(s, m)) {
      StepKeepsInv(s, ManagerDies(m));
    } else {
      var n := ManagerOf(s, m).nonce;
      InvLocks(s);
      StartLockIsExclusive(s, m);
      forall k ensures !SpawnWindow(ManagerOf(Leave(s, m), k)) {
        if k != m { assert ManagerOf(Leave(s, m), k) == ManagerOf(s, k); }
      }
      assert !Supervised(Leave(s, m), n) && DaemonOf(Leave(s, m), n) == DaemonOf(s, n);
    }
  }

  // ---------------------------------------------------------------- whole runs

  predicate Run(s: State, actions: seq<Action>, t: State)
    decreases |actions|
  {
    if actions == [] then s == t
    else Enabled(s, actions[0]) && Run(Step(s, actions[0]), actions[1..], t)
  }

  ghost predicate Reachable(t: State) {
    exists s, actions :: Init(s) && Run(s, actions, t)
  }

  lemma {:induction false} RunKeepsInv(s: State, actions: seq<Action>, t: State)
    requires Inv(s) && Run(s, actions, t)
    ensures Inv(t)
    decreases |actions|
  {
    if actions != [] {
      StepKeepsInv(s, actions[0]);
      RunKeepsInv(Step(s, actions[0]), actions[1..], t);
    }
  }

  lemma ReachableInv(t: State)
    requires Reachable(t)
    ensures Inv(t)
  {
    var s, actions :| Init(s) && Run(s, actions, t);
    RunKeepsInv(s, actions, t);
  }

  /** In every reachable state: a daemon past its ownership check has its own nonce on disk, and
      at most one daemon is past the lifetime lock. */
  lemma OwnerHasTheRecord(t: State)
    requires Reachable(t)
    ensures forall n | DaemonOf(t, n).Owner? :: t.disk.Record? && t.disk.nonce == n
    ensures forall n, k | PastLock(DaemonOf(t, n)) && PastLock(DaemonOf(t, k)) :: n == k
  {
    ReachableInv(t);
  }

  /** No daemon write replaces another generation's record. */
  lemma PersistStaysInGeneration(t: State, n: Nonce, life: Lifecycle)
    requires Reachable(t) && Enabled(t, Persist(n, life))
    ensures t.disk.Record? && t.disk.nonce == n && Step(t, Persist(n, life)).disk == Record(n, life)
  {
    ReachableInv(t);
  }

  /** The generation on disk never goes back, and it only moves on while no daemon lives. */
  lemma GenerationsOnlyAdvance(t: State, a: Action)
    requires Reachable(t) && Enabled(t, a)
    ensures var u := Step(t, a);
            && (t.disk.Record? ==> u.disk.Record? && t.disk.nonce <= u.disk.nonce)
            && (!SameGeneration(t.disk, u.disk) ==> a.WriteInitial? && NobodyLives(t))
  {
    hide Reachable, LocksConsistent, Supervised;
    ReachableInv(t);
    match a {
      case WriteInitial(m) => assert Knows(t, ManagerOf(t, m));
      case WriteStopped(m) => assert Knows(t, ManagerOf(t, m));
      case Persist(n, life) => OwnerIsOnDisk(t, n);
      case _ =>
    }
  }

  /** After an accepted stop request the manager reports success only when, at its probe, the
      lifetime lock was free; from then until it returns no daemon of any generation lives. */
  lemma StopSuccessMeansNobodyLives(t: State, m: ManagerId)
    requires Reachable(t)
    ensures ManagerOf(t, m).StopConfirmed? ==> NobodyLives(t)
    ensures Enabled(t, PollStopped(m)) && ManagerOf(Step(t, PollStopped(m)), m).ConfirmingStop? ==>
              t.lifetime.Free? && t.disk == Record(ManagerOf(t, m).nonce, Stopped)
  {
    ReachableInv(t);
    assert Knows(t, ManagerOf(t, m));
  }

  /** `StopConfirmed` is entered from nowhere but a probe that found the lock free. */
  lemma StopConfirmedOnlyAfterFreeProbe(t: State, a: Action, m: ManagerId)
    requires Reachable(t) && Enabled(t, a)
    requires ManagerOf(Step(t, a), m).StopConfirmed? && !ManagerOf(t, m).StopConfirmed?
    ensures a == SeeLockFree(m) && t.lifetime == ByProbe(m)
  {
    hide Reachable, Inv, LocksConsistent;
    ReachableInv(t);
    assert ManagerOf(t, m).ConfirmingStop?;
    ProbeIsHeld(t, m);
  }

  lemma ProbeIsHeld(s: State, m: ManagerId)
    requires Inv(s) && HoldsProbe(ManagerOf(s, m))
    ensures s.lifetime == ByProbe(m)
  {
  }

  // ---------------------------------------------------------------- what the assumption and the probe cost

  /** The same step relation without the assumption on managers. */
  predicate LooseEnabled(s: State, a: Action) { a.ManagerDies? || Enabled(s, a) }

  function LooseStep(s: State, a: Action): State
    requires LooseEnabled(s, a)
  {
    if a.ManagerDies? then Leave(s, a.m) else Step(s, a)
  }

  predicate LooseRun(s: State, actions: seq<Action>, t: State)
    decreases |actions|
  {
    if actions == [] then s == t
    else LooseEnabled(s, actions[0]) && LooseRun(LooseStep(s, actions[0]), actions[1..], t)
  }

  lemma PrependOne(s: State, a: Action, rest: seq<Action>, t: State)
    requires LooseEnabled(s, a) && LooseRun(LooseStep(s, a), rest, t)
    ensures LooseRun(s, [a] + rest, t)
  {
    hide LooseEnabled, LooseStep;
    assert ([a] + rest)[1..] == rest;
  }

  lemma Prepend(s: State, a: Action, b: Action, c: Action, rest: seq<Action>, t: State)
    requires LooseEnabled(s, a) && LooseEnabled(LooseStep(s, a), b) && LooseEnabled(LooseStep(LooseStep(s, a), b), c)
    requires LooseRun(LooseStep(LooseStep(LooseStep(s, a), b), c), rest, t)
    ensures LooseRun(s, [a, b, c] + rest, t)
  {
    hide LooseEnabled, LooseStep, LooseRun;
    var s1 := LooseStep(s, a);
    PrependOne(LooseStep(s1, b), c, rest, t);
    PrependOne(s1, b, [c] + rest, t);
    PrependOne(s, a, [b] + ([c] + rest), t);
    assert [a, b, c] + rest == [a] + ([b] + ([c] + rest));
  }

  function ThreeSteps(s: State, a: Action, b: Action, c: Action): State
    requires LooseEnabled(s, a) && LooseEnabled(LooseStep(s, a), b) && LooseEnabled(LooseStep(LooseStep(s, a), b), c)
  {
    LooseStep(LooseStep(LooseStep(s, a), b), c)
  }

  /** Nothing there yet; a first manager about to probe; and the same manager cleared to start. */
  const FRESH: State := State(NoState, Unlocked, Free, map[], map[], 0)

  const FIRST_PROBING: State := FRESH.(start := LockedBy(1), managers := map[1 := ReadyToProbe(Start, NoState)])

  const FIRST_CLEARED: State := FRESH.(start := LockedBy(1), managers := map[1 := MayStart])

  lemma FreshToProbing(rest: seq<Action>, t: State)
    requires LooseRun(FIRST_PROBING, rest, t)
    ensures LooseRun(FRESH, [Enter(1, Start), ReadState(1), SkipControl(1)] + rest, t)
  {
    assert ThreeSteps(FRESH, Enter(1, Start), ReadState(1), SkipControl(1)) == FIRST_PROBING;
    Prepend(FRESH, Enter(1, Start), ReadState(1), SkipControl(1), rest, t);
  }

  lemma FirstProbingToCleared(rest: seq<Action>, t: State)
    requires LooseRun(FIRST_CLEARED, rest, t)
    ensures LooseRun(FIRST_PROBING, [TakeProbe(1), DropProbe(1), Conclude(1)] + rest, t)
  {
    assert ThreeSteps(FIRST_PROBING, TakeProbe(1), DropProbe(1), Conclude(1)) == FIRST_CLEARED;
    Prepend(FIRST_PROBING, TakeProbe(1), DropProbe(1), Conclude(1), rest, t);
  }

  /** Generation 0 launched and its manager gone. */
  const ORPHANED: State := State(Record(0, Starting), Unlocked, Free, map[1 := Away], map[0 := Spawned], 1)

  /** A second manager about to probe, then cleared to start, then recording generation 1. */
  const PROBING: State := ORPHANED.(
    start := LockedBy(2), managers := map[1 := Away, 2 := ReadyToProbe(Start, Record(0, Starting))])

  const CLEARED: State := PROBING.(managers := map[1 := Away, 2 := MayStart])

  const OVERTAKEN: State := CLEARED.(
    disk := Record(1, Starting), lifetime := ByDaemon(0), nextNonce := 2,
    managers := map[1 := Away, 2 := Recorded(1)], daemons := map[0 := Owner(Starting)])

  lemma OrphanedToProbing(rest: seq<Action>, t: State)
    requires LooseRun(PROBING, rest, t)
    ensures LooseRun(ORPHANED, [Enter(2, Start), ReadState(2), SkipControl(2)] + rest, t)
  {
    assert ThreeSteps(ORPHANED, Enter(2, Start), ReadState(2), SkipControl(2)) == PROBING;
    Prepend(ORPHANED, Enter(2, Start), ReadState(2), SkipControl(2), rest, t);
  }

  lemma ProbingToCleared(rest: seq<Action>, t: State)
    requires LooseRun(CLEARED, rest, t)
    ensures LooseRun(PROBING, [TakeProbe(2), DropProbe(2), Conclude(2)] + rest, t)
  {
    assert ThreeSteps(PROBING, TakeProbe(2), DropProbe(2), Conclude(2)) == CLEARED;
    Prepend(PROBING, TakeProbe(2), DropProbe(2), Conclude(2), rest, t);
  }

  lemma ClearedToOvertaken()
    ensures LooseRun(CLEARED, [TakeLifetime(0), CheckOwnership(0), WriteInitial(2)] + [], OVERTAKEN)
  {
    assert ThreeSteps(CLEARED, TakeLifetime(0), CheckOwnership(0), WriteInitial(2)) == OVERTAKEN;
    Prepend(CLEARED, TakeLifetime(0), CheckOwnership(0), WriteInitial(2), [], OVERTAKEN);
  }

  lemma NextStartTakesOver() returns (actions: seq<Action>, t: State)
    ensures LooseRun(ORPHANED, actions, t)
    ensures DaemonOf(t, 0).Owner? && t.disk == Record(1, Starting)
  {
    hide LooseRun, LooseEnabled, LooseStep;
    t := OVERTAKEN;
    ClearedToOvertaken();
    actions := [TakeLifetime(0), CheckOwnership(0), WriteInitial(2)] + [];
    ProbingToCleared(actions, t);
    actions := [TakeProbe(2), DropProbe(2), Conclude(2)] + actions;
    OrphanedToProbing(actions, t);
    actions := [Enter(2, Start), ReadState(2), SkipControl(2)] + actions;
  }

  /** If a manager does die after launching and before its child is ready, the next start can
      take over the record while that child is on its way through its ownership check: the old
      daemon then runs with a later generation's nonce on disk. */
  lemma ManagerDyingInSpawnWindowBreaksOwnership() returns (s: State, actions: seq<Action>, t: State)
    ensures Init(s) && LooseRun(s, actions, t)
    ensures DaemonOf(t, 0).Owner? && t.disk == Record(1, Starting)
  {
    hide LooseRun;
    s := FRESH;
    actions, t := NextStartTakesOver();
    FirstClearedToOrphaned(actions, t);
    actions := [WriteInitial(1), Launch(1), ManagerDies(1)] + actions;
    FirstProbingToCleared(actions, t);
    actions := [TakeProbe(1), DropProbe(1), Conclude(1)] + actions;
    FreshToProbing(actions, t);
    actions := [Enter(1, Start), ReadState(1), SkipControl(1)] + actions;
  }

  lemma FirstClearedToOrphaned(rest: seq<Action>, t: State)
    requires LooseRun(ORPHANED, rest, t)
    ensures LooseRun(FIRST_CLEARED, [WriteInitial(1), Launch(1), ManagerDies(1)] + rest, t)
  {
    assert ThreeSteps(FIRST_CLEARED, WriteInitial(1), Launch(1), ManagerDies(1)) == ORPHANED;
    Prepend(FIRST_CLEARED, WriteInitial(1), Launch(1), ManagerDies(1), rest, t);
  }

  /** Whoever the lifetime lock names is at it: the converse of the rules above. */
  predicate LockIsHeld(s: State) {
    match s.lifetime
    case Free => true
    case ByDaemon(n) => PastLock(DaemonOf(s, n))
    case ByProbe(m) => HoldsProbe(ManagerOf(s, m))
  }

  lemma StepKeepsHolder(s: State, a: Action)
    requires Enabled(s, a) && LockIsHeld(s)
    requires a.Launch? ==> DaemonOf(s, ManagerOf(s, a.m).nonce).Unborn?
    ensures LockIsHeld(Step(s, a))
  {
  }

  lemma LaunchIsNew(s: State, m: ManagerId)
    requires Inv(s) && Enabled(s, Launch(m))
    ensures DaemonOf(s, ManagerOf(s, m).nonce).Unborn?
  {
    assert Knows(s, ManagerOf(s, m));
  }

  lemma {:induction false} RunKeepsHolder(s: State, actions: seq<Action>, t: State)
    requires Inv(s) && LockIsHeld(s) && Run(s, actions, t)
    ensures LockIsHeld(t)
    decreases |actions|
  {
    hide Inv, LockIsHeld, Enabled, Step;
    if actions != [] {
      if actions[0].Launch? { LaunchIsNew(s, actions[0].m); }
      StepKeepsInv(s, actions[0]);
      StepKeepsHolder(s, actions[0]);
      RunKeepsHolder(Step(s, actions[0]), actions[1..], t);
    }
  }

  /** While a child waits for the lifetime lock, only status probes can have it. */
  lemma OnlyStatusProbesInTheWay(t: State, n: Nonce)
    requires Inv(t) && LockIsHeld(t) && DaemonOf(t, n).Spawned?
    ensures t.lifetime.Free? || (t.lifetime.ByProbe? && ManagerOf(t, t.lifetime.manager).StatusProbing?)
  {
    hide Knows;
    assert Supervised(t, n);
    var m :| SpawnWindow(ManagerOf(t, m)) && ManagerOf(t, m).nonce == n;
    StartLockIsExclusive(t, m);
    WindowIsAlone(t, m);
  }

  lemma WindowIsAlone(s: State, m: ManagerId)
    requires Inv(s) && SpawnWindow(ManagerOf(s, m))
    ensures OnlyLives(s, ManagerOf(s, m).nonce)
  {
    assert Knows(s, ManagerOf(s, m));
  }

  /** In every reachable state: a launched daemon is refused the lifetime lock, and gives up, exactly
      while some status command is probing; no older daemon and no start or stop is ever in its way. */
  lemma RefusedIffStatusProbes(t: State, n: Nonce)
    requires Reachable(t) && DaemonOf(t, n).Spawned?
    ensures DaemonOf(Step(t, TakeLifetime(n)), n).Gone? <==> exists m :: ManagerOf(t, m).StatusProbing?
  {
    hide Inv, LockIsHeld, Run;
    var s, actions :| Init(s) && Run(s, actions, t);
    InitHolds(s);
    RunKeepsInv(s, actions, t);
    RunKeepsHolder(s, actions, t);
    OnlyStatusProbesInTheWay(t, n);
    forall m | ManagerOf(t, m).StatusProbing? ensures t.lifetime == ByProbe(m) { ProbeIsHeld(t, m); }
  }

  lemma InitHolds(s: State)
    requires Init(s)
    ensures Inv(s) && LockIsHeld(s)
  {
  }

  /** Nobody dies, nothing fails to launch, and managers only start. */
  predicate Quiet(actions: seq<Action>) {
    forall a | a in actions :: !a.ManagerDies? && !a.DaemonDies? && !a.LaunchError? && (a.Enter? ==> a.req.Start?)
  }

  lemma QuietTogether(a: seq<Action>, b: seq<Action>)
    requires Quiet(a) && Quiet(b)
    ensures Quiet(a + b)
  {
  }

  lemma {:induction false} WithoutDeathsIsRun(s: State, actions: seq<Action>, t: State)
    requires LooseRun(s, actions, t) && Quiet(actions)
    ensures Run(s, actions, t)
    decreases |actions|
  {
    hide Enabled, Step;
    if actions != [] {
      assert actions[0] in actions && forall a | a in actions[1..] :: a in actions;
      WithoutDeathsIsRun(LooseStep(s, actions[0]), actions[1..], t);
    }
  }

  /** Generation 0 launched with a status command probing; its daemon gone; its manager
      about to record that; and the start over. */
  const CONTENDED: State := State(
    Record(0, Starting), LockedBy(1), ByProbe(2), map[1 := Launched(0), 2 := StatusProbing], map[0 := Spawned], 1)

  const REFUSED: State := CONTENDED.(daemons := map[0 := Gone])

  const DEFEATED: State := REFUSED.(lifetime := Free, managers := map[1 := Killed(0), 2 := Away])

  const START_FAILED: State := DEFEATED.(
    disk := Record(0, Failed), start := Unlocked, managers := map[1 := Away, 2 := Away])

  lemma FirstClearedToContended(rest: seq<Action>, t: State)
    requires LooseRun(CONTENDED, rest, t)
    ensures LooseRun(FIRST_CLEARED, [WriteInitial(1), Launch(1), StatusTake(2)] + rest, t)
  {
    assert ThreeSteps(FIRST_CLEARED, WriteInitial(1), Launch(1), StatusTake(2)) == CONTENDED;
    Prepend(FIRST_CLEARED, WriteInitial(1), Launch(1), StatusTake(2), rest, t);
  }

  lemma ContendedToRefused(rest: seq<Action>, t: State)
    requires LooseRun(REFUSED, rest, t)
    ensures LooseRun(CONTENDED, [TakeLifetime(0)] + rest, t)
  {
    assert LooseStep(CONTENDED, TakeLifetime(0)) == REFUSED;
    PrependOne(CONTENDED, TakeLifetime(0), rest, t);
  }

  lemma RefusedToDefeated(rest: seq<Action>, t: State)
    requires LooseRun(DEFEATED, rest, t)
    ensures LooseRun(REFUSED, [StatusDrop(2)] + ([Kill(1)] + rest), t)
  {
    var s := REFUSED.(lifetime := Free, managers := map[1 := Launched(0), 2 := Away]);
    assert LooseStep(REFUSED, StatusDrop(2)) == s;
    assert LooseStep(s, Kill(1)) == DEFEATED;
    PrependOne(s, Kill(1), rest, t);
    PrependOne(REFUSED, StatusDrop(2), [Kill(1)] + rest, t);
  }

  lemma DefeatedToFailed()
    ensures LooseRun(DEFEATED, [WriteFailure(1)] + ([Reap(1)] + []), START_FAILED)
  {
    var s := LooseStep(DEFEATED, WriteFailure(1));
    assert LooseStep(s, Reap(1)) == START_FAILED;
    PrependOne(s, Reap(1), [], START_FAILED);
    PrependOne(DEFEATED, WriteFailure(1), [Reap(1)] + [], START_FAILED);
  }

  /** A run from the beginning in which a status probe defeats a start: the only daemon is gone and its
      manager has recorded the failure, although nothing died and nobody stopped it. */
  lemma StatusProbeCanDefeatStart() returns (s: State, actions: seq<Action>, t: State)
    ensures Init(s) && Run(s, actions, t) && Quiet(actions)
    ensures t.disk == Record(0, Failed) && (forall m :: ManagerOf(t, m).Away?) && NobodyLives(t) && t.nextNonce == 1
  {
    hide LooseRun, Run, Quiet;
    s, t := FRESH, START_FAILED;
    actions := [WriteFailure(1)] + ([Reap(1)] + []);
    DefeatedToFailed();
    QuietSteps();
    RefusedToDefeated(actions, t);
    QuietTogether([Kill(1)], actions);
    QuietTogether([StatusDrop(2)], [Kill(1)] + actions);
    actions := [StatusDrop(2)] + ([Kill(1)] + actions);
    ContendedToRefused(actions, t);
    QuietTogether([TakeLifetime(0)], actions);
    actions := [TakeLifetime(0)] + actions;
    FirstClearedToContended(actions, t);
    QuietTogether([WriteInitial(1), Launch(1), StatusTake(2)], actions);
    actions := [WriteInitial(1), Launch(1), StatusTake(2)] + actions;
    FirstProbingToCleared(actions, t);
    QuietTogether([TakeProbe(1), DropProbe(1), Conclude(1)], actions);
    actions := [TakeProbe(1), DropProbe(1), Conclude(1)] + actions;
    FreshToProbing(actions, t);
    QuietTogether([Enter(1, Start), ReadState(1), SkipControl(1)], actions);
    actions := [Enter(1, Start), ReadState(1), SkipControl(1)] + actions;
    WithoutDeathsIsRun(s, actions, t);
  }

  lemma QuietSteps()
    ensures Quiet([WriteFailure(1)] + ([Reap(1)] + [])) && Quiet([Kill(1)]) && Quiet([StatusDrop(2)]) && Quiet([TakeLifetime(0)])
    ensures Quiet([WriteInitial(1), Launch(1), StatusTake(2)]) && Quiet([TakeProbe(1), DropProbe(1), Conclude(1)])
    ensures Quiet([Enter(1, Start), ReadState(1), SkipControl(1)])
  {
  }
}
