/** The daemon's own side of the protocol (daemon/service.go): its lifecycle field, the record it
    writes, and the order in which one run goes through them. Every run is proved to make only the
    writes that the steps of module Daemon allow a daemon. */
module DaemonService {
  import opened Daemon

  /** The state file that managers and daemons share. */
  class StateFile {
    var record: Record

    constructor (record: Record)
      ensures this.record == record
    {
      this.record := record;
    }

    /** A manager's write on failure: only while the record is still of its generation. */
    method WriteIfNonce(nonce: Nonce, life: Lifecycle) returns (ok: bool)
      modifies this
      ensures ok <==> old(record).Record? && old(record).nonce == nonce
      ensures record == if ok then Record(nonce, life) else old(record)
    {
      if record.NoState? || record.nonce != nonce { return false; }
      record := Record(nonce, life);
      return true;
    }
  }

  /** One change of the lifecycle, and whether its record reached the disk. */
  datatype Write = Write(life: Lifecycle, done: bool)

  /** The changes of one run, oldest first, are allowed one after the other. */
  predicate Allowed(writes: seq<Write>) {
    forall i | 0 < i < |writes| :: MayBecome(writes[i - 1].life, writes[i].life)
  }

  /** What the last successful write left on disk. */
  function OnDisk(writes: seq<Write>): Lifecycle {
    if writes == [] then Starting
    else if writes[|writes| - 1].done then writes[|writes| - 1].life
    else OnDisk(writes[..|writes| - 1])
  }

  lemma OneMoreWrite(writes: seq<Write>, w: Write)
    requires Allowed(writes) && (writes != [] ==> MayBecome(writes[|writes| - 1].life, w.life))
    ensures Allowed(writes + [w]) && OnDisk(writes + [w]) == if w.done then w.life else OnDisk(writes)
  {
    assert (writes + [w])[..|writes|] == writes;
  }

  ghost predicate AllDone(writes: seq<Write>) { forall i | 0 <= i < |writes| :: writes[i].done }

  class ServiceRuntime {
    const file: StateFile
    const nonce: Nonce
    const lost: set<nat>
    var stateNonce: Nonce
    var life: Lifecycle
    var attempts: nat
    ghost var writes: seq<Write>

    /** The record on disk is this daemon's last successful write. */
    ghost predicate Owning()
      reads this, file
    {
      && stateNonce == nonce && file.record == Record(nonce, OnDisk(writes))
      && writes != [] && writes[0] == Write(Starting, true) && writes[|writes| - 1].life == life && Allowed(writes)
      && attempts == |writes|
      && forall i | 0 <= i < |writes| :: writes[i].done <==> i !in lost || i == 0
    }

    /** `lost` tells which attempts to write the record fail. */
    constructor (file: StateFile, nonce: Nonce, lost: set<nat>)
      requires file.record == Record(nonce, Starting)
      ensures this.file == file && this.nonce == nonce && this.lost == lost
      ensures life == Starting && writes == [Write(Starting, true)] && Owning()
    {
      this.file, this.nonce, this.lost := file, nonce, lost;
      this.stateNonce, this.life, this.attempts := nonce, Starting, 1;
      this.writes := [Write(Starting, true)];
    }

    /** Refuses to write a record of another generation. */
    method PersistLocked() returns (ok: bool)
      modifies file, this`attempts, this`writes
      ensures ok <==> stateNonce == nonce && old(attempts) !in lost
      ensures file.record == if ok then Record(stateNonce, life) else old(file.record)
      ensures attempts == old(attempts) + 1 && writes == old(writes) + [Write(life, ok)]
    {
      ok := stateNonce == nonce && attempts !in lost;
      if ok { file.record := Record(stateNonce, life); }
      attempts := attempts + 1;
      writes := writes + [Write(life, ok)];
    }

    method Become(next: Lifecycle) returns (ok: bool)
      requires Owning() && MayBecome(life, next)
      modifies this`life, this`attempts, this`writes, file
      ensures Owning() && life == next && writes == old(writes) + [Write(next, ok)]
      ensures file.record == if ok then Record(nonce, next) else old(file.record)
      ensures AllDone(writes) <==> AllDone(old(writes)) && ok
    {
      ghost var before := writes;
      life := next;
      ok := PersistLocked();
      OneMoreWrite(before, Write(next, ok));
      assert forall i | 0 <= i < |before| :: writes[i] == before[i];
    }

    /** What the watcher observed decides between ready and degraded, once the daemon is either. */
    method RefreshOwnerState(watchReady: bool, indexCurrent: bool)
      requires Owning()
      modifies this`life, this`attempts, this`writes, file
      ensures Owning() && old(writes) <= writes
      ensures if old(life).Ready? || old(life).Degraded?
              then life == (if watchReady && indexCurrent then Ready else Degraded)
              else life == old(life) && writes == old(writes)
    {
      if !life.Ready? && !life.Degraded? { return; }
      var ok := Become(if watchReady && indexCurrent then Ready else Degraded);
    }
  }

  /** What happens around one run: failures while starting, a stop during start, observations while
      serving, how serving and closing end, and which writes of the record fail. */
  datatype Script = Script(
    bindFails: bool, startFails: bool, stopDuringStart: bool, browserFails: bool,
    observations: seq<(bool, bool)>, serveFails: bool, closeFails: bool, lost: set<nat>)

  predicate Succeeds(script: Script) {
    && !script.bindFails
    && if script.startFails then script.stopDuringStart
       else !script.browserFails && !script.serveFails && !script.closeFails
  }

  /** How a run that owned its record may end. */
  ghost predicate Outcome(script: Script, nonce: Nonce, ok: bool, writes: seq<Write>, record: Record) {
    && writes != [] && writes[0] == Write(Starting, true) && Allowed(writes) && record == Record(nonce, OnDisk(writes))
    && (ok ==> Succeeds(script) && record == Record(nonce, Stopped))
    && (AllDone(writes) ==> record == Record(nonce, if ok then Stopped else Failed) && (ok <==> Succeeds(script)))
  }

  /** One run from the ownership check to the end. Without ownership nothing is written. Otherwise the
      record on disk is the last successful write; it is final, failed exactly when something failed,
      unless a write failed, and a run that reports success has left a stopped record. */
  method Serve(file: StateFile, nonce: Nonce, script: Script) returns (ok: bool, ghost writes: seq<Write>)
    modifies file
    ensures old(file.record) != Record(nonce, Starting) ==> !ok && writes == [] && file.record == old(file.record)
    ensures old(file.record) == Record(nonce, Starting) ==> Outcome(script, nonce, ok, writes, file.record)
  {
    hide OnDisk, MayBecome;
    if file.record != Record(nonce, Starting) { return false, []; }
    var runtime := new ServiceRuntime(file, nonce, script.lost);
    ok := ServeOwned(runtime, script);
    writes := runtime.writes;
  }

  lemma RunEnds(runtime: ServiceRuntime, script: Script, ok: bool)
    requires runtime.Owning()
    requires ok ==> Succeeds(script) && runtime.file.record == Record(runtime.nonce, Stopped)
    requires AllDone(runtime.writes) ==>
               runtime.file.record == Record(runtime.nonce, if ok then Stopped else Failed) && (ok <==> Succeeds(script))
    ensures Outcome(script, runtime.nonce, ok, runtime.writes, runtime.file.record)
  {
  }

  method ServeOwned(runtime: ServiceRuntime, script: Script) returns (ok: bool)
    requires runtime.Owning() && runtime.life == Starting
    modifies runtime`life, runtime`attempts, runtime`writes, runtime.file
    ensures Outcome(script, runtime.nonce, ok, runtime.writes, runtime.file.record)
  {
    hide ServiceRuntime.Owning, Outcome, AllDone;
    if script.bindFails {
      var written := runtime.Become(Failed);
      RunEnds(runtime, script, false);
      return false;
    }
    var starting := runtime.Become(Starting);
    if !starting {
      RunEnds(runtime, script, false);
      return false;
    }
    if script.startFails {
      var written := runtime.Become(if script.stopDuringStart then Stopped else Failed);
      RunEnds(runtime, script, script.stopDuringStart && written);
      return script.stopDuringStart && written;
    }
    if script.browserFails {
      var written := runtime.Become(Failed);
      RunEnds(runtime, script, false);
      return false;
    }
    starting := runtime.Become(Starting);
    if !starting {
      RunEnds(runtime, script, false);
      return false;
    }
    var ready := runtime.Become(Ready);
    if !ready {
      RunEnds(runtime, script, false);
      return false;
    }
    ok := ServeReady(runtime, script);
  }

  /** From ready to the end. */
  method ServeReady(runtime: ServiceRuntime, script: Script) returns (ok: bool)
    requires runtime.Owning() && runtime.life == Ready && !script.bindFails && !script.startFails && !script.browserFails
    modifies runtime`life, runtime`attempts, runtime`writes, runtime.file
    ensures Outcome(script, runtime.nonce, ok, runtime.writes, runtime.file.record)
  {
    hide ServiceRuntime.Owning, Outcome, AllDone;
    for i := 0 to |script.observations|
      invariant runtime.Owning() && (runtime.life.Ready? || runtime.life.Degraded?)
    {
      runtime.RefreshOwnerState(script.observations[i].0, script.observations[i].1);
    }
    var written := runtime.Become(if script.serveFails then Failed else Stopping);
    if script.serveFails || script.closeFails {
      written := runtime.Become(Failed);
      RunEnds(runtime, script, false);
      return false;
    }
    ok := runtime.Become(Stopped);
    RunEnds(runtime, script, ok);
  }

  /** A run's changes as daemon steps: from an owner of that generation each of them is enabled, and
      together they leave the last successful write on disk. */
  lemma {:induction false} WritesAreSteps(s: State, n: Nonce, writes: seq<Write>, life: Lifecycle)
    requires DaemonOf(s, n) == Owner(life) && Allowed([Write(life, true)] + writes)
    ensures exists t :: Run(s, Changes(n, writes), t) && DaemonOf(t, n).Owner?
              && t.disk == if exists w :: w in writes && w.done then Record(n, OnDisk(writes)) else s.disk
    decreases |writes|
  {
    if writes == [] {
      assert Run(s, [], s);
    } else {
      var w, rest := writes[0], writes[1..];
      var all := [Write(life, true)] + writes;
      assert MayBecome(all[0].life, all[1].life);
      var a := Change(n, w);
      var s1 := Step(s, a);
      forall i | 0 < i < |[Write(w.life, true)] + rest|
        ensures MayBecome(([Write(w.life, true)] + rest)[i - 1].life, ([Write(w.life, true)] + rest)[i].life)
      {
        var j := i + 1;
        assert MayBecome(all[j - 1].life, all[j].life);
      }
      WritesAreSteps(s1, n, rest, w.life);
      var t :| Run(s1, Changes(n, rest), t) && DaemonOf(t, n).Owner?
        && t.disk == if exists x :: x in rest && x.done then Record(n, OnDisk(rest)) else s1.disk;
      assert Changes(n, writes) == [a] + Changes(n, rest);
      assert Changes(n, writes)[1..] == Changes(n, rest);
      assert Run(s, Changes(n, writes), t);
      OnDiskOfTail(writes);
    }
  }

  lemma {:induction false} OnDiskOfTail(writes: seq<Write>)
    requires writes != []
    ensures (exists w :: w in writes[1..] && w.done) ==> OnDisk(writes) == OnDisk(writes[1..])
    ensures !(exists w :: w in writes[1..] && w.done) && writes[0].done ==> OnDisk(writes) == writes[0].life
    ensures (exists w :: w in writes && w.done) <==> writes[0].done || exists w :: w in writes[1..] && w.done
  {
    var n := |writes| - 1;
    if n > 0 {
      assert writes[..n][1..] == writes[1..][..n - 1];
      if !writes[n].done { OnDiskOfTail(writes[..n]); }
      assert writes == [writes[0]] + writes[1..] && writes[n] in writes[1..];
      assert writes[1..] == writes[1..][..n - 1] + [writes[n]];
    }
  }

  function Change(n: Nonce, w: Write): Action { if w.done then Persist(n, w.life) else LoseWrite(n, w.life) }

  function Changes(n: Nonce, writes: seq<Write>): seq<Action> {
    seq(|writes|, i requires 0 <= i < |writes| => Change(n, writes[i]))
  }
}
