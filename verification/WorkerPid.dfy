/**
 src/cli/pid.ts, src/cli/start.ts and src/cli/stop.ts as one process runs them:
 the files they touch are the fields, and a clock stands in for `Date.now()`.
 What other processes may do meanwhile is ClaimProtocol's subject.
 */
module WorkerPid {
  import opened Prelude
  import Protocol = ClaimProtocol
  import Safety = ClaimSafety

  const LOCK_STALE_MS := 10_000
  const NAP_MS := 10
  const LAST_TRY := 500

  datatype ClaimResult = Claimed | Refused(ownerPid: int) | LockTimeout

  /** The last two throw: nothing was spawned, or the claim lock was not had and the child runs on unclaimed. */
  datatype StartResult = Started(pid: int) | AlreadyRunning(pid: int) | SpawnFailed | ClaimTimedOut

  datatype StopResult = Stopped(pid: int) | NotRunning | StalePidCleared

  /** What a claim for `pid` makes of the pid it reads: the verdict and the file it leaves. */
  function ClaimOutcome(existing: Option<int>, pid: int, live: bool): (ClaimResult, Option<int>) {
    if existing == Some(pid) then (Claimed, existing)
    else if existing.Some? && live then (Refused(existing.value), existing)
    else (Claimed, Some(pid))
  }

  /** Whether the pid the file names, if any, passes a check. */
  predicate Names(file: Option<int>, check: int -> bool) {
    file.Some? && check(file.value)
  }

  class KshetraFiles {
    /** worker.pid.lock, with its modification time. */
    var lock: Option<int>
    var pidFile: Option<int>
    var nowMs: int

    constructor ()
      ensures lock == None && pidFile == None
    {
      lock, pidFile, nowMs := None, None, 0;
    }

    /** A lock this old when the waiting starts is stale before the last try. */
    predicate WillAcquire()
      reads this
    {
      lock.None? || nowMs - lock.value > LOCK_STALE_MS - LAST_TRY * NAP_MS
    }

    /** The loop of `withClaimLock`: create the lock, breaking a stale one, for up to 501 tries. */
    method AcquireClaimLock() returns (ok: bool)
      modifies this
      ensures ok == old(WillAcquire())
      ensures ok ==> lock == Some(nowMs)
      ensures !ok ==> lock == if old(nowMs - lock.value) > LOCK_STALE_MS - (LAST_TRY + 1) * NAP_MS then None else old(lock)
      ensures pidFile == old(pidFile)
      ensures old(nowMs) <= nowMs <= old(nowMs) + (LAST_TRY + 1) * NAP_MS
      ensures !ok ==> nowMs == old(nowMs) + (LAST_TRY + 1) * NAP_MS
      ensures old(lock.None?) ==> nowMs == old(nowMs)
    {
      var i := 0;
      while true
        invariant 0 <= i <= LAST_TRY + 1 && pidFile == old(pidFile)
        invariant nowMs == old(nowMs) + i * NAP_MS && (i > 0 ==> old(lock).Some?)
        invariant lock == old(lock) || lock.None?
        invariant lock.Some? && i > 0 ==> old(nowMs) + (i - 1) * NAP_MS - old(lock).value <= LOCK_STALE_MS
        invariant lock.None? && old(lock).Some? ==> old(nowMs) + (i - 1) * NAP_MS - old(lock).value > LOCK_STALE_MS
        decreases LAST_TRY + 1 - i
      {
        if lock.None? {
          lock := Some(nowMs);
          return true;
        }
        if nowMs - lock.value > LOCK_STALE_MS { lock := None; }
        if i > LAST_TRY { return false; }
        nowMs := nowMs + NAP_MS;
        i := i + 1;
      }
    }

    method ClaimWorkerPid(pid: int, isOwnerLive: int -> bool) returns (r: ClaimResult)
      modifies this
      ensures r.LockTimeout? <==> !old(WillAcquire())
      ensures r.LockTimeout? ==> pidFile == old(pidFile)
      ensures !r.LockTimeout? ==>
                && lock == None
                && (r, pidFile) == ClaimOutcome(old(pidFile), pid, Names(old(pidFile), isOwnerLive))
    {
      var ok := AcquireClaimLock();
      if !ok { return LockTimeout; }
      var existing := pidFile;
      if existing == Some(pid) {
        r := Claimed;
      } else if existing.Some? && isOwnerLive(existing.value) {
        r := Refused(existing.value);
      } else {
        pidFile := Some(pid);
        r := Claimed;
      }
      lock := None;
    }

    /** Removes the claim only while it is still `pid`'s; a lock that cannot be had is ignored. */
    method ReleaseWorkerPid(pid: int)
      modifies this
      ensures pidFile == if old(WillAcquire()) && old(pidFile) == Some(pid) then None else old(pidFile)
      ensures old(WillAcquire()) ==> lock == None
    {
      var ok := AcquireClaimLock();
      if !ok { return; }
      if pidFile == Some(pid) { pidFile := None; }
      lock := None;
    }

    /**
     `startWorker`: refuses, or spawns `child` and claims for it, killing it when
     the claim is lost; a spawn may yield no pid. `raced` is a worker, the child
     among them, whose claim lands after the first look.
     */
    method StartWorker(child: Option<int>, isLiveWorker: int -> bool, raced: Option<int>) returns (r: StartResult, killed: bool)
      modifies this
      ensures Names(old(pidFile), isLiveWorker) ==>
                r == AlreadyRunning(old(pidFile).value) && pidFile == old(pidFile) && lock == old(lock)
      ensures !Names(old(pidFile), isLiveWorker) && child.None? ==>
                r == SpawnFailed && pidFile == Else(raced, old(pidFile)) && lock == old(lock)
      ensures !Names(old(pidFile), isLiveWorker) && child.Some? && !old(WillAcquire()) ==>
                r == ClaimTimedOut && pidFile == Else(raced, old(pidFile))
      ensures !Names(old(pidFile), isLiveWorker) && child.Some? && old(WillAcquire()) ==>
                if Names(raced, isLiveWorker) && raced != child then r == AlreadyRunning(raced.value) && pidFile == raced
                else r == Started(child.value) && pidFile == child
      ensures killed <==> r.AlreadyRunning? && !Names(old(pidFile), isLiveWorker)
    {
      killed := false;
      if pidFile.Some? && isLiveWorker(pidFile.value) {
        return AlreadyRunning(pidFile.value), false;
      }
      if raced.Some? { pidFile := raced; }
      if child.None? { return SpawnFailed, false; }
      var claim := ClaimWorkerPid(child.value, isLiveWorker);
      match claim {
        case Claimed => r := Started(child.value);
        case Refused(owner) => r, killed := AlreadyRunning(owner), true;
        case LockTimeout => r := ClaimTimedOut;
      }
    }

    /** `stopWorker`: clears a dead pid, signals a live one and leaves its claim to it. */
    method StopWorker(isAlive: int -> bool) returns (r: StopResult)
      modifies this`pidFile
      ensures old(pidFile).None? ==> r == NotRunning && pidFile == None
      ensures old(pidFile).Some? && !isAlive(old(pidFile).value) ==> r == StalePidCleared && pidFile == None
      ensures Names(old(pidFile), isAlive) ==> r == Stopped(old(pidFile).value) && pidFile == old(pidFile)
    {
      if pidFile.None? { return NotRunning; }
      if !isAlive(pidFile.value) {
        pidFile := None;
        return StalePidCleared;
      }
      return Stopped(pidFile.value);
    }
  }

  // ── the sequential claim is a run of the protocol ──────────────────────────

  /** The protocol steps of one uninterrupted claim by `p` for `subject`. */
  function ClaimRun(existing: Option<int>, p: int, subject: int, live: bool): seq<Protocol.Step> {
    if existing == Some(subject) then
      [Protocol.BeginClaim(p, subject), Protocol.Lock(p), Protocol.Read(p), Protocol.Unlock(p)]
    else if existing.Some? && live then
      [Protocol.BeginClaim(p, subject), Protocol.Lock(p), Protocol.Read(p), Protocol.Decide(p, true), Protocol.Unlock(p)]
    else
      [Protocol.BeginClaim(p, subject), Protocol.Lock(p), Protocol.Read(p), Protocol.Decide(p, false),
       Protocol.Rename(p), Protocol.Unlock(p)]
  }

  ghost predicate CanClaimAlone(s: Protocol.State, p: int, subject: int, live: bool) {
    && Safety.Inv(s) && p in s.alive && Protocol.At(s, p) == Protocol.Idle && !s.lock
    && subject in s.alive && !Protocol.Releasing(Protocol.At(s, subject))
    && (s.pidFile.Some? && s.pidFile.value in s.owners ==> live)
  }

  /** Run alone, the protocol's claim leaves the file `ClaimWorkerPid` leaves, and owns exactly when that returns ok. */
  lemma ClaimRunMatchesOutcome(s: Protocol.State, p: int, subject: int, live: bool)
    requires CanClaimAlone(s, p, subject, live)
    ensures EndsAs(Protocol.Exec(s, ClaimRun(s.pidFile, p, subject, live)), subject,
                   ClaimOutcome(s.pidFile, subject, live).0, ClaimOutcome(s.pidFile, subject, live).1)
  {
    Safety.OwnersFollowFile(s);
    if s.pidFile == Some(subject) {
      Confirmed(s, p, subject);
    } else if s.pidFile.Some? && live {
      Turned(s, p, subject);
    } else {
      Written(s, p, subject);
    }
  }

  ghost predicate EndsAs(end: Option<Protocol.State>, subject: int, r: ClaimResult, file: Option<int>) {
    && end.Some? && !end.value.lock && end.value.pidFile == file
    && (r.Claimed? <==> subject in end.value.owners)
  }

  /** The file already names the subject. */
  lemma Confirmed(s: Protocol.State, p: int, subject: int)
    requires p in s.alive && Protocol.At(s, p) == Protocol.Idle && !s.lock && s.pidFile == Some(subject)
    requires subject in s.alive && !Protocol.Releasing(Protocol.At(s, subject))
    ensures EndsAs(Protocol.Exec(s, ClaimRun(s.pidFile, p, subject, true)), subject, Claimed, s.pidFile)
    ensures ClaimRun(s.pidFile, p, subject, false) == ClaimRun(s.pidFile, p, subject, true)
  {
    var st := ClaimRun(s.pidFile, p, subject, true);
    var s1 := Protocol.Apply(s, st[0]);
    var s2 := Protocol.Apply(s1, st[1]);
    var s3 := Protocol.Apply(s2, st[2]);
    var t := Protocol.Apply(s3, st[3]);
    assert Protocol.Exec(s3, st[3..]) == Some(t);
    assert Protocol.Exec(s2, st[2..]) == Some(t);
    assert Protocol.Exec(s1, st[1..]) == Some(t);
  }

  /** The file names a live owner: refused. */
  lemma Turned(s: Protocol.State, p: int, subject: int)
    requires p in s.alive && Protocol.At(s, p) == Protocol.Idle && !s.lock
    requires s.pidFile.Some? && s.pidFile != Some(subject) && subject !in s.owners
    ensures EndsAs(Protocol.Exec(s, ClaimRun(s.pidFile, p, subject, true)), subject, Refused(s.pidFile.value), s.pidFile)
  {
    var st := ClaimRun(s.pidFile, p, subject, true);
    var s1 := Protocol.Apply(s, st[0]);
    var s2 := Protocol.Apply(s1, st[1]);
    var s3 := Protocol.Apply(s2, st[2]);
    var s4 := Protocol.Apply(s3, st[3]);
    var t := Protocol.Apply(s4, st[4]);
    assert Protocol.Exec(s4, st[4..]) == Some(t);
    assert Protocol.Exec(s3, st[3..]) == Some(t);
    assert Protocol.Exec(s2, st[2..]) == Some(t);
    assert Protocol.Exec(s1, st[1..]) == Some(t);
  }

  /** The file is absent or names nobody live: taken over. */
  lemma Written(s: Protocol.State, p: int, subject: int)
    requires p in s.alive && Protocol.At(s, p) == Protocol.Idle && !s.lock && s.pidFile != Some(subject)
    requires s.owners == {} && subject in s.alive && !Protocol.Releasing(Protocol.At(s, subject))
    ensures EndsAs(Protocol.Exec(s, ClaimRun(s.pidFile, p, subject, false)), subject, Claimed, Some(subject))
  {
    var st := ClaimRun(s.pidFile, p, subject, false);
    var s1 := Protocol.Apply(s, st[0]);
    var s2 := Protocol.Apply(s1, st[1]);
    var s3 := Protocol.Apply(s2, st[2]);
    var s4 := Protocol.Apply(s3, st[3]);
    var s5 := Protocol.Apply(s4, st[4]);
    var t := Protocol.Apply(s5, st[5]);
    assert Protocol.Exec(s5, st[5..]) == Some(t);
    assert Protocol.Exec(s4, st[4..]) == Some(t);
    assert Protocol.Exec(s3, st[3..]) == Some(t);
    assert Protocol.Exec(s2, st[2..]) == Some(t);
    assert Protocol.Exec(s1, st[1..]) == Some(t);
  }

  // ── and so are the sequential release and stop ─────────────────────────────

  /** The protocol steps of one uninterrupted release by `p`. */
  function ReleaseRun(file: Option<int>, p: int): seq<Protocol.Step> {
    if file == Some(p) then
      [Protocol.BeginRelease(p), Protocol.Lock(p), Protocol.Read(p), Protocol.Clear(p), Protocol.Unlock(p)]
    else
      [Protocol.BeginRelease(p), Protocol.Lock(p), Protocol.Read(p), Protocol.Unlock(p)]
  }

  /** The protocol steps of one uninterrupted stop by `p`; where there is no file it takes none. */
  function StopRun(file: Option<int>, p: int, live: bool): seq<Protocol.Step> {
    if file.None? then []
    else if live then [Protocol.StopReads(p), Protocol.StopTests(p)]
    else [Protocol.StopReads(p), Protocol.StopTests(p), Protocol.StopUnlinks(p)]
  }

  ghost predicate IsAlone(s: Protocol.State, p: int) {
    p in s.alive && Protocol.At(s, p) == Protocol.Idle && !s.lock
  }

  /** Between its start and its end an operation changed the file to `file` and the owners to `owners`, and nothing else. */
  ghost predicate EndsWith(s: Protocol.State, end: Option<Protocol.State>, file: Option<int>, owners: set<int>) {
    && end.Some? && end.value.pidFile == file && end.value.owners == owners
    && end.value.lock == s.lock && end.value.alive == s.alive
    && (forall q :: Protocol.At(end.value, q) == Protocol.At(s, q))
  }

  /** A release of a claim that is there: the file goes, the ownership with it. */
  lemma Released(s: Protocol.State, p: int)
    requires IsAlone(s, p) && s.pidFile == Some(p)
    ensures EndsWith(s, Protocol.Exec(s, ReleaseRun(s.pidFile, p)), None, s.owners - {p})
  {
    var st := ReleaseRun(s.pidFile, p);
    var s1 := Protocol.Apply(s, st[0]);
    var s2 := Protocol.Apply(s1, st[1]);
    var s3 := Protocol.Apply(s2, st[2]);
    var s4 := Protocol.Apply(s3, st[3]);
    var t := Protocol.Apply(s4, st[4]);
    assert Protocol.Exec(s4, st[4..]) == Some(t);
    assert Protocol.Exec(s3, st[3..]) == Some(t);
    assert Protocol.Exec(s2, st[2..]) == Some(t);
    assert Protocol.Exec(s1, st[1..]) == Some(t);
  }

  /** A release that finds no file, or another's: it stays. */
  lemma NothingToRelease(s: Protocol.State, p: int)
    requires IsAlone(s, p) && s.pidFile != Some(p)
    ensures EndsWith(s, Protocol.Exec(s, ReleaseRun(s.pidFile, p)), s.pidFile, s.owners - {p})
  {
    var st := ReleaseRun(s.pidFile, p);
    var s1 := Protocol.Apply(s, st[0]);
    var s2 := Protocol.Apply(s1, st[1]);
    var s3 := Protocol.Apply(s2, st[2]);
    var t := Protocol.Apply(s3, st[3]);
    assert Protocol.Exec(s3, st[3..]) == Some(t);
    assert Protocol.Exec(s2, st[2..]) == Some(t);
    assert Protocol.Exec(s1, st[1..]) == Some(t);
  }

  /** Run alone, the protocol's release leaves the file `ReleaseWorkerPid` leaves, and its process owns nothing. */
  lemma ReleaseRunMatchesOutcome(s: Protocol.State, p: int)
    requires IsAlone(s, p)
    ensures EndsWith(s, Protocol.Exec(s, ReleaseRun(s.pidFile, p)),
                     if s.pidFile == Some(p) then None else s.pidFile, s.owners - {p})
  {
    if s.pidFile == Some(p) {
      Released(s, p);
    } else {
      NothingToRelease(s, p);
    }
  }

  /** Run alone, the protocol's stop leaves the file `StopWorker` leaves, and changes nothing else. */
  lemma StopRunMatchesOutcome(s: Protocol.State, p: int)
    requires IsAlone(s, p)
    ensures var live := s.pidFile.Some? && s.pidFile.value in s.alive;
            EndsWith(s, Protocol.Exec(s, StopRun(s.pidFile, p, live)),
                     if live then s.pidFile else None, s.owners)
  {
    if s.pidFile.Some? {
      var live := s.pidFile.value in s.alive;
      var st := StopRun(s.pidFile, p, live);
      var s1 := Protocol.Apply(s, st[0]);
      var s2 := Protocol.Apply(s1, st[1]);
      if live {
        assert Protocol.Exec(s1, st[1..]) == Some(s2);
      } else {
        var t := Protocol.Apply(s2, st[2]);
        assert Protocol.Exec(s2, st[2..]) == Some(t);
        assert Protocol.Exec(s1, st[1..]) == Some(t);
      }
    }
  }
}
