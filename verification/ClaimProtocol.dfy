/**
 The worker.pid protocol of src/cli/pid.ts, src/cli/start.ts and src/cli/stop.ts
 as interleaved steps of any number of processes. The lock file and the pid file
 are shared; each process is at one point of one claim, release or stop. A
 process may die between any two steps, its pid may be used again afterwards,
 and a claim may be made for another process (a spawned child).
 */
module ClaimProtocol {
  import opened Prelude

  type Pid = int

  /** Where a process is. `subject` is the pid a claim is for. */
  datatype Point =
    | Idle
    | ClaimWaits(subject: Pid)                           // retrying openSync(lock, 'wx')
    | ClaimLocked(subject: Pid)
    | ClaimRead(subject: Pid, existing: Option<Pid>)     // readPid returned another pid, or none
    | ClaimWrites(subject: Pid, existing: Option<Pid>)   // found absent or not live
    | ReleaseWaits
    | ReleaseLocked
    | ReleaseClears                                      // read its own pid
    | Unlocks                                            // about to unlink the lock
    | StopChecks(pid: Pid)                               // stop read this pid
    | StopClears                                         // stop found it dead

  /**
   `lock` says the lock file exists, `pidFile` is worker.pid, and `owners` are the
   live processes a claim succeeded for that have not begun to release.
   */
  datatype State = State(lock: bool, pidFile: Option<Pid>, alive: set<Pid>, owners: set<Pid>, at: map<Pid, Point>)

  datatype Step =
    | Spawn(p: Pid)
    | Die(p: Pid)
    | BeginClaim(p: Pid, subject: Pid)
    | BeginRelease(p: Pid)
    | Lock(p: Pid)
    | GiveUp(p: Pid)             // the 501st try throws
    | BreakLock(p: Pid)          // unlinks a lock it found stale
    | Read(p: Pid)
    | Decide(p: Pid, live: bool)
    | Rename(p: Pid)
    | Clear(p: Pid)
    | Unlock(p: Pid)
    | StopReads(p: Pid)
    | StopTests(p: Pid)
    | StopUnlinks(p: Pid)

  function At(s: State, p: Pid): Point {
    if p in s.at then s.at[p] else Idle
  }

  predicate Waits(point: Point) {
    point.ClaimWaits? || point.ReleaseWaits?
  }

  /** Between creating the lock and unlinking it. */
  predicate Critical(point: Point) {
    || point.ClaimLocked? || point.ClaimRead? || point.ClaimWrites?
    || point.ReleaseLocked? || point.ReleaseClears? || point.Unlocks?
  }

  predicate Releasing(point: Point) {
    point.ReleaseWaits? || point.ReleaseLocked? || point.ReleaseClears?
  }

  /** Any stale pid may be in the file to begin with. */
  predicate Init(s: State) {
    !s.lock && s.owners == {} && s.at == map[]
  }

  /** When a step can happen. The liveness check recognises a live owner; of any other pid it may say anything. */
  predicate Enabled(s: State, step: Step) {
    match step
    case Spawn(p) => p !in s.alive
    case Die(p) => p in s.alive
    case BeginClaim(p, _) => p in s.alive && At(s, p) == Idle
    case BeginRelease(p) => p in s.alive && At(s, p) == Idle
    case Lock(p) => p in s.alive && !s.lock && Waits(At(s, p))
    case GiveUp(p) => p in s.alive && Waits(At(s, p))
    case BreakLock(p) => p in s.alive && s.lock && Waits(At(s, p))
    case Read(p) => p in s.alive && (At(s, p).ClaimLocked? || At(s, p).ReleaseLocked?)
    case Decide(p, live) =>
      && p in s.alive && At(s, p).ClaimRead?
      && (At(s, p).existing.Some? && At(s, p).existing.value in s.owners ==> live)
    case Rename(p) => p in s.alive && At(s, p).ClaimWrites?
    case Clear(p) => p in s.alive && At(s, p).ReleaseClears?
    case Unlock(p) => p in s.alive && At(s, p).Unlocks?
    case StopReads(p) => p in s.alive && At(s, p) == Idle && s.pidFile.Some?
    case StopTests(p) => p in s.alive && At(s, p).StopChecks?
    case StopUnlinks(p) => p in s.alive && At(s, p).StopClears?
  }

  function Goto(s: State, p: Pid, point: Point): State {
    s.(at := s.at[p := point])
  }

  /** A claim succeeds for the process its subject now is, unless that one is already on its way out. */
  function Owned(s: State, subject: Pid): set<Pid> {
    s.owners + if subject in s.alive && !Releasing(At(s, subject)) then {subject} else {}
  }

  function Apply(s: State, step: Step): State
    requires Enabled(s, step)
  {
    match step
    case Spawn(p) => Goto(s.(alive := s.alive + {p}), p, Idle)
    case Die(p) => Goto(s.(alive := s.alive - {p}, owners := s.owners - {p}), p, Idle)
    case BeginClaim(p, subject) => Goto(s, p, ClaimWaits(subject))
    case BeginRelease(p) => Goto(s.(owners := s.owners - {p}), p, ReleaseWaits)
    case Lock(p) =>
      Goto(s.(lock := true), p,
           if At(s, p).ClaimWaits? then ClaimLocked(At(s, p).subject) else ReleaseLocked)
    case GiveUp(p) => Goto(s, p, Idle)
    case BreakLock(p) => s.(lock := false)
    case Read(p) =>
      var c := At(s, p);
      if c.ReleaseLocked? then Goto(s, p, if s.pidFile == Some(p) then ReleaseClears else Unlocks)
      else if s.pidFile == Some(c.subject) then Goto(s.(owners := Owned(s, c.subject)), p, Unlocks)
      else Goto(s, p, ClaimRead(c.subject, s.pidFile))
    case Decide(p, live) =>
      var c := At(s, p);
      Goto(s, p, if c.existing.Some? && live then Unlocks else ClaimWrites(c.subject, c.existing))
    case Rename(p) =>
      Goto(s.(pidFile := Some(At(s, p).subject), owners := Owned(s, At(s, p).subject)), p, Unlocks)
    case Clear(p) => Goto(s.(pidFile := None), p, Unlocks)
    case Unlock(p) => Goto(s.(lock := false), p, Idle)
    case StopReads(p) => Goto(s, p, StopChecks(s.pidFile.value))
    case StopTests(p) => Goto(s, p, if At(s, p).pid in s.alive then Idle else StopClears)
    case StopUnlinks(p) => Goto(s.(pidFile := None), p, Idle)
  }

  // ── what makes a step harmless ─────────────────────────────────────────────

  /**
   A stale-lock break finds nobody inside. A stop's unlink finds no live owner's
   name in the file, or that of an owner which has just locked to claim anew and
   will write the file again.
   */
  predicate Harmless(s: State, step: Step) {
    match step
    case BreakLock(_) => forall p :: p in s.at ==> !Critical(s.at[p])
    case StopUnlinks(_) =>
      s.pidFile.Some? && s.pidFile.value in s.owners ==> At(s, s.pidFile.value) == ClaimLocked(s.pidFile.value)
    case _ => true
  }

  ghost predicate IsRun(states: seq<State>, steps: seq<Step>) {
    && |states| == |steps| + 1 && Init(states[0])
    && forall i :: 0 <= i < |steps| ==> Enabled(states[i], steps[i]) && states[i + 1] == Apply(states[i], steps[i])
  }

  ghost predicate IsHarmlessRun(states: seq<State>, steps: seq<Step>) {
    IsRun(states, steps) && forall i :: 0 <= i < |steps| ==> Harmless(states[i], steps[i])
  }

  /** Performs the steps in turn, if each can happen. */
  function Exec(s: State, steps: seq<Step>): Option<State>
    decreases |steps|
  {
    if steps == [] then Some(s)
    else if !Enabled(s, steps[0]) then None
    else Exec(Apply(s, steps[0]), steps[1..])
  }

  /** One process's whole claim, for itself, that finds no live owner. */
  function ClaimSteps(p: Pid): seq<Step> {
    [BeginClaim(p, p), Lock(p), Read(p), Decide(p, false), Rename(p), Unlock(p)]
  }
}
