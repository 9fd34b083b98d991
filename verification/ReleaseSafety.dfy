/**
 What a release and a stop do to worker.pid (src/cli/pid.ts, src/cli/stop.ts), among
 the steps of other processes and alone.
 */
module ReleaseSafety {
  import opened ClaimProtocol
  import opened ClaimSafety
  import opened Prelude

  /** From a release's first step on, `p` neither dies nor gives up, and has not unlocked yet. */
  ghost predicate ReleaseUnderWay(steps: seq<Step>, i: nat, k: nat, p: Pid) {
    && i < k <= |steps| && steps[i] == BeginRelease(p)
    && forall j :: i < j < k ==> steps[j] != Die(p) && steps[j] != GiveUp(p) && steps[j] != Unlock(p)
  }

  /** While a release is under way its process is on the way out, and once past the file the file is not its own. */
  predicate OnTheWayOut(s: State, p: Pid) {
    && p in s.alive && p !in s.owners && (Releasing(At(s, p)) || At(s, p).Unlocks?)
    && (At(s, p).Unlocks? ==> s.pidFile != Some(p))
  }

  lemma StepKeepsWayOut(s: State, step: Step, p: Pid)
    requires Inv(s) && Enabled(s, step) && Harmless(s, step) && OnTheWayOut(s, p)
    requires step != Die(p) && step != GiveUp(p) && step != Unlock(p)
    ensures OnTheWayOut(Apply(s, step), p)
  {
    assert PointHolds(s, p) && PointHolds(s, step.p);
    assert Critical(At(s, p)) && Critical(At(s, step.p)) ==> p == step.p;
  }

  lemma {:induction false} WayOutIsKept(states: seq<State>, steps: seq<Step>, i: nat, k: nat, p: Pid)
    requires IsHarmlessRun(states, steps) && ReleaseUnderWay(steps, i, k, p)
    ensures OnTheWayOut(states[k], p)
    decreases k
  {
    RunKeepsInv(states, steps, k - 1);
    if k > i + 1 {
      WayOutIsKept(states, steps, i, k - 1, p);
      StepKeepsWayOut(states[k - 1], steps[k - 1], p);
    }
  }

  /**
   However other processes' steps fall between its own, a release that reaches its
   unlock leaves the lock free and worker.pid without its pid, and owns nothing.
   */
  lemma ReleaseLeavesNoClaim(states: seq<State>, steps: seq<Step>, i: nat, k: nat, p: Pid)
    requires IsHarmlessRun(states, steps) && ReleaseUnderWay(steps, i, k, p) && k < |steps| && steps[k] == Unlock(p)
    ensures states[k + 1].pidFile != Some(p) && p !in states[k + 1].owners
    ensures !states[k + 1].lock && At(states[k + 1], p) == Idle
  {
    WayOutIsKept(states, steps, i, k, p);
  }

  // ── every operation can end ────────────────────────────────────────────────

  /** Left alone, `p` can finish what it is doing by steps of its own, without dying. */
  ghost predicate CanFinish(s: State, p: Pid) {
    exists steps: seq<Step> ::
      && (forall i :: 0 <= i < |steps| ==> steps[i].p == p && !steps[i].Die?)
      && Exec(s, steps).Some? && At(Exec(s, steps).value, p) == Idle
  }

  lemma OneStepCloser(s: State, step: Step)
    requires Enabled(s, step) && !step.Die? && CanFinish(Apply(s, step), step.p)
    ensures CanFinish(s, step.p)
  {
    var rest: seq<Step> :|
      && (forall i :: 0 <= i < |rest| ==> rest[i].p == step.p && !rest[i].Die?)
      && Exec(Apply(s, step), rest).Some? && At(Exec(Apply(s, step), rest).value, step.p) == Idle;
    var steps := [step] + rest;
    assert steps[1..] == rest;
    assert Exec(s, steps) == Exec(Apply(s, step), rest);
  }

  function StepsLeft(point: Point): nat {
    match point
    case Idle => 0
    case ClaimLocked(_) => 4
    case ClaimRead(_, _) => 3
    case ClaimWrites(_, _) => 2
    case ReleaseLocked => 3
    case ReleaseClears => 2
    case StopChecks(_) => 2
    case _ => 1
  }

  /** What `p` can do next; a claim that cannot tell takes the owner it read for live. */
  function NextStep(s: State, p: Pid): Step
    requires At(s, p) != Idle
  {
    match At(s, p)
    case ClaimWaits(_) => GiveUp(p)
    case ReleaseWaits => GiveUp(p)
    case ClaimLocked(_) => Read(p)
    case ReleaseLocked => Read(p)
    case ClaimRead(_, _) => Decide(p, true)
    case ClaimWrites(_, _) => Rename(p)
    case ReleaseClears => Clear(p)
    case Unlocks => Unlock(p)
    case StopChecks(_) => StopTests(p)
    case StopClears => StopUnlinks(p)
  }

  /** No claim, release or stop waits on another process for ever: in whatever state, each can be brought to its end. */
  lemma {:induction false} NobodyIsTrapped(s: State, p: Pid)
    requires p in s.alive
    ensures CanFinish(s, p)
    decreases StepsLeft(At(s, p))
  {
    if At(s, p) == Idle {
      assert Exec(s, []) == Some(s);
    } else {
      var step := NextStep(s, p);
      NobodyIsTrapped(Apply(s, step), p);
      OneStepCloser(s, step);
    }
  }
}
