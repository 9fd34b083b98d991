/**
 Who may touch the work tree: the startup reset, a cycle's prepare and run, and
 the reset of a self-heal, interleaved as src/cli/worker-runtime.ts,
 src/sthapathi/index.ts (`runCycle`) and src/sthapathi/self-heal.ts let them.
 */
module SelfHeal {

  import opened Prelude

  // ── shouldSelfHeal ─────────────────────────────────────────────────────────

  datatype PauseSnapshot = PauseSnapshot(paused: bool, reason: string)

  predicate IsStuckPaused(s: Option<PauseSnapshot>) {
    s.Some? && s.value.paused && s.value.reason == "stuck"
  }

  predicate ShouldSelfHeal(prev: Option<PauseSnapshot>, curr: Option<PauseSnapshot>, hasActiveRun: bool, healing: bool) {
    IsStuckPaused(prev) && !IsStuckPaused(curr) && hasActiveRun && !healing
  }

  // ── the worker's state ─────────────────────────────────────────────────────

  datatype StartupStage = NotYet | StartupReset | Settled

  /**
   Where the scheduler's one cycle stands. A selection remembers whether it went
   on past its look at `healing`; `Unwinding` is a run that has returned to a
   cycle whose `finally` has not put the phase back yet.
   */
  datatype CycleStage = Idle | Selecting(proceeds: bool) | Preparing | Running | Unwinding

  datatype HealStage = NoHeal | AwaitingRun(run: nat) | HealReset(run: nat)

  datatype State = State(
    startup: StartupStage,
    cycle: CycleStage,
    activeRun: Option<nat>,
    heal: HealStage,
    prevPause: Option<PauseSnapshot>,
    nextRun: nat,
    finished: set<nat>,
    aborted: set<nat>,
    heals: nat)

  const INITIAL := State(NotYet, Idle, None, NoHeal, None, 0, {}, {}, 0)

  predicate Healing(s: State) {
    s.heal != NoHeal
  }

  /** `getPhase(id) != 'IDLE'`: an unwinding cycle still shows the phase it worked in. */
  predicate PhaseActive(s: State) {
    s.cycle != Idle
  }

  // ── steps: everything one turn of the event loop can do ────────────────────

  datatype Step =
    | BeginStartupReset
    | SettleStartup
    | BeginCycle
    | Selected(found: bool)
    | Prepared(ok: bool)
    | RunReturns
    | CycleReturns
    | WatchTick(curr: Option<PauseSnapshot>)
    | RunDone
    | HealDone

  predicate Enabled(s: State, step: Step) {
    match step
    case BeginStartupReset => s.startup == NotYet
    case SettleStartup => s.startup != Settled
    case BeginCycle => s.startup == Settled
    case Selected(found) => s.cycle.Selecting? && (found ==> s.cycle.proceeds)
    case Prepared(_) => s.cycle.Preparing?
    case RunReturns => s.cycle.Running? && s.activeRun.Some?
    case CycleReturns => s.cycle.Unwinding?
    case WatchTick(_) => true
    case RunDone => s.heal.AwaitingRun? && s.heal.run in s.finished
    case HealDone => s.heal.HealReset?
  }

  function Apply(s: State, step: Step): State
    requires Enabled(s, step)
  {
    match step
    case BeginStartupReset => s.(startup := StartupReset)
    case SettleStartup => s.(startup := Settled)
    case BeginCycle => if PhaseActive(s) then s else s.(cycle := Selecting(!Healing(s)))
    case Selected(found) => s.(cycle := if found then Preparing else Idle)
    case Prepared(ok) =>
      if ok then s.(cycle := Running, activeRun := Some(s.nextRun), nextRun := s.nextRun + 1) else s.(cycle := Idle)
    case RunReturns => s.(cycle := Unwinding, activeRun := None, finished := s.finished + {s.activeRun.value})
    case CycleReturns => s.(cycle := Idle)
    case WatchTick(curr) =>
      if ShouldSelfHeal(s.prevPause, curr, s.activeRun.Some?, Healing(s))
      then s.(heal := AwaitingRun(s.activeRun.value), aborted := s.aborted + {s.activeRun.value},
               prevPause := curr, heals := s.heals + 1)
      else s.(prevPause := curr)
    case RunDone => s.(heal := HealReset(s.heal.run))
    case HealDone => s.(heal := NoHeal)
  }

  // ── who touches the work tree ──────────────────────────────────────────────

  predicate ResetUnderway(s: State) {
    s.startup == StartupReset || s.heal.HealReset?
  }

  predicate CycleTouchesTree(s: State) {
    s.cycle.Preparing? || s.cycle.Running?
  }

  /** Nothing resets the tree under a cycle that prepares or runs, and no two resets meet. */
  predicate TreeIsSafe(s: State) {
    && !(ResetUnderway(s) && CycleTouchesTree(s))
    && !(s.startup == StartupReset && s.heal.HealReset?)
  }

  predicate Inv(s: State) {
    && (s.startup != Settled ==> s.cycle == Idle && s.heal == NoHeal)
    && (s.cycle.Running? <==> s.activeRun.Some?)
    && (s.activeRun.Some? ==> s.activeRun.value < s.nextRun && s.activeRun.value !in s.finished)
    && (forall r :: r in s.finished ==> r < s.nextRun) && (forall r :: r in s.aborted ==> r < s.nextRun)
    && (Healing(s) ==> s.cycle != Selecting(true) && !s.cycle.Preparing? && s.heal.run in s.aborted)
    && (s.heal.AwaitingRun? ==> s.heal.run in s.finished || s.activeRun == Some(s.heal.run))
    && (s.heal.AwaitingRun? && s.cycle.Running? ==> s.activeRun == Some(s.heal.run))
    && (s.heal.HealReset? ==> s.heal.run in s.finished && !s.cycle.Running?)
  }

  lemma StepKeepsInv(s: State, step: Step)
    requires Inv(s) && Enabled(s, step)
    ensures Inv(Apply(s, step))
  {
  }

  ghost predicate IsRun(s: State, steps: seq<Step>)
    decreases |steps|
  {
    steps != [] ==> Enabled(s, steps[0]) && IsRun(Apply(s, steps[0]), steps[1..])
  }

  ghost function After(s: State, steps: seq<Step>): State
    requires IsRun(s, steps)
    decreases |steps|
  {
    if steps == [] then s else After(Apply(s, steps[0]), steps[1..])
  }

  lemma {:induction false} RunKeepsInv(s: State, steps: seq<Step>)
    requires Inv(s) && IsRun(s, steps)
    ensures Inv(After(s, steps))
    decreases |steps|
  {
    if steps != [] {
      StepKeepsInv(s, steps[0]);
      RunKeepsInv(Apply(s, steps[0]), steps[1..]);
    }
  }

  // ── the worker's own form of these steps ───────────────────────────────────

  /** `createWorkerRuntime`'s variables and the scheduler's phase, set and cleared by its hooks and timers. */
  class WorkerRuntime {
    var startup: StartupStage
    var cycle: CycleStage
    var activeRun: Option<nat>
    var healing: bool
    var resetting: bool
    var healed: nat
    var prevPause: Option<PauseSnapshot>
    var nextRun: nat
    var finished: set<nat>
    var aborted: set<nat>
    /** How many heals have been started. */
    var heals: nat

    function View(): State
      reads this
    {
      State(startup, cycle, activeRun,
        if !healing then NoHeal else if resetting then HealReset(healed) else AwaitingRun(healed),
        prevPause, nextRun, finished, aborted, heals)
    }

    ghost predicate Valid()
      reads this
    {
      Inv(View())
    }

    constructor ()
      ensures Valid() && View() == INITIAL
    {
      startup, cycle, activeRun := NotYet, Idle, None;
      healing, resetting, healed := false, false, 0;
      prevPause, nextRun, finished, aborted, heals := None, 0, {}, {}, 0;
    }

    /** `startup` before its `resetWorkTree`: no cycle and no heal is there for the reset to meet. */
    method BeginStartup()
      requires Valid() && startup == NotYet
      modifies this`startup
      ensures Valid() && View() == Apply(old(View()), BeginStartupReset)
      ensures !CycleTouchesTree(View()) && !Healing(View())
    {
      startup := StartupReset;
    }

    method EndStartup()
      requires Valid() && startup != Settled
      modifies this`startup
      ensures Valid() && View() == Apply(old(View()), SettleStartup)
      ensures !ResetUnderway(View())
    {
      startup := Settled;
    }

    /**
     The head of `runCycle`, with the `healing` check `selectNext` makes before its
     first await. A cycle under way is left alone; a new one can come to prepare a
     task exactly if no heal is under way.
     */
    method BeginCycle()
      requires Valid() && startup == Settled
      modifies this`cycle
      ensures Valid() && View() == Apply(old(View()), Step.BeginCycle)
      ensures old(PhaseActive(View())) ==> View() == old(View())
      ensures !old(PhaseActive(View())) ==> (Enabled(View(), Selected(true)) <==> !Healing(View()))
    {
      if cycle != Idle {
        return;
      }
      cycle := Selecting(!healing);
    }

    /** `selectNext` has answered; with a task, the tree is the cycle's alone from here. */
    method Select(found: bool)
      requires Valid() && Enabled(View(), Selected(found))
      modifies this`cycle
      ensures Valid() && View() == Apply(old(View()), Selected(found))
      ensures found ==> !ResetUnderway(View()) && !Healing(View())
    {
      cycle := if found then Preparing else Idle;
    }

    /**
     `prepareTask` has answered; a prepared task is run at once, publishing its
     handle: a handle no run had before and nobody has aborted, over a tree nobody
     is resetting.
     */
    method Prepare(ok: bool)
      requires Valid() && cycle == Preparing
      modifies this`cycle, this`activeRun, this`nextRun
      ensures Valid() && View() == Apply(old(View()), Prepared(ok))
      ensures !ResetUnderway(View()) && !Healing(View())
      ensures activeRun.Some? <==> ok
      ensures ok ==> activeRun.value !in finished && activeRun.value !in aborted
    {
      if !ok {
        cycle := Idle;
        return;
      }
      cycle := Running;
      activeRun := Some(nextRun);
      nextRun := nextRun + 1;
    }

    /** The `finally` of `runTask`, which resolves `done`: a heal that waits was waiting for this run. */
    method ReturnRun()
      requires Valid() && cycle == Running
      modifies this`cycle, this`activeRun, this`finished
      ensures Valid() && View() == Apply(old(View()), RunReturns)
      ensures PhaseActive(View())
      ensures Healing(View()) ==> Enabled(View(), RunDone) && View().heal.run == old(activeRun.value)
    {
      finished := finished + {activeRun.value};
      activeRun := None;
      cycle := Unwinding;
    }

    /** The `finally` of `runCycle`. */
    method ReturnCycle()
      requires Valid() && cycle == Unwinding
      modifies this`cycle
      ensures Valid() && View() == Apply(old(View()), CycleReturns)
      ensures !PhaseActive(View()) && activeRun.None?
    {
      cycle := Idle;
    }

    /**
     One tick of the resume watcher: a heal starts exactly on the stuck-to-resumed
     edge with a run in flight and no heal under way, and aborts that run alone.
     */
    method Watch(curr: Option<PauseSnapshot>)
      requires Valid()
      modifies this`healing, this`resetting, this`healed, this`aborted, this`prevPause, this`heals
      ensures Valid() && View() == Apply(old(View()), WatchTick(curr))
      ensures aborted != old(aborted) ==> Healing(View()) && activeRun == Some(View().heal.run) && aborted == old(aborted) + {healed}
      ensures heals == old(heals) + if Healing(View()) && !old(Healing(View())) then 1 else 0
      ensures Healing(View()) && !old(Healing(View())) <==>
        && !old(healing) && old(activeRun).Some?
        && (old(prevPause).Some? && old(prevPause).value == PauseSnapshot(true, "stuck"))
        && (curr.Some? ==> curr.value != PauseSnapshot(true, "stuck"))
    {
      if ShouldSelfHeal(prevPause, curr, activeRun != None, healing) {
        healed := activeRun.value;
        healing, resetting := true, false;
        aborted := aborted + {healed};
        heals := heals + 1;
      }
      prevPause := curr;
    }

    /** `run.done.then(() => resetWorkTree(…))`: the aborted run is over, and no cycle is at the tree. */
    method BeginHealReset()
      requires Valid() && healing && !resetting && healed in finished
      modifies this`resetting
      ensures Valid() && View() == Apply(old(View()), RunDone)
      ensures !CycleTouchesTree(View()) && healed in aborted
    {
      resetting := true;
    }

    /** The heal's `finally`; no run is in flight, so the next cycle starts on the reset tree. */
    method EndHeal()
      requires Valid() && healing && resetting
      modifies this`healing
      ensures Valid() && View() == Apply(old(View()), HealDone)
      ensures !Healing(View()) && activeRun.None?
    {
      healing := false;
    }

    method Perform(step: Step)
      requires Valid() && Enabled(View(), step)
      modifies this
      ensures Valid() && TreeIsSafe(View()) && View() == Apply(old(View()), step)
    {
      match step
      case BeginStartupReset => BeginStartup();
      case SettleStartup => EndStartup();
      case BeginCycle => BeginCycle();
      case Selected(found) => Select(found);
      case Prepared(ok) => Prepare(ok);
      case RunReturns => ReturnRun();
      case CycleReturns => ReturnCycle();
      case WatchTick(curr) => Watch(curr);
      case RunDone => BeginHealReset();
      case HealDone => EndHeal();
    }

    /** The event loop's turns, in whatever order they come: the tree is safe after each. */
    method Turns(steps: seq<Step>)
      requires Valid() && IsRun(View(), steps)
      modifies this
      ensures Valid() && View() == After(old(View()), steps)
      ensures TreeIsSafe(View())
    {
      ghost var start := View();
      for i := 0 to |steps|
        invariant Valid() && TreeIsSafe(View())
        invariant IsRun(View(), steps[i..]) && After(View(), steps[i..]) == After(start, steps)
      {
        assert steps[i..][0] == steps[i] && steps[i..][1..] == steps[i + 1..];
        Perform(steps[i]);
      }
    }
  }

  // ── over every run ─────────────────────────────────────────────────────────

  /** Whatever the timers, the loop and the operator do, no reset overlaps a prepare, a run or another reset. */
  lemma NoResetUnderACycle(steps: seq<Step>)
    requires IsRun(INITIAL, steps)
    ensures TreeIsSafe(After(INITIAL, steps))
    ensures var s := After(INITIAL, steps);
      s.startup == StartupReset || s.heal.HealReset? ==>
        && s.cycle != Preparing && s.cycle != Running
        && !(s.startup == StartupReset && s.heal.HealReset?)
    ensures var s := After(INITIAL, steps);
      s.heal.HealReset? ==> s.heal.run in s.aborted && s.heal.run in s.finished
  {
    RunKeepsInv(INITIAL, steps);
  }

  /** From the abort to the end of the reset it is one heal of one run, and no other run is started. */
  lemma {:induction false} HealHoldsRunsBack(s: State, steps: seq<Step>)
    requires Inv(s) && Healing(s) && IsRun(s, steps) && forall i :: 0 <= i < |steps| ==> !steps[i].HealDone?
    ensures var t := After(s, steps);
      && Healing(t) && t.heal.run == s.heal.run && t.heals == s.heals && t.nextRun == s.nextRun && t.aborted == s.aborted
      && !t.cycle.Preparing? && (t.cycle.Running? ==> t.activeRun == Some(s.heal.run))
    decreases |steps|
  {
    if steps != [] {
      StepKeepsInv(s, steps[0]);
      HealHoldsRunsBack(Apply(s, steps[0]), steps[1..]);
    }
  }

  /**
   `done` resolves in the run's own `finally`: whichever run it is, the phase is still
   that run's, and a heal that waits for it may reset at once.
   */
  lemma DoneResolvesBeforeIdle(s: State)
    requires Inv(s) && Enabled(s, RunReturns)
    ensures var t := Apply(s, RunReturns);
      PhaseActive(t) && s.activeRun.value in t.finished && (Healing(t) <==> Enabled(t, RunDone))
  {
    StepKeepsInv(s, RunReturns);
  }

  /** A reset begins while its run unwinds, when no cycle is there, or during a selection that will end in nothing. */
  predicate MayReset(cycle: CycleStage) {
    cycle == Unwinding || cycle == Idle || cycle == Selecting(false)
  }

  /**
   The heal's reaction to `done` is queued before the cycle goes on: a cycle does not
   return while a heal that waited for its run has yet to begin its reset.
   */
  ghost predicate InQueueOrder(s: State, steps: seq<Step>)
    requires IsRun(s, steps)
    decreases |steps|
  {
    steps != [] ==>
      && (steps[0].CycleReturns? ==> !Enabled(s, RunDone))
      && InQueueOrder(Apply(s, steps[0]), steps[1..])
  }

  /** A heal whose run is over has yet to reset only while that run's cycle unwinds. */
  predicate WaitsWhileUnwinding(s: State) {
    Enabled(s, RunDone) ==> s.cycle == Unwinding
  }

  lemma {:induction false} QueueOrderKeeps(s: State, steps: seq<Step>)
    requires Inv(s) && WaitsWhileUnwinding(s) && IsRun(s, steps) && InQueueOrder(s, steps)
    ensures Inv(After(s, steps)) && WaitsWhileUnwinding(After(s, steps))
    decreases |steps|
  {
    if steps != [] {
      StepKeepsInv(s, steps[0]);
      QueueOrderKeeps(Apply(s, steps[0]), steps[1..]);
    }
  }

  /**
   Where a reset can begin: at any of three stages as far as the stages go, and in
   queue order always before the phase is back to IDLE.
   */
  lemma ResetBeginsBeforeIdle(steps: seq<Step>)
    requires IsRun(INITIAL, steps) && Enabled(After(INITIAL, steps), RunDone)
    ensures MayReset(After(INITIAL, steps).cycle)
    ensures InQueueOrder(INITIAL, steps) ==>
      After(INITIAL, steps).cycle == Unwinding && PhaseActive(Apply(After(INITIAL, steps), RunDone))
  {
    RunKeepsInv(INITIAL, steps);
    if InQueueOrder(INITIAL, steps) {
      QueueOrderKeeps(INITIAL, steps);
    }
  }

  /** `done` resolves before the cycle's own `finally`: the reset can begin while the phase is still the run's. */
  lemma ResetCanBeginBeforeIdle()
    ensures exists steps ::
      IsRun(INITIAL, steps) && After(INITIAL, steps).heal.HealReset? && PhaseActive(After(INITIAL, steps))
  {
    var stuck := Some(PauseSnapshot(true, "stuck"));
    var s0 := Apply(INITIAL, SettleStartup);
    var s1 := Apply(s0, BeginCycle);
    var s2 := Apply(s1, Selected(true));
    var s3 := Apply(s2, Prepared(true));
    var s4 := Apply(s3, WatchTick(stuck));
    var s5 := Apply(s4, WatchTick(None));
    assert s5.heal == AwaitingRun(0) && s5.activeRun == Some(0);
    var s6 := Apply(s5, RunReturns);
    assert 0 in s6.finished;
    var s7 := Apply(s6, RunDone);
    var t7 := Prepend(s7, [], s6, RunDone);
    var t6 := Prepend(s6, t7, s5, RunReturns);
    var t5 := Prepend(s5, t6, s4, WatchTick(None));
    var t4 := Prepend(s4, t5, s3, WatchTick(stuck));
    var t3 := Prepend(s3, t4, s2, Prepared(true));
    var t2 := Prepend(s2, t3, s1, Selected(true));
    var t1 := Prepend(s1, t2, s0, BeginCycle);
    var t0 := Prepend(s0, t1, INITIAL, SettleStartup);
    assert After(INITIAL, t0) == s7;
  }

  lemma Prepend(next: State, rest: seq<Step>, s: State, step: Step) returns (steps: seq<Step>)
    requires IsRun(next, rest) && Enabled(s, step) && Apply(s, step) == next
    ensures IsRun(s, steps) && After(s, steps) == After(next, rest)
  {
    steps := [step] + rest;
    assert steps[1..] == rest;
  }
}
