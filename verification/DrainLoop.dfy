/**
 `driveDrain` of src/cli/drain.ts: startup, cycles until the queue is drained,
 capped or interrupted, a wait for what is still settling, and the verdict.
 */
module DrainLoop {

  import opened Prelude
  import opened DrainVerdict

  /** How a cycle settles; a rejected one throws into the drain. */
  datatype Outcome = Ran | NoWork | Declined | Rejected

  datatype Signal = SIGINT | SIGTERM

  /** The awaits of the loop, in order. Nothing around it can change between two of them. */
  datatype Event = Startup | Cycle(outcome: Outcome) | Delay

  /** What the loop sees after a given number of awaits, and whether startup succeeds. */
  datatype Env = Env(starts: bool, signalled: nat -> Option<Signal>, settling: nat -> bool, outcome: nat -> Outcome)

  /** `Threw` is a startup or a cycle that rejected: the drain ends with its error. */
  datatype Stop = BySignal | ByCap | Drained | Threw | StillRunning

  function CountCycles(trace: seq<Event>): (n: nat)
    ensures n <= |trace|
  {
    if trace == [] then 0 else CountCycles(trace[..|trace| - 1]) + if trace[|trace| - 1].Cycle? then 1 else 0
  }

  /** The cap is checked after a cycle, so one always runs. */
  function Bound(maxCycles: nat): nat {
    if maxCycles == 0 then 1 else maxCycles
  }

  // ── what each await of the driving loop may follow ─────────────────────────

  /** A cycle with no delay before it follows a `ran`, or probes a `no-work` with nothing settling, once. */
  predicate MayCycle(env: Env, trace: seq<Event>, i: nat)
    requires 1 <= i < |trace|
  {
    match trace[i - 1]
    case Startup => env.starts
    case Delay => true
    case Cycle(Ran) => true
    case Cycle(NoWork) => !env.settling(i) && (i >= 2 ==> trace[i - 2] != Cycle(NoWork))
    case Cycle(Declined) => false
    case Cycle(Rejected) => false
  }

  /** A delay follows a cycle that ran nothing, when it declined or something is settling. */
  predicate MayDelay(env: Env, trace: seq<Event>, i: nat)
    requires 1 <= i < |trace|
  {
    && trace[i - 1].Cycle? && trace[i - 1].outcome in {NoWork, Declined}
    && (trace[i - 1].outcome == Declined || env.settling(i))
  }

  predicate InOrder(env: Env, trace: seq<Event>, i: nat)
    requires 1 <= i < |trace|
  {
    && env.signalled(i).None?
    && match trace[i]
       case Startup => false
       case Cycle(o) => o == env.outcome(i) && MayCycle(env, trace, i)
       case Delay => MayDelay(env, trace, i)
  }

  /** One startup, first; then cycles and delays, each in order and none after a signal. */
  predicate Orderly(env: Env, trace: seq<Event>) {
    && trace != [] && trace[0] == Startup
    && forall i :: 1 <= i < |trace| ==> InOrder(env, trace, i)
  }

  /** Where the loop goes round: right after startup, a delay, or a cycle that ran. */
  predicate AtTop(env: Env, trace: seq<Event>) {
    trace != [] && var e := trace[|trace| - 1]; (e == Startup && env.starts) || e == Delay || e == Cycle(Ran)
  }

  /** How the loop can end. */
  predicate Ended(env: Env, maxCycles: Option<nat>, trace: seq<Event>, stop: Stop) {
    var t := |trace|;
    match stop
    case BySignal => env.signalled(t).Some?
    case ByCap => env.signalled(t).None? && maxCycles.Some? && CountCycles(trace) == Bound(maxCycles.value)
    case Drained =>
      && env.signalled(t).None? && t >= 2
      && trace[t - 2] == Cycle(NoWork) && trace[t - 1] == Cycle(NoWork)
      && !env.settling(t - 1) && !env.settling(t)
    case Threw => (trace == [Startup] && !env.starts) || (t >= 2 && trace[t - 1] == Cycle(Rejected))
    case StillRunning => maxCycles.None?
  }

  lemma AppendInOrder(env: Env, trace: seq<Event>, e: Event)
    requires Orderly(env, trace) && InOrder(env, trace + [e], |trace|)
    ensures Orderly(env, trace + [e])
    ensures CountCycles(trace + [e]) == CountCycles(trace) + if e.Cycle? then 1 else 0
  {
    var next := trace + [e];
    assert next[..|trace|] == trace;
    forall i | 1 <= i < |next| ensures InOrder(env, next, i) {
      if i < |trace| {
        assert InOrder(env, trace, i) && next[i] == trace[i] && next[i - 1] == trace[i - 1];
        assert i >= 2 ==> next[i - 2] == trace[i - 2];
      }
    }
  }

  lemma AppendTopCycle(env: Env, trace: seq<Event>)
    requires Orderly(env, trace) && AtTop(env, trace) && env.signalled(|trace|).None?
    ensures var next := trace + [Cycle(env.outcome(|trace|))];
      Orderly(env, next) && CountCycles(next) == CountCycles(trace) + 1
  {
    AppendInOrder(env, trace, Cycle(env.outcome(|trace|)));
  }

  lemma AppendProbe(env: Env, trace: seq<Event>)
    requires Orderly(env, trace) && |trace| >= 2 && trace[|trace| - 1] == Cycle(NoWork) && AtTop(env, trace[..|trace| - 1])
    requires env.signalled(|trace|).None? && !env.settling(|trace|)
    ensures var next := trace + [Cycle(env.outcome(|trace|))];
      Orderly(env, next) && CountCycles(next) == CountCycles(trace) + 1
  {
    AppendInOrder(env, trace, Cycle(env.outcome(|trace|)));
  }

  lemma AppendDelay(env: Env, trace: seq<Event>, o: Outcome)
    requires Orderly(env, trace) && |trace| >= 2 && trace[|trace| - 1] == Cycle(o) && o in {NoWork, Declined}
    requires env.signalled(|trace|).None? && (env.settling(|trace|) || o == Declined)
    ensures Orderly(env, trace + [Delay]) && CountCycles(trace + [Delay]) == CountCycles(trace) && AtTop(env, trace + [Delay])
  {
    AppendInOrder(env, trace, Delay);
  }

  /** The second half of the loop body: one probe after an idle cycle. */
  method Probe(env: Env, maxCycles: Option<nat>, sofar: seq<Event>, count: nat)
    returns (trace: seq<Event>, cycles: nat, stop: Option<Stop>)
    requires Orderly(env, sofar) && |sofar| >= 2 && sofar[|sofar| - 1] == Cycle(NoWork) && AtTop(env, sofar[..|sofar| - 1])
    requires env.signalled(|sofar|).None? && !env.settling(|sofar|)
    requires count == CountCycles(sofar) && (maxCycles.Some? ==> count < Bound(maxCycles.value))
    ensures Orderly(env, trace) && cycles == CountCycles(trace) && cycles > count && |trace| > |sofar|
    ensures maxCycles.Some? ==> cycles <= Bound(maxCycles.value)
    ensures stop.None? ==> AtTop(env, trace) && (maxCycles.Some? ==> cycles < Bound(maxCycles.value))
    ensures stop.Some? ==> stop.value != StillRunning && Ended(env, maxCycles, trace, stop.value)
  {
    var recheck := env.outcome(|sofar|);
    AppendProbe(env, sofar);
    trace, cycles := sofar + [Cycle(recheck)], count + 1;
    if recheck == Rejected {
      return trace, cycles, Some(Threw);
    }
    if env.signalled(|trace|).Some? {
      return trace, cycles, Some(BySignal);
    }
    if maxCycles.Some? && cycles >= maxCycles.value {
      return trace, cycles, Some(ByCap);
    }
    if recheck == Ran {
      return trace, cycles, None;
    }
    if env.settling(|trace|) || recheck == Declined {
      AppendDelay(env, trace, recheck);
      return trace + [Delay], cycles, None;
    }
    return trace, cycles, Some(Drained);
  }

  /** One turn of the driving loop: the stop that ends it, or none to go round again. */
  method Turn(env: Env, maxCycles: Option<nat>, sofar: seq<Event>, count: nat)
    returns (trace: seq<Event>, cycles: nat, stop: Option<Stop>)
    requires Orderly(env, sofar) && AtTop(env, sofar) && env.signalled(|sofar|).None?
    requires count == CountCycles(sofar) && (maxCycles.Some? ==> count < Bound(maxCycles.value))
    ensures Orderly(env, trace) && cycles == CountCycles(trace) && cycles > count && |trace| > |sofar|
    ensures maxCycles.Some? ==> cycles <= Bound(maxCycles.value)
    ensures stop.None? ==> AtTop(env, trace) && (maxCycles.Some? ==> cycles < Bound(maxCycles.value))
    ensures stop.Some? ==> stop.value != StillRunning && Ended(env, maxCycles, trace, stop.value)
  {
    var outcome := env.outcome(|sofar|);
    AppendTopCycle(env, sofar);
    trace, cycles := sofar + [Cycle(outcome)], count + 1;
    if outcome == Rejected {
      return trace, cycles, Some(Threw);
    }
    if env.signalled(|trace|).Some? {
      return trace, cycles, Some(BySignal);
    }
    if maxCycles.Some? && cycles >= maxCycles.value {
      return trace, cycles, Some(ByCap);
    }
    if outcome == Ran {
      return trace, cycles, None;
    }
    if env.settling(|trace|) || outcome == Declined {
      AppendDelay(env, trace, outcome);
      return trace + [Delay], cycles, None;
    }
    assert trace[..|trace| - 1] == sofar;
    trace, cycles, stop := Probe(env, maxCycles, trace, cycles);
  }

  /**
   The driving loop. A capped loop is followed to its end, its measure being the
   cycles left; an uncapped one need not end, so it is followed for `horizon` awaits.
   */
  method Drive(env: Env, maxCycles: Option<nat>, horizon: nat) returns (trace: seq<Event>, stop: Stop)
    ensures Orderly(env, trace)
    ensures maxCycles.Some? ==> CountCycles(trace) <= Bound(maxCycles.value)
    ensures Ended(env, maxCycles, trace, stop)
    ensures stop.StillRunning? ==> |trace| >= horizon
  {
    trace := [Startup];
    if !env.starts {
      assert trace[..0] == [];
      return trace, Threw;
    }
    var cycles := 0;
    assert trace[..0] == [];
    while env.signalled(|trace|).None? && (maxCycles.Some? || |trace| < horizon)
      invariant Orderly(env, trace) && AtTop(env, trace)
      invariant cycles == CountCycles(trace)
      invariant maxCycles.Some? ==> cycles < Bound(maxCycles.value)
      decreases if maxCycles.Some? then Bound(maxCycles.value) - cycles else horizon - |trace|
    {
      var end;
      trace, cycles, end := Turn(env, maxCycles, trace, cycles);
      if end.Some? {
        return trace, end.value;
      }
    }
    stop := if env.signalled(|trace|).Some? then BySignal else StillRunning;
  }

  // ── the settling wait and the verdict ──────────────────────────────────────

  /** Delays only, for as long as something settles and no signal has come. */
  predicate Waited(env: Env, trace: seq<Event>, from: nat) {
    && from <= |trace|
    && forall i :: from <= i < |trace| ==> trace[i] == Delay && env.signalled(i).None? && env.settling(i)
  }

  method Settle(env: Env, trace: seq<Event>, horizon: nat) returns (all: seq<Event>)
    ensures |trace| <= |all| && all[..|trace|] == trace && Waited(env, all, |trace|)
    ensures env.signalled(|all|).Some? || !env.settling(|all|) || |all| >= horizon
  {
    all := trace;
    while env.signalled(|all|).None? && env.settling(|all|) && |all| < horizon
      invariant |trace| <= |all| && all[..|trace|] == trace && Waited(env, all, |trace|)
      decreases horizon - |all|
    {
      all := all + [Delay];
    }
  }

  function SignalExit(s: Signal): DrainCore {
    DrainCore(if s == SIGINT then 130 else 143, Signalled, [], [])
  }

  /**
   The whole drain, with the tracker as it stands at the exit; no verdict where
   it throws, or is still going after `horizon` awaits. `n` awaits belong to the
   driving loop, the rest to the settling wait.
   */
  method DriveDrain(env: Env, maxCycles: Option<nat>, horizon: nat, tracker: Tracker)
    returns (trace: seq<Event>, n: nat, stop: Stop, r: Option<DrainCore>)
    ensures n <= |trace| && Orderly(env, trace[..n]) && Ended(env, maxCycles, trace[..n], stop)
    ensures Waited(env, trace, n)
    ensures maxCycles.Some? ==> CountCycles(trace[..n]) <= Bound(maxCycles.value)
    ensures stop == Threw ==> r.None? && n == |trace|
    ensures stop != Threw && r.None? ==> |trace| >= horizon
    ensures r.Some? && env.signalled(|trace|) == Some(SIGINT) ==> r.value == DrainCore(130, Signalled, [], [])
    ensures r.Some? && env.signalled(|trace|) == Some(SIGTERM) ==> r.value == DrainCore(143, Signalled, [], [])
    ensures r.Some? && env.signalled(|trace|).None? ==> !env.settling(|trace|)
    ensures r.Some? && env.signalled(|trace|).None? ==>
      exists classified :: IsClassified(tracker, classified) && r.value == Conclude(stop == ByCap, tracker.open, classified)
  {
    var driven;
    driven, stop := Drive(env, maxCycles, horizon);
    n := |driven|;
    if stop == Threw {
      assert driven[..n] == driven;
      return driven, n, stop, None;
    }
    trace := Settle(env, driven, horizon);
    if stop == StillRunning {
      return trace, n, stop, None;
    }
    if env.signalled(|trace|).Some? {
      return trace, n, stop, Some(SignalExit(env.signalled(|trace|).value));
    }
    if env.settling(|trace|) {
      return trace, n, stop, None;
    }
    var classified := ClassifyOpenBeads(tracker);
    return trace, n, stop, Some(Conclude(stop == ByCap, tracker.open, classified));
  }

  // ── what orderly traces cannot do ──────────────────────────────────────────

  predicate Idle(e: Event) {
    e.Cycle? && e.outcome != Ran
  }

  function CountIdle(trace: seq<Event>): nat {
    if trace == [] then 0
    else CountIdle(trace[..|trace| - 1]) + if Idle(trace[|trace| - 1]) then 1 else 0
  }

  /** Startups, delays and cycles that ran: what lets the loop start over. */
  function CountRestarts(trace: seq<Event>): nat {
    if trace == [] then 0
    else CountRestarts(trace[..|trace| - 1]) + if Idle(trace[|trace| - 1]) then 0 else 1
  }

  /** How many idle cycles in a row the trace ends with. */
  function IdleTail(trace: seq<Event>): nat {
    if trace == [] || !Idle(trace[|trace| - 1]) then 0
    else 1 + IdleTail(trace[..|trace| - 1])
  }

  lemma OrderlyPrefix(env: Env, trace: seq<Event>)
    requires Orderly(env, trace) && |trace| > 1
    ensures Orderly(env, trace[..|trace| - 1])
  {
    var p := trace[..|trace| - 1];
    forall i | 1 <= i < |p| ensures InOrder(env, p, i) {
      assert InOrder(env, trace, i);
    }
  }

  lemma IdleTailIsShort(env: Env, trace: seq<Event>)
    requires Orderly(env, trace)
    ensures IdleTail(trace) <= 2
  {
    var n := |trace|;
    if n > 2 {
      assert InOrder(env, trace, n - 1) && InOrder(env, trace, n - 2);
      var p := trace[..n - 1];
      var q := p[..n - 2];
      assert p[n - 2] == trace[n - 2] && q[n - 3] == trace[n - 3];
      assert Idle(trace[n - 1]) && Idle(p[n - 2]) ==> !Idle(q[n - 3]);
      assert !Idle(q[n - 3]) ==> IdleTail(q) == 0;
      assert Idle(p[n - 2]) ==> IdleTail(p) == 1 + IdleTail(q);
    } else if n == 2 {
      assert trace[..1][0] == Startup && IdleTail(trace[..1]) == 0;
    }
  }

  /** No hot loop: after each startup, delay or completed task at most two cycles run idle. */
  lemma {:induction false} IdleCyclesAreBounded(env: Env, trace: seq<Event>)
    requires Orderly(env, trace)
    ensures CountIdle(trace) + 2 <= 2 * CountRestarts(trace) + IdleTail(trace)
    ensures CountIdle(trace) <= 2 * CountRestarts(trace)
  {
    IdleTailIsShort(env, trace);
    if |trace| == 1 {
      assert trace[..0] == [];
    } else {
      OrderlyPrefix(env, trace);
      IdleTailIsShort(env, trace[..|trace| - 1]);
      IdleCyclesAreBounded(env, trace[..|trace| - 1]);
    }
  }
}
