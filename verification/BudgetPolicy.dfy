/**
 The budget gate of src/ext/budget-policy.ts, and how far spend can run past a
 cap when several runs are in flight, each retried as src/agents/runner.ts does.
 */
module BudgetPolicy {

  import opened Prelude
  import opened Budget
  import AgentRun

  datatype Caps = Caps(perBeadUsd: Option<real>, perKshetraUsd: Option<real>)

  datatype Reason = InnerReason(text: string) | BeadCap(bead: string, spent: real, cap: real) | KshetraCap(spent: real, cap: real)

  datatype Decision = Allowed | Denied(reason: Reason)

  predicate AtCap(cap: Option<real>, spent: real) {
    cap.Some? && spent >= cap.value
  }

  /** `mayProceed`: the inner policy's denial wins, then the bead's cap, then the Kshetra's. */
  function MayProceed(inner: Decision, budget: Option<Caps>, bead: string, spend: Spend): (d: Decision)
    ensures inner.Denied? ==> d == inner
    ensures d.Allowed? <==> (
      inner.Allowed?
      && (budget.Some? ==> !AtCap(budget.value.perBeadUsd, spend.beadUsd) && !AtCap(budget.value.perKshetraUsd, spend.kshetraUsd)))
    ensures inner.Allowed? && d.Denied? ==>
      || (AtCap(budget.value.perBeadUsd, spend.beadUsd)
          && d.reason == BeadCap(bead, spend.beadUsd, budget.value.perBeadUsd.value))
      || (!AtCap(budget.value.perBeadUsd, spend.beadUsd)
          && d.reason == KshetraCap(spend.kshetraUsd, budget.value.perKshetraUsd.value))
  {
    if inner.Denied? then inner
    else if budget.None? || (budget.value.perBeadUsd.None? && budget.value.perKshetraUsd.None?) then Allowed
    else if budget.value.perBeadUsd.Some? && spend.beadUsd >= budget.value.perBeadUsd.value then
      Denied(BeadCap(bead, spend.beadUsd, budget.value.perBeadUsd.value))
    else if budget.value.perKshetraUsd.Some? && spend.kshetraUsd >= budget.value.perKshetraUsd.value then
      Denied(KshetraCap(spend.kshetraUsd, budget.value.perKshetraUsd.value))
    else Allowed
  }

  // ── runs in flight ─────────────────────────────────────────────────────────

  /** A permitted run and how many of its attempts may still be metered. */
  datatype InFlight = InFlight(bead: string, left: nat)

  datatype State = State(entries: seq<Entry>, running: seq<InFlight>)

  /** The caps, how many runs may be in flight, and what one attempt can cost. */
  datatype Limits = Limits(caps: Caps, inFlight: nat, perAttempt: real)

  datatype Step =
    | Dispatch(bead: string, inner: Decision)
    | Meter(run: nat, costUsd: real, priced: bool)
    | Unmetered(run: nat)
    | Finish(run: nat)

  predicate Enabled(l: Limits, s: State, step: Step) {
    match step
    case Dispatch(_, _) => |s.running| < l.inFlight
    case Meter(i, cost, _) =>
      i < |s.running| && s.running[i].left > 0 && IsMicro(cost) && 0.0 <= cost <= l.perAttempt
    case Unmetered(i) => i < |s.running| && s.running[i].left > 0
    case Finish(i) => i < |s.running|
  }

  function OneLess(running: seq<InFlight>, i: nat): seq<InFlight>
    requires i < |running| && running[i].left > 0
  {
    running[i := running[i].(left := running[i].left - 1)]
  }

  function Apply(l: Limits, s: State, step: Step): State
    requires Enabled(l, s, step)
  {
    match step
    case Dispatch(bead, inner) =>
      if MayProceed(inner, Some(l.caps), bead, ReadSpend(s.entries, bead)).Allowed?
      then s.(running := s.running + [InFlight(bead, AgentRun.MAX_ATTEMPTS)])
      else s
    case Meter(i, cost, priced) =>
      State(s.entries + [Entry(s.running[i].bead, cost, priced)], OneLess(s.running, i))
    case Unmetered(i) => s.(running := OneLess(s.running, i))
    case Finish(i) => s.(running := s.running[..i] + s.running[i + 1..])
  }

  ghost predicate IsRun(l: Limits, s: State, steps: seq<Step>)
    decreases |steps|
  {
    steps != [] ==> Enabled(l, s, steps[0]) && IsRun(l, Apply(l, s, steps[0]), steps[1..])
  }

  ghost function After(l: Limits, s: State, steps: seq<Step>): State
    requires IsRun(l, s, steps)
    decreases |steps|
  {
    if steps == [] then s else After(l, Apply(l, s, steps[0]), steps[1..])
  }

  // ── whose money: one bead's, or the whole Kshetra's ────────────────────────

  function Cap(caps: Caps, who: Option<string>): Option<real> {
    if who.Some? then caps.perBeadUsd else caps.perKshetraUsd
  }

  function SpentOn(entries: seq<Entry>, who: Option<string>): real {
    if who.Some? then Total(Of(entries, who.value)) else Total(entries)
  }

  predicate Counts(bead: string, who: Option<string>) {
    who.Some? ==> who.value == bead
  }

  function Repeated(c: real, n: nat): real {
    if n == 0 then 0.0 else Repeated(c, n - 1) + c
  }

  /** The most that the runs in flight can still add. */
  function Owed(running: seq<InFlight>, who: Option<string>, c: real): real {
    if running == [] then 0.0
    else
      var r := running[|running| - 1];
      Owed(running[..|running| - 1], who, c) + if Counts(r.bead, who) then Repeated(c, r.left) else 0.0
  }

  /** Four attempts for each run that may be in flight. */
  function Slack(l: Limits): real {
    Repeated(l.perAttempt, 4 * l.inFlight)
  }

  ghost predicate Inv(l: Limits, s: State) {
    && l.perAttempt >= 0.0 && |s.running| <= l.inFlight
    && (forall i :: 0 <= i < |s.running| ==> s.running[i].left <= AgentRun.MAX_ATTEMPTS)
    && AllMicro(s.entries)
    && forall who :: WithinSlack(l, s, who)
  }

  ghost predicate WithinSlack(l: Limits, s: State, who: Option<string>) {
    Cap(l.caps, who).Some? ==>
      SpentOn(s.entries, who) + Owed(s.running, who, l.perAttempt) < Cap(l.caps, who).value + Slack(l)
  }

  lemma SpentOneMore(entries: seq<Entry>, e: Entry, who: Option<string>)
    ensures SpentOn(entries + [e], who) == SpentOn(entries, who) + if Counts(e.bead, who) then e.costUsd else 0.0
  {
    hide Total, Of, Unpriced;
    OneMore(entries, e);
    if who.Some? {
      OfOneMore(entries, e, who.value);
      OneMore(Of(entries, who.value), e);
      assert Of(entries, who.value) + [] == Of(entries, who.value);
    }
  }

  lemma {:induction false} RepeatedGrows(c: real, m: nat, n: nat)
    requires c >= 0.0 && m <= n
    ensures 0.0 <= Repeated(c, m) <= Repeated(c, n)
    decreases n
  {
    if m < n {
      RepeatedGrows(c, m, n - 1);
    } else if m > 0 {
      RepeatedGrows(c, m - 1, m - 1);
    }
  }

  lemma {:induction false} RepeatedAdds(c: real, m: nat, n: nat)
    ensures Repeated(c, m + n) == Repeated(c, m) + Repeated(c, n)
  {
    if n > 0 {
      RepeatedAdds(c, m, n - 1);
    }
  }

  lemma OwedOneMore(running: seq<InFlight>, r: InFlight, who: Option<string>, c: real)
    ensures Owed(running + [r], who, c) == Owed(running, who, c) + if Counts(r.bead, who) then Repeated(c, r.left) else 0.0
  {
    assert (running + [r])[..|running|] == running;
  }

  /** One attempt fewer owes one attempt's cost less. */
  lemma {:induction false} OwedOneLess(running: seq<InFlight>, i: nat, who: Option<string>, c: real)
    requires i < |running| && running[i].left > 0
    ensures Owed(OneLess(running, i), who, c) == Owed(running, who, c) - if Counts(running[i].bead, who) then c else 0.0
  {
    var rest := running[..|running| - 1];
    if i == |rest| {
      assert OneLess(running, i)[..|rest|] == rest;
    } else {
      OwedOneLess(rest, i, who, c);
      assert OneLess(running, i)[..|rest|] == OneLess(rest, i);
    }
  }

  /** A run that ends owes nothing more. */
  lemma {:induction false} OwedWithout(running: seq<InFlight>, i: nat, who: Option<string>, c: real)
    requires i < |running| && c >= 0.0
    ensures Owed(running[..i] + running[i + 1..], who, c) <= Owed(running, who, c)
  {
    hide Owed, Repeated;
    var rest, r := running[..|running| - 1], running[|running| - 1];
    assert running == rest + [r];
    RepeatedGrows(c, 0, r.left);
    OwedOneMore(rest, r, who, c);
    if i == |rest| {
      assert running[..i] + running[i + 1..] == rest;
    } else {
      OwedWithout(rest, i, who, c);
      assert running[..i] + running[i + 1..] == (rest[..i] + rest[i + 1..]) + [r];
      OwedOneMore(rest[..i] + rest[i + 1..], r, who, c);
    }
  }

  lemma {:induction false} OwedBound(running: seq<InFlight>, who: Option<string>, c: real)
    requires c >= 0.0 && forall i :: 0 <= i < |running| ==> running[i].left <= 4
    ensures 0.0 <= Owed(running, who, c) <= Repeated(c, 4 * |running|)
  {
    if running != [] {
      var rest, r := running[..|running| - 1], running[|running| - 1];
      OwedBound(rest, who, c);
      RepeatedGrows(c, r.left, 4);
      RepeatedAdds(c, 4 * |rest|, 4);
    }
  }

  // ── the overshoot bound ────────────────────────────────────────────────────

  lemma DispatchKeepsSlack(l: Limits, s: State, step: Step, who: Option<string>)
    requires Inv(l, s) && step.Dispatch? && Enabled(l, s, step)
    ensures WithinSlack(l, Apply(l, s, step), who)
  {
    var c := l.perAttempt;
    assert WithinSlack(l, s, who);
    var r := InFlight(step.bead, AgentRun.MAX_ATTEMPTS);
    if Apply(l, s, step) != s && Cap(l.caps, who).Some? {
      OwedOneMore(s.running, r, who, c);
      MicroSpendIsExact(s.entries, step.bead);
      if Counts(step.bead, who) {
        OwedBound(s.running, who, c);
        RepeatedAdds(c, 4 * |s.running|, 4);
        RepeatedGrows(c, 4 * |s.running| + 4, 4 * l.inFlight);
      }
    }
  }

  lemma OtherStepKeepsSlack(l: Limits, s: State, step: Step, who: Option<string>)
    requires Inv(l, s) && !step.Dispatch? && Enabled(l, s, step)
    ensures WithinSlack(l, Apply(l, s, step), who)
  {
    var c := l.perAttempt;
    assert WithinSlack(l, s, who);
    match step
    case Meter(i, cost, priced) =>
      SpentOneMore(s.entries, Entry(s.running[i].bead, cost, priced), who);
      OwedOneLess(s.running, i, who, c);
    case Unmetered(i) =>
      OwedOneLess(s.running, i, who, c);
    case Finish(i) =>
      OwedWithout(s.running, i, who, c);
  }

  lemma StepKeepsInv(l: Limits, s: State, step: Step)
    requires Inv(l, s) && Enabled(l, s, step)
    ensures Inv(l, Apply(l, s, step))
  {
    forall who ensures WithinSlack(l, Apply(l, s, step), who) {
      if step.Dispatch? {
        DispatchKeepsSlack(l, s, step, who);
      } else {
        OtherStepKeepsSlack(l, s, step, who);
      }
    }
  }

  lemma {:induction false} RunKeepsInv(l: Limits, s: State, steps: seq<Step>)
    requires Inv(l, s) && IsRun(l, s, steps)
    ensures Inv(l, After(l, s, steps))
    decreases |steps|
  {
    if steps != [] {
      StepKeepsInv(l, s, steps[0]);
      RunKeepsInv(l, Apply(l, s, steps[0]), steps[1..]);
    }
  }

  /** Nothing in flight and every capped account below its cap. */
  ghost predicate Start(l: Limits, s: State) {
    && l.perAttempt >= 0.0 && s.running == [] && AllMicro(s.entries)
    && forall who :: Cap(l.caps, who).Some? ==> SpentOn(s.entries, who) < Cap(l.caps, who).value
  }

  /**
   However dispatches, meterings and endings interleave, the reported spend of the
   Kshetra and of every bead stays under its cap plus four attempts' cost for each
   run that may be in flight.
   */
  lemma SpendStaysUnderCapAndSlack(l: Limits, s: State, steps: seq<Step>, bead: string)
    requires Start(l, s) && IsRun(l, s, steps)
    ensures var spend := ReadSpend(After(l, s, steps).entries, bead);
      && (l.caps.perKshetraUsd.Some? ==> spend.kshetraUsd < l.caps.perKshetraUsd.value + 4.0 * (l.inFlight as real) * l.perAttempt)
      && (l.caps.perBeadUsd.Some? ==> spend.beadUsd < l.caps.perBeadUsd.value + 4.0 * (l.inFlight as real) * l.perAttempt)
  {
    StartIsInv(l, s);
    RunKeepsInv(l, s, steps);
    var t := After(l, s, steps);
    MicroSpendIsExact(t.entries, bead);
    InvBoundsSpend(l, t, None);
    InvBoundsSpend(l, t, Some(bead));
  }

  lemma StartIsInv(l: Limits, s: State)
    requires Start(l, s)
    ensures Inv(l, s)
  {
    RepeatedGrows(l.perAttempt, 0, 4 * l.inFlight);
  }

  lemma InvBoundsSpend(l: Limits, s: State, who: Option<string>)
    requires Inv(l, s)
    ensures Cap(l.caps, who).Some? ==>
      SpentOn(s.entries, who) < Cap(l.caps, who).value + 4.0 * (l.inFlight as real) * l.perAttempt
  {
    hide Repeated, Owed, SpentOn, AllMicro;
    OwedBound(s.running, who, l.perAttempt);
    assert WithinSlack(l, s, who);
    SlackIsProduct(l.perAttempt, l.inFlight);
  }

  lemma OneTimeMore(a: real, c: real)
    ensures (a + 1.0) * c == a * c + c
  {
  }

  lemma {:induction false} RepeatedIsProduct(c: real, n: nat)
    ensures Repeated(c, n) == (n as real) * c
  {
    if n > 0 {
      RepeatedIsProduct(c, n - 1);
      OneTimeMore((n - 1) as real, c);
      assert (n - 1) as real + 1.0 == n as real;
    }
  }

  lemma SlackIsProduct(c: real, k: nat)
    ensures Repeated(c, 4 * k) == 4.0 * (k as real) * c
  {
    RepeatedIsProduct(c, 4 * k);
    assert (4 * k) as real == 4.0 * (k as real);
  }

  // ── attempts ───────────────────────────────────────────────────────────────

  /** The attempts the runs in flight have left. */
  function AttemptsLeft(running: seq<InFlight>): nat {
    if running == [] then 0 else AttemptsLeft(running[..|running| - 1]) + running[|running| - 1].left
  }

  function Dispatches(steps: seq<Step>): nat {
    if steps == [] then 0 else Dispatches(steps[1..]) + if steps[0].Dispatch? then 1 else 0
  }

  /** Attempts that came to an end, metered or not. */
  function Attempts(steps: seq<Step>): nat {
    if steps == [] then 0 else Attempts(steps[1..]) + if steps[0].Meter? || steps[0].Unmetered? then 1 else 0
  }

  function Finishes(steps: seq<Step>): nat {
    if steps == [] then 0 else Finishes(steps[1..]) + if steps[0].Finish? then 1 else 0
  }

  lemma LeftOneMore(running: seq<InFlight>, r: InFlight)
    ensures AttemptsLeft(running + [r]) == AttemptsLeft(running) + r.left
  {
    assert (running + [r])[..|running|] == running;
  }

  lemma {:induction false} LeftOneLess(running: seq<InFlight>, i: nat)
    requires i < |running| && running[i].left > 0
    ensures AttemptsLeft(OneLess(running, i)) == AttemptsLeft(running) - 1
  {
    var rest := running[..|running| - 1];
    if i == |rest| {
      assert OneLess(running, i)[..|rest|] == rest;
    } else {
      LeftOneLess(rest, i);
      assert OneLess(running, i)[..|rest|] == OneLess(rest, i);
    }
  }

  lemma {:induction false} LeftWithout(running: seq<InFlight>, i: nat)
    requires i < |running|
    ensures AttemptsLeft(running[..i] + running[i + 1..]) == AttemptsLeft(running) - running[i].left
  {
    var rest, r := running[..|running| - 1], running[|running| - 1];
    if i == |rest| {
      assert running[..i] + running[i + 1..] == rest;
    } else {
      LeftWithout(rest, i);
      assert running[..i] + running[i + 1..] == (rest[..i] + rest[i + 1..]) + [r];
      LeftOneMore(rest[..i] + rest[i + 1..], r);
    }
  }

  lemma StepIsCounted(l: Limits, s: State, step: Step)
    requires Enabled(l, s, step)
    ensures var t := Apply(l, s, step);
      && AttemptsLeft(t.running) + (if step.Meter? || step.Unmetered? then 1 else 0)
           <= AttemptsLeft(s.running) + (if step.Dispatch? then 4 else 0)
      && |t.running| + (if step.Finish? then 1 else 0) <= |s.running| + (if step.Dispatch? then 1 else 0)
  {
    hide AttemptsLeft, MayProceed, ReadSpend;
    match step
    case Dispatch(bead, _) => LeftOneMore(s.running, InFlight(bead, AgentRun.MAX_ATTEMPTS));
    case Meter(i, _, _) => LeftOneLess(s.running, i);
    case Unmetered(i) => LeftOneLess(s.running, i);
    case Finish(i) => LeftWithout(s.running, i);
  }

  /** No run has more than four attempts, an unmetered one counting too, and none outlives its end. */
  lemma {:induction false} AttemptsAreCounted(l: Limits, s: State, steps: seq<Step>)
    requires IsRun(l, s, steps)
    ensures var t := After(l, s, steps);
      && Attempts(steps) + AttemptsLeft(t.running) <= AttemptsLeft(s.running) + 4 * Dispatches(steps)
      && Finishes(steps) + |t.running| <= |s.running| + Dispatches(steps)
    decreases |steps|
  {
    hide Apply, Enabled, AttemptsLeft;
    if steps != [] {
      StepIsCounted(l, s, steps[0]);
      AttemptsAreCounted(l, Apply(l, s, steps[0]), steps[1..]);
    }
  }

  // ── at the cap ─────────────────────────────────────────────────────────────

  lemma SpendOnlyGrows(l: Limits, s: State, step: Step, who: Option<string>)
    requires Enabled(l, s, step)
    ensures SpentOn(Apply(l, s, step).entries, who) >= SpentOn(s.entries, who)
    ensures AllMicro(s.entries) ==> AllMicro(Apply(l, s, step).entries)
  {
    if step.Meter? {
      SpentOneMore(s.entries, Entry(s.running[step.run].bead, step.costUsd, step.priced), who);
    }
  }

  /** Once an account's spend has reached its cap, no run that would be charged to it ever starts again. */
  lemma {:induction false} AtCapNothingStarts(l: Limits, s: State, steps: seq<Step>, who: Option<string>, dispatch: Step)
    requires AllMicro(s.entries) && AtCap(Cap(l.caps, who), SpentOn(s.entries, who))
    requires IsRun(l, s, steps) && dispatch.Dispatch? && Counts(dispatch.bead, who)
    requires Enabled(l, After(l, s, steps), dispatch)
    ensures Apply(l, After(l, s, steps), dispatch) == After(l, s, steps)
    decreases |steps|
  {
    if steps == [] {
      MicroSpendIsExact(s.entries, dispatch.bead);
    } else {
      SpendOnlyGrows(l, s, steps[0], who);
      AtCapNothingStarts(l, Apply(l, s, steps[0]), steps[1..], who, dispatch);
    }
  }
}
