/**
 How far past a cap the gate of src/ext/budget-policy.ts lets spend run, exactly:
 the bound of `BudgetPolicy` is reached, and only a limit under which nothing can
 be spent makes a cap hard.
 */
module BudgetBound {

  import opened Prelude
  import opened Budget
  import opened BudgetPolicy

  /** A whole number of micro-dollars, in dollars. */
  function Usd(micros: int): real {
    micros as real / 1000000.0
  }

  lemma MicroCount(usd: real) returns (n: int)
    requires IsMicro(usd)
    ensures usd == Usd(n)
  {
    n := (usd * 1000000.0).Floor;
  }

  // ── what runs can lead to ──────────────────────────────────────────────────

  ghost predicate Reaches(l: Limits, s: State, t: State) {
    exists steps :: IsRun(l, s, steps) && After(l, s, steps) == t
  }

  lemma ReachesSelf(l: Limits, s: State)
    ensures Reaches(l, s, s)
  {
    assert IsRun(l, s, []) && After(l, s, []) == s;
  }

  lemma StepThenReaches(l: Limits, s: State, step: Step, t: State)
    requires Enabled(l, s, step) && Reaches(l, Apply(l, s, step), t)
    ensures Reaches(l, s, t)
  {
    var rest :| IsRun(l, Apply(l, s, step), rest) && After(l, Apply(l, s, step), rest) == t;
    var steps := [step] + rest;
    assert steps[1..] == rest;
    assert IsRun(l, s, steps) && After(l, s, steps) == t;
  }

  lemma {:induction false} RunThenReaches(l: Limits, s: State, steps: seq<Step>, t: State)
    requires IsRun(l, s, steps) && Reaches(l, After(l, s, steps), t)
    ensures Reaches(l, s, t)
    decreases |steps|
  {
    if steps != [] {
      RunThenReaches(l, Apply(l, s, steps[0]), steps[1..], t);
      StepThenReaches(l, s, steps[0], t);
    }
  }

  lemma ReachesOnward(l: Limits, s: State, t: State, u: State)
    requires Reaches(l, s, t) && Reaches(l, t, u)
    ensures Reaches(l, s, u)
  {
    var steps :| IsRun(l, s, steps) && After(l, s, steps) == t;
    RunThenReaches(l, s, steps, u);
  }

  // ── the account's own ceiling ──────────────────────────────────────────────

  /** What the configuration schema demands of caps. */
  predicate Positive(caps: Caps) {
    && (caps.perBeadUsd.Some? ==> caps.perBeadUsd.value > 0.0)
    && (caps.perKshetraUsd.Some? ==> caps.perKshetraUsd.value > 0.0)
  }

  /** The cap that stops dispatches charged to the account: a bead is also held by a lower Kshetra cap. */
  function Ceiling(caps: Caps, who: Option<string>): real
    requires Cap(caps, who).Some?
  {
    if who.Some? && caps.perKshetraUsd.Some? && caps.perKshetraUsd.value < caps.perBeadUsd.value
    then caps.perKshetraUsd.value else Cap(caps, who).value
  }

  const NOTHING_SPENT := State([], [])

  lemma NothingSpentIsAStart(l: Limits)
    requires Positive(l.caps) && l.perAttempt >= 0.0
    ensures Start(l, NOTHING_SPENT)
  {
  }

  // ── filling an account one micro-dollar at a time ──────────────────────────

  /** The bead of the `i`th run: the account's own, or for the Kshetra's account one not seen before. */
  function BeadAt(who: Option<string>, i: nat): string {
    if who.Some? then who.value else seq(i, _ => 'b')
  }

  function Ones(who: Option<string>, n: nat): seq<Entry> {
    if n == 0 then [] else Ones(who, n - 1) + [Entry(BeadAt(who, n - 1), Usd(1), true)]
  }

  lemma {:induction false} NewBeadSpentNothing(n: nat, m: nat)
    requires n <= m
    ensures Of(Ones(None, n), BeadAt(None, m)) == []
  {
    if n > 0 {
      NewBeadSpentNothing(n - 1, m);
      OfOneMore(Ones(None, n - 1), Entry(BeadAt(None, n - 1), Usd(1), true), BeadAt(None, m));
      assert |BeadAt(None, n - 1)| == n - 1 && |BeadAt(None, m)| == m;
    }
  }

  lemma {:induction false} OnesAreMicro(who: Option<string>, n: nat)
    ensures AllMicro(Ones(who, n))
  {
    if n > 0 {
      MicrosOf(1);
      assert IsMicro(Usd(1));
      hide IsMicro;
      OnesAreMicro(who, n - 1);
    }
  }

  lemma OneMoreMicro(n: int)
    ensures Usd(n) == Usd(n - 1) + Usd(1)
  {
  }

  lemma BeadCounts(who: Option<string>, i: nat)
    ensures Counts(BeadAt(who, i), who)
  {
  }

  lemma {:induction false} OnesTotal(who: Option<string>, n: nat)
    ensures Total(Ones(who, n)) == Usd(n) && SpentOn(Ones(who, n), who) == Usd(n)
  {
    hide Total, Of, SpentOn, BeadAt, Usd, Counts;
    if n == 0 {
      NothingIsZero(who);
    } else {
      OnesTotal(who, n - 1);
      var e := Entry(BeadAt(who, n - 1), Usd(1), true);
      SpentOneMore(Ones(who, n - 1), e, who);
      OneMore(Ones(who, n - 1), e);
      BeadCounts(who, n - 1);
      OneMoreMicro(n);
    }
  }

  lemma NothingIsZero(who: Option<string>)
    ensures Total([]) == Usd(0) && SpentOn([], who) == Usd(0)
  {
  }

  lemma OnesSpend(who: Option<string>, n: nat)
    ensures AllMicro(Ones(who, n)) && Total(Ones(who, n)) == Usd(n) && SpentOn(Ones(who, n), who) == Usd(n)
  {
    OnesAreMicro(who, n);
    OnesTotal(who, n);
  }

  /** Below the account's ceiling a run on its bead is let through. */
  lemma FilledAccountProceeds(l: Limits, who: Option<string>, n: nat)
    requires Positive(l.caps) && Cap(l.caps, who).Some? && Usd(n) < Ceiling(l.caps, who)
    ensures MayProceed(Allowed, Some(l.caps), BeadAt(who, n), ReadSpend(Ones(who, n), BeadAt(who, n))).Allowed?
  {
    var bead, e := BeadAt(who, n), Ones(who, n);
    OnesSpend(who, n);
    MicroSpendIsExact(e, bead);
    if who.None? {
      NewBeadSpentNothing(n, n);
    }
    hide Of, Ones, Usd, RoundCost, Unpriced;
    assert RoundCost(Total(e)) == Total(e) && RoundCost(Total(Of(e, bead))) == Total(Of(e, bead));
  }

  /** One run that costs one micro-dollar. */
  lemma OneMicroRun(l: Limits, who: Option<string>, n: nat)
    requires Positive(l.caps) && Cap(l.caps, who).Some? && Usd(n) < Ceiling(l.caps, who)
    requires l.inFlight >= 1 && l.perAttempt >= Usd(1)
    ensures Reaches(l, State(Ones(who, n), []), State(Ones(who, n + 1), []))
  {
    FilledAccountProceeds(l, who, n);
    MicrosOf(1);
    hide MayProceed, RoundCost, Of, Total, IsMicro;
    var bead := BeadAt(who, n);
    var s0 := State(Ones(who, n), []);
    var s1 := State(Ones(who, n), [InFlight(bead, 4)]);
    var s2 := State(Ones(who, n + 1), [InFlight(bead, 3)]);
    var s3 := State(Ones(who, n + 1), []);
    assert [] + [InFlight(bead, 4)] == s1.running;
    assert OneLess(s1.running, 0) == s2.running;
    assert s2.running[..0] + s2.running[1..] == [];
    ReachesSelf(l, s3);
    StepThenReaches(l, s2, Finish(0), s3);
    StepThenReaches(l, s1, Meter(0, Usd(1), true), s3);
    StepThenReaches(l, s0, Dispatch(bead, Allowed), s3);
  }

  lemma {:induction false} AccountFills(l: Limits, who: Option<string>, n: nat)
    requires Positive(l.caps) && Cap(l.caps, who).Some? && (n > 0 ==> Usd(n - 1) < Ceiling(l.caps, who))
    requires l.inFlight >= 1 && l.perAttempt >= Usd(1)
    ensures Reaches(l, NOTHING_SPENT, State(Ones(who, n), []))
  {
    if n == 0 {
      ReachesSelf(l, NOTHING_SPENT);
    } else {
      AccountFills(l, who, n - 1);
      OneMicroRun(l, who, n - 1);
      ReachesOnward(l, NOTHING_SPENT, State(Ones(who, n - 1), []), State(Ones(who, n), []));
    }
  }

  // ── then every slot at once ────────────────────────────────────────────────

  function Fleet(bead: string, k: nat): (running: seq<InFlight>)
    ensures |running| == k
  {
    if k == 0 then [] else Fleet(bead, k - 1) + [InFlight(bead, 4)]
  }

  /** Nothing being metered meanwhile, each of the runs is let through. */
  lemma {:induction false} FleetDispatches(l: Limits, entries: seq<Entry>, bead: string, k: nat)
    requires MayProceed(Allowed, Some(l.caps), bead, ReadSpend(entries, bead)).Allowed? && k <= l.inFlight
    ensures Reaches(l, State(entries, []), State(entries, Fleet(bead, k)))
  {
    if k == 0 {
      ReachesSelf(l, State(entries, []));
    } else {
      hide MayProceed, ReadSpend;
      FleetDispatches(l, entries, bead, k - 1);
      var s, t := State(entries, Fleet(bead, k - 1)), State(entries, Fleet(bead, k));
      ReachesSelf(l, t);
      StepThenReaches(l, s, Dispatch(bead, Allowed), t);
      ReachesOnward(l, State(entries, []), s, t);
    }
  }

  lemma OneMeter(l: Limits, entries: seq<Entry>, others: seq<InFlight>, bead: string, m: nat, cost: real)
    requires IsMicro(cost) && 0.0 <= cost <= l.perAttempt && m > 0
    ensures var s := State(entries, others + [InFlight(bead, m)]); var step := Meter(|others|, cost, true);
      Enabled(l, s, step)
      && Apply(l, s, step) == State(entries + [Entry(bead, cost, true)], others + [InFlight(bead, m - 1)])
  {
    assert OneLess(others + [InFlight(bead, m)], |others|) == others + [InFlight(bead, m - 1)];
  }

  /** The last run in flight meters `m` attempts of the same cost. */
  lemma {:induction false} RunMeters(l: Limits, entries: seq<Entry>, others: seq<InFlight>, bead: string, m: nat,
      cost: real, who: Option<string>) returns (after: seq<Entry>)
    requires IsMicro(cost) && 0.0 <= cost <= l.perAttempt && Counts(bead, who)
    ensures Reaches(l, State(entries, others + [InFlight(bead, m)]), State(after, others + [InFlight(bead, 0)]))
    ensures SpentOn(after, who) == SpentOn(entries, who) + Repeated(cost, m)
    decreases m
  {
    hide IsMicro, SpentOn, Enabled, Apply, Reaches;
    var s := State(entries, others + [InFlight(bead, m)]);
    if m == 0 {
      after := entries;
      ReachesSelf(l, s);
    } else {
      var e := Entry(bead, cost, true);
      after := RunMeters(l, entries + [e], others, bead, m - 1, cost, who);
      SpentOneMore(entries, e, who);
      OneMeter(l, entries, others, bead, m, cost);
      StepThenReaches(l, s, Meter(|others|, cost, true), State(after, others + [InFlight(bead, 0)]));
    }
  }

  lemma OneFinish(l: Limits, entries: seq<Entry>, others: seq<InFlight>, bead: string)
    ensures var s := State(entries, others + [InFlight(bead, 0)]);
      Enabled(l, s, Finish(|others|)) && Apply(l, s, Finish(|others|)) == State(entries, others)
  {
    var running := others + [InFlight(bead, 0)];
    assert running[..|others|] + running[|others| + 1..] == others;
  }

  lemma {:induction false} FleetMeters(l: Limits, entries: seq<Entry>, bead: string, k: nat, who: Option<string>)
      returns (after: seq<Entry>)
    requires IsMicro(l.perAttempt) && l.perAttempt >= 0.0 && Counts(bead, who)
    ensures Reaches(l, State(entries, Fleet(bead, k)), State(after, []))
    ensures SpentOn(after, who) == SpentOn(entries, who) + Repeated(l.perAttempt, 4 * k)
    decreases k
  {
    hide SpentOn, IsMicro, Reaches, Enabled, Apply;
    if k == 0 {
      after := entries;
      ReachesSelf(l, State(entries, []));
    } else {
      var others := Fleet(bead, k - 1);
      var mid := RunMeters(l, entries, others, bead, 4, l.perAttempt, who);
      after := FleetMeters(l, mid, bead, k - 1, who);
      RepeatedAdds(l.perAttempt, 4 * (k - 1), 4);
      var spent := State(mid, others + [InFlight(bead, 0)]);
      OneFinish(l, mid, others, bead);
      StepThenReaches(l, spent, Finish(k - 1), State(after, []));
      ReachesOnward(l, State(entries, Fleet(bead, k)), spent, State(after, []));
    }
  }

  // ── the bound is reached ───────────────────────────────────────────────────

  /** The bound, to the micro-dollar: one under the ceiling, and four attempts for every slot. */
  function Bound(l: Limits, who: Option<string>): real
    requires Cap(l.caps, who).Some?
  {
    Ceiling(l.caps, who) - 0.000001 + 4.0 * (l.inFlight as real) * l.perAttempt
  }

  predicate InMicros(l: Limits, who: Option<string>) {
    && Cap(l.caps, who).Some? && Positive(l.caps)
    && IsMicro(Ceiling(l.caps, who)) && IsMicro(l.perAttempt)
  }

  /** Fill the account to `n` micro-dollars, then dispatch `k` runs. */
  lemma FilledThenFleet(l: Limits, who: Option<string>, n: nat, k: nat)
    requires Positive(l.caps) && Cap(l.caps, who).Some? && Usd(n) < Ceiling(l.caps, who)
    requires 1 <= k <= l.inFlight && l.perAttempt >= Usd(1)
    ensures Reaches(l, NOTHING_SPENT, State(Ones(who, n), Fleet(BeadAt(who, n), k)))
    ensures SpentOn(Ones(who, n), who) == Usd(n)
  {
    OnesSpend(who, n);
    AccountFills(l, who, n);
    FilledAccountProceeds(l, who, n);
    FleetDispatches(l, Ones(who, n), BeadAt(who, n), k);
    hide Reaches, MayProceed, SpentOn, Ones, Fleet;
    ReachesOnward(l, NOTHING_SPENT, State(Ones(who, n), []), State(Ones(who, n), Fleet(BeadAt(who, n), k)));
  }

  /** From nothing spent, every account can be brought to its bound exactly. */
  lemma BoundIsReached(l: Limits, who: Option<string>)
    requires InMicros(l, who) && l.inFlight >= 1 && l.perAttempt > 0.0
    ensures exists t :: Reaches(l, NOTHING_SPENT, t) && SpentOn(t.entries, who) == Bound(l, who)
  {
    var top := MicroCount(Ceiling(l.caps, who));
    var each := MicroCount(l.perAttempt);
    var n := top - 1;
    var bead := BeadAt(who, n);
    FilledThenFleet(l, who, n, l.inFlight);
    var after := FleetMeters(l, Ones(who, n), bead, l.inFlight, who);
    FilledToBound(l, who, n, SpentOn(after, who));
    hide SpentOn, Repeated, Reaches, IsMicro, Ones, Fleet, BeadAt, Bound;
    ReachesOnward(l, NOTHING_SPENT, State(Ones(who, n), Fleet(bead, l.inFlight)), State(after, []));
    assert SpentOn(State(after, []).entries, who) == Bound(l, who);
  }

  lemma FilledToBound(l: Limits, who: Option<string>, n: int, spent: real)
    requires Cap(l.caps, who).Some? && Ceiling(l.caps, who) == Usd(n + 1)
    requires spent == Usd(n) + Repeated(l.perAttempt, 4 * l.inFlight)
    ensures spent == Bound(l, who)
  {
    SlackIsProduct(l.perAttempt, l.inFlight);
  }

  // ── and never passed ───────────────────────────────────────────────────────

  predicate NotNegative(entries: seq<Entry>) {
    forall i :: 0 <= i < |entries| ==> entries[i].costUsd >= 0.0
  }

  lemma {:induction false} BeadIsPartOfKshetra(entries: seq<Entry>, bead: string)
    requires NotNegative(entries)
    ensures Total(Of(entries, bead)) <= Total(entries)
  {
    if entries != [] {
      var rest, e := entries[..|entries| - 1], entries[|entries| - 1];
      BeadIsPartOfKshetra(rest, bead);
      OneMore(Of(rest, bead), e);
      assert Of(rest, bead) + [] == Of(rest, bead);
    }
  }

  lemma {:induction false} RunKeepsCosts(l: Limits, s: State, steps: seq<Step>)
    requires IsRun(l, s, steps) && NotNegative(s.entries) && AllMicro(s.entries)
    ensures NotNegative(After(l, s, steps).entries) && AllMicro(After(l, s, steps).entries)
    decreases |steps|
  {
    if steps != [] {
      SpendOnlyGrows(l, s, steps[0], None);
      RunKeepsCosts(l, Apply(l, s, steps[0]), steps[1..]);
    }
  }

  lemma MicrosBelow(a: real, b: real)
    requires IsMicro(a) && IsMicro(b) && a < b
    ensures a <= b - 0.000001
  {
    var m := MicroCount(a);
    var n := MicroCount(b);
    assert m < n;
  }

  lemma {:induction false} RepeatedIsMicro(c: real, n: nat)
    requires IsMicro(c)
    ensures IsMicro(Repeated(c, n))
  {
    if n == 0 {
      MicrosOf(0);
    } else {
      RepeatedIsMicro(c, n - 1);
      SumIsMicro(Repeated(c, n - 1), c);
    }
  }

  lemma SumIsMicro(a: real, b: real)
    requires IsMicro(a) && IsMicro(b)
    ensures IsMicro(a + b)
  {
    var m := MicroCount(a);
    var n := MicroCount(b);
    MicrosOf(m + n);
    assert a + b == Usd(m + n);
  }

  /** From any start, over every interleaving, no account goes beyond its bound. */
  lemma BoundIsNeverPassed(l: Limits, s: State, steps: seq<Step>, who: Option<string>)
    requires InMicros(l, who) && Start(l, s) && NotNegative(s.entries) && IsRun(l, s, steps)
    ensures SpentOn(After(l, s, steps).entries, who) <= Bound(l, who)
  {
    var t := After(l, s, steps);
    StartIsInv(l, s);
    RunKeepsInv(l, s, steps);
    InvBoundsSpend(l, t, who);
    InvBoundsSpend(l, t, None);
    RunKeepsCosts(l, s, steps);
    SpentIsMicro(t.entries, who);
    if who.Some? {
      BeadIsPartOfKshetra(t.entries, who.value);
    }
    hide Total, Of, IsMicro, AllMicro, Inv, NotNegative, After, IsRun, Start, Bound;
    AtMostBound(l, who, SpentOn(t.entries, who));
  }

  lemma AtMostBound(l: Limits, who: Option<string>, spent: real)
    requires InMicros(l, who) && IsMicro(spent)
    requires spent < Ceiling(l.caps, who) + 4.0 * (l.inFlight as real) * l.perAttempt
    ensures spent <= Bound(l, who)
  {
    SlackIsProduct(l.perAttempt, l.inFlight);
    RepeatedIsMicro(l.perAttempt, 4 * l.inFlight);
    hide IsMicro, Repeated;
    var slack := Repeated(l.perAttempt, 4 * l.inFlight);
    SumIsMicro(Ceiling(l.caps, who), slack);
    MicrosBelow(spent, Ceiling(l.caps, who) + slack);
  }

  lemma SpentIsMicro(entries: seq<Entry>, who: Option<string>)
    requires AllMicro(entries)
    ensures IsMicro(SpentOn(entries, who))
  {
    TotalIsMicro(entries);
    if who.Some? {
      OfIsMicro(entries, who.value);
      TotalIsMicro(Of(entries, who.value));
    }
  }

  // ── when a cap is hard ─────────────────────────────────────────────────────

  /** Some capped account can be brought above its cap. */
  ghost predicate CanPass(l: Limits) {
    exists s, t, who :: Start(l, s) && Reaches(l, s, t) && Cap(l.caps, who).Some?
      && SpentOn(t.entries, who) > Cap(l.caps, who).value
  }

  /** The account with the lower cap. */
  function Tightest(caps: Caps): Option<string> {
    if caps.perBeadUsd.Some? && (caps.perKshetraUsd.None? || caps.perBeadUsd.value < caps.perKshetraUsd.value)
    then Some("b") else None
  }

  lemma LastMicroBelow(usd: real) returns (n: nat)
    requires usd > 0.0
    ensures Usd(n) < usd <= Usd(n + 1)
  {
    var f := (usd * 1000000.0).Floor;
    FloorBelow(usd * 1000000.0);
    n := if f as real == usd * 1000000.0 then f - 1 else f;
  }

  /** The gate looks at recorded spend only: wherever a run may start and an attempt may cost anything, a cap can be passed. */
  lemma CapCanBePassed(l: Limits)
    requires Positive(l.caps) && (l.caps.perBeadUsd.Some? || l.caps.perKshetraUsd.Some?)
    requires l.inFlight >= 1 && l.perAttempt >= Usd(1)
    ensures CanPass(l)
  {
    var who := Tightest(l.caps);
    var n := LastMicroBelow(Cap(l.caps, who).value);
    var bead, e := BeadAt(who, n), Ones(who, n);
    FilledThenFleet(l, who, n, 1);
    MicrosOf(1);
    assert Fleet(bead, 1) == [] + [InFlight(bead, 4)];
    var after := RunMeters(l, e, [], bead, 4, Usd(1), who);
    RepeatedIsProduct(Usd(1), 4);
    NothingSpentIsAStart(l);
    hide Reaches, SpentOn, Start, IsMicro, Repeated, Fleet, Ones, BeadAt;
    var t := State(after, [] + [InFlight(bead, 0)]);
    ReachesOnward(l, NOTHING_SPENT, State(e, Fleet(bead, 1)), t);
    assert SpentOn(t.entries, who) > Cap(l.caps, who).value;
  }

  lemma CostsNothing(cost: real, most: real)
    requires IsMicro(cost) && 0.0 <= cost <= most < Usd(1)
    ensures cost == 0.0
  {
    var n := MicroCount(cost);
    assert n == 0;
  }

  lemma StepSpendsNothing(l: Limits, s: State, step: Step, who: Option<string>)
    requires l.inFlight == 0 || l.perAttempt < Usd(1)
    requires Enabled(l, s, step) && |s.running| <= l.inFlight
    ensures SpentOn(Apply(l, s, step).entries, who) == SpentOn(s.entries, who)
    ensures |Apply(l, s, step).running| <= l.inFlight
  {
    if step.Meter? {
      CostsNothing(step.costUsd, l.perAttempt);
      hide IsMicro, SpentOn;
      SpentOneMore(s.entries, Entry(s.running[step.run].bead, step.costUsd, step.priced), who);
    }
  }

  /** Where nothing may start, or no attempt may cost a micro-dollar, nothing is ever spent. */
  lemma {:induction false} NothingIsSpent(l: Limits, s: State, steps: seq<Step>, who: Option<string>)
    requires l.inFlight == 0 || l.perAttempt < Usd(1)
    requires IsRun(l, s, steps) && |s.running| <= l.inFlight
    ensures SpentOn(After(l, s, steps).entries, who) == SpentOn(s.entries, who)
    decreases |steps|
  {
    if steps != [] {
      StepSpendsNothing(l, s, steps[0], who);
      hide SpentOn, Apply, Enabled;
      NothingIsSpent(l, Apply(l, s, steps[0]), steps[1..], who);
    }
  }

  /** A cap is hard exactly when no run may be in flight or no attempt can cost a micro-dollar. */
  lemma CapIsHardExactly(l: Limits)
    requires Positive(l.caps) && (l.caps.perBeadUsd.Some? || l.caps.perKshetraUsd.Some?)
    ensures !CanPass(l) <==> l.inFlight == 0 || l.perAttempt < 0.000001
  {
    if l.inFlight >= 1 && l.perAttempt >= Usd(1) {
      CapCanBePassed(l);
    } else {
      forall s, t, who | Start(l, s) && Reaches(l, s, t) && Cap(l.caps, who).Some?
        ensures SpentOn(t.entries, who) <= Cap(l.caps, who).value
      {
        var steps :| IsRun(l, s, steps) && After(l, s, steps) == t;
        NothingIsSpent(l, s, steps, who);
      }
    }
  }
}
