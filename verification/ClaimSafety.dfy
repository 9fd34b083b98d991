/**
 What the `worker.pid` protocol keeps (src/cli/pid.ts): the invariant of every run of
 harmless steps, and what it promises.
 */
module ClaimSafety {

  import opened ClaimProtocol
  import opened Prelude

  // ── the invariant ──────────────────────────────────────────────────────────

  /** `p` is inside a claim for itself that will write its name into the missing file. */
  predicate Rewrites(point: Point, p: Pid) {
    point == ClaimLocked(p) || point == ClaimRead(p, None) || point == ClaimWrites(p, None)
  }

  /** An owner is live, and worker.pid names it or is about to again. */
  predicate OwnerHolds(s: State, p: Pid) {
    p in s.alive && (s.pidFile == Some(p) || (s.pidFile.None? && Rewrites(At(s, p), p)))
  }

  /** What a process may rely on at its point. */
  predicate PointHolds(s: State, p: Pid) {
    var c := At(s, p);
    && (Critical(c) ==> p in s.alive && s.lock)
    && (Releasing(c) ==> p !in s.owners)
    && (c.ClaimRead? ==> (s.pidFile == c.existing || s.pidFile.None?) && c.existing != Some(c.subject))
    && (c.ClaimWrites? ==> s.owners == {} || (s.owners == {p} && c == ClaimWrites(p, None) && s.pidFile.None?))
    && (c.ReleaseClears? ==> s.pidFile == Some(p) || s.pidFile.None?)
  }

  ghost predicate OneInside(s: State) {
    forall p, q :: Critical(At(s, p)) && Critical(At(s, q)) ==> p == q
  }

  /** Every owner holds the file, every process what it relies on, and at most one process is inside. */
  ghost predicate Inv(s: State) {
    && (forall p :: p in s.owners ==> OwnerHolds(s, p))
    && (forall p :: PointHolds(s, p))
    && OneInside(s)
  }

  lemma OneOwner(s: State, p: Pid, q: Pid)
    requires Inv(s) && p in s.owners && q in s.owners
    ensures p == q
  {
    assert OwnerHolds(s, p) && OwnerHolds(s, q);
  }

  /** With the lock free, or a process inside that rewrites nothing of its own, the file names every owner. */
  lemma OwnersFollowFile(s: State)
    requires Inv(s) && (!s.lock || exists p :: Critical(At(s, p)) && !Rewrites(At(s, p), p))
    ensures forall p :: p in s.owners ==> s.pidFile == Some(p)
    ensures s.pidFile.None? || s.pidFile.value !in s.owners ==> s.owners == {}
  {
    forall p | p in s.owners ensures s.pidFile == Some(p) {
      assert OwnerHolds(s, p) && PointHolds(s, p);
    }
    assert s.pidFile.None? || s.pidFile.value !in s.owners ==> forall p :: p !in s.owners;
  }

  lemma StepKeepsOwners(s: State, step: Step)
    requires Inv(s) && Enabled(s, step) && Harmless(s, step)
    ensures forall p :: p in Apply(s, step).owners ==> OwnerHolds(Apply(s, step), p)
  {
    var t := Apply(s, step);
    assert PointHolds(s, step.p);
    forall p | p in t.owners ensures OwnerHolds(t, p) {
      assert PointHolds(s, p);
      assert p in s.owners ==> OwnerHolds(s, p);
      assert Critical(At(s, p)) && Critical(At(s, step.p)) ==> p == step.p;
    }
  }

  /** What a decision to write rests on: nobody owns the Kshetra but the decider, rewriting its own claim. */
  lemma DecidedOwners(s: State, p: Pid, live: bool)
    requires Inv(s) && Enabled(s, Decide(p, live)) && !(At(s, p).existing.Some? && live)
    ensures s.owners == {} || (s.owners == {p} && At(s, p) == ClaimRead(p, None) && s.pidFile.None?)
  {
    var c := At(s, p);
    assert PointHolds(s, p);
    forall q | q in s.owners ensures q == p && c == ClaimRead(p, None) && s.pidFile.None? {
      assert OwnerHolds(s, q) && PointHolds(s, q);
    }
    assert p in s.owners ==> s.owners == {p};
    assert p !in s.owners ==> forall q :: q !in s.owners;
  }

  lemma StepKeepsPoints(s: State, step: Step)
    requires Inv(s) && Enabled(s, step) && Harmless(s, step)
    ensures forall p :: PointHolds(Apply(s, step), p)
  {
    var t := Apply(s, step);
    assert PointHolds(s, step.p);
    if step.Decide? && !(At(s, step.p).existing.Some? && step.live) {
      DecidedOwners(s, step.p, step.live);
    }
    forall p ensures PointHolds(t, p) {
      assert PointHolds(s, p);
      assert Critical(At(s, p)) && Critical(At(s, step.p)) ==> p == step.p;
    }
  }

  lemma StepKeepsOneInside(s: State, step: Step)
    requires Inv(s) && Enabled(s, step) && Harmless(s, step)
    ensures OneInside(Apply(s, step))
  {
    var t := Apply(s, step);
    forall p, q | Critical(At(t, p)) && Critical(At(t, q)) ensures p == q {
      assert PointHolds(s, p) && PointHolds(s, q);
    }
  }

  lemma StepKeepsInv(s: State, step: Step)
    requires Inv(s) && Enabled(s, step) && Harmless(s, step)
    ensures Inv(Apply(s, step))
  {
    StepKeepsOwners(s, step);
    StepKeepsPoints(s, step);
    StepKeepsOneInside(s, step);
  }

  lemma {:induction false} RunKeepsInv(states: seq<State>, steps: seq<Step>, k: nat)
    requires IsHarmlessRun(states, steps) && k < |states|
    ensures Inv(states[k])
  {
    if k > 0 {
      RunKeepsInv(states, steps, k - 1);
      StepKeepsInv(states[k - 1], steps[k - 1]);
    }
  }

  // ── the promises ───────────────────────────────────────────────────────────

  /**
   Over every run of harmless steps there are never two owners, each is live, and
   worker.pid names it, or is missing while the owner itself is about to write it.
   */
  lemma NeverTwoOwners(states: seq<State>, steps: seq<Step>, k: nat, p: Pid, q: Pid)
    requires IsHarmlessRun(states, steps) && k < |states|
    requires p in states[k].owners && q in states[k].owners
    ensures p == q && p in states[k].alive
    ensures states[k].pidFile == Some(p) || (states[k].pidFile.None? && Rewrites(At(states[k], p), p))
  {
    RunKeepsInv(states, steps, k);
    OneOwner(states[k], p, q);
    assert OwnerHolds(states[k], p);
  }

  /**
   A claim never takes the file from another owner; a release removes its own claim,
   and no other. Nothing but a claim's rename and the two unlinks touches the file.
   */
  lemma OwnershipIsNeverTaken(states: seq<State>, steps: seq<Step>, k: nat)
    requires IsHarmlessRun(states, steps) && k < |steps|
    ensures steps[k].Rename? ==>
              && states[k].owners <= {steps[k].p} && states[k].owners <= {At(states[k], steps[k].p).subject}
              && states[k + 1].pidFile == Some(At(states[k], steps[k].p).subject)
    ensures steps[k].Clear? ==>
              && states[k].owners == {} && (states[k].pidFile == Some(steps[k].p) || states[k].pidFile.None?)
              && states[k + 1].pidFile.None?
    ensures steps[k].StopUnlinks? ==> states[k + 1].pidFile.None?
    ensures !steps[k].Rename? && !steps[k].Clear? && !steps[k].StopUnlinks? ==> states[k + 1].pidFile == states[k].pidFile
    ensures forall p :: p in states[k].owners && p !in states[k + 1].owners ==>
              steps[k] == Die(p) || steps[k] == BeginRelease(p)
  {
    RunKeepsInv(states, steps, k);
    var s, c := states[k], At(states[k], steps[k].p);
    assert PointHolds(s, steps[k].p);
    if steps[k].Clear? {
      OwnersFollowFile(s);
    }
  }

  lemma SoloClaim(s: State, p: Pid, t: State)
    requires p in s.alive && At(s, p) == Idle && !s.lock && s.pidFile != Some(p)
    requires s.pidFile.Some? ==> s.pidFile.value !in s.owners
    requires t == Goto(s.(pidFile := Some(p), owners := s.owners + {p}), p, Idle)
    ensures Exec(s, ClaimSteps(p)) == Some(t)
  {
    var st := ClaimSteps(p);
    var r1 := Apply(s, st[0]);
    var r2 := Apply(r1, st[1]);
    var r3 := Apply(r2, st[2]);
    var r4 := Apply(r3, st[3]);
    var r5 := Apply(r4, st[4]);
    assert Apply(r5, st[5]) == t;
    assert Exec(r5, st[5..]) == Some(t);
    assert Exec(r4, st[4..]) == Some(t);
    assert Exec(r3, st[3..]) == Some(t);
    assert Exec(r2, st[2..]) == Some(t);
    assert Exec(r1, st[1..]) == Some(t);
  }

  /** A pid file that names no live worker, dead or recycled, blocks nobody: a claim that runs alone takes it over. */
  lemma StaleFileIsReclaimed(s: State, p: Pid)
    requires Inv(s) && p in s.alive && At(s, p) == Idle && !s.lock
    requires s.pidFile.Some? ==> s.pidFile.value !in s.owners && s.pidFile != Some(p)
    ensures Exec(s, ClaimSteps(p)).Some?
    ensures var t := Exec(s, ClaimSteps(p)).value; t.owners == {p} && t.pidFile == Some(p) && !t.lock
  {
    OwnersFollowFile(s);
    SoloClaim(s, p, Goto(s.(pidFile := Some(p), owners := s.owners + {p}), p, Idle));
  }
}
