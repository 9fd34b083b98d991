/**
 Exactly which steps of the `worker.pid` protocol can lead to two owners
 (src/cli/pid.ts, src/cli/stop.ts): each harmful step is continued by harmless ones
 to a state with two.
 */
module ClaimHarm {

  import opened ClaimProtocol
  import opened ClaimSafety
  import opened Prelude

  /** Performs harmless steps in turn, if each can happen. */
  ghost function Walk(s: State, steps: seq<Step>): Option<State>
    decreases |steps|
  {
    if steps == [] then Some(s)
    else if !Enabled(s, steps[0]) || !Harmless(s, steps[0]) then None
    else Walk(Apply(s, steps[0]), steps[1..])
  }

  predicate TwoOwners(s: State) {
    exists p, q :: p in s.owners && q in s.owners && p != q
  }

  /** Harmless steps alone can lead from here to two owners. */
  ghost predicate CanDouble(s: State) {
    exists steps :: Walk(s, steps).Some? && TwoOwners(Walk(s, steps).value)
  }

  lemma {:induction false} WalkKeepsInv(s: State, steps: seq<Step>)
    requires Inv(s) && Walk(s, steps).Some?
    ensures Inv(Walk(s, steps).value)
    decreases |steps|
  {
    if steps != [] {
      StepKeepsInv(s, steps[0]);
      WalkKeepsInv(Apply(s, steps[0]), steps[1..]);
    }
  }

  lemma InvCannotDouble(s: State)
    requires Inv(s)
    ensures !CanDouble(s)
  {
    forall steps | Walk(s, steps).Some? ensures !TwoOwners(Walk(s, steps).value) {
      WalkKeepsInv(s, steps);
      forall p, q | p in Walk(s, steps).value.owners && q in Walk(s, steps).value.owners ensures p == q {
        OneOwner(Walk(s, steps).value, p, q);
      }
    }
  }

  lemma Doubled(s: State)
    requires TwoOwners(s)
    ensures CanDouble(s)
  {
    assert Walk(s, []) == Some(s);
  }

  lemma StepBack(s: State, step: Step)
    requires Enabled(s, step) && Harmless(s, step) && CanDouble(Apply(s, step))
    ensures CanDouble(s)
  {
    var rest :| Walk(Apply(s, step), rest).Some? && TwoOwners(Walk(Apply(s, step), rest).value);
    var steps := [step] + rest;
    assert steps[1..] == rest;
    assert Walk(s, steps) == Walk(Apply(s, step), rest);
  }

  lemma HasMember(pids: set<Pid>)
    requires pids != {}
    ensures exists p :: p in pids
  {
    assert (forall p :: p !in pids) ==> pids <= {};
  }

  lemma {:induction false} AboveAll(pids: set<Pid>) returns (p: Pid)
    ensures forall q :: q in pids ==> q < p
  {
    p := 0;
    if pids != {} {
      HasMember(pids);
      var top :| top in pids;
      var rest := AboveAll(pids - {top});
      p := if top < rest then rest else top + 1;
      forall q | q in pids ensures q < p {
        assert q == top || q in pids - {top};
      }
    }
  }

  lemma FreshPid(s: State) returns (q: Pid)
    ensures q !in s.alive && q !in s.owners && s.pidFile != Some(q)
  {
    q := AboveAll(s.alive + s.owners + if s.pidFile.Some? then {s.pidFile.value} else {});
  }

  /** A step moves nobody but the process that takes it. */
  lemma OthersStay(s: State, step: Step)
    requires Enabled(s, step)
    ensures forall p :: p != step.p ==> At(Apply(s, step), p) == At(s, p)
  {
  }

  ghost predicate OnlyInside(s: State, o: Pid) {
    forall p :: Critical(At(s, p)) ==> p == o
  }

  ghost predicate NobodyInside(s: State) {
    forall p :: !Critical(At(s, p))
  }

  /** The only process inside steps out. */
  lemma StepsOut(s: State, step: Step)
    requires Enabled(s, step) && OnlyInside(s, step.p) && !Critical(At(Apply(s, step), step.p))
    ensures NobodyInside(Apply(s, step))
  {
    OthersStay(s, step);
    forall p ensures !Critical(At(Apply(s, step), p)) {
      assert Critical(At(s, p)) ==> p == step.p;
    }
  }

  lemma StaysInside(s: State, step: Step)
    requires Enabled(s, step) && OnlyInside(s, step.p)
    ensures OnlyInside(Apply(s, step), step.p)
  {
    OthersStay(s, step);
    forall p | Critical(At(Apply(s, step), p)) ensures p == step.p {
      assert p != step.p ==> Critical(At(s, p));
    }
  }

  /** With nobody inside and the file naming no owner, a newcomer claims beside the owner there is. */
  lemma NewcomerDoubles(s: State, o: Pid)
    requires o in s.owners && NobodyInside(s)
    requires s.pidFile.Some? ==> s.pidFile.value !in s.owners
    ensures CanDouble(s)
  {
    var q := FreshPid(s);
    var s1 := Apply(s, Spawn(q));
    var s2 := Apply(s1, BeginClaim(q, q));
    forall p | p in s2.at ensures !Critical(s2.at[p]) {
      assert !Critical(At(s, p));
    }
    var s3 := if s2.lock then Apply(s2, BreakLock(q)) else s2;
    NewcomerClaims(s3, q, o);
    if s2.lock {
      StepBack(s2, BreakLock(q));
    }
    StepBack(s1, BeginClaim(q, q));
    StepBack(s, Spawn(q));
  }

  lemma NewcomerClaims(s: State, q: Pid, o: Pid)
    requires q in s.alive && At(s, q) == ClaimWaits(q) && !s.lock && o in s.owners && o != q
    requires s.pidFile.Some? ==> s.pidFile.value !in s.owners && s.pidFile != Some(q)
    ensures CanDouble(s)
  {
    var s1 := Apply(s, Lock(q));
    var s2 := Apply(s1, Read(q));
    var s3 := Apply(s2, Decide(q, false));
    var s4 := Apply(s3, Rename(q));
    assert o in s4.owners && q in s4.owners;
    Doubled(s4);
    StepBack(s3, Rename(q));
    StepBack(s2, Decide(q, false));
    StepBack(s1, Read(q));
    StepBack(s, Lock(q));
  }

  // ── a lock broken while somebody is inside ─────────────────────────────────

  /** Two processes that have both read a file which names no owner both write it. */
  lemma BothDecide(s: State, q: Pid, r: Pid)
    requires q != r && q in s.alive && r in s.alive
    requires At(s, q) == ClaimRead(q, s.pidFile) && At(s, r) == ClaimRead(r, s.pidFile)
    requires s.pidFile.Some? ==> s.pidFile.value !in s.owners
    ensures CanDouble(s)
  {
    var s1 := Apply(s, Decide(q, false));
    var s2 := Apply(s1, Decide(r, false));
    var s3 := Apply(s2, Rename(q));
    var s4 := Apply(s3, Rename(r));
    assert q in s4.owners && r in s4.owners;
    Doubled(s4);
    StepBack(s3, Rename(r));
    StepBack(s2, Rename(q));
    StepBack(s1, Decide(r, false));
    StepBack(s, Decide(q, false));
  }

  /** The owner the file names, if any, dies first. */
  lemma OwnerDiesThenBothDecide(s: State, q: Pid, r: Pid)
    requires s.owners <= s.alive && q != r && q in s.alive && r in s.alive
    requires At(s, q) == ClaimRead(q, s.pidFile) && At(s, r) == ClaimRead(r, s.pidFile)
    requires s.pidFile != Some(q) && s.pidFile != Some(r)
    ensures CanDouble(s)
  {
    if s.pidFile.Some? && s.pidFile.value in s.owners {
      var o := s.pidFile.value;
      BothDecide(Apply(s, Die(o)), q, r);
      StepBack(s, Die(o));
    } else {
      BothDecide(s, q, r);
    }
  }

  lemma SecondReads(s: State, q: Pid)
    requires s.owners <= s.alive && q in s.alive && !s.lock
    requires At(s, q) == ClaimRead(q, s.pidFile) && s.pidFile != Some(q)
    ensures CanDouble(s)
  {
    var r := FreshPid(s);
    var s1 := Apply(s, Spawn(r));
    var s2 := Apply(s1, BeginClaim(r, r));
    var s3 := Apply(s2, Lock(r));
    var s4 := Apply(s3, Read(r));
    OwnerDiesThenBothDecide(s4, q, r);
    StepBack(s3, Read(r));
    StepBack(s2, Lock(r));
    StepBack(s1, BeginClaim(r, r));
    StepBack(s, Spawn(r));
  }

  /** `c` is about to unlink a lock that is no longer its own. */
  lemma FirstReads(s: State, c: Pid)
    requires s.owners <= s.alive && c in s.alive && !s.lock && At(s, c) == Unlocks
    ensures CanDouble(s)
  {
    var q := FreshPid(s);
    var s1 := Apply(s, Spawn(q));
    var s2 := Apply(s1, BeginClaim(q, q));
    var s3 := Apply(s2, Lock(q));
    var s4 := Apply(s3, Read(q));
    var s5 := Apply(s4, Unlock(c));
    SecondReads(s5, q);
    StepBack(s4, Unlock(c));
    StepBack(s3, Read(q));
    StepBack(s2, Lock(q));
    StepBack(s1, BeginClaim(q, q));
    StepBack(s, Spawn(q));
  }

  /** How far a process inside is from its unlink. */
  function StepsToUnlink(point: Point): nat {
    match point
    case ClaimLocked(_) => 3
    case ReleaseLocked => 3
    case ClaimRead(_, _) => 2
    case ClaimWrites(_, _) => 1
    case ReleaseClears => 1
    case _ => 0
  }

  /** The next step of a process inside, which leaves the lock alone. */
  function Onward(p: Pid, point: Point): Step {
    match point
    case ClaimLocked(_) => Read(p)
    case ReleaseLocked => Read(p)
    case ClaimRead(_, existing) => Decide(p, existing.Some?)
    case ClaimWrites(_, _) => Rename(p)
    case _ => Clear(p)
  }

  lemma {:induction false} InsideWalksOut(s: State, c: Pid)
    requires s.owners <= s.alive && c in s.alive && !s.lock && Critical(At(s, c))
    ensures CanDouble(s)
    decreases StepsToUnlink(At(s, c))
  {
    if At(s, c) == Unlocks {
      FirstReads(s, c);
    } else {
      var step := Onward(c, At(s, c));
      InsideWalksOut(Apply(s, step), c);
      StepBack(s, step);
    }
  }

  // ── an owner's file unlinked ───────────────────────────────────────────────

  /** The owner itself is inside, past the point where it would notice: it leaves without its file. */
  lemma OwnerLeaves(s: State, o: Pid)
    requires o in s.owners && o in s.alive && At(s, o) == Unlocks
    requires OnlyInside(s, o)
    requires s.pidFile.Some? ==> s.pidFile.value !in s.owners
    ensures CanDouble(s)
  {
    var t := Apply(s, Unlock(o));
    StepsOut(s, Unlock(o));
    NewcomerDoubles(t, o);
    StepBack(s, Unlock(o));
  }

  /** The owner is claiming for somebody else, whose name it writes. */
  lemma OwnerClaimsForAnother(s: State, o: Pid)
    requires o in s.owners && o in s.alive && s.pidFile.None? && At(s, o).ClaimLocked? && At(s, o).subject != o
    requires OnlyInside(s, o)
    ensures CanDouble(s)
  {
    var x := At(s, o).subject;
    var s1 := Apply(s, Read(o));
    var s2 := Apply(s1, Decide(o, false));
    var s3 := Apply(s2, Rename(o));
    StaysInside(s, Read(o));
    StaysInside(s1, Decide(o, false));
    StaysInside(s2, Rename(o));
    if x in s3.owners {
      Doubled(s3);
    } else {
      OwnerLeaves(s3, o);
    }
    StepBack(s2, Rename(o));
    StepBack(s1, Decide(o, false));
    StepBack(s, Read(o));
  }

  /** The owner has read its own name and so turns its subject away. */
  lemma OwnerTurnsAway(s: State, o: Pid)
    requires o in s.owners && o in s.alive && s.pidFile.None? && At(s, o).ClaimRead? && At(s, o).existing == Some(o)
    requires OnlyInside(s, o)
    ensures CanDouble(s)
  {
    StaysInside(s, Decide(o, true));
    OwnerLeaves(Apply(s, Decide(o, true)), o);
    StepBack(s, Decide(o, true));
  }

  /** Somebody else inside dies there, and its lock goes stale. */
  lemma InsiderDies(s: State, o: Pid, c: Pid)
    requires o in s.owners && c != o && c in s.alive && s.pidFile.None?
    requires OnlyInside(s, c)
    ensures CanDouble(s)
  {
    StepsOut(s, Die(c));
    NewcomerDoubles(Apply(s, Die(c)), o);
    StepBack(s, Die(c));
  }

  lemma UnlinkedOwnerDoubles(s: State, p: Pid)
    requires Inv(s) && Enabled(s, StopUnlinks(p)) && !Harmless(s, StopUnlinks(p))
    ensures CanDouble(Apply(s, StopUnlinks(p)))
  {
    var o, t := s.pidFile.value, Apply(s, StopUnlinks(p));
    assert OwnerHolds(s, o) && PointHolds(s, o);
    assert forall c :: Critical(At(t, c)) ==> Critical(At(s, c)) && At(t, c) == At(s, c);
    if c :| Critical(At(s, c)) {
      assert PointHolds(s, c) && At(t, c) == At(s, c);
      if c != o {
        InsiderDies(t, o, c);
      } else {
        assert At(s, o).Unlocks? || At(s, o).ClaimLocked? || (At(s, o).ClaimRead? && At(s, o).existing == Some(o));
        if At(s, o).Unlocks? {
          OwnerLeaves(t, o);
        } else if At(s, o).ClaimLocked? {
          OwnerClaimsForAnother(t, o);
        } else {
          OwnerTurnsAway(t, o);
        }
      }
    } else {
      NewcomerDoubles(t, o);
    }
  }

  lemma BrokenLockDoubles(s: State, b: Pid)
    requires Inv(s) && Enabled(s, BreakLock(b)) && !Harmless(s, BreakLock(b))
    ensures CanDouble(Apply(s, BreakLock(b)))
  {
    var c :| c in s.at && Critical(s.at[c]);
    assert PointHolds(s, c);
    forall p | p in s.owners ensures p in s.alive {
      assert OwnerHolds(s, p);
    }
    InsideWalksOut(Apply(s, BreakLock(b)), c);
  }

  /**
   From every state of a safe run, a step keeps two owners out of reach exactly
   when it is harmless: any lock broken around a process inside, and any owner's
   file unlinked but in the one case where it is about to be written again, lets
   harmless steps alone end with two owners.
   */
  lemma HarmlessExactly(s: State, step: Step)
    requires Inv(s) && Enabled(s, step)
    ensures Harmless(s, step) <==> !CanDouble(Apply(s, step))
  {
    if Harmless(s, step) {
      StepKeepsInv(s, step);
      InvCannotDouble(Apply(s, step));
    } else if step.BreakLock? {
      BrokenLockDoubles(s, step.p);
    } else {
      UnlinkedOwnerDoubles(s, step.p);
    }
  }

  // ── one run of each kind, from the start ───────────────────────────────────

  lemma {:induction false} ExecOneMore(s: State, done: seq<Step>, step: Step)
    requires Exec(s, done).Some? && Enabled(Exec(s, done).value, step)
    ensures Exec(s, done + [step]) == Some(Apply(Exec(s, done).value, step))
    decreases |done|
  {
    var all := done + [step];
    if done == [] {
      assert all[1..] == [];
    } else {
      ExecOneMore(Apply(s, done[0]), done[1..], step);
      assert all[1..] == done[1..] + [step];
    }
  }

  /** `ExecOneMore` along a list of steps. */
  lemma {:induction false} ExecAll(s: State, done: seq<Step>, t: State, next: seq<Step>, u: State)
    requires Exec(s, done) == Some(t) && Exec(t, next) == Some(u)
    ensures Exec(s, done + next) == Some(u)
    decreases |next|
  {
    if next == [] {
      assert done + next == done;
    } else {
      ExecOneMore(s, done, next[0]);
      ExecAll(s, done + [next[0]], Apply(t, next[0]), next[1..], u);
      assert done + next == done + [next[0]] + next[1..];
    }
  }

  lemma LockBroken(s: State, st: seq<Step>, t: State)
    requires s == State(false, None, {1, 2}, {}, map[])
    requires st == [BeginClaim(1, 1), Lock(1), Read(1), BeginClaim(2, 2), BreakLock(2)]
    requires t == State(false, None, {1, 2}, {}, map[1 := ClaimRead(1, None), 2 := ClaimWaits(2)])
    ensures Exec(s, st) == Some(t)
  {
    var r1 := Apply(s, st[0]);
    var r2 := Apply(r1, st[1]);
    var r3 := Apply(r2, st[2]);
    var r4 := Apply(r3, st[3]);
    assert Apply(r4, st[4]) == t;
    assert Exec(r4, st[4..]) == Some(t);
    assert Exec(r3, st[3..]) == Some(t);
    assert Exec(r2, st[2..]) == Some(t);
    assert Exec(r1, st[1..]) == Some(t);
  }

  lemma BothRead(s: State, st: seq<Step>, t: State)
    requires s == State(false, None, {1, 2}, {}, map[1 := ClaimRead(1, None), 2 := ClaimWaits(2)])
    requires st == [Lock(2), Read(2)]
    requires t == State(true, None, {1, 2}, {}, map[1 := ClaimRead(1, None), 2 := ClaimRead(2, None)])
    ensures Exec(s, st) == Some(t)
  {
    var r1 := Apply(s, st[0]);
    assert Apply(r1, st[1]) == t;
    assert Exec(r1, st[1..]) == Some(t);
  }

  lemma BothWrite(s: State, st: seq<Step>, t: State)
    requires s == State(true, None, {1, 2}, {}, map[1 := ClaimRead(1, None), 2 := ClaimRead(2, None)])
    requires st == [Decide(1, false), Rename(1), Decide(2, false), Rename(2)]
    requires t == State(true, Some(2), {1, 2}, {1, 2}, map[1 := Unlocks, 2 := Unlocks])
    ensures Exec(s, st) == Some(t)
  {
    var r1 := Apply(s, st[0]);
    var r2 := Apply(r1, st[1]);
    var r3 := Apply(r2, st[2]);
    assert Apply(r3, st[3]) == t;
    assert Exec(r3, st[3..]) == Some(t);
    assert Exec(r2, st[2..]) == Some(t);
    assert Exec(r1, st[1..]) == Some(t);
  }

  /** From the start: a claimer stalled inside has its lock broken, and both claims succeed. */
  lemma BreakingAHeldLockMakesTwoOwners() returns (s: State, steps: seq<Step>, t: State)
    ensures Init(s) && Exec(s, steps) == Some(t) && t.owners == {1, 2} <= t.alive
    ensures forall st :: st in steps ==> !st.StopUnlinks?
  {
    var s0 := State(false, None, {1, 2}, {}, map[]);
    var s1 := State(false, None, {1, 2}, {}, map[1 := ClaimRead(1, None), 2 := ClaimWaits(2)]);
    var s2 := State(true, None, {1, 2}, {}, map[1 := ClaimRead(1, None), 2 := ClaimRead(2, None)]);
    var s3 := State(true, Some(2), {1, 2}, {1, 2}, map[1 := Unlocks, 2 := Unlocks]);
    var a, b, c := [BeginClaim(1, 1), Lock(1), Read(1), BeginClaim(2, 2), BreakLock(2)],
                   [Lock(2), Read(2)],
                   [Decide(1, false), Rename(1), Decide(2, false), Rename(2)];
    LockBroken(s0, a, s1);
    BothRead(s1, b, s2);
    BothWrite(s2, c, s3);
    ExecAll(s0, a, s1, b, s2);
    ExecAll(s0, a + b, s2, c, s3);
    s, steps, t := s0, a + b + c, s3;
  }

  lemma StopLooks(s: State, st: seq<Step>, t: State)
    requires s == State(false, Some(9), {1, 2, 3}, {}, map[]) && st == [StopReads(3), StopTests(3)]
    requires t == State(false, Some(9), {1, 2, 3}, {}, map[3 := StopClears])
    ensures Exec(s, st) == Some(t)
  {
    var r1 := Apply(s, st[0]);
    assert Apply(r1, st[1]) == t;
    assert Exec(r1, st[1..]) == Some(t);
  }

  lemma StopUnlinksLate(s: State, st: seq<Step>, t: State)
    requires s == State(false, Some(1), {1, 2, 3}, {1}, map[3 := StopClears, 1 := Idle]) && st == [StopUnlinks(3)]
    requires t == State(false, None, {1, 2, 3}, {1}, map[3 := Idle, 1 := Idle])
    ensures Exec(s, st) == Some(t)
  {
    assert Apply(s, st[0]) == t;
  }

  /** From the start: a stop that looked before a claim unlinks the claim's file. */
  lemma LateStopMakesTwoOwners() returns (s: State, steps: seq<Step>, t: State)
    ensures Init(s) && Exec(s, steps) == Some(t) && t.owners == {1, 2} <= t.alive
    ensures forall st :: st in steps ==> !st.BreakLock?
  {
    hide Exec, Apply;
    var s0 := State(false, Some(9), {1, 2, 3}, {}, map[]);
    var s1 := State(false, Some(9), {1, 2, 3}, {}, map[3 := StopClears]);
    var s2 := State(false, Some(1), {1, 2, 3}, {1}, map[3 := StopClears, 1 := Idle]);
    var s3 := State(false, None, {1, 2, 3}, {1}, map[3 := Idle, 1 := Idle]);
    var s4 := State(false, Some(2), {1, 2, 3}, {1, 2}, map[3 := Idle, 1 := Idle, 2 := Idle]);
    var looks := [StopReads(3), StopTests(3)];
    StopLooks(s0, looks, s1);
    SoloClaim(s1, 1, s2);
    var late := [StopUnlinks(3)];
    StopUnlinksLate(s2, late, s3);
    SoloClaim(s3, 2, s4);
    ExecAll(s0, looks, s1, ClaimSteps(1), s2);
    ExecAll(s0, looks + ClaimSteps(1), s2, late, s3);
    ExecAll(s0, looks + ClaimSteps(1) + late, s3, ClaimSteps(2), s4);
    s, steps, t := s0, looks + ClaimSteps(1) + late + ClaimSteps(2), s4;
  }
}
