/**
 What the planning fold of src/phalaka/planning-read.ts keeps as the log grows, and
 that every matched usage event is charged once.
 */
module PlanningLaws {
  import opened Lines
  import opened PlanningSessions
  import opened Prelude

  /** `t` is `s` later on. */
  predicate Follows(s: Session, t: Session) {
    t.id == s.id && t.phase.Rank() >= s.phase.Rank() && (t.running ==> s.running)
  }

  /** A session has ended exactly when it has stopped running. */
  predicate StopsAtEnd(s: Session) {
    s.phase == Ended <==> !s.running
  }

  lemma ChangeMovesForward(s: Session, kind: string, ev: RawEvent)
    requires StopsAtEnd(s)
    ensures Follows(s, Change(s, kind, ev)) && StopsAtEnd(Change(s, kind, ev))
  {
    hide CaseOf, Text, Else, Advance;
    forall to ensures AdvancesTo(s, to, Advance(s, to)) {
      AdvanceMovesForward(s, to);
    }
  }

  predicate AdvancesTo(s: Session, to: Phase, t: Session) {
    t.id == s.id && t.running == s.running && t.phase == if to.Rank() > s.phase.Rank() then to else s.phase
  }

  lemma AdvanceMovesForward(s: Session, to: Phase)
    ensures AdvancesTo(s, to, Advance(s, to))
  {
  }

  ghost predicate AllStopAtEnd(f: Fold) {
    forall i :: 0 <= i < |f.sessions| ==> StopsAtEnd(f.sessions[i])
  }

  /** One more event never drops or reorders a session, and never takes one back to an earlier milestone. */
  lemma EventMovesForward(f: Fold, ev: RawEvent)
    requires AllStopAtEnd(f)
    ensures var g := FoldEvent(f, ev);
            && AllStopAtEnd(g) && |f.sessions| <= |g.sessions|
            && forall i :: 0 <= i < |f.sessions| ==> Follows(f.sessions[i], g.sessions[i])
  {
    var kind, id := NonEmpty(ev.kind), NonEmpty(ev.sessionId);
    if kind.Some? && id.Some? {
      var i := IndexOfId(f.sessions, id.value);
      var s := if i < |f.sessions| then f.sessions[i] else NewSession(id.value);
      ChangeMovesForward(s, kind.value, ev);
    }
  }

  lemma {:induction false} FoldStopsAtEnd(lines: seq<string>, parse: string -> Option<RawEvent>)
    ensures AllStopAtEnd(FoldLines(lines, parse))
  {
    if lines != [] {
      FoldStopsAtEnd(lines[..|lines| - 1], parse);
      LineMovesForward(FoldLines(lines[..|lines| - 1], parse), lines[|lines| - 1], parse);
    }
  }

  lemma LineMovesForward(f: Fold, line: string, parse: string -> Option<RawEvent>)
    requires AllStopAtEnd(f)
    ensures var g := FoldLine(f, line, parse);
            && AllStopAtEnd(g) && |f.sessions| <= |g.sessions|
            && forall i :: 0 <= i < |f.sessions| ==> Follows(f.sessions[i], g.sessions[i])
  {
    if parse(Trim(line)).Some? {
      EventMovesForward(f, parse(Trim(line)).value);
    }
  }

  /** As the log grows, sessions keep their place, only move forward, and end exactly when they stop running. */
  lemma {:induction false} MilestonesOnlyAdvance(lines: seq<string>, more: seq<string>, parse: string -> Option<RawEvent>)
    ensures var f, g := FoldLines(lines, parse), FoldLines(lines + more, parse);
            && AllStopAtEnd(g) && |f.sessions| <= |g.sessions|
            && forall i :: 0 <= i < |f.sessions| ==> Follows(f.sessions[i], g.sessions[i])
    decreases |more|
  {
    FoldStopsAtEnd(lines, parse);
    if more == [] {
      assert lines + more == lines;
    } else {
      var n := |more| - 1;
      MilestonesOnlyAdvance(lines, more[..n], parse);
      assert (lines + more)[..|lines + more| - 1] == lines + more[..n];
      LineMovesForward(FoldLines(lines + more[..n], parse), more[n], parse);
    }
  }

  /** Tokens and cost, added up figure by figure. */
  datatype Usage = Usage(input: real, output: real, cost: real) {
    function Plus(u: Usage): Usage {
      Usage(input + u.input, output + u.output, cost + u.cost)
    }
  }

  const NO_USAGE := Usage(0.0, 0.0, 0.0)

  function Spent(s: Session): Usage {
    Usage(s.inputTokens, s.outputTokens, s.costUsd)
  }

  function Reported(u: RawEvent): Usage {
    Usage(Amount(u.inputTokens), Amount(u.outputTokens), Amount(u.costUsd))
  }

  /** What all sessions spent together. */
  function SpentTotal(sessions: seq<Session>): Usage {
    if sessions == [] then NO_USAGE
    else SpentTotal(sessions[..|sessions| - 1]).Plus(Spent(sessions[|sessions| - 1]))
  }

  /** What the usage events that find a session report. */
  function MatchedTotal(sessions: seq<Session>, usage: seq<RawEvent>): Usage {
    if usage == [] then NO_USAGE
    else
      var u := usage[|usage| - 1];
      MatchedTotal(sessions, usage[..|usage| - 1]).Plus(if Target(sessions, u) < |sessions| then Reported(u) else NO_USAGE)
  }

  lemma {:induction false} ChargingOne(sessions: seq<Session>, i: nat, u: RawEvent)
    requires i < |sessions|
    ensures SpentTotal(sessions[i := Charge(sessions[i], u)]) == SpentTotal(sessions).Plus(Reported(u))
  {
    var n := |sessions| - 1;
    var after := sessions[i := Charge(sessions[i], u)];
    if i == n {
      assert after[..n] == sessions[..n];
    } else {
      ChargingOne(sessions[..n], i, u);
      assert after[..n] == sessions[..n][i := Charge(sessions[i], u)];
    }
  }

  lemma {:induction false} SameTargets(a: seq<Session>, b: seq<Session>, u: RawEvent)
    requires |a| == |b| && forall i :: 0 <= i < |a| ==> a[i].id == b[i].id && a[i].epicId == b[i].epicId
    ensures Target(a, u) == Target(b, u)
  {
    var bead := NonEmpty(u.beadId);
    if bead.Some? {
      var i, j := IndexOfEpic(a, bead.value), IndexOfEpic(b, bead.value);
      assert i < |a| ==> b[i].epicId == Some(bead.value);
      assert j < |b| ==> a[j].epicId == Some(bead.value);
      var k, m := IndexOfId(a, bead.value), IndexOfId(b, bead.value);
      assert k < |a| ==> b[k].id == bead.value;
      assert m < |b| ==> a[m].id == bead.value;
    }
  }

  /** Every matched usage event is charged once: the sessions' tokens and cost are those before plus the matched events'. */
  lemma {:induction false} UsageIsConserved(sessions: seq<Session>, usage: seq<RawEvent>)
    ensures SpentTotal(AttachAll(sessions, usage)) == SpentTotal(sessions).Plus(MatchedTotal(sessions, usage))
    ensures forall i :: 0 <= i < |sessions| ==>
              && AttachAll(sessions, usage)[i].id == sessions[i].id
              && AttachAll(sessions, usage)[i].epicId == sessions[i].epicId
  {
    if usage != [] {
      var n := |usage| - 1;
      UsageIsConserved(sessions, usage[..n]);
      var before := AttachAll(sessions, usage[..n]);
      SameTargets(before, sessions, usage[n]);
      var i := Target(before, usage[n]);
      if i < |before| {
        ChargingOne(before, i, usage[n]);
      }
    }
  }
}
