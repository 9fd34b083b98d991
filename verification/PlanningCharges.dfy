/**
 Which planner usage each session of src/phalaka/planning-read.ts is charged: the events
 that name its epic, or, naming nobody's epic, its id.
 */
module PlanningCharges {
  import opened Lines
  import opened PlanningLaws
  import opened PlanningMeaning
  import opened PlanningSessions
  import opened Prelude

  /** The session at `i` is the first to have filed the event's bead as its epic, or nobody has and it is the first of that id. */
  ghost predicate IsOwner(sessions: seq<Session>, u: RawEvent, i: nat)
    requires i < |sessions|
  {
    && u.beadId.Str? && u.beadId.s != ""
    && if exists j :: 0 <= j < |sessions| && sessions[j].epicId == Some(u.beadId.s) then
         sessions[i].epicId == Some(u.beadId.s) && forall j :: 0 <= j < i ==> sessions[j].epicId != Some(u.beadId.s)
       else
         sessions[i].id == u.beadId.s && forall j :: 0 <= j < i ==> sessions[j].id != u.beadId.s
  }

  lemma OwnerIsTarget(sessions: seq<Session>, u: RawEvent, i: nat)
    requires i < |sessions|
    ensures Target(sessions, u) == i <==> IsOwner(sessions, u, i)
  {
  }

  /** The usage events the session at `i` owns, in order. */
  ghost function OwnedBy(sessions: seq<Session>, usage: seq<RawEvent>, i: nat): seq<RawEvent>
    requires i < |sessions|
  {
    if usage == [] then []
    else
      var n := |usage| - 1;
      OwnedBy(sessions, usage[..n], i) + if IsOwner(sessions, usage[n], i) then [usage[n]] else []
  }

  function TotalOf(usage: seq<RawEvent>): Usage {
    if usage == [] then NO_USAGE else TotalOf(usage[..|usage| - 1]).Plus(Reported(usage[|usage| - 1]))
  }

  /** `t` is `s` with these events charged to it, and nothing else changed. */
  ghost predicate HasBeenCharged(s: Session, t: Session, charged: seq<RawEvent>) {
    && Spent(t) == Spent(s).Plus(TotalOf(charged))
    && (t.priced <==> s.priced && forall u :: u in charged ==> u.priced != Bool(false))
    && (t.usageRecorded <==> s.usageRecorded || charged != [])
    && t == s.(inputTokens := t.inputTokens, outputTokens := t.outputTokens, costUsd := t.costUsd,
               priced := t.priced, usageRecorded := t.usageRecorded)
  }

  lemma OwnersAreKept(a: seq<Session>, b: seq<Session>, u: RawEvent, i: nat)
    requires |a| == |b| && i < |a| && forall j :: 0 <= j < |a| ==> a[j].id == b[j].id && a[j].epicId == b[j].epicId
    ensures IsOwner(a, u, i) <==> IsOwner(b, u, i)
  {
    OwnerIsTarget(a, u, i);
    OwnerIsTarget(b, u, i);
    SameTargets(a, b, u);
  }

  lemma ChargedOnce(s: Session, t: Session, charged: seq<RawEvent>, u: RawEvent)
    requires HasBeenCharged(s, t, charged)
    ensures HasBeenCharged(s, Charge(t, u), charged + [u])
  {
    assert (charged + [u])[..|charged|] == charged;
  }

  /** Every session is charged the events it owns, each once and in order. */
  lemma {:induction false} SessionIsChargedItsOwn(sessions: seq<Session>, usage: seq<RawEvent>, i: nat)
    requires i < |sessions|
    ensures HasBeenCharged(sessions[i], AttachAll(sessions, usage)[i], OwnedBy(sessions, usage, i))
  {
    if usage != [] {
      hide Charge, HasBeenCharged, IsOwner, Target;
      var n := |usage| - 1;
      SessionIsChargedItsOwn(sessions, usage[..n], i);
      UsageIsConserved(sessions, usage[..n]);
      var before := AttachAll(sessions, usage[..n]);
      SameTargets(before, sessions, usage[n]);
      OwnerIsTarget(sessions, usage[n], i);
      ChargedOnce(sessions[i], before[i], OwnedBy(sessions, usage[..n], i), usage[n]);
      assert OwnedBy(sessions, usage[..n], i) + [] == OwnedBy(sessions, usage[..n], i);
    } else {
      NothingCharged(sessions[i]);
    }
  }

  lemma NothingCharged(s: Session)
    ensures HasBeenCharged(s, s, [])
  {
  }

  // ── the result of the fold ─────────────────────────────────────────────────

  predicate IsUncharged(s: Session) {
    Spent(s) == NO_USAGE && s.priced && !s.usageRecorded
  }

  lemma ChangeChargesNothing(s: Session, kind: string, ev: RawEvent)
    requires IsUncharged(s)
    ensures IsUncharged(Change(s, kind, ev))
  {
    hide CaseOf, Text, Else;
  }

  lemma {:induction false} FoldChargesNothing(lines: seq<string>, parse: string -> Option<RawEvent>)
    ensures forall s :: s in FoldLines(lines, parse).sessions ==> IsUncharged(s)
  {
    hide Change, CaseOf, EventOf, LIFECYCLE, IsUncharged;
    if lines != [] {
      var f, line := FoldLines(lines[..|lines| - 1], parse), lines[|lines| - 1];
      FoldChargesNothing(lines[..|lines| - 1], parse);
      FoldsItsEvent(f, line, parse);
      if EventOf(line, parse).Some? {
        EventChargesNothing(f, EventOf(line, parse).value);
      }
    }
  }

  lemma EventChargesNothing(f: Fold, ev: RawEvent)
    requires forall s :: s in f.sessions ==> IsUncharged(s)
    ensures forall s :: s in FoldEvent(f, ev).sessions ==> IsUncharged(s)
  {
    hide Change, CaseOf, LIFECYCLE;
    forall s, kind | IsUncharged(s) ensures IsUncharged(Change(s, kind, ev)) {
      ChangeChargesNothing(s, kind, ev);
    }
  }

  /**
   What a session shows of its usage: the total of the planner's usage events that are
   its own, whether all of them were priced, and whether there is any.
   */
  ghost predicate ShowsItsUsage(sessions: seq<Session>, i: nat, usage: seq<RawEvent>)
    requires i < |sessions|
  {
    var own := OwnedBy(sessions, usage, i);
    && Spent(sessions[i]) == TotalOf(own)
    && (sessions[i].priced <==> forall u :: u in own ==> u.priced != Bool(false))
    && (sessions[i].usageRecorded <==> own != [])
  }

  lemma {:induction false} OwnedAreKept(a: seq<Session>, b: seq<Session>, usage: seq<RawEvent>, i: nat)
    requires |a| == |b| && i < |a| && forall j :: 0 <= j < |a| ==> a[j].id == b[j].id && a[j].epicId == b[j].epicId
    ensures OwnedBy(a, usage, i) == OwnedBy(b, usage, i)
  {
    if usage != [] {
      var n := |usage| - 1;
      OwnedAreKept(a, b, usage[..n], i);
      OwnersAreKept(a, b, usage[n], i);
    }
  }

  lemma ChargedShowsUsage(s: Session, t: Session, own: seq<RawEvent>)
    requires HasBeenCharged(s, t, own) && IsUncharged(s)
    ensures Spent(t) == TotalOf(own) && (t.priced <==> forall u :: u in own ==> u.priced != Bool(false))
    ensures t.usageRecorded <==> own != []
  {
  }

  lemma ChargesShowNothingElse(s: Session, t: Session, own: seq<RawEvent>, lines: seq<string>, parse: string -> Option<RawEvent>)
    requires HasBeenCharged(s, t, own) && ShowsTheLog(s, lines, parse)
    ensures ShowsTheLog(t, lines, parse) && t.id == s.id && t.epicId == s.epicId
  {
    hide LastSaid, Told, TotalOf;
  }

  /** The sessions of a log: those it tells of, each showing what its lines say and the usage that is its own. */
  lemma SessionsTellTheLog(lines: seq<string>, parse: string -> Option<RawEvent>)
    ensures SessionsAreTheLog(Sessions(lines, parse), lines, parse)
    ensures forall i :: 0 <= i < |Sessions(lines, parse)| ==> ShowsItsUsage(Sessions(lines, parse), i, UsageOf(lines, parse))
  {
    hide HasBeenCharged, ShowsTheLog, IsUncharged, OwnedBy, FoldLines, NoneAbout, SpokenOfFirst;
    var f := FoldLines(lines, parse);
    var r := Sessions(lines, parse);
    FoldIsTheLog(lines, parse);
    FoldChargesNothing(lines, parse);
    forall i | 0 <= i < |r| ensures r[i].id == f.sessions[i].id && r[i].epicId == f.sessions[i].epicId && ShowsTheLog(r[i], lines, parse) {
      SessionIsChargedItsOwn(f.sessions, f.usage, i);
      ChargesShowNothingElse(f.sessions[i], r[i], OwnedBy(f.sessions, f.usage, i), lines, parse);
    }
    forall i | 0 <= i < |r| ensures ShowsItsUsage(r, i, f.usage) {
      SessionIsChargedItsOwn(f.sessions, f.usage, i);
      OwnedAreKept(f.sessions, r, f.usage, i);
      assert f.sessions[i] in f.sessions;
      ChargedShowsUsage(f.sessions[i], r[i], OwnedBy(f.sessions, f.usage, i));
    }
  }
}
