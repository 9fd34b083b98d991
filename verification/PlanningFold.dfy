/** `foldPlanningSessions` of src/phalaka/planning-read.ts: its two passes as loops. */
module PlanningFold {
  import opened Lines
  import opened PlanningCharges
  import opened PlanningMeaning
  import opened PlanningSessions
  import opened Prelude

  method FindSession(sessions: seq<Session>, id: string) returns (i: nat)
    ensures i == IndexOfId(sessions, id)
  {
    i := 0;
    while i < |sessions| && sessions[i].id != id
      invariant i <= |sessions| && IndexOfId(sessions, id) == i + IndexOfId(sessions[i..], id)
    {
      assert sessions[i..][1..] == sessions[i + 1..];
      i := i + 1;
    }
  }

  method FindEpic(sessions: seq<Session>, epic: string) returns (i: nat)
    ensures i == IndexOfEpic(sessions, epic)
  {
    i := 0;
    while i < |sessions| && sessions[i].epicId != Some(epic)
      invariant i <= |sessions| && IndexOfEpic(sessions, epic) == i + IndexOfEpic(sessions[i..], epic)
    {
      assert sessions[i..][1..] == sessions[i + 1..];
      i := i + 1;
    }
  }

  method FoldPlanningSessions(lines: seq<string>, parse: string -> Option<RawEvent>) returns (r: seq<Session>)
    ensures r == Sessions(lines, parse)
    ensures SessionsAreTheLog(r, lines, parse)
    ensures forall i :: 0 <= i < |r| ==> ShowsItsUsage(r, i, UsageOf(lines, parse))
  {
    hide FoldEvent, SessionsAreTheLog, ShowsItsUsage, UsageOf;
    var sessions: seq<Session>, usage: seq<RawEvent> := [], [];
    for n := 0 to |lines|
      invariant Fold(sessions, usage) == FoldLines(lines[..n], parse)
    {
      assert lines[..n + 1][..n] == lines[..n];
      var trimmed := Trim(lines[n]);
      if trimmed == "" || !MentionsPlanning(trimmed) { continue; }
      var parsed := parse(trimmed);
      if parsed.None? { continue; }
      sessions, usage := TakeEvent(sessions, usage, parsed.value);
    }
    assert lines[..|lines|] == lines;
    r := AttachUsage(sessions, usage);
    SessionsTellTheLog(lines, parse);
  }

  method TakeEvent(sessions: seq<Session>, usage: seq<RawEvent>, ev: RawEvent)
    returns (sessions': seq<Session>, usage': seq<RawEvent>)
    ensures Fold(sessions', usage') == FoldEvent(Fold(sessions, usage), ev)
  {
    hide Change;
    sessions', usage' := sessions, usage;
    var kind := NonEmpty(ev.kind);
    if kind.None? { return; }
    if kind.value == "run_usage" {
      if ev.agent == Str("suthradhara") { usage' := usage + [ev]; }
      return;
    }
    var id := NonEmpty(ev.sessionId);
    if id.None? || kind.value !in LIFECYCLE { return; }
    var i := FindSession(sessions, id.value);
    if i == |sessions| { sessions' := sessions + [NewSession(id.value)]; }
    sessions' := sessions'[i := Change(sessions'[i], kind.value, ev)];
  }

  method AttachUsage(sessions: seq<Session>, usage: seq<RawEvent>) returns (r: seq<Session>)
    ensures r == AttachAll(sessions, usage)
  {
    r := sessions;
    for n := 0 to |usage|
      invariant r == AttachAll(sessions, usage[..n])
    {
      assert usage[..n + 1][..n] == usage[..n];
      var bead := NonEmpty(usage[n].beadId);
      if bead.None? { continue; }
      var i := FindEpic(r, bead.value);
      if i == |r| { i := FindSession(r, bead.value); }
      if i == |r| { continue; }
      r := r[i := Charge(r[i], usage[n])];
    }
    assert usage[..|usage|] == usage;
  }
}
