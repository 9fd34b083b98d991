/**
 src/phalaka/planning-read.ts: folding a Kshetra's activity lines into planning
 sessions. JSON parsing is a parameter: a total function that may find no value.
 */
module PlanningSessions {
  import opened Lines
  import opened Prelude

  // ── events and sessions ────────────────────────────────────────────────────

  /** A field of a parsed line; `Absent` is `undefined`, and `Other` anything the fold ignores. */
  datatype Json = Str(s: string) | Num(x: real) | Bool(b: bool) | Other | Absent

  datatype RawEvent = RawEvent(kind: Json, ts: Json, sessionId: Json, agent: Json, beadId: Json, epicId: Json,
                               docPath: Json, summary: Json, resume: Json, choice: Json, planId: Json, decision: Json,
                               inputTokens: Json, outputTokens: Json, costUsd: Json, priced: Json)

  datatype Phase = Launched | PlanFiled | DocPushed | Ended {
    function Rank(): nat {
      match this
      case Launched => 0
      case PlanFiled => 1
      case DocPushed => 2
      case Ended => 3
    }
  }

  datatype Session = Session(id: string, phase: Phase, running: bool, launchedAt: Option<string>, endedAt: Option<string>,
                             resume: Option<bool>, epicId: Option<string>, docPath: Option<string>, summary: Option<string>,
                             choice: Option<string>, planId: Option<string>, planDecision: Option<string>,
                             inputTokens: real, outputTokens: real, costUsd: real, priced: bool, usageRecorded: bool)

  function NewSession(id: string): Session {
    Session(id, Launched, true, None, None, None, None, None, None, None, None, None, 0.0, 0.0, 0.0, true, false)
  }

  /** `str(v)` */
  function Text(v: Json): (r: Option<string>)
    ensures forall s :: r == Some(s) <==> v == Str(s)
  {
    if v.Str? then Some(v.s) else None
  }

  /** `str(v)` where an empty string counts as nothing (`if (!type) continue`). */
  function NonEmpty(v: Json): (r: Option<string>)
    ensures forall s :: r == Some(s) <==> v == Str(s) && s != ""
  {
    if v.Str? && v.s != "" then Some(v.s) else None
  }

  /** `num(v)`: a positive number, or 0. */
  function Amount(v: Json): (r: real)
    ensures r > 0.0 ==> v == Num(r)
    ensures forall x :: v == Num(x) ==> x <= r
    ensures r >= 0.0
  {
    if v.Num? && v.x > 0.0 then v.x else 0.0
  }

  // ── the fold, line by line ─────────────────────────────────────────────────

  /** The sessions in the order first seen, and the planner's usage events. */
  datatype Fold = Fold(sessions: seq<Session>, usage: seq<RawEvent>)

  function IndexOfId(sessions: seq<Session>, id: string): (i: nat)
    ensures i <= |sessions|
    ensures i < |sessions| ==> sessions[i].id == id
    ensures forall j :: 0 <= j < i ==> sessions[j].id != id
  {
    if sessions == [] || sessions[0].id == id then 0 else 1 + IndexOfId(sessions[1..], id)
  }

  /** `advance(s, to)`: never back. */
  function Advance(s: Session, to: Phase): Session {
    if to.Rank() > s.phase.Rank() then s.(phase := to) else s
  }

  const LIFECYCLE := ["suthradhara_launched", "suthradhara_plan_filed", "suthradhara_doc_pushed",
                      "suthradhara_menu_choice", "suthradhara_plan_decision", "suthradhara_session_ended"]

  /** Which case of the switch a lifecycle event takes. */
  function CaseOf(kind: string): nat {
    if kind == LIFECYCLE[0] then 0
    else if kind == LIFECYCLE[1] then 1
    else if kind == LIFECYCLE[2] then 2
    else if kind == LIFECYCLE[3] then 3
    else if kind == LIFECYCLE[4] then 4
    else 5
  }

  /** What a lifecycle event does to its session. */
  function Change(s: Session, kind: string, ev: RawEvent): Session {
    var n := CaseOf(kind);
    if n == 0 then s.(launchedAt := Text(ev.ts), resume := Some(ev.resume == Bool(true)))
    else if n == 1 then
      Advance(s, PlanFiled).(epicId := Else(Text(ev.epicId), s.epicId), docPath := Else(Text(ev.docPath), s.docPath),
                             summary := Else(Text(ev.summary), s.summary))
    else if n == 2 then Advance(s, DocPushed).(docPath := Else(Text(ev.docPath), s.docPath))
    else if n == 3 then
      if ev.choice in [Str("extend"), Str("new"), Str("end")] then s.(choice := Some(ev.choice.s)) else s
    else if n == 4 then
      var t := s.(planId := Else(Text(ev.planId), s.planId));
      if ev.decision in [Str("approve"), Str("revise"), Str("discard"), Str("later")]
      then t.(planDecision := Some(ev.decision.s)) else t
    else
      Advance(s, Ended).(running := false, endedAt := Text(ev.ts), epicId := Else(Text(ev.epicId), s.epicId))
  }

  function FoldEvent(f: Fold, ev: RawEvent): Fold {
    var kind := NonEmpty(ev.kind);
    if kind.None? then f
    else if kind.value == "run_usage" then
      if ev.agent == Str("suthradhara") then f.(usage := f.usage + [ev]) else f
    else
      var id := NonEmpty(ev.sessionId);
      if id.None? || kind.value !in LIFECYCLE then f
      else
        var i := IndexOfId(f.sessions, id.value);
        if i < |f.sessions| then f.(sessions := f.sessions[i := Change(f.sessions[i], kind.value, ev)])
        else f.(sessions := f.sessions + [Change(NewSession(id.value), kind.value, ev)])
  }

  predicate MentionsPlanning(line: string) {
    Contains(line, "suthradhara") || Contains(line, "run_usage")
  }

  function FoldLine(f: Fold, line: string, parse: string -> Option<RawEvent>): Fold {
    var trimmed := Trim(line);
    if trimmed == "" || !MentionsPlanning(trimmed) then f
    else
      match parse(trimmed)
      case None => f
      case Some(ev) => FoldEvent(f, ev)
  }

  function FoldLines(lines: seq<string>, parse: string -> Option<RawEvent>): Fold {
    if lines == [] then Fold([], [])
    else FoldLine(FoldLines(lines[..|lines| - 1], parse), lines[|lines| - 1], parse)
  }

  // ── attaching usage ────────────────────────────────────────────────────────

  function IndexOfEpic(sessions: seq<Session>, epic: string): (i: nat)
    ensures i <= |sessions|
    ensures i < |sessions| ==> sessions[i].epicId == Some(epic)
    ensures forall j :: 0 <= j < i ==> sessions[j].epicId != Some(epic)
  {
    if sessions == [] || sessions[0].epicId == Some(epic) then 0 else 1 + IndexOfEpic(sessions[1..], epic)
  }

  /** The session a usage event belongs to: by the epic it filed, else by its own id; the length when none. */
  function Target(sessions: seq<Session>, u: RawEvent): (i: nat)
    ensures i <= |sessions|
  {
    var bead := NonEmpty(u.beadId);
    if bead.None? then |sessions|
    else
      var i := IndexOfEpic(sessions, bead.value);
      if i < |sessions| then i else IndexOfId(sessions, bead.value)
  }

  function Charge(s: Session, u: RawEvent): Session {
    s.(inputTokens := s.inputTokens + Amount(u.inputTokens), outputTokens := s.outputTokens + Amount(u.outputTokens),
       costUsd := s.costUsd + Amount(u.costUsd), usageRecorded := true,
       priced := s.priced && u.priced != Bool(false))
  }

  function Attach(sessions: seq<Session>, u: RawEvent): (r: seq<Session>)
    ensures |r| == |sessions|
  {
    var i := Target(sessions, u);
    if i < |sessions| then sessions[i := Charge(sessions[i], u)] else sessions
  }

  function AttachAll(sessions: seq<Session>, usage: seq<RawEvent>): (r: seq<Session>)
    ensures |r| == |sessions|
  {
    if usage == [] then sessions else Attach(AttachAll(sessions, usage[..|usage| - 1]), usage[|usage| - 1])
  }

  function Sessions(lines: seq<string>, parse: string -> Option<RawEvent>): seq<Session> {
    var f := FoldLines(lines, parse);
    AttachAll(f.sessions, f.usage)
  }
}
