/**
 What the planning fold of src/phalaka/planning-read.ts tells of a log: every field of
 every session in terms of the log's own lines, and which usage events it is charged.
 */
module PlanningMeaning {
  import opened Lines
  import opened PlanningSessions
  import opened Prelude

  // ── what a line says ───────────────────────────────────────────────────────

  /** The event a line holds, where the line may be one of the planner's at all. */
  function EventOf(line: string, parse: string -> Option<RawEvent>): Option<RawEvent> {
    var t := Trim(line);
    if t != "" && (Contains(t, "suthradhara") || Contains(t, "run_usage")) then parse(t) else None
  }

  /** The line is an event of this kind about this session. */
  predicate Tells(line: string, parse: string -> Option<RawEvent>, id: string, kind: string) {
    var ev := EventOf(line, parse);
    id != "" && ev.Some? && ev.value.sessionId == Str(id) && ev.value.kind == Str(kind)
  }

  ghost predicate Told(lines: seq<string>, parse: string -> Option<RawEvent>, id: string, kind: string) {
    exists k :: 0 <= k < |lines| && Tells(lines[k], parse, id, kind)
  }

  /** The line is about this session: an event of one of the six lifecycle kinds. */
  predicate IsAbout(line: string, parse: string -> Option<RawEvent>, id: string) {
    || Tells(line, parse, id, "suthradhara_launched")
    || Tells(line, parse, id, "suthradhara_plan_filed")
    || Tells(line, parse, id, "suthradhara_doc_pushed")
    || Tells(line, parse, id, "suthradhara_menu_choice")
    || Tells(line, parse, id, "suthradhara_plan_decision")
    || Tells(line, parse, id, "suthradhara_session_ended")
  }

  /** What an event sets a field to, if it sets it; a time or an epic may be set to nothing. */
  function SaysLaunchedAt(ev: RawEvent): Option<Option<string>> {
    if ev.kind == Str("suthradhara_launched") then Some(Text(ev.ts)) else None
  }

  function SaysResume(ev: RawEvent): Option<bool> {
    if ev.kind == Str("suthradhara_launched") then Some(ev.resume == Bool(true)) else None
  }

  function SaysEpicId(ev: RawEvent): Option<string> {
    if ev.kind in [Str("suthradhara_plan_filed"), Str("suthradhara_session_ended")] then Text(ev.epicId) else None
  }

  function SaysDocPath(ev: RawEvent): Option<string> {
    if ev.kind in [Str("suthradhara_plan_filed"), Str("suthradhara_doc_pushed")] then Text(ev.docPath) else None
  }

  function SaysSummary(ev: RawEvent): Option<string> {
    if ev.kind == Str("suthradhara_plan_filed") then Text(ev.summary) else None
  }

  function SaysChoice(ev: RawEvent): Option<string> {
    if ev.kind == Str("suthradhara_menu_choice") && ev.choice in [Str("extend"), Str("new"), Str("end")]
    then Text(ev.choice) else None
  }

  function SaysPlanId(ev: RawEvent): Option<string> {
    if ev.kind == Str("suthradhara_plan_decision") then Text(ev.planId) else None
  }

  function SaysPlanDecision(ev: RawEvent): Option<string> {
    if ev.kind == Str("suthradhara_plan_decision")
       && ev.decision in [Str("approve"), Str("revise"), Str("discard"), Str("later")]
    then Text(ev.decision) else None
  }

  function SaysEndedAt(ev: RawEvent): Option<Option<string>> {
    if ev.kind == Str("suthradhara_session_ended") then Some(Text(ev.ts)) else None
  }

  /** What the lines about this session last say. */
  function LastSaid<T>(lines: seq<string>, parse: string -> Option<RawEvent>, id: string, says: RawEvent -> Option<T>): Option<T> {
    if lines == [] then None
    else
      var n := |lines| - 1;
      if IsAbout(lines[n], parse, id) && says(EventOf(lines[n], parse).value).Some? then says(EventOf(lines[n], parse).value)
      else LastSaid(lines[..n], parse, id, says)
  }

  predicate IsSilent<T>(line: string, parse: string -> Option<RawEvent>, id: string, says: RawEvent -> Option<T>) {
    IsAbout(line, parse, id) ==> says(EventOf(line, parse).value).None?
  }

  /** Line `k` says this of the session, and no later line says anything. */
  ghost predicate IsLastWord<T>(lines: seq<string>, parse: string -> Option<RawEvent>, id: string,
                                says: RawEvent -> Option<T>, k: nat, v: T)
  {
    && k < |lines| && IsAbout(lines[k], parse, id) && says(EventOf(lines[k], parse).value) == Some(v)
    && forall j :: k < j < |lines| ==> IsSilent(lines[j], parse, id, says)
  }

  lemma {:induction false} LastSaidMeans<T>(lines: seq<string>, parse: string -> Option<RawEvent>, id: string,
                                            says: RawEvent -> Option<T>, v: T)
    ensures LastSaid(lines, parse, id, says) == Some(v) <==> exists k :: IsLastWord(lines, parse, id, says, k, v)
  {
    hide EventOf;
    if lines != [] {
      var n := |lines| - 1;
      LastSaidMeans(lines[..n], parse, id, says, v);
      if IsSilent(lines[n], parse, id, says) {
        forall k: nat ensures IsLastWord(lines, parse, id, says, k, v) <==> IsLastWord(lines[..n], parse, id, says, k, v) {
          SilenceChangesNothing(lines, parse, id, says, k, v);
        }
      } else {
        assert IsLastWord(lines, parse, id, says, n, v) <==> says(EventOf(lines[n], parse).value) == Some(v);
        assert forall k: nat :: k < n ==> !IsLastWord(lines, parse, id, says, k, v);
      }
    }
  }

  lemma SilenceChangesNothing<T>(lines: seq<string>, parse: string -> Option<RawEvent>, id: string,
                                 says: RawEvent -> Option<T>, k: nat, v: T)
    requires lines != [] && IsSilent(lines[|lines| - 1], parse, id, says)
    ensures IsLastWord(lines, parse, id, says, k, v) <==> IsLastWord(lines[..|lines| - 1], parse, id, says, k, v)
  {
    var before := lines[..|lines| - 1];
    assert forall j :: 0 <= j < |before| ==> before[j] == lines[j];
    if IsLastWord(before, parse, id, says, k, v) {
      forall j | k < j < |lines| ensures IsSilent(lines[j], parse, id, says) {
        assert j < |before| ==> IsSilent(before[j], parse, id, says);
      }
    }
  }

  // ── what a session shows ───────────────────────────────────────────────────

  /** The furthest milestone a session's lines name. */
  ghost predicate ShowsMilestone(s: Session, lines: seq<string>, parse: string -> Option<RawEvent>) {
    && s.phase == (if Told(lines, parse, s.id, "suthradhara_session_ended") then Ended
                   else if Told(lines, parse, s.id, "suthradhara_doc_pushed") then DocPushed
                   else if Told(lines, parse, s.id, "suthradhara_plan_filed") then PlanFiled
                   else Launched)
    && s.running == !Told(lines, parse, s.id, "suthradhara_session_ended")
  }

  predicate ShowsTimes(s: Session, lines: seq<string>, parse: string -> Option<RawEvent>) {
    && s.launchedAt == LastSaid(lines, parse, s.id, SaysLaunchedAt).GetOr(None)
    && s.endedAt == LastSaid(lines, parse, s.id, SaysEndedAt).GetOr(None)
    && s.resume == LastSaid(lines, parse, s.id, SaysResume)
  }

  predicate ShowsPlan(s: Session, lines: seq<string>, parse: string -> Option<RawEvent>) {
    && s.epicId == LastSaid(lines, parse, s.id, SaysEpicId)
    && s.docPath == LastSaid(lines, parse, s.id, SaysDocPath)
    && s.summary == LastSaid(lines, parse, s.id, SaysSummary)
  }

  predicate ShowsChoices(s: Session, lines: seq<string>, parse: string -> Option<RawEvent>) {
    && s.choice == LastSaid(lines, parse, s.id, SaysChoice)
    && s.planId == LastSaid(lines, parse, s.id, SaysPlanId)
    && s.planDecision == LastSaid(lines, parse, s.id, SaysPlanDecision)
  }

  /** The session shows the furthest milestone its lines name, and in each field what they last say. */
  ghost predicate ShowsTheLog(s: Session, lines: seq<string>, parse: string -> Option<RawEvent>) {
    && ShowsMilestone(s, lines, parse) && ShowsTimes(s, lines, parse)
    && ShowsPlan(s, lines, parse) && ShowsChoices(s, lines, parse)
  }

  lemma NothingToldYet(id: string, parse: string -> Option<RawEvent>)
    ensures ShowsTheLog(NewSession(id), [], parse)
  {
  }

  /** The six lifecycle kinds by name, and which case of the switch each takes. */
  lemma KindIsCase(kind: string)
    requires kind in LIFECYCLE
    ensures CaseOf(kind) == 0 <==> kind == "suthradhara_launched"
    ensures CaseOf(kind) == 1 <==> kind == "suthradhara_plan_filed"
    ensures CaseOf(kind) == 2 <==> kind == "suthradhara_doc_pushed"
    ensures CaseOf(kind) == 3 <==> kind == "suthradhara_menu_choice"
    ensures CaseOf(kind) == 4 <==> kind == "suthradhara_plan_decision"
    ensures CaseOf(kind) == 5 <==> kind == "suthradhara_session_ended"
    ensures CaseOf(kind) <= 5
  {
    assert "suthradhara_plan_filed"[12] != "suthradhara_doc_pushed"[12];
    assert "suthradhara_plan_decision"[12] != "suthradhara_session_ended"[12];
  }

  lemma AdvanceSaysNothing(s: Session, to: Phase)
    ensures Advance(s, to) == s.(phase := Advance(s, to).phase)
  {
  }

  /** What a lifecycle event leaves in each field. */
  lemma ChangeSaysTimes(s: Session, kind: string, ev: RawEvent)
    requires kind in LIFECYCLE && ev.kind == Str(kind)
    ensures var t := Change(s, kind, ev);
            && t.id == s.id
            && t.launchedAt == SaysLaunchedAt(ev).GetOr(s.launchedAt) && t.endedAt == SaysEndedAt(ev).GetOr(s.endedAt)
            && t.resume == Else(SaysResume(ev), s.resume)
  {
    hide CaseOf, LIFECYCLE, Text, Advance;
    KindIsCase(kind);
    forall to { AdvanceSaysNothing(s, to); }
  }

  lemma ChangeSaysPlan(s: Session, kind: string, ev: RawEvent)
    requires kind in LIFECYCLE && ev.kind == Str(kind)
    ensures var t := Change(s, kind, ev);
            && t.epicId == Else(SaysEpicId(ev), s.epicId) && t.docPath == Else(SaysDocPath(ev), s.docPath)
            && t.summary == Else(SaysSummary(ev), s.summary)
  {
    hide CaseOf, LIFECYCLE, Text, Advance;
    KindIsCase(kind);
    forall to { AdvanceSaysNothing(s, to); }
  }

  lemma ChangeSaysChoices(s: Session, kind: string, ev: RawEvent)
    requires kind in LIFECYCLE && ev.kind == Str(kind)
    ensures var t := Change(s, kind, ev);
            && t.choice == Else(SaysChoice(ev), s.choice) && t.planId == Else(SaysPlanId(ev), s.planId)
            && t.planDecision == Else(SaysPlanDecision(ev), s.planDecision)
  {
    hide CaseOf, LIFECYCLE, Text, Advance;
    KindIsCase(kind);
    forall to { AdvanceSaysNothing(s, to); }
  }

  lemma ChangeReaches(s: Session, kind: string, ev: RawEvent)
    requires kind in LIFECYCLE
    ensures var t := Change(s, kind, ev);
            && t.running == (s.running && kind != "suthradhara_session_ended")
            && t.phase == if kind == "suthradhara_session_ended" then Ended
                          else if kind == "suthradhara_doc_pushed" && !s.phase.Ended? then DocPushed
                          else if kind == "suthradhara_plan_filed" && s.phase.Launched? then PlanFiled
                          else s.phase
  {
    hide CaseOf, LIFECYCLE, Text;
    KindIsCase(kind);
  }

  // ── one line more ──────────────────────────────────────────────────────────

  lemma ToldOneMore(lines: seq<string>, line: string, parse: string -> Option<RawEvent>, id: string, kind: string)
    ensures Told(lines + [line], parse, id, kind) <==> Told(lines, parse, id, kind) || Tells(line, parse, id, kind)
  {
    hide Tells;
    var all := lines + [line];
    assert forall k :: 0 <= k < |lines| ==> all[k] == lines[k];
    assert all[|lines|] == line;
  }

  lemma LastSaidOneMore<T>(lines: seq<string>, line: string, parse: string -> Option<RawEvent>, id: string,
                           says: RawEvent -> Option<T>)
    ensures LastSaid(lines + [line], parse, id, says)
         == if IsSilent(line, parse, id, says) then LastSaid(lines, parse, id, says) else says(EventOf(line, parse).value)
  {
    assert (lines + [line])[..|lines|] == lines;
  }

  /** A line about another session, or about none, leaves what is shown of this one. */
  lemma OthersShowStill(s: Session, lines: seq<string>, line: string, parse: string -> Option<RawEvent>)
    requires ShowsTheLog(s, lines, parse) && !IsAbout(line, parse, s.id)
    ensures ShowsTheLog(s, lines + [line], parse)
  {
    hide LastSaid, EventOf, Told;
    forall kind { ToldOneMore(lines, line, parse, s.id, kind); }
    LastSaidOneMore(lines, line, parse, s.id, SaysLaunchedAt);
    LastSaidOneMore(lines, line, parse, s.id, SaysEndedAt);
    LastSaidOneMore(lines, line, parse, s.id, SaysResume);
    LastSaidOneMore(lines, line, parse, s.id, SaysEpicId);
    LastSaidOneMore(lines, line, parse, s.id, SaysDocPath);
    LastSaidOneMore(lines, line, parse, s.id, SaysSummary);
    LastSaidOneMore(lines, line, parse, s.id, SaysChoice);
    LastSaidOneMore(lines, line, parse, s.id, SaysPlanId);
    LastSaidOneMore(lines, line, parse, s.id, SaysPlanDecision);
  }

  lemma AboutIsLifecycle(line: string, parse: string -> Option<RawEvent>, id: string)
    ensures IsAbout(line, parse, id) <==>
              && id != "" && EventOf(line, parse).Some? && EventOf(line, parse).value.sessionId == Str(id)
              && EventOf(line, parse).value.kind.Str? && EventOf(line, parse).value.kind.s in LIFECYCLE
  {
    hide EventOf;
  }

  lemma TimesTakeLine(s: Session, lines: seq<string>, line: string, parse: string -> Option<RawEvent>, ev: RawEvent)
    requires ShowsTimes(s, lines, parse) && IsAbout(line, parse, s.id) && EventOf(line, parse) == Some(ev)
    requires ev.kind.Str? && ev.kind.s in LIFECYCLE
    ensures ShowsTimes(Change(s, ev.kind.s, ev), lines + [line], parse)
  {
    hide LastSaid, EventOf, IsAbout, Change, CaseOf, LIFECYCLE, SaysLaunchedAt, SaysEndedAt, SaysResume;
    ChangeSaysTimes(s, ev.kind.s, ev);
    LastSaidOneMore(lines, line, parse, s.id, SaysLaunchedAt);
    LastSaidOneMore(lines, line, parse, s.id, SaysEndedAt);
    LastSaidOneMore(lines, line, parse, s.id, SaysResume);
  }

  lemma PlanTakesLine(s: Session, lines: seq<string>, line: string, parse: string -> Option<RawEvent>, ev: RawEvent)
    requires ShowsPlan(s, lines, parse) && IsAbout(line, parse, s.id) && EventOf(line, parse) == Some(ev)
    requires ev.kind.Str? && ev.kind.s in LIFECYCLE
    ensures ShowsPlan(Change(s, ev.kind.s, ev), lines + [line], parse)
  {
    hide LastSaid, EventOf, IsAbout, Change, CaseOf, LIFECYCLE, SaysEpicId, SaysDocPath, SaysSummary;
    ChangeSaysTimes(s, ev.kind.s, ev);
    ChangeSaysPlan(s, ev.kind.s, ev);
    LastSaidOneMore(lines, line, parse, s.id, SaysEpicId);
    LastSaidOneMore(lines, line, parse, s.id, SaysDocPath);
    LastSaidOneMore(lines, line, parse, s.id, SaysSummary);
  }

  lemma ChoicesTakeLine(s: Session, lines: seq<string>, line: string, parse: string -> Option<RawEvent>, ev: RawEvent)
    requires ShowsChoices(s, lines, parse) && IsAbout(line, parse, s.id) && EventOf(line, parse) == Some(ev)
    requires ev.kind.Str? && ev.kind.s in LIFECYCLE
    ensures ShowsChoices(Change(s, ev.kind.s, ev), lines + [line], parse)
  {
    hide LastSaid, EventOf, IsAbout, Change, CaseOf, LIFECYCLE, SaysChoice, SaysPlanId, SaysPlanDecision;
    ChangeSaysTimes(s, ev.kind.s, ev);
    ChangeSaysChoices(s, ev.kind.s, ev);
    LastSaidOneMore(lines, line, parse, s.id, SaysChoice);
    LastSaidOneMore(lines, line, parse, s.id, SaysPlanId);
    LastSaidOneMore(lines, line, parse, s.id, SaysPlanDecision);
  }

  lemma MilestoneTakesLine(s: Session, lines: seq<string>, line: string, parse: string -> Option<RawEvent>, ev: RawEvent)
    requires ShowsMilestone(s, lines, parse) && IsAbout(line, parse, s.id) && EventOf(line, parse) == Some(ev)
    requires ev.kind.Str? && ev.kind.s in LIFECYCLE
    ensures ShowsMilestone(Change(s, ev.kind.s, ev), lines + [line], parse)
  {
    hide EventOf, Change, CaseOf, LIFECYCLE, Told;
    ChangeSaysTimes(s, ev.kind.s, ev);
    ChangeReaches(s, ev.kind.s, ev);
    KindIsCase(ev.kind.s);
    ToldOneMore(lines, line, parse, s.id, "suthradhara_session_ended");
    ToldOneMore(lines, line, parse, s.id, "suthradhara_doc_pushed");
    ToldOneMore(lines, line, parse, s.id, "suthradhara_plan_filed");
  }

  lemma TakesLine(s: Session, lines: seq<string>, line: string, parse: string -> Option<RawEvent>, ev: RawEvent)
    requires ShowsTheLog(s, lines, parse) && IsAbout(line, parse, s.id) && EventOf(line, parse) == Some(ev)
    requires ev.kind.Str? && ev.kind.s in LIFECYCLE
    ensures ShowsTheLog(Change(s, ev.kind.s, ev), lines + [line], parse) && Change(s, ev.kind.s, ev).id == s.id
  {
    hide EventOf, IsAbout, Change, LIFECYCLE, ShowsMilestone, ShowsTimes, ShowsPlan, ShowsChoices;
    ChangeSaysTimes(s, ev.kind.s, ev);
    MilestoneTakesLine(s, lines, line, parse, ev);
    TimesTakeLine(s, lines, line, parse, ev);
    PlanTakesLine(s, lines, line, parse, ev);
    ChoicesTakeLine(s, lines, line, parse, ev);
  }

  ghost predicate NoneAbout(lines: seq<string>, parse: string -> Option<RawEvent>, id: string) {
    forall k :: 0 <= k < |lines| ==> !IsAbout(lines[k], parse, id)
  }

  lemma {:induction false} NewSessionShows(lines: seq<string>, parse: string -> Option<RawEvent>, id: string)
    requires NoneAbout(lines, parse, id)
    ensures ShowsTheLog(NewSession(id), lines, parse)
  {
    hide IsAbout, ShowsTheLog;
    if lines == [] {
      NothingToldYet(id, parse);
    } else {
      var n := |lines| - 1;
      assert lines == lines[..n] + [lines[n]];
      NewSessionShows(lines[..n], parse, id);
      OthersShowStill(NewSession(id), lines[..n], lines[n], parse);
    }
  }

  // ── the whole log ──────────────────────────────────────────────────────────

  /** The planner's own usage events, in order. */
  function UsageOf(lines: seq<string>, parse: string -> Option<RawEvent>): seq<RawEvent> {
    if lines == [] then []
    else
      var n := |lines| - 1;
      UsageOf(lines[..n], parse) +
      match EventOf(lines[n], parse)
      case None => []
      case Some(ev) => if ev.kind == Str("run_usage") && ev.agent == Str("suthradhara") then [ev] else []
  }

  /** Each session once, in the order the log first speaks of them, and each as the log has it. */
  ghost predicate SessionsAreTheLog(sessions: seq<Session>, lines: seq<string>, parse: string -> Option<RawEvent>) {
    && (forall i, j :: 0 <= i < j < |sessions| ==> SpokenOfFirst(lines, parse, sessions[i].id, sessions[j].id))
    && (forall i :: 0 <= i < |sessions| ==> ShowsTheLog(sessions[i], lines, parse))
    && (forall id :: NoneAbout(lines, parse, id) <==> forall i :: 0 <= i < |sessions| ==> sessions[i].id != id)
  }

  /** The log speaks of `a` before it first speaks of `b`. */
  ghost predicate SpokenOfFirst(lines: seq<string>, parse: string -> Option<RawEvent>, a: string, b: string) {
    exists k :: 0 <= k < |lines| && IsAbout(lines[k], parse, a) && forall j :: 0 <= j <= k ==> !IsAbout(lines[j], parse, b)
  }

  lemma FoldsItsEvent(f: Fold, line: string, parse: string -> Option<RawEvent>)
    ensures FoldLine(f, line, parse) == if EventOf(line, parse).Some? then FoldEvent(f, EventOf(line, parse).value) else f
  {
    hide FoldEvent;
  }

  /** What one event does: a lifecycle event changes or opens its session, a planner's usage event is kept, others pass. */
  lemma EventCases(f: Fold, line: string, parse: string -> Option<RawEvent>, ev: RawEvent)
    requires EventOf(line, parse) == Some(ev)
    ensures var g := FoldEvent(f, ev);
      && (forall id :: IsAbout(line, parse, id) ==>
            && ev.kind.Str? && ev.kind.s in LIFECYCLE && ev.kind != Str("run_usage") && ev.sessionId == Str(id) && g.usage == f.usage
            && var i := IndexOfId(f.sessions, id);
               g.sessions == if i < |f.sessions| then f.sessions[i := Change(f.sessions[i], ev.kind.s, ev)]
                             else f.sessions + [Change(NewSession(id), ev.kind.s, ev)])
      && ((forall id :: !IsAbout(line, parse, id)) ==>
            && g.sessions == f.sessions
            && g.usage == if ev.kind == Str("run_usage") && ev.agent == Str("suthradhara") then f.usage + [ev] else f.usage)
  {
    hide EventOf, Change, IsAbout;
    forall id { AboutIsLifecycle(line, parse, id); }
    if ev.kind.Str? && ev.kind.s in LIFECYCLE { KindIsCase(ev.kind.s); }
    if ev.sessionId.Str? { AboutIsLifecycle(line, parse, ev.sessionId.s); }
  }

  lemma NoneAboutOneMore(lines: seq<string>, line: string, parse: string -> Option<RawEvent>, id: string)
    ensures NoneAbout(lines + [line], parse, id) <==> NoneAbout(lines, parse, id) && !IsAbout(line, parse, id)
  {
    hide IsAbout;
    var all := lines + [line];
    assert forall k :: 0 <= k < |lines| ==> all[k] == lines[k];
    assert all[|lines|] == line;
  }

  lemma SpokenOfStays(lines: seq<string>, line: string, parse: string -> Option<RawEvent>, a: string, b: string)
    ensures SpokenOfFirst(lines, parse, a, b) ==> SpokenOfFirst(lines + [line], parse, a, b)
    ensures !NoneAbout(lines, parse, a) && NoneAbout(lines, parse, b) ==> SpokenOfFirst(lines + [line], parse, a, b)
  {
    hide IsAbout;
    var all := lines + [line];
    assert forall k :: 0 <= k < |lines| ==> all[k] == lines[k];
  }

  lemma IsAboutOne(line: string, parse: string -> Option<RawEvent>, a: string, b: string)
    requires IsAbout(line, parse, a) && IsAbout(line, parse, b)
    ensures a == b
  {
  }

  /** A line that is about no session. */
  lemma NobodyChanges(sessions: seq<Session>, lines: seq<string>, line: string, parse: string -> Option<RawEvent>)
    requires SessionsAreTheLog(sessions, lines, parse) && forall id :: !IsAbout(line, parse, id)
    ensures SessionsAreTheLog(sessions, lines + [line], parse)
  {
    hide IsAbout, ShowsTheLog, SpokenOfFirst, NoneAbout;
    forall id { NoneAboutOneMore(lines, line, parse, id); }
    forall a, b { SpokenOfStays(lines, line, parse, a, b); }
    forall i | 0 <= i < |sessions| ensures ShowsTheLog(sessions[i], lines + [line], parse) {
      OthersShowStill(sessions[i], lines, line, parse);
    }
  }

  /** A line about the session at `i`. */
  lemma OneChanges(sessions: seq<Session>, lines: seq<string>, line: string, parse: string -> Option<RawEvent>, ev: RawEvent, i: nat)
    requires SessionsAreTheLog(sessions, lines, parse) && i < |sessions| && IsAbout(line, parse, sessions[i].id)
    requires EventOf(line, parse) == Some(ev) && ev.kind.Str? && ev.kind.s in LIFECYCLE
    requires forall j :: 0 <= j < i ==> sessions[j].id != sessions[i].id
    ensures SessionsAreTheLog(sessions[i := Change(sessions[i], ev.kind.s, ev)], lines + [line], parse)
  {
    hide IsAbout, ShowsTheLog, SpokenOfFirst, NoneAbout, Change, EventOf, LIFECYCLE;
    forall id { NoneAboutOneMore(lines, line, parse, id); }
    forall a, b { SpokenOfStays(lines, line, parse, a, b); }
    TakesLine(sessions[i], lines, line, parse, ev);
    forall j | 0 <= j < |sessions| && j != i ensures ShowsTheLog(sessions[j], lines + [line], parse) {
      IdsDiffer(sessions, lines, parse, i, j);
      if IsAbout(line, parse, sessions[j].id) { IsAboutOne(line, parse, sessions[i].id, sessions[j].id); }
      OthersShowStill(sessions[j], lines, line, parse);
    }
    forall id | IsAbout(line, parse, id) ensures id == sessions[i].id { IsAboutOne(line, parse, id, sessions[i].id); }
    var after := sessions[i := Change(sessions[i], ev.kind.s, ev)];
    assert forall j :: 0 <= j < |after| ==> after[j].id == sessions[j].id;
  }

  lemma IdsDiffer(sessions: seq<Session>, lines: seq<string>, parse: string -> Option<RawEvent>, i: nat, j: nat)
    requires SessionsAreTheLog(sessions, lines, parse) && i < |sessions| && j < |sessions| && i != j
    ensures sessions[i].id != sessions[j].id
  {
    hide IsAbout, ShowsTheLog, NoneAbout;
    var a, b := if i < j then i else j, if i < j then j else i;
    assert SpokenOfFirst(lines, parse, sessions[a].id, sessions[b].id);
  }

  /** A line about a session not seen before. */
  lemma OneOpens(sessions: seq<Session>, lines: seq<string>, line: string, parse: string -> Option<RawEvent>, ev: RawEvent, id: string)
    requires SessionsAreTheLog(sessions, lines, parse) && IsAbout(line, parse, id)
    requires EventOf(line, parse) == Some(ev) && ev.kind.Str? && ev.kind.s in LIFECYCLE
    requires forall j :: 0 <= j < |sessions| ==> sessions[j].id != id
    ensures SessionsAreTheLog(sessions + [Change(NewSession(id), ev.kind.s, ev)], lines + [line], parse)
  {
    hide IsAbout, ShowsTheLog, SpokenOfFirst, NoneAbout, Change, EventOf, LIFECYCLE;
    forall x { NoneAboutOneMore(lines, line, parse, x); }
    forall a, b { SpokenOfStays(lines, line, parse, a, b); }
    NewSessionShows(lines, parse, id);
    TakesLine(NewSession(id), lines, line, parse, ev);
    forall j | 0 <= j < |sessions| ensures ShowsTheLog(sessions[j], lines + [line], parse) {
      if IsAbout(line, parse, sessions[j].id) { IsAboutOne(line, parse, id, sessions[j].id); }
      OthersShowStill(sessions[j], lines, line, parse);
    }
    forall x | IsAbout(line, parse, x) ensures x == id { IsAboutOne(line, parse, x, id); }
    var after := sessions + [Change(NewSession(id), ev.kind.s, ev)];
    assert after[|sessions|].id == id;
    assert forall j :: 0 <= j < |sessions| ==> after[j] == sessions[j];
  }

  /** Folding a log leaves the sessions it tells of, and its usage events. */
  lemma {:induction false} FoldIsTheLog(lines: seq<string>, parse: string -> Option<RawEvent>)
    ensures SessionsAreTheLog(FoldLines(lines, parse).sessions, lines, parse)
    ensures FoldLines(lines, parse).usage == UsageOf(lines, parse)
  {
    hide IsAbout, ShowsTheLog, SpokenOfFirst, NoneAbout, Change, EventOf, LIFECYCLE, FoldEvent, FoldLine, SessionsAreTheLog, NewSession;
    if lines == [] {
      NothingIsTheEmptyLog(parse);
    } else {
      var n := |lines| - 1;
      assert lines == lines[..n] + [lines[n]];
      FoldIsTheLog(lines[..n], parse);
      FoldsItsEvent(FoldLines(lines[..n], parse), lines[n], parse);
      LineIsTheLog(FoldLines(lines[..n], parse), lines[..n], lines[n], parse);
    }
  }

  lemma NothingIsTheEmptyLog(parse: string -> Option<RawEvent>)
    ensures SessionsAreTheLog([], [], parse)
  {
  }

  lemma LineIsTheLog(f: Fold, lines: seq<string>, line: string, parse: string -> Option<RawEvent>)
    requires SessionsAreTheLog(f.sessions, lines, parse)
    ensures SessionsAreTheLog(FoldLine(f, line, parse).sessions, lines + [line], parse)
    ensures FoldLine(f, line, parse).usage == f.usage +
      match EventOf(line, parse)
      case None => []
      case Some(ev) => if ev.kind == Str("run_usage") && ev.agent == Str("suthradhara") then [ev] else []
  {
    hide IsAbout, ShowsTheLog, SpokenOfFirst, NoneAbout, Change, EventOf, LIFECYCLE, FoldEvent, FoldLine, SessionsAreTheLog, NewSession;
    FoldsItsEvent(f, line, parse);
    if EventOf(line, parse).None? {
      forall id { AboutIsLifecycle(line, parse, id); }
      NobodyChanges(f.sessions, lines, line, parse);
    } else {
      var ev := EventOf(line, parse).value;
      EventCases(f, line, parse, ev);
      if id :| IsAbout(line, parse, id) {
        var i := IndexOfId(f.sessions, id);
        if i < |f.sessions| {
          OneChanges(f.sessions, lines, line, parse, ev, i);
        } else {
          OneOpens(f.sessions, lines, line, parse, ev, id);
        }
      } else {
        NobodyChanges(f.sessions, lines, line, parse);
      }
    }
  }
}
