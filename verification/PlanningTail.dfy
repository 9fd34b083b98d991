/**
 The incremental tail of src/phalaka/planning-read.ts: the lines it retains, and why
 folding them gives the sessions of the whole log.
 */
module PlanningTail {
  import opened ActivityStream
  import opened Lines
  import opened PlanningLaws
  import opened PlanningSessions
  import opened Prelude

  // ── the retained lines ─────────────────────────────────────────────────────

  /** `isRetainablePlanningLine`: it parses the line as it stands, untrimmed. */
  predicate IsRetainable(line: string, parse: string -> Option<RawEvent>) {
    && MentionsPlanning(line)
    && parse(line).Some?
    && var kind := Text(parse(line).value.kind).GetOr("");
       "suthradhara_" <= kind || (kind == "run_usage" && parse(line).value.agent == Str("suthradhara"))
  }

  /** The lines retained are the planner's: its own lifecycle events, and usage it reported, not an executor's. */
  lemma RetainedArePlanners(line: string, parse: string -> Option<RawEvent>)
    ensures IsRetainable(line, parse) <==>
      && (Contains(line, "suthradhara") || Contains(line, "run_usage"))
      && exists ev, kind :: parse(line) == Some(ev) && ev.kind == Str(kind)
           && ("suthradhara_" <= kind || (kind == "run_usage" && ev.agent == Str("suthradhara")))
  {
    if IsRetainable(line, parse) {
      var ev := parse(line).value;
      assert ev.kind == Str(Text(ev.kind).value);
    }
  }

  function Retained(lines: seq<string>, parse: string -> Option<RawEvent>): seq<string> {
    if lines == [] then []
    else
      var n := |lines| - 1;
      Retained(lines[..n], parse) + if IsRetainable(lines[n], parse) then [lines[n]] else []
  }

  lemma {:induction false} RetainedAppend(a: seq<string>, b: seq<string>, parse: string -> Option<RawEvent>)
    ensures Retained(a + b, parse) == Retained(a, parse) + Retained(b, parse)
  {
    if b == [] {
      assert a + b == a;
    } else {
      var n := |b| - 1;
      RetainedAppend(a, b[..n], parse);
      assert (a + b)[..|a + b| - 1] == a + b[..n];
      assert (a + b)[|a + b| - 1] == b[n];
    }
  }

  /** The fold takes something from this event, whatever came before it. */
  predicate IsUsed(ev: RawEvent) {
    var kind := NonEmpty(ev.kind);
    && kind.Some?
    && if kind.value == "run_usage" then ev.agent == Str("suthradhara")
       else kind.value in LIFECYCLE && NonEmpty(ev.sessionId).Some?
  }

  /** The fold takes something from this line. */
  predicate Uses(line: string, parse: string -> Option<RawEvent>) {
    && Trim(line) != "" && MentionsPlanning(Trim(line))
    && parse(Trim(line)).Some? && IsUsed(parse(Trim(line)).value)
  }

  lemma UsedEventShows(ev: RawEvent)
    ensures FoldEvent(Fold([], []), ev) != Fold([], []) <==> IsUsed(ev)
  {
  }

  /** What the fold does not use it passes over, and what it uses shows at once in an empty fold. */
  lemma UsedExactly(line: string, parse: string -> Option<RawEvent>)
    ensures Uses(line, parse) <==> FoldLine(Fold([], []), line, parse) != Fold([], [])
    ensures !Uses(line, parse) ==> forall f :: FoldLine(f, line, parse) == f
  {
    if parse(Trim(line)).Some? {
      UsedEventShows(parse(Trim(line)).value);
    }
  }

  /** What the filter leaves of a line for the fold. */
  function FoldKept(f: Fold, line: string, parse: string -> Option<RawEvent>): Fold {
    if IsRetainable(line, parse) then FoldLine(f, line, parse) else f
  }

  /** Filtering a line goes unnoticed by the fold exactly when the line is retained or not used. */
  lemma LineIsKeptExactly(line: string, parse: string -> Option<RawEvent>)
    ensures (forall f :: FoldKept(f, line, parse) == FoldLine(f, line, parse))
       <==> IsRetainable(line, parse) || !Uses(line, parse)
  {
    UsedExactly(line, parse);
    assert FoldKept(Fold([], []), line, parse) == FoldLine(Fold([], []), line, parse)
      <==> IsRetainable(line, parse) || !Uses(line, parse);
  }

  /** The filter retains every line the fold uses. */
  predicate KeepsUsed(lines: seq<string>, parse: string -> Option<RawEvent>) {
    forall l :: l in lines && Uses(l, parse) ==> IsRetainable(l, parse)
  }

  /** Folding the retained lines gives the fold of every line. */
  lemma {:induction false} FilterIsInvisible(lines: seq<string>, parse: string -> Option<RawEvent>)
    requires KeepsUsed(lines, parse)
    ensures FoldLines(Retained(lines, parse), parse) == FoldLines(lines, parse)
    ensures Sessions(Retained(lines, parse), parse) == Sessions(lines, parse)
  {
    if lines != [] {
      var n := |lines| - 1;
      FilterIsInvisible(lines[..n], parse);
      RetainedFolds(lines, parse);
      LineIsKeptExactly(lines[n], parse);
      assert lines[n] in lines;
    }
  }

  /** The last line, as the filter passes it on. */
  lemma RetainedFolds(lines: seq<string>, parse: string -> Option<RawEvent>)
    requires lines != []
    ensures var n := |lines| - 1;
      FoldLines(Retained(lines, parse), parse) == FoldKept(FoldLines(Retained(lines[..n], parse), parse), lines[n], parse)
  {
    hide IsRetainable, FoldLine;
    var n := |lines| - 1;
    var kept := Retained(lines[..n], parse);
    var more := kept + [lines[n]];
    assert more[..|more| - 1] == kept && more[|more| - 1] == lines[n] && kept + [] == kept;
  }

  /** Over all logs: no log shows the filter exactly when it retains every line the fold uses. */
  lemma FilterIsInvisibleExactly(parse: string -> Option<RawEvent>)
    ensures (forall lines :: FoldLines(Retained(lines, parse), parse) == FoldLines(lines, parse))
       <==> (forall line :: Uses(line, parse) ==> IsRetainable(line, parse))
  {
    if forall line :: Uses(line, parse) ==> IsRetainable(line, parse) {
      forall lines ensures FoldLines(Retained(lines, parse), parse) == FoldLines(lines, parse) {
        FilterIsInvisible(lines, parse);
      }
    } else {
      var line :| Uses(line, parse) && !IsRetainable(line, parse);
      LostLineShows(line, parse);
    }
  }

  /** A used line that is dropped shows in the log that holds it alone. */
  lemma LostLineShows(line: string, parse: string -> Option<RawEvent>)
    requires Uses(line, parse) && !IsRetainable(line, parse)
    ensures Retained([line], parse) == []
    ensures FoldLines(Retained([line], parse), parse) == Fold([], []) != FoldLines([line], parse)
  {
    assert [line][..0] == [];
    assert Retained([line], parse) == [];
    UsedExactly(line, parse);
  }

  /** A dropped lifecycle line takes its session with it. */
  lemma LostSession(line: string, parse: string -> Option<RawEvent>)
    requires Uses(line, parse) && !IsRetainable(line, parse)
    requires parse(Trim(line)).value.kind != Str("run_usage")
    ensures Sessions(Retained([line], parse), parse) == []
    ensures |Sessions([line], parse)| == 1 && Sessions([line], parse)[0].id == parse(Trim(line)).value.sessionId.s
  {
    LostLineShows(line, parse);
    assert [line][..0] == [];
    var ev := parse(Trim(line)).value;
    assert FoldLines([line], parse) == FoldEvent(Fold([], []), ev);
  }

  /** A dropped usage line leaves its session uncharged, where the log has one for it. */
  lemma LostCharge(lines: seq<string>, line: string, parse: string -> Option<RawEvent>)
    requires KeepsUsed(lines, parse) && Uses(line, parse) && !IsRetainable(line, parse)
    requires parse(Trim(line)).value.kind == Str("run_usage")
    ensures var ev := parse(Trim(line)).value; var sessions := FoldLines(lines, parse).sessions;
      SpentTotal(Sessions(lines + [line], parse))
        == SpentTotal(Sessions(Retained(lines + [line], parse), parse))
             .Plus(if Target(sessions, ev) < |sessions| then Reported(ev) else NO_USAGE)
  {
    hide FoldLines, Retained, IsRetainable, KeepsUsed, AttachAll, SpentTotal, Reported, Target, MentionsPlanning, Trim;
    var all, ev, f := lines + [line], parse(Trim(line)).value, FoldLines(lines, parse);
    FilterIsInvisible(lines, parse);
    LostUsage(lines, line, parse);
    OneMoreCharge(f, ev);
  }

  lemma LostUsage(lines: seq<string>, line: string, parse: string -> Option<RawEvent>)
    requires Uses(line, parse) && !IsRetainable(line, parse) && parse(Trim(line)).value.kind == Str("run_usage")
    ensures Retained(lines + [line], parse) == Retained(lines, parse)
    ensures var f := FoldLines(lines, parse);
      FoldLines(lines + [line], parse) == f.(usage := f.usage + [parse(Trim(line)).value])
  {
    var all := lines + [line];
    assert all[..|all| - 1] == lines && all[|all| - 1] == line;
    assert Retained(lines, parse) + [] == Retained(lines, parse);
  }

  lemma OneMoreCharge(f: Fold, ev: RawEvent)
    ensures SpentTotal(AttachAll(f.sessions, f.usage + [ev]))
         == SpentTotal(AttachAll(f.sessions, f.usage))
              .Plus(if Target(f.sessions, ev) < |f.sessions| then Reported(ev) else NO_USAGE)
  {
    hide AttachAll, SpentTotal, Reported, Target;
    UsageIsConserved(f.sessions, f.usage);
    UsageIsConserved(f.sessions, f.usage + [ev]);
    assert (f.usage + [ev])[..|f.usage|] == f.usage;
  }

  // ── where lines parse as their trims do ────────────────────────────────────

  /** A line parses exactly as its trim does. */
  predicate ParsesAsTrimmed(line: string, parse: string -> Option<RawEvent>) {
    parse(line) == parse(Trim(line))
  }

  lemma LifecycleIsPlanning(kind: string)
    requires kind in LIFECYCLE
    ensures "suthradhara_" <= kind && kind != "run_usage"
  {
    assert kind[..12] == "suthradhara_";
  }

  /** Then what the fold uses is retained. */
  lemma TrimmedIsRetained(line: string, parse: string -> Option<RawEvent>)
    requires ParsesAsTrimmed(line, parse)
    ensures Uses(line, parse) ==> IsRetainable(line, parse)
  {
    var trimmed := Trim(line);
    if Uses(line, parse) {
      if Contains(trimmed, "suthradhara") { TrimAddsNothing(line, "suthradhara"); }
      if Contains(trimmed, "run_usage") { TrimAddsNothing(line, "run_usage"); }
      var kind := parse(trimmed).value.kind.s;
      if kind in LIFECYCLE {
        LifecycleIsPlanning(kind);
      }
    }
  }

  /** A line the filter drops is one the fold passes over. */
  lemma DroppedLineIsUnused(f: Fold, line: string, parse: string -> Option<RawEvent>)
    requires ParsesAsTrimmed(line, parse) && !IsRetainable(line, parse)
    ensures FoldLine(f, line, parse) == f
  {
    TrimmedIsRetained(line, parse);
    UsedExactly(line, parse);
  }

  /** It is enough that the lines parse as their trims do. */
  lemma TrimmedLogKeepsUsed(lines: seq<string>, parse: string -> Option<RawEvent>)
    requires forall l :: l in lines ==> ParsesAsTrimmed(l, parse)
    ensures KeepsUsed(lines, parse)
  {
    forall l | l in lines && Uses(l, parse) ensures IsRetainable(l, parse) {
      TrimmedIsRetained(l, parse);
    }
  }

  // ── the incremental tail ───────────────────────────────────────────────────

  /** `PlanningTail` */
  datatype PlanningTail = PlanningTail(offset: nat, partial: string, relevant: seq<string>)

  /** One call of `planningRelevantLines`. */
  function Poll(t: PlanningTail, look: Look, parse: string -> Option<RawEvent>): PlanningTail {
    if look.Missing? then t
    else
      var u := if look.Size() < t.offset then PlanningTail(0, "", []) else t;
      if look.Size() > u.offset && look.Content? then
        var text := u.partial + look.text[u.offset..];
        PlanningTail(|look.text|, Carry(text), u.relevant + Retained(Whole(text), parse))
      else u
  }

  function Polls(looks: seq<Look>, parse: string -> Option<RawEvent>): PlanningTail {
    if looks == [] then PlanningTail(0, "", [])
    else Poll(Polls(looks[..|looks| - 1], parse), looks[|looks| - 1], parse)
  }

  class PlanningReader {
    var offset: nat
    var partial: string
    var relevant: seq<string>
    const parse: string -> Option<RawEvent>

    constructor (parse: string -> Option<RawEvent>)
      ensures State() == PlanningTail(0, "", []) && this.parse == parse
    {
      offset, partial, relevant, this.parse := 0, "", [], parse;
    }

    function State(): PlanningTail
      reads this
    {
      PlanningTail(offset, partial, relevant)
    }

    method PlanningRelevantLines(look: Look) returns (lines: seq<string>)
      modifies this
      ensures State() == Poll(old(State()), look, parse)
      ensures lines == relevant
    {
      if look.Missing? { return relevant; }
      if look.Size() < offset {
        offset, partial, relevant := 0, "", [];
      }
      if look.Size() > offset {
        if look.Unreadable? { return relevant; }
        var text := partial + look.text[offset..];
        offset, partial := |look.text|, Carry(text);
        Keep(Whole(text));
      }
      return relevant;
    }

    /** Appends the lines worth retaining. */
    method Keep(cut: seq<string>)
      modifies this`relevant
      ensures relevant == old(relevant) + Retained(cut, parse)
    {
      for i := 0 to |cut|
        invariant relevant == old(relevant) + Retained(cut[..i], parse)
      {
        assert cut[..i + 1][..i] == cut[..i];
        if IsRetainable(cut[i], parse) { relevant := relevant + [cut[i]]; }
      }
      assert cut[..|cut|] == cut;
    }
  }

  /**
   The log as the polls saw it last. Seen shorter but unreadable, it counts as
   empty: the tail has already restarted.
   */
  function LogSeen(looks: seq<Look>): string {
    if looks == [] then ""
    else
      var before := LogSeen(looks[..|looks| - 1]);
      match looks[|looks| - 1]
      case Missing => before
      case Unreadable(n) => if n < |before| then "" else before
      case Content(text) => text
  }

  /** Between polls the log is appended to, or replaced by something shorter. */
  ghost predicate AppendsOrShrinks(looks: seq<Look>) {
    forall i :: 0 <= i < |looks| && looks[i].Content? ==>
      LogSeen(looks[..i]) <= looks[i].text || |looks[i].text| < |LogSeen(looks[..i])|
  }

  /** The tail of a log read to its end. */
  function TailAt(log: string, parse: string -> Option<RawEvent>): PlanningTail {
    PlanningTail(|log|, Carry(log), Retained(Whole(log), parse))
  }

  lemma PollFollows(before: string, look: Look, parse: string -> Option<RawEvent>)
    requires look.Content? ==> before <= look.text || |look.text| < |before|
    ensures var after := match look
              case Missing => before
              case Unreadable(n) => if n < |before| then "" else before
              case Content(text) => text;
            Poll(TailAt(before, parse), look, parse) == TailAt(after, parse)
  {
    hide IsRetainable;
    if look.Content? {
      var text := look.text;
      if |text| < |before| {
        assert "" + text[0..] == text;
        assert [] + Retained(Whole(text), parse) == Retained(Whole(text), parse);
      } else {
        var suffix := text[|before|..];
        assert text == before + suffix;
        SplitAppend(before, suffix);
        RetainedAppend(Whole(before), Whole(Carry(before) + suffix), parse);
        if suffix == "" { assert text == before; }
      }
    }
  }

  lemma {:induction false} TailFollowsLog(looks: seq<Look>, parse: string -> Option<RawEvent>)
    requires AppendsOrShrinks(looks)
    ensures Polls(looks, parse) == TailAt(LogSeen(looks), parse)
  {
    if looks != [] {
      var n := |looks| - 1;
      assert AppendsOrShrinks(looks[..n]) by {
        forall i | 0 <= i < n ensures looks[..n][..i] == looks[..i] {}
      }
      TailFollowsLog(looks[..n], parse);
      PollFollows(LogSeen(looks[..n]), looks[n], parse);
    }
  }

  /** After any polls, folding what the tail kept gives the sessions of the whole log's complete lines. */
  lemma IncrementalFoldIsFullFold(looks: seq<Look>, parse: string -> Option<RawEvent>)
    requires AppendsOrShrinks(looks)
    requires KeepsUsed(Whole(LogSeen(looks)), parse)
    ensures Sessions(Polls(looks, parse).relevant, parse) == Sessions(Whole(LogSeen(looks)), parse)
  {
    TailFollowsLog(looks, parse);
    FilterIsInvisible(Whole(LogSeen(looks)), parse);
  }
}
