/**
 Why each open bead did not close, and what the drain's exit code says about it:
 src/cli/drain-classify.ts and the exit sequence of `driveDrain` in src/cli/drain.ts.
 */
module DrainVerdict {

  import opened Prelude
  import Lines

  datatype Category =
    | Budget | NeedsHuman | BlockedBy | Exhausted | Blocked | Paused | ReadyButUnworked | NotReached | Open

  datatype StalledBead = StalledBead(beadId: string, category: Category)

  datatype BeadDetail = BeadDetail(notes: string, status: string, openBlockers: seq<string>)

  /** What the tracker shows at the exit: a bead it cannot show has no detail. */
  datatype Tracker = Tracker(open: seq<string>, details: map<string, BeadDetail>, paused: bool, ready: set<string>)

  // ── what notes say ─────────────────────────────────────────────────────────

  /** Case folding as the `i` flag does it: no character outside ASCII folds into it. */
  function Fold(s: string): string {
    seq(|s|, i requires 0 <= i < |s| => if 'A' <= s[i] <= 'Z' then s[i] - 'A' + 'a' else s[i])
  }

  /** `/budget cap/i` */
  predicate NamesBudgetCap(notes: string) {
    Lines.Contains(Fold(notes), "budget cap")
  }

  predicate Digits(s: string) {
    s != "" && forall i :: 0 <= i < |s| ==> '0' <= s[i] <= '9'
  }

  /** `after \d+ rounds` with its number at `i + 6` up to `j`. */
  predicate RoundsAt(s: string, i: nat, j: nat) {
    i + 6 <= j && Lines.IsAt(s, "after ", i) && Lines.IsAt(s, " rounds", j) && Digits(s[i + 6..j])
  }

  /** `exceeded \d+ .*attempt` with its number up to `j` and the word at `k`. */
  predicate AttemptsAt(s: string, i: nat, j: nat, k: nat) {
    && i + 9 <= j < k && Lines.IsAt(s, "exceeded ", i) && Lines.IsAt(s, " ", j) && Lines.IsAt(s, "attempt", k)
    && Digits(s[i + 9..j]) && OneLine(s[j + 1..k])
  }

  /** `/after \d+ rounds|exceeded \d+ .*attempt/i` */
  predicate NamesExhaustion(notes: string) {
    var s := Fold(notes);
    || (exists i, j :: 0 <= i <= |s| && 0 <= j <= |s| && RoundsAt(s, i, j))
    || (exists i, j, k :: 0 <= i <= |s| && 0 <= j <= |s| && 0 <= k <= |s| && AttemptsAt(s, i, j, k))
  }

  /** `s` reads `lower` at `k` in either case; `upper` is the same word in capitals. */
  predicate Reads(s: string, lower: string, upper: string, k: nat)
    requires |lower| == |upper|
  {
    k + |lower| <= |s| && forall i :: 0 <= i < |lower| ==> s[k + i] == lower[i] || s[k + i] == upper[i]
  }

  /** Each character stands for its own letter in the other case, or for itself where it has none. */
  predicate AreCases(lower: string, upper: string) {
    && |lower| == |upper|
    && forall i :: 0 <= i < |lower| ==>
         !('A' <= lower[i] <= 'Z')
         && upper[i] == if 'a' <= lower[i] <= 'z' then lower[i] - 'a' + 'A' else lower[i]
  }

  lemma FoldedReads(s: string, lower: string, upper: string, k: nat)
    requires AreCases(lower, upper)
    ensures Lines.IsAt(Fold(s), lower, k) <==> Reads(s, lower, upper, k)
  {
    if k + |lower| <= |s| {
      var there := Fold(s)[k..k + |lower|];
      assert forall i :: 0 <= i < |lower| ==> there[i] == Fold(s)[k + i];
      assert there == lower <==> forall i :: 0 <= i < |lower| ==> there[i] == lower[i];
    }
  }

  /** Notes name a budget cap exactly if they read "budget cap" somewhere, in whatever case. */
  lemma BudgetCapIsRead(notes: string)
    ensures NamesBudgetCap(notes) <==> exists k :: 0 <= k <= |notes| && Reads(notes, "budget cap", "BUDGET CAP", k)
  {
    forall k: nat { FoldedReads(notes, "budget cap", "BUDGET CAP", k); }
  }

  /** One or more decimal digits. */
  predicate IsNumber(s: string) {
    |s| > 0 && forall i :: 0 <= i < |s| ==> s[i] in "0123456789"
  }

  lemma DigitIs(c: char)
    ensures c in "0123456789" <==> '0' <= c <= '9'
  {
    if '0' <= c <= '9' {
      assert "0123456789"[c as int - 48] == c;
    }
  }

  lemma FoldKeepsNumbers(s: string, i: nat, j: nat)
    requires i <= j <= |s|
    ensures Digits(Fold(s)[i..j]) <==> IsNumber(s[i..j])
  {
    var there, here := Fold(s)[i..j], s[i..j];
    forall k | 0 <= k < j - i ensures '0' <= there[k] <= '9' <==> here[k] in "0123456789" {
      assert there[k] == Fold(s)[i + k] && here[k] == s[i + k];
      DigitIs(here[k]);
    }
  }

  lemma FoldKeepsLines(s: string, i: nat, j: nat)
    requires i <= j <= |s|
    ensures OneLine(Fold(s)[i..j]) <==> OneLine(s[i..j])
  {
    var there, here := Fold(s)[i..j], s[i..j];
    assert forall k :: 0 <= k < j - i ==> there[k] == Fold(s)[i + k] && here[k] == s[i + k];
  }

  /** "after N rounds" from `i` on, the number ending at `j`. */
  predicate ReadsRounds(s: string, i: nat, j: nat) {
    i + 6 <= j <= |s| && Reads(s, "after ", "AFTER ", i) && IsNumber(s[i + 6..j]) && Reads(s, " rounds", " ROUNDS", j)
  }

  /** "exceeded N " from `i` on, the number ending at `j`, and "attempt" at `k` on the same line. */
  predicate ReadsAttempts(s: string, i: nat, j: nat, k: nat) {
    && i + 9 <= j < k <= |s| && Reads(s, "exceeded ", "EXCEEDED ", i) && IsNumber(s[i + 9..j]) && Reads(s, " ", " ", j)
    && OneLine(s[j + 1..k]) && Reads(s, "attempt", "ATTEMPT", k)
  }

  lemma RoundsAreRead(s: string, i: nat, j: nat)
    ensures RoundsAt(Fold(s), i, j) <==> ReadsRounds(s, i, j)
  {
    hide Reads, Digits, IsNumber, Lines.IsAt;
    FoldedReads(s, "after ", "AFTER ", i);
    FoldedReads(s, " rounds", " ROUNDS", j);
    if i + 6 <= j <= |s| { FoldKeepsNumbers(s, i + 6, j); }
    if j > |s| { NothingBehind(s, " rounds", j); }
  }

  lemma AttemptsAreRead(s: string, i: nat, j: nat, k: nat)
    ensures AttemptsAt(Fold(s), i, j, k) <==> ReadsAttempts(s, i, j, k)
  {
    hide Reads, Digits, IsNumber, OneLine, Lines.IsAt;
    FoldedReads(s, "exceeded ", "EXCEEDED ", i);
    FoldedReads(s, " ", " ", j);
    FoldedReads(s, "attempt", "ATTEMPT", k);
    if i + 9 <= j < k <= |s| {
      FoldKeepsNumbers(s, i + 9, j);
      FoldKeepsLines(s, j + 1, k);
    }
    if k > |s| { NothingBehind(s, "attempt", k); }
  }

  lemma NothingBehind(s: string, w: string, k: nat)
    requires k > |s|
    ensures !Lines.IsAt(Fold(s), w, k)
  {
  }

  /** And an exhausted bead exactly if they read "after N rounds", or "exceeded N " and behind it on the line "attempt". */
  lemma ExhaustionIsRead(notes: string)
    ensures NamesExhaustion(notes) <==>
              || (exists i: nat, j: nat :: ReadsRounds(notes, i, j))
              || (exists i: nat, j: nat, k: nat :: ReadsAttempts(notes, i, j, k))
  {
    hide Reads, Digits, IsNumber, OneLine, Lines.IsAt;
    forall i: nat, j: nat { RoundsAreRead(notes, i, j); }
    forall i: nat, j: nat, k: nat { AttemptsAreRead(notes, i, j, k); }
  }

  /** `classifyBeadDetail`: the first reason that applies. */
  function Classify(d: BeadDetail, paused: bool, ready: bool): (c: Category)
    ensures c != NotReached
  {
    if NamesBudgetCap(d.notes) then Budget
    else if Lines.Contains(d.notes, "[needs-human]") then NeedsHuman
    else if d.openBlockers != [] then BlockedBy
    else if NamesExhaustion(d.notes) then Exhausted
    else if d.status == "blocked" then Blocked
    else if paused then Paused
    else if ready then ReadyButUnworked
    else Open
  }

  function CategoryOf(t: Tracker, id: string): Category {
    if id in t.details then Classify(t.details[id], t.paused, id in t.ready) else Open
  }

  /** A bead that pickup could have taken: nothing holds it, and the Kshetra is not paused. */
  predicate Workable(t: Tracker, id: string) {
    && id in t.details && id in t.ready && !t.paused
    && var d := t.details[id];
       && !NamesBudgetCap(d.notes) && !Lines.Contains(d.notes, "[needs-human]") && !NamesExhaustion(d.notes)
       && d.openBlockers == [] && d.status != "blocked"
  }

  predicate BudgetDenied(t: Tracker, id: string) {
    id in t.details && NamesBudgetCap(t.details[id].notes)
  }

  lemma CategoryMeans(t: Tracker, id: string)
    ensures CategoryOf(t, id) == Budget <==> BudgetDenied(t, id)
    ensures CategoryOf(t, id) == ReadyButUnworked <==> Workable(t, id)
  {
  }

  /** Whether a reason holds of a bead, whatever other reasons do. */
  predicate Holds(c: Category, d: BeadDetail, paused: bool, ready: bool) {
    match c
    case Budget => NamesBudgetCap(d.notes)
    case NeedsHuman => Lines.Contains(d.notes, "[needs-human]")
    case BlockedBy => d.openBlockers != []
    case Exhausted => NamesExhaustion(d.notes)
    case Blocked => d.status == "blocked"
    case Paused => paused
    case ReadyButUnworked => ready
    case NotReached => false
    case Open => true
  }

  /** How telling a reason is: the lower says more. */
  function Rank(c: Category): nat {
    match c
    case Budget => 0
    case NeedsHuman => 1
    case BlockedBy => 2
    case Exhausted => 3
    case Blocked => 4
    case Paused => 5
    case ReadyButUnworked => 6
    case NotReached => 7
    case Open => 8
  }

  /** A bead gets the most telling reason that holds of it. */
  lemma MostTellingReason(d: BeadDetail, paused: bool, ready: bool)
    ensures var c := Classify(d, paused, ready);
      Holds(c, d, paused, ready) && forall other :: Holds(other, d, paused, ready) ==> Rank(c) <= Rank(other)
  {
    hide NamesBudgetCap, NamesExhaustion;
    var c := Classify(d, paused, ready);
    forall other | Holds(other, d, paused, ready) ensures Rank(c) <= Rank(other) {
      assert other != NotReached;
    }
  }

  /** `classifyWith`: one entry for each open bead, in order. */
  method ClassifyOpenBeads(t: Tracker) returns (out: seq<StalledBead>)
    ensures IsClassified(t, out)
  {
    out := [];
    for i := 0 to |t.open|
      invariant |out| == i
      invariant forall j :: 0 <= j < i ==> out[j] == StalledBead(t.open[j], CategoryOf(t, t.open[j]))
    {
      var id := t.open[i];
      if id in t.details {
        out := out + [StalledBead(id, Classify(t.details[id], t.paused, id in t.ready))];
      } else {
        out := out + [StalledBead(id, Open)];
      }
    }
  }

  // ── the exit code ──────────────────────────────────────────────────────────

  datatype Reason = Complete | Stalled | BudgetStopped | Capped | Signalled

  datatype DrainCore = DrainCore(exitCode: int, reason: Reason, openInScope: seq<string>, stalled: seq<StalledBead>)

  function Relabel(s: StalledBead): StalledBead {
    if s.category == ReadyButUnworked then s.(category := NotReached) else s
  }

  predicate Names(stalled: seq<StalledBead>, c: Category) {
    exists i :: 0 <= i < |stalled| && stalled[i].category == c
  }

  /** The exit sequence of a drain that no signal stopped. */
  function Conclude(capped: bool, open: seq<string>, classified: seq<StalledBead>): DrainCore {
    if open == [] then DrainCore(0, Complete, [], [])
    else
      var stalled := if capped then seq(|classified|, i requires 0 <= i < |classified| => Relabel(classified[i])) else classified;
      if Names(stalled, Budget) then DrainCore(11, BudgetStopped, open, stalled)
      else if Names(stalled, NotReached) then DrainCore(12, Capped, open, stalled)
      else DrainCore(10, Stalled, open, stalled)
  }

  predicate IsClassified(t: Tracker, classified: seq<StalledBead>) {
    && |classified| == |t.open|
    && forall i :: 0 <= i < |classified| ==> classified[i] == StalledBead(t.open[i], CategoryOf(t, t.open[i]))
  }

  /** What each entry of the verdict says: the open beads in order, relabelled exactly when the cap ended the loop. */
  lemma StalledEntries(t: Tracker, capped: bool, classified: seq<StalledBead>)
    requires IsClassified(t, classified)
    ensures var r := Conclude(capped, t.open, classified);
      && |r.stalled| == |t.open|
      && forall i :: 0 <= i < |t.open| ==>
           && r.stalled[i].beadId == t.open[i]
           && (r.stalled[i].category == NotReached <==> capped && Workable(t, t.open[i]))
           && (r.stalled[i].category == ReadyButUnworked <==> !capped && Workable(t, t.open[i]))
           && (r.stalled[i].category == Budget <==> BudgetDenied(t, t.open[i]))
           && (!capped || !Workable(t, t.open[i]) ==> r.stalled[i].category == CategoryOf(t, t.open[i]))
  {
    forall i | 0 <= i < |t.open| ensures classified[i] == StalledBead(t.open[i], CategoryOf(t, t.open[i])) {
      CategoryMeans(t, t.open[i]);
    }
  }

  /** The exit code, read off the tracker. */
  lemma ExitCodeExactly(t: Tracker, capped: bool, classified: seq<StalledBead>)
    requires IsClassified(t, classified)
    ensures var code := Conclude(capped, t.open, classified).exitCode;
      && (code == 0 <==> t.open == [])
      && (code == 11 <==> exists id :: id in t.open && BudgetDenied(t, id))
      && (code == 12 <==> (
            && (forall id :: id in t.open ==> !BudgetDenied(t, id))
            && capped && exists id :: id in t.open && Workable(t, id)))
      && code in {0, 10, 11, 12}
    ensures var r := Conclude(capped, t.open, classified);
      && r.openInScope == t.open
      && r.reason == match r.exitCode
                     case 0 => Complete
                     case 11 => BudgetStopped
                     case 12 => Capped
                     case _ => Stalled
  {
    var r := Conclude(capped, t.open, classified);
    StalledEntries(t, capped, classified);
    forall id | id in t.open
      ensures BudgetDenied(t, id) ==> Names(r.stalled, Budget)
      ensures capped && Workable(t, id) ==> Names(r.stalled, NotReached)
    {
      var i :| 0 <= i < |t.open| && t.open[i] == id;
      assert r.stalled[i].beadId == id;
    }
    assert forall i :: 0 <= i < |r.stalled| ==> t.open[i] in t.open && r.stalled[i].beadId == t.open[i];
  }
}
