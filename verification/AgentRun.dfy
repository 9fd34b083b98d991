/**
 `runAgent` of src/agents/runner.ts: one policy decision, then up to four
 sessions, each opened and closed in the ledger.
 */
module AgentRun {

  import opened Prelude

  const MAX_ATTEMPTS := 4

  type Session = string

  datatype Usage = Usage(inputTokens: nat, outputTokens: nat, cacheReadTokens: nat, cacheCreationTokens: nat)

  /**
   The errors an attempt can reject with, as far as the loop tells them apart.
   `transient` says whether `looksTransient` finds a marker in the message.
   */
  datatype Failure =
    | AgentAborted
    | SpawnFailed(transient: bool)
    | AgentRunError(transient: bool, usage: Option<Usage>)
    | OtherError(transient: bool)

  datatype Outcome = Returned(usage: Option<Usage>) | Threw(error: Failure)

  /** What one attempt meets: its fresh session, how it ends, and the abort signal at the two places the loop looks. */
  datatype Attempt = Attempt(session: Session, outcome: Outcome, abortedWhenCaught: bool, abortedAfterWait: bool)

  datatype Decision = Allowed | Denied(reason: string)

  datatype Cause = CauseAborted | CauseSpawnFailed | CauseError

  datatype Event =
    | PolicySelectModel
    | PolicyMayProceed(decision: Decision)
    | RunStarted(session: Session, attempt: nat)
    | RunUsage(session: Session, ok: bool, usage: Usage)
    | RunUnmetered(session: Session, cause: Cause)
    | RetryNotice(session: Session, next: nat)

  datatype Result = Finished(session: Session) | NotPermitted(reason: string) | Rejected(error: Failure)

  // ── what an attempt leaves in the ledger ───────────────────────────────────

  predicate IsTransient(e: Failure) {
    !e.AgentAborted? && e.transient
  }

  function UsageOf(u: Option<Usage>): Usage {
    u.GetOr(Usage(0, 0, 0, 0))
  }

  function CauseOf(e: Failure, aborted: bool): Cause {
    if e.AgentAborted? || aborted then CauseAborted else if e.SpawnFailed? then CauseSpawnFailed else CauseError
  }

  /** The event that closes a session: `reportUsage` or `reportUnmetered`. */
  function Closing(a: Attempt): Event {
    match a.outcome
    case Returned(usage) => RunUsage(a.session, true, UsageOf(usage))
    case Threw(e) =>
      if e.AgentRunError? && e.usage.Some? then RunUsage(a.session, false, e.usage.value)
      else RunUnmetered(a.session, CauseOf(e, a.abortedWhenCaught))
  }

  /** A failure worth a wait: transient, and nobody asked to stop. */
  predicate Waits(a: Attempt) {
    a.outcome.Threw? && !a.abortedWhenCaught && IsTransient(a.outcome.error)
  }

  predicate Retries(a: Attempt) {
    Waits(a) && !a.abortedAfterWait
  }

  /** One attempt's events; `last` when no further attempt is left to wait for. */
  function AttemptEvents(a: Attempt, number: nat, last: bool): seq<Event> {
    [RunStarted(a.session, number), Closing(a)] + if Waits(a) && !last then [RetryNotice(a.session, number + 1)] else []
  }

  /** The events of the first `n` attempts. */
  function SessionEvents(attempts: seq<Attempt>, n: nat): seq<Event>
    requires n <= |attempts|
  {
    if n == 0 then [] else SessionEvents(attempts, n - 1) + AttemptEvents(attempts[n - 1], n, n == |attempts|)
  }

  /** How many attempts are started: up to and with the first that is not retried. */
  function Started(attempts: seq<Attempt>, from: nat): (n: nat)
    requires from < |attempts|
    ensures from < n <= |attempts|
    decreases |attempts| - from
  {
    if Retries(attempts[from]) && from + 1 < |attempts| then Started(attempts, from + 1) else from + 1
  }

  function RunEvents(decision: Decision, attempts: seq<Attempt>): seq<Event>
    requires attempts != []
  {
    [PolicySelectModel, PolicyMayProceed(decision)]
    + if decision.Allowed? then SessionEvents(attempts, Started(attempts, 0)) else []
  }

  /** How the last attempt ends the run. */
  function Verdict(a: Attempt, last: bool): Result {
    match a.outcome
    case Returned(_) => Finished(a.session)
    case Threw(e) => Rejected(if Waits(a) && !last then AgentAborted else e)
  }

  function RunResult(decision: Decision, attempts: seq<Attempt>): Result
    requires attempts != []
  {
    match decision
    case Denied(reason) => NotPermitted(reason)
    case Allowed =>
      var n := Started(attempts, 0);
      Verdict(attempts[n - 1], n == |attempts|)
  }

  // ── the dispatcher ─────────────────────────────────────────────────────────

  class Ledger {
    var events: seq<Event>

    constructor ()
      ensures events == []
    {
      events := [];
    }

    method Emit(e: Event)
      modifies this
      ensures events == old(events) + [e]
    {
      events := events + [e];
    }

    method ReportUsage(session: Session, ok: bool, usage: Option<Usage>)
      modifies this
      ensures events == old(events) + [RunUsage(session, ok, UsageOf(usage))]
    {
      Emit(RunUsage(session, ok, usage.GetOr(Usage(0, 0, 0, 0))));
    }

    method ReportUnmetered(session: Session, error: Failure, aborted: bool)
      modifies this
      ensures events == old(events) + [RunUnmetered(session, CauseOf(error, aborted))]
    {
      var cause := CauseError;
      if error.AgentAborted? || aborted {
        cause := CauseAborted;
      } else if error.SpawnFailed? {
        cause := CauseSpawnFailed;
      }
      Emit(RunUnmetered(session, cause));
    }

    /** The `catch` block up to the decision whether to go on: closes the session of a failed attempt. */
    method CloseFailed(a: Attempt)
      requires a.outcome.Threw?
      modifies this
      ensures events == old(events) + [Closing(a)]
    {
      var error := a.outcome.error;
      if error.AgentRunError? && error.usage.Some? {
        ReportUsage(a.session, false, error.usage);
      } else {
        ReportUnmetered(a.session, error, a.abortedWhenCaught);
      }
    }

    /** One turn of the loop: the result that ends the run, or none to go on to the next attempt. */
    method RunSession(a: Attempt, number: nat) returns (r: Option<Result>)
      modifies this
      ensures events == old(events) + AttemptEvents(a, number, number == MAX_ATTEMPTS)
      ensures r == if Retries(a) && number != MAX_ATTEMPTS then None else Some(Verdict(a, number == MAX_ATTEMPTS))
    {
      Emit(RunStarted(a.session, number));
      if a.outcome.Returned? {
        ReportUsage(a.session, true, a.outcome.usage);
        return Some(Finished(a.session));
      }
      CloseFailed(a);
      var lastErr := a.outcome.error;
      if lastErr.AgentAborted? || a.abortedWhenCaught {
        return Some(Rejected(lastErr));
      }
      if lastErr.transient && number != MAX_ATTEMPTS {
        Emit(RetryNotice(a.session, number + 1));
        return if a.abortedAfterWait then Some(Rejected(AgentAborted)) else None;
      }
      return Some(Rejected(lastErr));
    }

    /** `attempts` is what the run meets, attempt by attempt. */
    method RunAgent(decision: Decision, attempts: seq<Attempt>) returns (r: Result)
      requires |attempts| == MAX_ATTEMPTS
      modifies this
      ensures events == old(events) + RunEvents(decision, attempts)
      ensures r == RunResult(decision, attempts)
    {
      hide AttemptEvents, Verdict, Retries;
      ghost var before := events;
      Emit(PolicySelectModel);
      Emit(PolicyMayProceed(decision));
      ghost var policy := [PolicySelectModel, PolicyMayProceed(decision)];
      assert events == before + (policy + []);
      if decision.Denied? {
        return NotPermitted(decision.reason);
      }
      var attempt := 1;
      while attempt <= MAX_ATTEMPTS
        invariant 1 <= attempt <= MAX_ATTEMPTS
        invariant events == before + (policy + SessionEvents(attempts, attempt - 1))
        invariant Started(attempts, 0) == Started(attempts, attempt - 1)
        decreases MAX_ATTEMPTS - attempt
      {
        var done := RunSession(attempts[attempt - 1], attempt);
        RegroupAll(before, policy, SessionEvents(attempts, attempt - 1),
          AttemptEvents(attempts[attempt - 1], attempt, attempt == MAX_ATTEMPTS));
        if done.Some? {
          return done.value;
        }
        attempt := attempt + 1;
      }
    }
  }

  lemma RegroupAll(a: seq<Event>, b: seq<Event>, c: seq<Event>, d: seq<Event>)
    ensures (a + (b + c)) + d == a + (b + (c + d))
  {
  }

  // ── what every ledger keeps ────────────────────────────────────────────────

  predicate Closes(e: Event, s: Session) {
    (e.RunUsage? || e.RunUnmetered?) && e.session == s
  }

  function CountStarted(events: seq<Event>): nat {
    if events == [] then 0 else CountStarted(events[..|events| - 1]) + if events[|events| - 1].RunStarted? then 1 else 0
  }

  function CountClosing(events: seq<Event>, s: Session): nat {
    if events == [] then 0
    else CountClosing(events[..|events| - 1], s) + if Closes(events[|events| - 1], s) then 1 else 0
  }

  /** Every attempt gets a fresh random UUID. */
  predicate FreshSessions(attempts: seq<Attempt>) {
    forall i, j :: 0 <= i < j < |attempts| ==> attempts[i].session != attempts[j].session
  }

  lemma {:induction false} CountStartedAppend(a: seq<Event>, b: seq<Event>)
    ensures CountStarted(a + b) == CountStarted(a) + CountStarted(b)
  {
    if b == [] {
      assert a + b == a;
    } else {
      assert (a + b)[..|a + b| - 1] == a + b[..|b| - 1];
      CountStartedAppend(a, b[..|b| - 1]);
    }
  }

  lemma {:induction false} CountClosingAppend(a: seq<Event>, b: seq<Event>, s: Session)
    ensures CountClosing(a + b, s) == CountClosing(a, s) + CountClosing(b, s)
  {
    if b == [] {
      assert a + b == a;
    } else {
      assert (a + b)[..|a + b| - 1] == a + b[..|b| - 1];
      CountClosingAppend(a, b[..|b| - 1], s);
    }
  }

  lemma AttemptCounts(a: Attempt, number: nat, last: bool, s: Session)
    ensures CountStarted(AttemptEvents(a, number, last)) == 1
    ensures CountClosing(AttemptEvents(a, number, last), s) == if a.session == s then 1 else 0
  {
    var ev := AttemptEvents(a, number, last);
    var one := [RunStarted(a.session, number)];
    var two := one + [Closing(a)];
    assert one[..0] == [] && two[..1] == one;
    assert |ev| == 3 ==> ev[..2] == two;
    assert |ev| == 2 ==> ev == two;
    assert CountStarted(one) == 1 && CountStarted(two) == 1;
    assert CountClosing(one, s) == 0;
  }

  lemma {:induction false} SessionCounts(attempts: seq<Attempt>, n: nat, s: Session)
    requires n <= |attempts| && FreshSessions(attempts)
    ensures CountStarted(SessionEvents(attempts, n)) == n
    ensures CountClosing(SessionEvents(attempts, n), s)
         == if exists i :: 0 <= i < n && attempts[i].session == s then 1 else 0
  {
    hide AttemptEvents;
    if n > 0 {
      SessionCounts(attempts, n - 1, s);
      var mine := AttemptEvents(attempts[n - 1], n, n == |attempts|);
      AttemptCounts(attempts[n - 1], n, n == |attempts|, s);
      CountStartedAppend(SessionEvents(attempts, n - 1), mine);
      CountClosingAppend(SessionEvents(attempts, n - 1), mine, s);
    }
  }

  lemma PreambleCounts(decision: Decision, s: Session)
    ensures CountStarted([PolicySelectModel, PolicyMayProceed(decision)]) == 0
    ensures CountClosing([PolicySelectModel, PolicyMayProceed(decision)], s) == 0
  {
    var one := [PolicySelectModel];
    var two := one + [PolicyMayProceed(decision)];
    assert one[..0] == [] && two[..1] == one && two == [PolicySelectModel, PolicyMayProceed(decision)];
    assert CountStarted(one) == 0 && CountClosing(one, s) == 0;
  }

  /** An allowed run starts one to four sessions, a denied run none. */
  lemma OneToFourSessions(decision: Decision, attempts: seq<Attempt>)
    requires |attempts| == MAX_ATTEMPTS && FreshSessions(attempts)
    ensures decision.Allowed? ==> 1 <= CountStarted(RunEvents(decision, attempts)) <= 4
    ensures decision.Denied? ==> CountStarted(RunEvents(decision, attempts)) == 0
  {
    PreambleCounts(decision, "");
    var n := Started(attempts, 0);
    SessionCounts(attempts, n, "");
    CountStartedAppend([PolicySelectModel, PolicyMayProceed(decision)], SessionEvents(attempts, n));
  }

  /** Where each start stands: right before its close, and numbered by its attempt. */
  lemma {:induction false} StartsAreNumbered(attempts: seq<Attempt>, n: nat, i: nat)
    requires n <= |attempts| && i < |SessionEvents(attempts, n)|
    ensures var ev := SessionEvents(attempts, n);
      && (ev[i].RunStarted? ==>
            && 1 <= ev[i].attempt <= n && ev[i].session == attempts[ev[i].attempt - 1].session
            && i + 1 < |ev| && ev[i + 1] == Closing(attempts[ev[i].attempt - 1]))
      && (ev[i].RunUsage? || ev[i].RunUnmetered? ==> i > 0 && ev[i - 1].RunStarted? && ev[i - 1].session == ev[i].session)
  {
    var before := SessionEvents(attempts, n - 1);
    if i < |before| {
      StartsAreNumbered(attempts, n - 1, i);
    }
  }

  /** Each start is closed at once, by an event of its own session, and by that one alone. */
  lemma EverySessionClosesOnce(decision: Decision, attempts: seq<Attempt>, i: nat)
    requires |attempts| == MAX_ATTEMPTS && FreshSessions(attempts)
    requires i < |RunEvents(decision, attempts)| && RunEvents(decision, attempts)[i].RunStarted?
    ensures var ev := RunEvents(decision, attempts);
      && i + 1 < |ev| && Closes(ev[i + 1], ev[i].session)
      && CountClosing(ev, ev[i].session) == 1
  {
    hide SessionEvents, CountClosing;
    var n := Started(attempts, 0);
    var s := RunEvents(decision, attempts)[i].session;
    StartsAreNumbered(attempts, n, i - 2);
    PreambleCounts(decision, s);
    SessionCounts(attempts, n, s);
    CountClosingAppend([PolicySelectModel, PolicyMayProceed(decision)], SessionEvents(attempts, n), s);
  }

  /** And nothing is closed that was not just started. */
  lemma NothingElseCloses(decision: Decision, attempts: seq<Attempt>, i: nat)
    requires |attempts| == MAX_ATTEMPTS && i < |RunEvents(decision, attempts)|
    requires RunEvents(decision, attempts)[i].RunUsage? || RunEvents(decision, attempts)[i].RunUnmetered?
    ensures var ev := RunEvents(decision, attempts);
      i > 0 && ev[i - 1].RunStarted? && ev[i - 1].session == ev[i].session
  {
    StartsAreNumbered(attempts, Started(attempts, 0), i - 2);
  }

  // ── what each session's close reports ──────────────────────────────────────

  /** A close of `s` with usage: the attempt returned, or failed with the usage it had run up. */
  predicate ReportsUsage(a: Attempt, s: Session, ok: bool, u: Usage) {
    && a.session == s
    && match a.outcome
       case Returned(None) => ok && u == Usage(0, 0, 0, 0)
       case Returned(Some(used)) => ok && u == used
       case Threw(AgentRunError(_, used)) => !ok && used == Some(u)
       case Threw(_) => false
  }

  /** A close of `s` without usage: the attempt failed with none; an abort is named before the failure. */
  predicate ReportsNone(a: Attempt, s: Session, c: Cause) {
    && a.session == s && a.outcome.Threw? && !(a.outcome.error.AgentRunError? && a.outcome.error.usage.Some?)
    && c == if a.outcome.error.AgentAborted? || a.abortedWhenCaught then CauseAborted
            else if a.outcome.error.SpawnFailed? then CauseSpawnFailed
            else CauseError
  }

  lemma AttemptReports(a: Attempt, number: nat, last: bool, s: Session, ok: bool, u: Usage, c: Cause)
    ensures RunUsage(s, ok, u) in AttemptEvents(a, number, last) <==> ReportsUsage(a, s, ok, u)
    ensures RunUnmetered(s, c) in AttemptEvents(a, number, last) <==> ReportsNone(a, s, c)
  {
    var ev := AttemptEvents(a, number, last);
    assert ev[1] == Closing(a) && ev[0].RunStarted? && (|ev| == 3 ==> ev[2].RetryNotice?) && |ev| <= 3;
    assert RunUsage(s, ok, u) in ev <==> Closing(a) == RunUsage(s, ok, u);
    assert RunUnmetered(s, c) in ev <==> Closing(a) == RunUnmetered(s, c);
  }

  lemma {:induction false} SessionsReport(attempts: seq<Attempt>, n: nat, s: Session, ok: bool, u: Usage, c: Cause)
    requires n <= |attempts|
    ensures RunUsage(s, ok, u) in SessionEvents(attempts, n) <==>
              exists i :: 0 <= i < n && ReportsUsage(attempts[i], s, ok, u)
    ensures RunUnmetered(s, c) in SessionEvents(attempts, n) <==> exists i :: 0 <= i < n && ReportsNone(attempts[i], s, c)
  {
    hide AttemptEvents, ReportsUsage, ReportsNone;
    if n > 0 {
      SessionsReport(attempts, n - 1, s, ok, u, c);
      AttemptReports(attempts[n - 1], n, n == |attempts|, s, ok, u, c);
    }
  }

  /**
   The ledger holds a session's usage exactly if an attempt that was started ran that
   session up, and an unmetered close exactly if one failed without usage.
   */
  lemma LedgerReportsExactly(attempts: seq<Attempt>, s: Session, ok: bool, u: Usage, c: Cause)
    requires |attempts| == MAX_ATTEMPTS
    ensures var ev := RunEvents(Allowed, attempts);
      && (RunUsage(s, ok, u) in ev <==>
            exists i :: 0 <= i < MAX_ATTEMPTS && StartsAttempt(ev, i + 1) && ReportsUsage(attempts[i], s, ok, u))
      && (RunUnmetered(s, c) in ev <==>
            exists i :: 0 <= i < MAX_ATTEMPTS && StartsAttempt(ev, i + 1) && ReportsNone(attempts[i], s, c))
  {
    hide SessionEvents, ReportsUsage, ReportsNone, StartsAttempt;
    var n := Started(attempts, 0);
    SessionsReport(attempts, n, s, ok, u, c);
    forall number: nat { RunStarts(attempts, number); }
    var ev := RunEvents(Allowed, attempts);
    assert ev == [PolicySelectModel, PolicyMayProceed(Allowed)] + SessionEvents(attempts, n);
  }

  // ── when another attempt is started ────────────────────────────────────────

  predicate StartsAttempt(events: seq<Event>, number: nat) {
    exists i :: 0 <= i < |events| && events[i].RunStarted? && events[i].attempt == number
  }

  lemma {:induction false} StartedReaches(attempts: seq<Attempt>, from: nat, k: nat)
    requires from < |attempts| && from <= k < |attempts|
    ensures k < Started(attempts, from) <==> forall i :: from <= i < k ==> Retries(attempts[i])
    decreases |attempts| - from
  {
    if k > from && Retries(attempts[from]) {
      StartedReaches(attempts, from + 1, k);
    }
  }

  lemma {:induction false} NumberIsStarted(attempts: seq<Attempt>, n: nat, number: nat)
    requires n <= |attempts|
    ensures StartsAttempt(SessionEvents(attempts, n), number) <==> 1 <= number <= n
  {
    var ev := SessionEvents(attempts, n);
    forall i | 0 <= i < |ev| && ev[i].RunStarted? ensures 1 <= ev[i].attempt <= n {
      StartsAreNumbered(attempts, n, i);
    }
    if 1 <= number < n {
      NumberIsStarted(attempts, n - 1, number);
      var before := SessionEvents(attempts, n - 1);
      var i :| 0 <= i < |before| && before[i].RunStarted? && before[i].attempt == number;
      assert ev[i] == before[i];
    } else if number == n && n > 0 {
      assert ev[|SessionEvents(attempts, n - 1)|] == RunStarted(attempts[n - 1].session, n);
    }
  }

  lemma StartsBehind(a: seq<Event>, b: seq<Event>, number: nat)
    requires forall i :: 0 <= i < |a| ==> !a[i].RunStarted?
    ensures StartsAttempt(a + b, number) <==> StartsAttempt(b, number)
  {
    if StartsAttempt(b, number) {
      var i :| 0 <= i < |b| && b[i].RunStarted? && b[i].attempt == number;
      assert (a + b)[|a| + i] == b[i];
    }
    if StartsAttempt(a + b, number) {
      var i :| 0 <= i < |a + b| && (a + b)[i].RunStarted? && (a + b)[i].attempt == number;
      assert (a + b)[i] == b[i - |a|];
    }
  }

  lemma RunStarts(attempts: seq<Attempt>, number: nat)
    requires attempts != []
    ensures StartsAttempt(RunEvents(Allowed, attempts), number) <==> 1 <= number <= Started(attempts, 0)
  {
    var n := Started(attempts, 0);
    NumberIsStarted(attempts, n, number);
    StartsBehind([PolicySelectModel, PolicyMayProceed(Allowed)], SessionEvents(attempts, n), number);
  }

  /**
   Attempt `k + 1` starts exactly when attempt `k` did, failed with a transient
   error that was not an abort, and the signal had not fired by the time the
   failure was caught nor by the end of the wait.
   */
  lemma RetryExactlyAfterTransient(attempts: seq<Attempt>, k: nat)
    requires |attempts| == MAX_ATTEMPTS && 1 <= k < MAX_ATTEMPTS
    ensures var ev := RunEvents(Allowed, attempts);
      StartsAttempt(ev, 1) &&
      (StartsAttempt(ev, k + 1) <==>
        && StartsAttempt(ev, k)
        && attempts[k - 1].outcome.Threw? && IsTransient(attempts[k - 1].outcome.error)
        && !attempts[k - 1].abortedWhenCaught && !attempts[k - 1].abortedAfterWait)
  {
    RunStarts(attempts, 1);
    RunStarts(attempts, k);
    RunStarts(attempts, k + 1);
    StartedReaches(attempts, 0, k);
    StartedReaches(attempts, 0, k - 1);
  }

  /** The run's result is that of the last session started; giving up at the fourth throws that attempt's own error. */
  lemma ResultIsTheLastAttempt(attempts: seq<Attempt>)
    requires |attempts| == MAX_ATTEMPTS
    ensures var n := Started(attempts, 0); var a := attempts[n - 1]; var r := RunResult(Allowed, attempts);
      && (r.Finished? <==> exists i :: 0 <= i < n && attempts[i].outcome.Returned?)
      && (r.Finished? ==> r.session == a.session)
      && (r == Rejected(AgentAborted) || r.Finished? || (a.outcome.Threw? && r == Rejected(a.outcome.error)))
      && (r == Rejected(AgentAborted) ==>
            a.outcome == Threw(AgentAborted) || (a.abortedAfterWait && IsTransient(a.outcome.error) && n < MAX_ATTEMPTS))
  {
    var n := Started(attempts, 0);
    StartedReaches(attempts, 0, n - 1);
    assert forall i :: 0 <= i < n - 1 ==> Retries(attempts[i]);
    if n < MAX_ATTEMPTS {
      StartedReaches(attempts, 0, n);
    }
  }
}
