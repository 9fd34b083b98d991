/**
 `stopOrphanedAgents` of src/agents/agent-procs.ts: which processes a starting
 worker kills for the agents a dead worker left, and which records it drops.
 */
module OrphanAgents {

  import opened Prelude

  const START_SLACK_MS := 2000

  /** One agent's record; `startedAt` is none where its date does not parse. */
  datatype Record = Record(pid: int, workerPid: int, startedAt: Option<int>)

  datatype Proc = Proc(pgid: int, startMs: int)

  type Table = map<int, Proc>

  /** What the scan reads: the process table, this process, and which pids are live workers. */
  datatype Context = Context(table: Table, ownPid: int, isWorkerLive: int -> bool)

  datatype Kill = Group(g: int) | Single(p: int)

  datatype Orphan = Orphan(rec: Record, stopped: bool, killed: set<int>)

  // ── reading the table ──────────────────────────────────────────────────────

  /** A record from before the last boot, or without a readable date. */
  predicate PreBoot(rec: Record, bootMs: int) {
    rec.startedAt.None? || rec.startedAt.value <= bootMs
  }

  predicate StartedBy(p: Proc, rec: Record) {
    rec.startedAt.Some? && p.startMs <= rec.startedAt.value + START_SLACK_MS
  }

  function Members(table: Table, g: int): set<int> {
    set p | p in table && table[p].pgid == g
  }

  function OwnGroup(ctx: Context): Option<int> {
    if ctx.ownPid in ctx.table then Some(ctx.table[ctx.ownPid].pgid) else None
  }

  predicate WorkerLive(ctx: Context, rec: Record) {
    && rec.workerPid in ctx.table && rec.workerPid != ctx.ownPid
    && StartedBy(ctx.table[rec.workerPid], rec) && ctx.isWorkerLive(rec.workerPid)
  }

  /** The record's worker is gone, and its pid is not known to belong to something newer. */
  predicate Orphaned(ctx: Context, rec: Record) {
    !WorkerLive(ctx, rec) && (rec.pid in ctx.table ==> StartedBy(ctx.table[rec.pid], rec))
  }

  /** A running group, not this process's own, whose leader is not newer than the record. */
  predicate Eligible(ctx: Context, rec: Record, g: int) {
    && OwnGroup(ctx) != Some(g) && Members(ctx.table, g) != {}
    && (g == rec.pid || g !in ctx.table || StartedBy(ctx.table[g], rec))
  }

  /** The record calls for this group to be killed. */
  predicate Claims(ctx: Context, rec: Record, g: int) {
    Orphaned(ctx, rec) && (g == rec.pid || g == rec.workerPid) && Eligible(ctx, rec, g)
  }

  /** A live agent that leads no group: it is killed by itself. */
  predicate Alone(ctx: Context, rec: Record) {
    Orphaned(ctx, rec) && rec.pid in ctx.table && Members(ctx.table, rec.pid) == {}
  }

  // ── the scan ───────────────────────────────────────────────────────────────

  datatype Scan = Scan(kills: seq<Kill>, signalled: set<int>, lone: set<int>, found: seq<Orphan>)

  /** `[rec.pid, rec.workerPid].filter(…)` */
  function GroupsOf(ctx: Context, rec: Record, signalled: set<int>): seq<int> {
    (if rec.pid !in signalled && Eligible(ctx, rec, rec.pid) then [rec.pid] else [])
    + if rec.workerPid !in signalled && Eligible(ctx, rec, rec.workerPid) then [rec.workerPid] else []
  }

  function GroupKills(groups: seq<int>): seq<Kill> {
    seq(|groups|, i requires 0 <= i < |groups| => Group(groups[i]))
  }

  function AllMembers(table: Table, groups: seq<int>): set<int> {
    set p | p in table && table[p].pgid in groups
  }

  function Visit(ctx: Context, s: Scan, rec: Record): Scan {
    if !Orphaned(ctx, rec) then s
    else
      var groups := GroupsOf(ctx, rec, s.signalled);
      var alone := if Alone(ctx, rec) then [rec.pid] else [];
      if groups == [] && alone == [] then
        if rec.pid in ctx.table then s else s.(found := s.found + [Orphan(rec, false, {})])
      else
        Scan(
          s.kills + GroupKills(groups) + (if Alone(ctx, rec) then [Single(rec.pid)] else []),
          s.signalled + (set g | g in groups),
          s.lone + (set p | p in alone),
          s.found + [Orphan(rec, true, (set p | p in alone) + AllMembers(ctx.table, groups))])
  }

  function ScanOf(ctx: Context, records: seq<Record>): Scan {
    if records == [] then Scan([], {}, {}, [])
    else Visit(ctx, ScanOf(ctx, records[..|records| - 1]), records[|records| - 1])
  }

  // ── what is killed ─────────────────────────────────────────────────────────

  lemma VisitSignals(ctx: Context, s: Scan, rec: Record, g: int)
    ensures g in Visit(ctx, s, rec).signalled <==> g in s.signalled || Claims(ctx, rec, g)
    ensures g in Visit(ctx, s, rec).lone <==> g in s.lone || (g == rec.pid && Alone(ctx, rec))
  {
  }

  /** The groups killed are exactly those an orphaned record claims, and the lone agents likewise. */
  lemma {:induction false} SignalledExactly(ctx: Context, records: seq<Record>, g: int)
    ensures g in ScanOf(ctx, records).signalled <==> exists i :: 0 <= i < |records| && Claims(ctx, records[i], g)
    ensures g in ScanOf(ctx, records).lone <==> exists i :: 0 <= i < |records| && records[i].pid == g && Alone(ctx, records[i])
  {
    if records != [] {
      var rest, rec := records[..|records| - 1], records[|records| - 1];
      SignalledExactly(ctx, rest, g);
      VisitSignals(ctx, ScanOf(ctx, rest), rec, g);
      assert forall i :: 0 <= i < |rest| ==> rest[i] == records[i];
    }
  }

  lemma {:induction false} KillsAreSignalled(ctx: Context, records: seq<Record>, g: int)
    ensures Group(g) in ScanOf(ctx, records).kills <==> g in ScanOf(ctx, records).signalled
    ensures Single(g) in ScanOf(ctx, records).kills <==> g in ScanOf(ctx, records).lone
  {
    if records != [] {
      var rest, rec := records[..|records| - 1], records[|records| - 1];
      KillsAreSignalled(ctx, rest, g);
      VisitKills(ctx, ScanOf(ctx, rest), rec, g);
    }
  }

  lemma VisitKills(ctx: Context, s: Scan, rec: Record, g: int)
    requires Group(g) in s.kills <==> g in s.signalled
    requires Single(g) in s.kills <==> g in s.lone
    ensures var t := Visit(ctx, s, rec);
      (Group(g) in t.kills <==> g in t.signalled) && (Single(g) in t.kills <==> g in t.lone)
  {
    var groups := GroupsOf(ctx, rec, s.signalled);
    var k := GroupKills(groups);
    assert forall i :: 0 <= i < |groups| ==> k[i] == Group(groups[i]);
    if g in groups {
      var i :| 0 <= i < |groups| && groups[i] == g;
      assert k[i] in k;
    }
  }

  /**
   Every group killed is not this process's own and holds none of it, is named by a
   record whose worker is not live, and has no leader newer than the record's time
   and the slack.
   */
  lemma GroupsKilledAreOrphans(ctx: Context, records: seq<Record>, g: int)
    requires Group(g) in ScanOf(ctx, records).kills
    ensures OwnGroup(ctx) != Some(g) && ctx.ownPid !in Members(ctx.table, g) && Members(ctx.table, g) != {}
    ensures exists rec ::
      && rec in records && (g == rec.pid || g == rec.workerPid) && !WorkerLive(ctx, rec)
      && (g in ctx.table ==> rec.startedAt.Some? && ctx.table[g].startMs <= rec.startedAt.value + START_SLACK_MS)
  {
    KillsAreSignalled(ctx, records, g);
    SignalledExactly(ctx, records, g);
    var i :| 0 <= i < |records| && Claims(ctx, records[i], g);
    assert records[i] in records;
  }

  /**
   When a group is killed, and when an agent by itself, read off the table: a record
   names it whose worker is not live, and whose own pid is free or not taken by a newer
   process. Only groups with members are killed, never this process's own, and the
   worker's group only while its leader is gone or no newer than the record.
   */
  lemma KilledExactly(ctx: Context, records: seq<Record>, g: int)
    ensures Group(g) in ScanOf(ctx, records).kills <==>
              exists rec :: rec in records && IsLeftBehind(ctx, rec) && NamesGroup(ctx, rec, g)
    ensures Single(g) in ScanOf(ctx, records).kills <==>
              exists rec :: rec in records && IsLeftBehind(ctx, rec) && g == rec.pid && g in ctx.table && IsEmptyGroup(ctx.table, g)
  {
    KillsAreSignalled(ctx, records, g);
    SignalledExactly(ctx, records, g);
    forall rec ensures Claims(ctx, rec, g) <==> IsLeftBehind(ctx, rec) && NamesGroup(ctx, rec, g) {
      NoMembers(ctx.table, g);
    }
    forall rec ensures Alone(ctx, rec) <==> IsLeftBehind(ctx, rec) && rec.pid in ctx.table && IsEmptyGroup(ctx.table, rec.pid) {
      NoMembers(ctx.table, rec.pid);
    }
    assert forall i :: 0 <= i < |records| ==> records[i] in records;
  }

  predicate IsEmptyGroup(table: Table, g: int) {
    forall p :: p in table ==> table[p].pgid != g
  }

  lemma NoMembers(table: Table, g: int)
    ensures Members(table, g) == {} <==> IsEmptyGroup(table, g)
  {
    if p :| p in table && table[p].pgid == g {
      assert p in Members(table, g);
    } else {
      assert forall p :: p !in Members(table, g);
    }
  }

  /** The record's own group or its worker's, with members, not this process's, and not led by a newer process. */
  predicate NamesGroup(ctx: Context, rec: Record, g: int) {
    && (g == rec.pid || g == rec.workerPid) && !IsEmptyGroup(ctx.table, g)
    && !(ctx.ownPid in ctx.table && ctx.table[ctx.ownPid].pgid == g)
    && (g == rec.pid || g !in ctx.table || IsNoNewer(ctx.table[g].startMs, rec.startedAt))
  }

  /** A process that started no later than two seconds behind a date that can be read. */
  predicate IsNoNewer(startMs: int, date: Option<int>) {
    date.Some? && startMs <= date.value + 2000
  }

  /** No live worker stands behind the record, and no newer process has its pid. */
  predicate IsLeftBehind(ctx: Context, rec: Record) {
    && (rec.workerPid in ctx.table && rec.workerPid != ctx.ownPid && ctx.isWorkerLive(rec.workerPid) ==>
          !IsNoNewer(ctx.table[rec.workerPid].startMs, rec.startedAt))
    && (rec.pid in ctx.table ==> IsNoNewer(ctx.table[rec.pid].startMs, rec.startedAt))
  }

  /** What one record adds to the kills: its own group, then its worker's, neither of them again, then its agent alone. */
  lemma RecordKillsInOrder(ctx: Context, s: Scan, rec: Record)
    ensures Visit(ctx, s, rec).kills == s.kills
      + (if IsLeftBehind(ctx, rec) && rec.pid !in s.signalled && NamesGroup(ctx, rec, rec.pid) then [Group(rec.pid)] else [])
      + (if IsLeftBehind(ctx, rec) && rec.workerPid !in s.signalled && NamesGroup(ctx, rec, rec.workerPid)
         then [Group(rec.workerPid)] else [])
      + (if IsLeftBehind(ctx, rec) && rec.pid in ctx.table && IsEmptyGroup(ctx.table, rec.pid) then [Single(rec.pid)] else [])
  {
    NoMembers(ctx.table, rec.pid);
    NoMembers(ctx.table, rec.workerPid);
  }

  /** A record left behind whose agent is gone is always reported, and with it dropped. */
  lemma {:induction false} ExitedAreReported(ctx: Context, records: seq<Record>, rec: Record)
    requires rec in records && IsLeftBehind(ctx, rec) && rec.pid !in ctx.table
    ensures exists k :: 0 <= k < |ScanOf(ctx, records).found| && ScanOf(ctx, records).found[k].rec == rec
  {
    var rest, last := records[..|records| - 1], records[|records| - 1];
    var s, t := ScanOf(ctx, rest), ScanOf(ctx, records);
    if rec in rest {
      ExitedAreReported(ctx, rest, rec);
      var k :| 0 <= k < |s.found| && s.found[k].rec == rec;
      assert t.found[k] == s.found[k];
    } else {
      assert rec == last && Orphaned(ctx, rec);
      assert t.found[|s.found|].rec == rec;
    }
  }

  /** Nothing of an orphan is missed: its running group is killed, or it is killed by itself, unless it is in this process's own group. */
  lemma OrphansAreKilled(ctx: Context, records: seq<Record>, rec: Record)
    requires rec in records && Orphaned(ctx, rec) && rec.pid in ctx.table && OwnGroup(ctx) != Some(rec.pid)
    ensures Group(rec.pid) in ScanOf(ctx, records).kills || Single(rec.pid) in ScanOf(ctx, records).kills
  {
    KillsAreSignalled(ctx, records, rec.pid);
    SignalledExactly(ctx, records, rec.pid);
    var i :| 0 <= i < |records| && records[i] == rec;
    assert Claims(ctx, records[i], rec.pid) || Alone(ctx, records[i]);
  }

  /** The lone kill does not look at this process: it is spared exactly when no such record carries its pid. */
  lemma OwnProcessIsSparedExactly(ctx: Context, records: seq<Record>)
    ensures Single(ctx.ownPid) in ScanOf(ctx, records).kills
       <==> exists i :: 0 <= i < |records| && records[i].pid == ctx.ownPid && Alone(ctx, records[i])
  {
    KillsAreSignalled(ctx, records, ctx.ownPid);
    SignalledExactly(ctx, records, ctx.ownPid);
  }

  // ── killed once ────────────────────────────────────────────────────────────

  predicate GroupsOnce(kills: seq<Kill>) {
    forall i, j :: 0 <= i < j < |kills| && kills[i].Group? && kills[j].Group? ==> kills[i].g != kills[j].g
  }

  /** A record that names itself as its worker, and is the first to claim that group. */
  predicate FirstClaimIsTwin(ctx: Context, records: seq<Record>, n: nat)
    requires n < |records|
  {
    && records[n].pid == records[n].workerPid && Claims(ctx, records[n], records[n].pid)
    && forall i :: 0 <= i < n ==> !Claims(ctx, records[i], records[n].pid)
  }

  lemma VisitOnce(ctx: Context, s: Scan, rec: Record)
    requires forall g :: Group(g) in s.kills <==> g in s.signalled
    requires GroupsOnce(s.kills)
    ensures GroupsOnce(Visit(ctx, s, rec).kills)
       <==> !(rec.pid == rec.workerPid && Claims(ctx, rec, rec.pid) && rec.pid !in s.signalled)
  {
    var t := Visit(ctx, s, rec);
    var groups := GroupsOf(ctx, rec, s.signalled);
    var k := GroupKills(groups);
    var n := |s.kills|;
    assert forall i :: 0 <= i < n && s.kills[i].Group? ==> s.kills[i] in s.kills && s.kills[i].g in s.signalled;
    assert forall i :: 0 <= i < |groups| ==> k[i] == Group(groups[i]) && groups[i] !in s.signalled;
    if Orphaned(ctx, rec) && |groups| > 0 {
      assert t.kills[n] == k[0];
      assert |groups| == 2 ==> t.kills[n + 1] == k[1];
      assert forall i :: 0 <= i < n ==> t.kills[i] == s.kills[i];
      assert forall i :: n + |groups| <= i < |t.kills| ==> t.kills[i].Single?;
    }
  }

  lemma {:induction false} PrefixKills(ctx: Context, records: seq<Record>)
    ensures records != [] ==>
      |ScanOf(ctx, records[..|records| - 1]).kills| <= |ScanOf(ctx, records).kills|
      && ScanOf(ctx, records).kills[..|ScanOf(ctx, records[..|records| - 1]).kills|] == ScanOf(ctx, records[..|records| - 1]).kills
  {
  }

  /** No group is killed twice, exactly when no group is first claimed by a record that is its own worker. */
  lemma {:induction false} GroupsAreKilledOnceExactly(ctx: Context, records: seq<Record>)
    ensures GroupsOnce(ScanOf(ctx, records).kills) <==> forall n :: 0 <= n < |records| ==> !FirstClaimIsTwin(ctx, records, n)
  {
    if records != [] {
      var last := |records| - 1;
      var rest, rec := records[..last], records[last];
      GroupsAreKilledOnceExactly(ctx, rest);
      var s := ScanOf(ctx, rest);
      forall g ensures Group(g) in s.kills <==> g in s.signalled {
        KillsAreSignalled(ctx, rest, g);
      }
      forall n | 0 <= n < last ensures FirstClaimIsTwin(ctx, rest, n) <==> FirstClaimIsTwin(ctx, records, n) {
        assert rest[n] == records[n];
        assert forall i :: 0 <= i < n ==> rest[i] == records[i];
      }
      SignalledExactly(ctx, rest, rec.pid);
      assert forall i :: 0 <= i < last ==> rest[i] == records[i];
      assert FirstClaimIsTwin(ctx, records, last)
        <==> rec.pid == rec.workerPid && Claims(ctx, rec, rec.pid) && rec.pid !in s.signalled;
      if GroupsOnce(s.kills) {
        VisitOnce(ctx, s, rec);
      } else {
        PrefixKills(ctx, records);
        TwiceStays(s.kills, ScanOf(ctx, records).kills);
      }
    }
  }

  lemma TwiceStays(a: seq<Kill>, b: seq<Kill>)
    requires |a| <= |b| && b[..|a|] == a && !GroupsOnce(a)
    ensures !GroupsOnce(b)
  {
    var i, j :| 0 <= i < j < |a| && a[i].Group? && a[j].Group? && a[i].g == a[j].g;
    assert b[i] == a[i] && b[j] == a[j];
  }

  // ── an input for each exception ────────────────────────────────────────────

  /** The scan of a single record. */
  lemma ScanOfOne(ctx: Context, rec: Record)
    ensures ScanOf(ctx, [rec]) == Visit(ctx, Scan([], {}, {}, []), rec)
  {
    assert [rec][..0] == [];
  }

  /** A record that is its own worker, whose group 5 is running: the group is killed twice. */
  lemma TwinRecordIsKilledTwice(isWorkerLive: int -> bool)
    requires !isWorkerLive(5)
    ensures ScanOf(Context(map[5 := Proc(5, 0)], 1, isWorkerLive), [Record(5, 5, Some(0))]).kills == [Group(5), Group(5)]
  {
    var ctx, rec := Context(map[5 := Proc(5, 0)], 1, isWorkerLive), Record(5, 5, Some(0));
    ScanOfOne(ctx, rec);
    assert 5 in Members(ctx.table, 5);
    assert GroupsOf(ctx, rec, {}) == [5, 5];
  }

  /**
   A dead agent's pid reused by this process, which leads no group and started
   within the slack of the record: this process is killed.
   */
  lemma ReusedPidKillsOwnProcess(isWorkerLive: int -> bool)
    ensures ScanOf(Context(map[7 := Proc(3, START_SLACK_MS)], 7, isWorkerLive), [Record(7, 9, Some(0))]).kills == [Single(7)]
  {
    var ctx, rec := Context(map[7 := Proc(3, START_SLACK_MS)], 7, isWorkerLive), Record(7, 9, Some(0));
    ScanOfOne(ctx, rec);
    assert Members(ctx.table, 7) == {} && Members(ctx.table, 9) == {};
    assert GroupsOf(ctx, rec, {}) == [];
  }

  // ── what is reported ───────────────────────────────────────────────────────

  /** A report is sound: its record orphaned, its kills the record's, and nothing left under the pid of one that exited. */
  predicate IsSound(ctx: Context, o: Orphan) {
    && Orphaned(ctx, o.rec)
    && (o.stopped <==> o.killed != {})
    && (!o.stopped ==> o.rec.pid !in ctx.table)
    && (forall p :: p in o.killed ==>
          p in ctx.table && (p == o.rec.pid || ctx.table[p].pgid == o.rec.pid || ctx.table[p].pgid == o.rec.workerPid))
  }

  lemma VisitReports(ctx: Context, s: Scan, rec: Record)
    ensures var t := Visit(ctx, s, rec);
      t.found == s.found || (exists o :: t.found == s.found + [o] && o.rec == rec && IsSound(ctx, o))
  {
    var t := Visit(ctx, s, rec);
    var groups := GroupsOf(ctx, rec, s.signalled);
    if t.found != s.found {
      var o := t.found[|s.found|];
      assert t.found == s.found + [o] && o.rec == rec;
      assert groups != [] ==> Eligible(ctx, rec, groups[0]);
      assert groups != [] ==> Members(ctx.table, groups[0]) <= AllMembers(ctx.table, groups);
      assert Alone(ctx, rec) ==> rec.pid in o.killed;
      assert IsSound(ctx, o);
    }
  }

  /** Each report is of an orphaned record; one reported as exited left nothing running under its pid. */
  lemma {:induction false} FoundAreOrphans(ctx: Context, records: seq<Record>, k: nat)
    requires k < |ScanOf(ctx, records).found|
    ensures ScanOf(ctx, records).found[k].rec in records && IsSound(ctx, ScanOf(ctx, records).found[k])
  {
    hide Visit, IsSound;
    var rest, rec := records[..|records| - 1], records[|records| - 1];
    var s := ScanOf(ctx, rest);
    VisitReports(ctx, s, rec);
    assert forall r :: r in rest ==> r in records;
    assert rec in records;
    if k < |s.found| {
      FoundAreOrphans(ctx, rest, k);
    }
  }

  predicate IsReported(found: seq<Orphan>, p: int) {
    exists k :: 0 <= k < |found| && p in found[k].killed
  }

  lemma ReportedOneMore(found: seq<Orphan>, o: Orphan, p: int)
    ensures IsReported(found + [o], p) <==> IsReported(found, p) || p in o.killed
  {
    var all := found + [o];
    if IsReported(found, p) {
      var k :| 0 <= k < |found| && p in found[k].killed;
      assert p in all[k].killed;
    }
    assert all[|found|] == o;
  }

  /** Every pid of a killed group, and every lone agent killed, is in some report. */
  lemma {:induction false} EveryKillIsReported(ctx: Context, records: seq<Record>, p: int)
    requires p in ctx.table
    requires ctx.table[p].pgid in ScanOf(ctx, records).signalled || p in ScanOf(ctx, records).lone
    ensures IsReported(ScanOf(ctx, records).found, p)
  {
    var rest, rec := records[..|records| - 1], records[|records| - 1];
    var s, t := ScanOf(ctx, rest), ScanOf(ctx, records);
    if ctx.table[p].pgid in s.signalled || p in s.lone {
      EveryKillIsReported(ctx, rest, p);
    }
    if t.found != s.found {
      ReportedOneMore(s.found, t.found[|s.found|], p);
      assert t.found == s.found + [t.found[|s.found|]];
    }
  }

  // ── stopOrphanedAgents ─────────────────────────────────────────────────────

  function SinceBoot(records: seq<Record>, bootMs: int): seq<Record> {
    if records == [] then []
    else
      var rec := records[|records| - 1];
      SinceBoot(records[..|records| - 1], bootMs) + if PreBoot(rec, bootMs) then [] else [rec]
  }

  /** The records left when those of the given pids are dropped. */
  function Without(records: seq<Record>, pids: set<int>): seq<Record> {
    if records == [] then []
    else
      var rec := records[|records| - 1];
      Without(records[..|records| - 1], pids) + if rec.pid in pids then [] else [rec]
  }

  function PidsOf(records: seq<Record>): set<int> {
    set i | 0 <= i < |records| :: records[i].pid
  }

  function FoundPids(found: seq<Orphan>): set<int> {
    set i | 0 <= i < |found| :: found[i].rec.pid
  }

  lemma PidsAreAll(records: seq<Record>)
    ensures forall p :: p in PidsOf(records) <==> exists rec :: rec in records && rec.pid == p
  {
    forall rec | rec in records ensures rec.pid in PidsOf(records) {
      var i :| 0 <= i < |records| && records[i] == rec;
    }
  }

  /** Exactly the records of the reported pids are dropped. */
  lemma ReportedAreDropped(records: seq<Record>, found: seq<Orphan>)
    ensures forall rec :: rec in Without(records, FoundPids(found))
                     <==> rec in records && forall o :: o in found ==> o.rec.pid != rec.pid
  {
    forall rec ensures rec in Without(records, FoundPids(found)) <==> rec in records && rec.pid !in FoundPids(found) {
      WithoutExactly(records, FoundPids(found), rec);
    }
    forall o | o in found ensures o.rec.pid in FoundPids(found) {
      var k :| 0 <= k < |found| && found[k] == o;
    }
  }

  datatype Outcome = Reported(found: seq<Orphan>) | OrphanAgentAlive(pids: set<int>)

  /** The agents directory, and the signals sent from it. */
  class AgentsDir {
    var records: seq<Record>
    var kills: seq<Kill>

    constructor (listing: seq<Record>)
      ensures records == listing && kills == []
    {
      records, kills := listing, [];
    }

    /** Drops every record from before the boot. */
    method DropPreBoot(bootMs: int)
      modifies this`records
      ensures records == SinceBoot(old(records), bootMs)
    {
      var kept := [];
      for i := 0 to |records|
        invariant records == old(records)
        invariant kept == SinceBoot(records[..i], bootMs)
      {
        assert records[..i + 1][..i] == records[..i];
        if !PreBoot(records[i], bootMs) {
          kept := kept + [records[i]];
        }
      }
      assert records[..|records|] == records;
      records := kept;
    }

    /** Signals a record's groups, then the agent itself where it leads none. */
    method KillFor(ctx: Context, rec: Record, groups: seq<int>, alone: bool)
      modifies this`kills
      ensures kills == old(kills) + GroupKills(groups) + if alone then [Single(rec.pid)] else []
    {
      for i := 0 to |groups|
        invariant kills == old(kills) + GroupKills(groups[..i])
      {
        assert GroupKills(groups[..i + 1]) == GroupKills(groups[..i]) + [Group(groups[i])];
        kills := kills + [Group(groups[i])];
      }
      assert groups[..|groups|] == groups;
      if alone {
        kills := kills + [Single(rec.pid)];
      }
    }

    method VisitRecord(ctx: Context, rec: Record, signalled: set<int>, lone: set<int>, found: seq<Orphan>)
      returns (signalled': set<int>, lone': set<int>, found': seq<Orphan>)
      modifies this`kills
      ensures Scan(kills, signalled', lone', found') == Visit(ctx, Scan(old(kills), signalled, lone, found), rec)
    {
      signalled', lone', found' := signalled, lone, found;
      if WorkerLive(ctx, rec) {
        return;
      }
      if rec.pid in ctx.table && !StartedBy(ctx.table[rec.pid], rec) {
        return;
      }
      var groups := GroupsOf(ctx, rec, signalled);
      var alone := rec.pid in ctx.table && Members(ctx.table, rec.pid) == {};
      if groups == [] && !alone {
        if rec.pid !in ctx.table {
          found' := found + [Orphan(rec, false, {})];
        }
        return;
      }
      KillFor(ctx, rec, groups, alone);
      signalled' := signalled + set g | g in groups;
      var single := if alone then [rec.pid] else [];
      lone' := lone + set p | p in single;
      found' := found + [Orphan(rec, true, (set p | p in single) + AllMembers(ctx.table, groups))];
    }

    method ScanRecords(ctx: Context) returns (signalled: set<int>, lone: set<int>, found: seq<Orphan>)
      requires kills == []
      modifies this`kills
      ensures Scan(kills, signalled, lone, found) == ScanOf(ctx, records)
    {
      signalled, lone, found := {}, {}, [];
      for i := 0 to |records|
        invariant Scan(kills, signalled, lone, found) == ScanOf(ctx, records[..i])
      {
        assert records[..i + 1][..i] == records[..i];
        signalled, lone, found := VisitRecord(ctx, records[i], signalled, lone, found);
      }
      assert records[..|records|] == records;
    }

    /**
     `survives` says which kills are still alive when the waiting is over. Only a
     normal return drops the records it reports; an error keeps all but those from
     before the boot.
     */
    method StopOrphanedAgents(bootMs: int, windows: bool, table: Option<Table>, ownPid: int,
        isWorkerLive: int -> bool, survives: Kill -> bool) returns (r: Outcome)
      requires kills == []
      modifies this
      ensures var since := SinceBoot(old(records), bootMs);
        if since == [] || windows then r == Reported([]) && records == since && kills == []
        else if table.None? then
          && r == OrphanAgentAlive(PidsOf(since)) && records == since && kills == []
          && forall p :: p in r.pids <==> exists rec :: rec in since && rec.pid == p
        else
          var scan := ScanOf(Context(table.value, ownPid, isWorkerLive), since);
          && kills == scan.kills
          && match r
             case OrphanAgentAlive(pids) => pids != {} && pids == Survivors(scan, survives) && records == since
                                            && forall p :: p in pids <==> StillThere(scan.kills, survives, p)
             case Reported(found) =>
               && Survivors(scan, survives) == {} && found == scan.found
               && (forall p :: !StillThere(scan.kills, survives, p))
               && records == Without(since, FoundPids(found))
               && forall rec :: rec in records <==> rec in since && forall o :: o in found ==> o.rec.pid != rec.pid
    {
      DropPreBoot(bootMs);
      if records == [] || windows {
        return Reported([]);
      }
      if table.None? {
        PidsAreAll(records);
        return OrphanAgentAlive(PidsOf(records));
      }
      var signalled, lone, found := ScanRecords(Context(table.value, ownPid, isWorkerLive));
      var survivors := Survivors(Scan(kills, signalled, lone, found), survives);
      SurvivorsAreStillThere(Context(table.value, ownPid, isWorkerLive), records, survives);
      if survivors != {} {
        return OrphanAgentAlive(survivors);
      }
      ReportedAreDropped(records, found);
      records := Without(records, FoundPids(found));
      return Reported(found);
    }
  }

  /** A group or an agent that was killed and lives on. */
  predicate StillThere(kills: seq<Kill>, survives: Kill -> bool, p: int) {
    (Group(p) in kills && survives(Group(p))) || (Single(p) in kills && survives(Single(p)))
  }

  lemma SurvivorsAreStillThere(ctx: Context, records: seq<Record>, survives: Kill -> bool)
    ensures var scan := ScanOf(ctx, records);
      forall p :: p in Survivors(scan, survives) <==> StillThere(scan.kills, survives, p)
  {
    forall p { KillsAreSignalled(ctx, records, p); }
  }

  function Survivors(s: Scan, survives: Kill -> bool): set<int> {
    (set g | g in s.signalled && survives(Group(g))) + set p | p in s.lone && survives(Single(p))
  }

  lemma {:induction false} WithoutExactly(records: seq<Record>, pids: set<int>, rec: Record)
    ensures rec in Without(records, pids) <==> rec in records && rec.pid !in pids
  {
    if records != [] {
      WithoutExactly(records[..|records| - 1], pids, rec);
      assert records == records[..|records| - 1] + [records[|records| - 1]];
    }
  }

  lemma {:induction false} SinceBootExactly(records: seq<Record>, bootMs: int, rec: Record)
    ensures rec in SinceBoot(records, bootMs) <==> rec in records && rec.startedAt.Some? && rec.startedAt.value > bootMs
  {
    if records != [] {
      SinceBootExactly(records[..|records| - 1], bootMs, rec);
      assert records == records[..|records| - 1] + [records[|records| - 1]];
    }
  }
}
