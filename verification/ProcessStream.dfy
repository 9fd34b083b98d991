/**
 The process diff and the state banner of `PhalakaChangeStream`
 (src/phalaka/stream.ts): what each connected client's panel shows, against what
 the stream last saw. Sinks accept every frame.
 */
module ProcessStream {
  import opened Prelude

  /** `ProcessSnapshot`; `stuck` is its JSON, and `rest` the fields that tick every poll. */
  datatype Snapshot = Snapshot(kind: string, kshetraId: Option<string>, pid: int, status: string, phase: Option<string>,
                               paused: bool, stuck: Option<string>, rest: string)

  datatype Frame = Process(snap: Snapshot) | State(state: string) | Keepalive

  /** `keyOf`: one slot per kind and Kshetra. */
  function KeyOf(s: Snapshot): string {
    s.kind + ":" + s.kshetraId.GetOr("")
  }

  /** The negation of `processChanged`. */
  predicate Same(a: Snapshot, b: Snapshot) {
    a.status == b.status && a.phase == b.phase && a.paused == b.paused && a.pid == b.pid && a.stuck == b.stuck
  }

  // ── a client's panel ───────────────────────────────────────────────────────

  /** The client upserts each `process` frame by its key. */
  function Upsert(view: map<string, Snapshot>, frames: seq<Frame>): map<string, Snapshot> {
    if frames == [] then view
    else
      var before := Upsert(view, frames[..|frames| - 1]);
      var f := frames[|frames| - 1];
      if f.Process? then before[KeyOf(f.snap) := f.snap] else before
  }

  /** The last `state` frame, if any. */
  function Banner(frames: seq<Frame>): Option<string> {
    if frames == [] then None
    else
      var f := frames[|frames| - 1];
      if f.State? then Some(f.state) else Banner(frames[..|frames| - 1])
  }

  lemma {:induction false} UpsertAppend(view: map<string, Snapshot>, a: seq<Frame>, b: seq<Frame>)
    ensures Upsert(view, a + b) == Upsert(Upsert(view, a), b)
  {
    if b == [] {
      assert a + b == a;
    } else {
      UpsertAppend(view, a, b[..|b| - 1]);
      assert (a + b)[..|a + b| - 1] == a + b[..|b| - 1];
    }
  }

  lemma {:induction false} BannerAppend(a: seq<Frame>, b: seq<Frame>)
    ensures Banner(a + b) == if Banner(b).Some? then Banner(b) else Banner(a)
  {
    if b == [] {
      assert a + b == a;
    } else {
      BannerAppend(a, b[..|b| - 1]);
      assert (a + b)[..|a + b| - 1] == a + b[..|b| - 1];
    }
  }

  /** Every live slot shows as it is, the fields that tick every poll aside, and every vanished one as dead. */
  ghost predicate Agrees(view: map<string, Snapshot>, last: map<string, Snapshot>) {
    && (forall k :: k in last ==>
          && k in view && view[k].status == last[k].status && view[k].phase == last[k].phase
          && view[k].paused == last[k].paused && view[k].pid == last[k].pid && view[k].stuck == last[k].stuck)
    && (forall k :: k in view && k !in last ==> view[k].status == "dead")
  }

  /** Two snapshots fill one slot exactly if they are of one kind and one Kshetra. */
  lemma SlotIsKindAndKshetra(a: Snapshot, b: Snapshot)
    requires ':' !in a.kind && ':' !in b.kind
    ensures KeyOf(a) == KeyOf(b) <==> a.kind == b.kind && a.kshetraId.GetOr("") == b.kshetraId.GetOr("")
  {
    if KeyOf(a) == KeyOf(b) {
      FirstColon(a.kind, b.kind, a.kshetraId.GetOr(""), b.kshetraId.GetOr(""));
    }
  }

  lemma {:induction false} FirstColon(a: string, b: string, x: string, y: string)
    requires ':' !in a && ':' !in b && a + ":" + x == b + ":" + y
    ensures a == b && x == y
  {
    var s := a + ":" + x;
    assert s[|a|] == ':' && s[|b|] == ':';
    assert forall i :: 0 <= i < |a| ==> s[i] == a[i];
    assert forall i :: 0 <= i < |b| ==> s[i] == b[i];
    assert a == s[..|a|] && b == s[..|b|];
    assert x == s[|a| + 1..] && y == s[|b| + 1..];
  }

  // ── one poll ───────────────────────────────────────────────────────────────

  /** `last` once the first loop has run over the snapshots. */
  function Recorded(last: map<string, Snapshot>, snaps: seq<Snapshot>): map<string, Snapshot> {
    if snaps == [] then last
    else
      var s := snaps[|snaps| - 1];
      Recorded(last, snaps[..|snaps| - 1])[KeyOf(s) := s]
  }

  /** The frames the first loop broadcasts: slots that are new or changed. */
  function ChangeFrames(last: map<string, Snapshot>, snaps: seq<Snapshot>): seq<Frame> {
    if snaps == [] then []
    else
      var s := snaps[|snaps| - 1];
      var before := Recorded(last, snaps[..|snaps| - 1]);
      ChangeFrames(last, snaps[..|snaps| - 1])
      + if KeyOf(s) in before && Same(before[KeyOf(s)], s) then [] else [Process(s)]
  }

  function Slots(snaps: seq<Snapshot>): set<string> {
    set s | s in snaps :: KeyOf(s)
  }

  /** The frames for the vanished slots, in some order: one `dead` for each not already shown so. */
  ghost predicate AreGoodbyes(gone: seq<Frame>, slots: map<string, Snapshot>) {
    && (forall f :: f in gone ==> f.Process? && KeyOf(f.snap) in slots
                                  && f.snap == slots[KeyOf(f.snap)].(status := "dead"))
    && (forall k :: k in slots && slots[k].status != "dead" ==> Process(slots[k].(status := "dead")) in gone)
    && (forall i, j :: 0 <= i < j < |gone| ==> KeyOf(gone[i].snap) != KeyOf(gone[j].snap))
  }

  function Goodbye(prev: Snapshot): seq<Frame> {
    if prev.status != "dead" then [Process(prev.(status := "dead"))] else []
  }

  ghost predicate KeyedBySlot(last: map<string, Snapshot>) {
    forall k :: k in last ==> KeyOf(last[k]) == k
  }

  lemma SlotsOneMore(snaps: seq<Snapshot>)
    requires snaps != []
    ensures Slots(snaps) == Slots(snaps[..|snaps| - 1]) + {KeyOf(snaps[|snaps| - 1])}
  {
    var n := |snaps| - 1;
    assert snaps == snaps[..n] + [snaps[n]];
  }

  lemma {:induction false} RecordedKeys(last: map<string, Snapshot>, snaps: seq<Snapshot>)
    ensures Recorded(last, snaps).Keys == last.Keys + Slots(snaps)
    ensures KeyedBySlot(last) ==> KeyedBySlot(Recorded(last, snaps))
  {
    if snaps != [] {
      hide Slots;
      RecordedKeys(last, snaps[..|snaps| - 1]);
      SlotsOneMore(snaps);
    } else {
      assert Slots(snaps) == {};
    }
  }

  lemma {:induction false} RecordedSlots(last: map<string, Snapshot>, snaps: seq<Snapshot>)
    ensures Recorded(last, snaps).Keys == last.Keys + Slots(snaps)
    ensures KeyedBySlot(last) ==> KeyedBySlot(Recorded(last, snaps))
    ensures forall k :: k in Slots(snaps) ==> k in Recorded(map[], snaps) && Recorded(last, snaps)[k] == Recorded(map[], snaps)[k]
    ensures Recorded(map[], snaps).Keys == Slots(snaps)
  {
    RecordedKeys(last, snaps);
    RecordedKeys(map[], snaps);
    if snaps != [] {
      hide Slots;
      RecordedSlots(last, snaps[..|snaps| - 1]);
      SlotsOneMore(snaps);
    }
  }

  lemma {:induction false} ChangesKeepAgreement(view: map<string, Snapshot>, last: map<string, Snapshot>, snaps: seq<Snapshot>)
    requires Agrees(view, last)
    ensures Agrees(Upsert(view, ChangeFrames(last, snaps)), Recorded(last, snaps))
  {
    if snaps != [] {
      var n := |snaps| - 1;
      ChangesKeepAgreement(view, last, snaps[..n]);
      var before := ChangeFrames(last, snaps[..n]);
      var more := if KeyOf(snaps[n]) in Recorded(last, snaps[..n]) && Same(Recorded(last, snaps[..n])[KeyOf(snaps[n])], snaps[n])
                  then [] else [Process(snaps[n])];
      UpsertAppend(view, before, more);
      UpsertOne(Upsert(view, before), more);
    }
  }

  /** The snapshots of one slot say, in the fields that matter, what `was` says. */
  ghost predicate Unmoved(snaps: seq<Snapshot>, k: string, was: Snapshot) {
    forall s :: s in snaps && KeyOf(s) == k ==>
      && s.status == was.status && s.phase == was.phase && s.paused == was.paused && s.pid == was.pid && s.stuck == was.stuck
  }

  /** A slot that did not move, however its ticking fields did, gets no frame. */
  lemma {:induction false} UnmovedIsNotSent(last: map<string, Snapshot>, snaps: seq<Snapshot>, k: string)
    requires KeyedBySlot(last) && k in last && Unmoved(snaps, k, last[k])
    ensures forall f :: f in ChangeFrames(last, snaps) ==> f.Process? && KeyOf(f.snap) != k
    ensures k in Recorded(last, snaps) && Unmoved([Recorded(last, snaps)[k]], k, last[k])
  {
    RecordedKeys(last, snaps);
    if snaps != [] {
      var n := |snaps| - 1;
      assert snaps == snaps[..n] + [snaps[n]];
      UnmovedIsNotSent(last, snaps[..n], k);
      RecordedKeys(last, snaps[..n]);
      var before := Recorded(last, snaps[..n]);
      assert before[k] in [before[k]];
    }
  }

  lemma UnmovedSlotsAreQuiet(last: map<string, Snapshot>, snaps: seq<Snapshot>, gone: seq<Frame>)
    requires KeyedBySlot(last) && AreGoodbyes(gone, Recorded(last, snaps) - Slots(snaps))
    ensures forall k :: k in last && k in Slots(snaps) && Unmoved(snaps, k, last[k]) ==>
              forall f :: f in ChangeFrames(last, snaps) + gone ==> f.Process? && KeyOf(f.snap) != k
  {
    forall k, f | k in last && k in Slots(snaps) && Unmoved(snaps, k, last[k]) && f in ChangeFrames(last, snaps) + gone
      ensures f.Process? && KeyOf(f.snap) != k
    {
      UnmovedIsNotSent(last, snaps, k);
    }
  }

  lemma UpsertOne(view: map<string, Snapshot>, frames: seq<Frame>)
    requires |frames| <= 1
    ensures frames == [] ==> Upsert(view, frames) == view
    ensures |frames| == 1 ==>
              Upsert(view, frames) == if frames[0].Process? then view[KeyOf(frames[0].snap) := frames[0].snap] else view
  {
    if |frames| == 1 {
      assert frames[..0] == [];
    }
  }

  lemma {:induction false} UpsertedSlot(view: map<string, Snapshot>, frames: seq<Frame>, k: string)
    ensures k in Upsert(view, frames) <==> k in view || exists f :: f in frames && f.Process? && KeyOf(f.snap) == k
    ensures (forall f :: f in frames && f.Process? ==> KeyOf(f.snap) != k) && k in view ==> Upsert(view, frames)[k] == view[k]
    ensures k in Upsert(view, frames) && (exists f :: f in frames && f.Process? && KeyOf(f.snap) == k) ==>
              Process(Upsert(view, frames)[k]) in frames
  {
    if frames != [] {
      var n := |frames| - 1;
      UpsertedSlot(view, frames[..n], k);
      assert frames == frames[..n] + [frames[n]];
    }
  }

  /** A whole poll, whatever order the vanished slots go in, leaves the client agreeing with the snapshot alone. */
  lemma PollKeepsAgreement(view: map<string, Snapshot>, last: map<string, Snapshot>, snaps: seq<Snapshot>, gone: seq<Frame>)
    requires Agrees(view, last) && KeyedBySlot(last)
    requires AreGoodbyes(gone, Recorded(last, snaps) - Slots(snaps))
    ensures Agrees(Upsert(view, ChangeFrames(last, snaps) + gone), Recorded(map[], snaps))
  {
    ChangesKeepAgreement(view, last, snaps);
    RecordedSlots(last, snaps);
    var mid := Upsert(view, ChangeFrames(last, snaps));
    UpsertAppend(view, ChangeFrames(last, snaps), gone);
    var slots := Recorded(last, snaps) - Slots(snaps);
    forall k ensures k in Recorded(map[], snaps) ==> k in Upsert(mid, gone) && Same(Upsert(mid, gone)[k], Recorded(map[], snaps)[k]) {
      UpsertedSlot(mid, gone, k);
    }
    forall k | k in Upsert(mid, gone) && k !in Recorded(map[], snaps) ensures Upsert(mid, gone)[k].status == "dead" {
      UpsertedSlot(mid, gone, k);
      GoodbyeSlot(mid, gone, slots, Recorded(last, snaps), k);
    }
  }

  lemma GoodbyeSlot(mid: map<string, Snapshot>, gone: seq<Frame>, slots: map<string, Snapshot>,
                       recorded: map<string, Snapshot>, k: string)
    requires Agrees(mid, recorded) && AreGoodbyes(gone, slots) && KeyedBySlot(recorded)
    requires k in Upsert(mid, gone) && (k in recorded ==> k in slots && slots[k] == recorded[k])
    ensures Upsert(mid, gone)[k].status == "dead"
  {
    UpsertedSlot(mid, gone, k);
    if k in recorded && recorded[k].status != "dead" {
      assert Process(slots[k].(status := "dead")) in gone;
      assert KeyOf(slots[k].(status := "dead")) == KeyOf(slots[k]);
    }
  }

  lemma NoGoodbyes()
    ensures AreGoodbyes([], map[])
  {
  }

  lemma GoodbyeOneMore(gone: seq<Frame>, slots: map<string, Snapshot>, key: string, prev: Snapshot)
    requires AreGoodbyes(gone, slots) && key !in slots && KeyOf(prev) == key
    ensures AreGoodbyes(gone + Goodbye(prev), slots[key := prev])
  {
    var all, now := gone + Goodbye(prev), slots[key := prev];
    assert forall i :: 0 <= i < |gone| ==> gone[i] in gone && KeyOf(gone[i].snap) in slots;
    forall k | k in now && now[k].status != "dead" ensures Process(now[k].(status := "dead")) in all {
      assert k != key ==> Process(slots[k].(status := "dead")) in gone;
      assert k == key ==> all[|gone|] == Process(prev.(status := "dead"));
    }
  }

  lemma TakeOne(last: map<string, Snapshot>, seen: set<string>, todo: set<string>, key: string)
    requires todo <= last.Keys - seen && key in todo
    ensures last - seen - (todo - {key}) == (last - seen - todo)[key := last[key]]
    ensures last - (last.Keys - seen - (todo - {key})) == last - (last.Keys - seen - todo) - {key}
  {
  }

  lemma NothingTaken(last: map<string, Snapshot>, seen: set<string>)
    ensures last - seen - (last.Keys - seen) == map[]
    ensures last - (last.Keys - seen - (last.Keys - seen)) == last
  {
  }

  lemma AllTaken(last: map<string, Snapshot>, seen: set<string>)
    ensures last - seen - {} == last - seen
    ensures last - (last.Keys - seen - {}) == map k | k in last && k in seen :: last[k]
  {
  }

  lemma SeenIsRecorded(last: map<string, Snapshot>, snaps: seq<Snapshot>)
    ensures (map k | k in Recorded(last, snaps) && k in Slots(snaps) :: Recorded(last, snaps)[k]) == Recorded(map[], snaps)
  {
    RecordedSlots(last, snaps);
  }

  lemma NothingIsKeyed()
    ensures KeyedBySlot(map[])
  {
  }

  /** A client that agreed agrees after the poll, its banner as it was. */
  lemma PollShows(log: seq<Frame>, last: map<string, Snapshot>, snaps: seq<Snapshot>, gone: seq<Frame>)
    requires Agrees(Upsert(map[], log), last) && KeyedBySlot(last)
    requires AreGoodbyes(gone, Recorded(last, snaps) - Slots(snaps))
    ensures Agrees(Upsert(map[], log + (ChangeFrames(last, snaps) + gone)), Recorded(map[], snaps))
    ensures Banner(log + (ChangeFrames(last, snaps) + gone)) == Banner(log)
  {
    ProcessFramesOnly(log, last, snaps, gone);
    UpsertAppend(map[], log, ChangeFrames(last, snaps) + gone);
    PollKeepsAgreement(Upsert(map[], log), last, snaps, gone);
  }

  // ── the stream ─────────────────────────────────────────────────────────────

  class ChangeStream {
    /** Every frame each connected client's sink has been written. */
    var clients: map<int, seq<Frame>>
    var counter: int
    var last: map<string, Snapshot>
    var lastStateRaw: Option<string>
    var seeded: bool
    /** `JSON.parse`, where a failure and `null` are both nothing. */
    const parse: string -> Option<string>

    constructor (parse: string -> Option<string>)
      ensures Valid() && clients == map[] && !seeded && this.parse == parse
    {
      clients, counter, last, lastStateRaw, seeded := map[], 0, map[], None, false;
      this.parse := parse;
    }

    function ParseState(raw: Option<string>): Option<string> {
      if raw.None? then None else parse(raw.value)
    }

    /** Each client's panel agrees with `last`, and its banner is the current state when that parses. */
    ghost predicate Shows(log: seq<Frame>)
      reads this
    {
      && Agrees(Upsert(map[], log), last)
      && (ParseState(lastStateRaw).Some? ==> Banner(log) == ParseState(lastStateRaw))
    }

    ghost predicate Valid()
      reads this
    {
      && KeyedBySlot(last)
      && (forall id :: id in clients ==> id <= counter && Shows(clients[id]))
      && (clients != map[] ==> seeded)
    }

    /** Writes one frame to every client. */
    method Broadcast(frame: Frame)
      modifies this`clients
      ensures clients.Keys == old(clients.Keys)
      ensures forall id :: id in clients ==> clients[id] == old(clients)[id] + [frame]
    {
      var todo: set<int> := clients.Keys;
      while todo != {}
        invariant todo <= clients.Keys && clients.Keys == old(clients.Keys)
        invariant forall id :: id in clients ==> clients[id] == old(clients)[id] + if id in todo then [] else [frame]
      {
        HasMember(todo);
        var id :| id in todo;
        clients := clients[id := clients[id] + [frame]];
        todo := todo - {id};
      }
    }

    /** `prime`: takes the baseline once, telling nobody. */
    method Prime(snaps: seq<Snapshot>, raw: Option<string>)
      requires Valid()
      modifies this`last, this`lastStateRaw, this`seeded
      ensures Valid() && seeded
      ensures old(seeded) ==> last == old(last) && lastStateRaw == old(lastStateRaw)
      ensures !old(seeded) ==> last == Recorded(old(last), snaps) && lastStateRaw == raw
    {
      if seeded { return; }
      var slots := last;
      for i := 0 to |snaps|
        invariant slots == Recorded(last, snaps[..i])
      {
        assert snaps[..i + 1][..i] == snaps[..i];
        slots := slots[KeyOf(snaps[i]) := snaps[i]];
      }
      assert snaps[..|snaps|] == snaps;
      RecordedSlots(last, snaps);
      last, lastStateRaw, seeded := slots, raw, true;
    }

    /** Registers a client and sends it the whole picture. */
    method AddClient(snaps: seq<Snapshot>, raw: Option<string>) returns (id: int)
      requires Valid()
      modifies this
      ensures Valid() && id !in old(clients) && clients.Keys == old(clients.Keys) + {id}
      ensures forall c :: c in old(clients) ==> clients[c] == old(clients)[c]
      ensures Upsert(map[], clients[id]) == last
      ensures Banner(clients[id]) == ParseState(lastStateRaw)
      ensures old(seeded) ==> last == old(last) && lastStateRaw == old(lastStateRaw)
    {
      Prime(snaps, raw);
      counter := counter + 1;
      id := counter;
      var log := Greeting();
      assert Agrees(last, last);
      clients := clients[id := log];
    }

    /** Every process, the current state, and a keepalive. */
    method Greeting() returns (log: seq<Frame>)
      requires KeyedBySlot(last)
      ensures Upsert(map[], log) == last && Banner(log) == ParseState(lastStateRaw)
    {
      log := [];
      var todo := last.Keys;
      while todo != {}
        invariant todo <= last.Keys
        invariant Upsert(map[], log) == last - todo
        invariant Banner(log) == None
      {
        var k :| k in todo;
        todo := todo - {k};
        log := log + [Process(last[k])];
      }
      var state := ParseState(lastStateRaw);
      if state.Some? { log := log + [State(state.value)]; }
      log := log + [Keepalive];
    }

    /** Unregisters a client; an unknown id changes nothing. */
    method RemoveClient(id: int)
      requires Valid()
      modifies this`clients
      ensures Valid() && clients == old(clients) - {id}
    {
      if id !in clients { return; }
      clients := clients - {id};
    }

    /** `maybeEmitState`: any change of the raw content that parses goes to everyone. */
    method MaybeEmitState(raw: Option<string>)
      requires Valid()
      modifies this`clients, this`lastStateRaw
      ensures Valid() && lastStateRaw == raw && clients.Keys == old(clients.Keys)
      ensures raw != old(lastStateRaw) && ParseState(raw).Some? ==>
                forall id :: id in clients ==> clients[id] == old(clients)[id] + [State(ParseState(raw).value)]
      ensures raw == old(lastStateRaw) || ParseState(raw).None? ==> clients == old(clients)
    {
      if raw == lastStateRaw { return; }
      lastStateRaw := raw;
      var state := ParseState(raw);
      if state.Some? {
        Broadcast(State(state.value));
        forall id | id in clients ensures Shows(clients[id]) {
          UpsertAppend(map[], old(clients)[id], [State(state.value)]);
          UpsertOne(Upsert(map[], old(clients)[id]), [State(state.value)]);
        }
      }
    }

    /** `pollProcesses`: what every client is sent, and the snapshot alone left in `last`. */
    method PollProcesses(snaps: seq<Snapshot>) returns (ghost gone: seq<Frame>)
      requires Valid()
      modifies this`clients, this`last
      ensures Valid() && last == Recorded(map[], snaps) && clients.Keys == old(clients.Keys)
      ensures AreGoodbyes(gone, Recorded(old(last), snaps) - Slots(snaps))
      ensures forall id :: id in clients ==> clients[id] == old(clients)[id] + (ChangeFrames(old(last), snaps) + gone)
      ensures forall k :: k in old(last) && k in Slots(snaps) && Unmoved(snaps, k, old(last)[k]) ==>
                forall f :: f in ChangeFrames(old(last), snaps) + gone ==> f.Process? && KeyOf(f.snap) != k
    {
      hide Agrees, AreGoodbyes, KeyedBySlot, Same, Unmoved;
      ghost var last0, clients0 := last, clients;
      BroadcastChanges(snaps);
      RecordedSlots(last0, snaps);
      gone := BroadcastGoodbyes(Slots(snaps));
      SeenIsRecorded(last0, snaps);
      RecordedSlots(map[], snaps);
      NothingIsKeyed();
      forall id | id in clients
        ensures clients[id] == clients0[id] + (ChangeFrames(last0, snaps) + gone) && Shows(clients[id])
      {
        Regroup(clients0[id], ChangeFrames(last0, snaps), gone);
        PollShows(clients0[id], last0, snaps, gone);
      }
      UnmovedSlotsAreQuiet(last0, snaps, gone);
    }

    /** The first loop: announces new and changed slots, recording each. */
    method BroadcastChanges(snaps: seq<Snapshot>)
      modifies this`clients, this`last
      ensures last == Recorded(old(last), snaps) && clients.Keys == old(clients.Keys)
      ensures forall id :: id in clients ==> clients[id] == old(clients)[id] + ChangeFrames(old(last), snaps)
    {
      ghost var last0, clients0 := last, clients;
      for i := 0 to |snaps|
        invariant last == Recorded(last0, snaps[..i]) && clients.Keys == clients0.Keys
        invariant forall id :: id in clients ==> clients[id] == clients0[id] + ChangeFrames(last0, snaps[..i])
      {
        assert snaps[..i + 1][..i] == snaps[..i];
        var snap := snaps[i];
        var key := KeyOf(snap);
        if key !in last || !Same(last[key], snap) {
          Broadcast(Process(snap));
        }
        last := last[key := snap];
      }
      assert snaps[..|snaps|] == snaps;
    }

    /** The second loop: announces slots that vanished, and forgets them. */
    method BroadcastGoodbyes(seen: set<string>) returns (ghost gone: seq<Frame>)
      requires KeyedBySlot(last)
      modifies this`clients, this`last
      ensures last == map k | k in old(last) && k in seen :: old(last)[k]
      ensures clients.Keys == old(clients.Keys) && AreGoodbyes(gone, old(last) - seen)
      ensures forall id :: id in clients ==> clients[id] == old(clients)[id] + gone
    {
      hide AreGoodbyes;
      ghost var last0, clients0 := last, clients;
      gone := [];
      NoGoodbyes();
      var todo := last.Keys - seen;
      NothingTaken(last0, seen);
      while todo != {}
        invariant todo <= last0.Keys - seen
        invariant last == last0 - (last0.Keys - seen - todo)
        invariant clients.Keys == clients0.Keys
        invariant AreGoodbyes(gone, last0 - seen - todo)
        invariant forall id :: id in clients ==> clients[id] == clients0[id] + gone
      {
        var key :| key in todo;
        assert last[key] == last0[key];
        ghost var more := SayGoodbye(key);
        GoodbyeOneMore(gone, last0 - seen - todo, key, last0[key]);
        TakeOne(last0, seen, todo, key);
        gone := gone + more;
        todo := todo - {key};
      }
      AllTaken(last0, seen);
    }

    /** Tells everyone that a slot is dead, unless they know, and forgets it. */
    method SayGoodbye(key: string) returns (ghost more: seq<Frame>)
      requires key in last
      modifies this`clients, this`last
      ensures last == old(last) - {key} && more == Goodbye(old(last)[key])
      ensures clients.Keys == old(clients.Keys)
      ensures forall id :: id in clients ==> clients[id] == old(clients)[id] + more
    {
      var prev := last[key];
      more := Goodbye(prev);
      if prev.status != "dead" {
        Broadcast(Process(prev.(status := "dead")));
      }
      last := last - {key};
    }

    /** The 2-second tick, activity aside. */
    method Refresh(raw: Option<string>, snaps: seq<Snapshot>)
      requires Valid()
      modifies this`clients, this`last, this`lastStateRaw
      ensures Valid() && last == Recorded(map[], snaps) && lastStateRaw == raw && clients.Keys == old(clients.Keys)
      ensures forall id :: id in clients ==> Agrees(Upsert(map[], clients[id]), last)
      ensures forall id :: id in clients && ParseState(raw).Some? ==> Banner(clients[id]) == ParseState(raw)
    {
      hide Agrees, Banner, Upsert, Recorded;
      MaybeEmitState(raw);
      ghost var gone := PollProcesses(snaps);
    }
  }

  lemma HasMember(s: set<int>)
    requires s != {}
    ensures exists x :: x in s
  {
    assert (forall x :: x !in s) ==> s <= {};
  }

  lemma ProcessFramesOnly(log: seq<Frame>, last: map<string, Snapshot>, snaps: seq<Snapshot>, gone: seq<Frame>)
    requires forall f :: f in gone ==> f.Process?
    ensures Banner(log + (ChangeFrames(last, snaps) + gone)) == Banner(log)
  {
    NoBannerInChanges(last, snaps);
    NoBannerInProcesses(gone);
    BannerAppend(ChangeFrames(last, snaps), gone);
    BannerAppend(log, ChangeFrames(last, snaps) + gone);
  }

  lemma {:induction false} NoBannerInProcesses(frames: seq<Frame>)
    requires forall f :: f in frames ==> f.Process?
    ensures Banner(frames) == None
  {
    if frames != [] {
      assert frames[|frames| - 1] in frames;
      NoBannerInProcesses(frames[..|frames| - 1]);
    }
  }

  lemma {:induction false} NoBannerInChanges(last: map<string, Snapshot>, snaps: seq<Snapshot>)
    ensures forall f :: f in ChangeFrames(last, snaps) ==> f.Process?
    ensures Banner(ChangeFrames(last, snaps)) == None
  {
    if snaps != [] {
      NoBannerInChanges(last, snaps[..|snaps| - 1]);
    }
    NoBannerInProcesses(ChangeFrames(last, snaps));
  }
}
