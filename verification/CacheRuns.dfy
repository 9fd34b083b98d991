/**
 The read cache of src/phalaka/beads-read.ts over every interleaving of reads,
 changes and invalidations (src/phalaka/live.ts).
 */
module CacheRuns {

  import opened Prelude
  import opened ReadCache

  /** The rows a read returns: the store's version they show, and when the read began. */
  datatype Rows = Rows(version: nat, begun: nat)

  /** A read between its two pieces; `taken` once the database has answered. */
  datatype Pending = Pending(project: string, read: string, gen: nat, begun: nat, taken: Option<nat>)

  /** `cutoff` is when a project was last invalidated, and `due` its store's version then. */
  datatype World = World(store: Store<Rows>, pending: map<int, Pending>, version: map<string, nat>,
                         cutoff: map<string, nat>, due: map<string, nat>, clock: nat)

  datatype Step =
    | Begins(id: int, project: string, read: string)
    | Answers(id: int)
    | Finishes(id: int, expires: int)
    | Changes(project: string)
    | Invalidates(project: string)

  function Of(m: map<string, nat>, project: string): nat {
    if project in m then m[project] else 0
  }

  const FRESH_WORLD := World(Store(map[], map[]), map[], map[], map[], map[], 1)

  predicate Enabled(w: World, step: Step) {
    match step
    case Begins(id, _, _) => id !in w.pending
    case Answers(id) => id in w.pending && w.pending[id].taken.None?
    case Finishes(id, _) => id in w.pending && w.pending[id].taken.Some?
    case _ => true
  }

  function Apply(w: World, step: Step): World
    requires Enabled(w, step)
  {
    var t := w.(clock := w.clock + 1);
    match step
    case Begins(id, project, read) =>
      t.(pending := w.pending[id := Pending(project, read, Generation(w.store, ProjectOf(Key(project, read))), w.clock, None)])
    case Answers(id) =>
      t.(pending := w.pending[id := w.pending[id].(taken := Some(Of(w.version, w.pending[id].project)))])
    case Finishes(id, expires) =>
      var p := w.pending[id];
      t.(store := Keep(w.store, Key(p.project, p.read), p.gen, Rows(p.taken.value, p.begun), expires),
         pending := w.pending - {id})
    case Changes(project) => t.(version := w.version[project := Of(w.version, project) + 1])
    case Invalidates(project) =>
      t.(store := Drop(w.store, project), cutoff := w.cutoff[project := w.clock],
         due := w.due[project := Of(w.version, project)])
  }

  function Run(w: World, steps: seq<Step>): Option<World> {
    if steps == [] then Some(w)
    else
      var before := Run(w, steps[..|steps| - 1]);
      var step := steps[|steps| - 1];
      if before.Some? && Enabled(before.value, step) then Some(Apply(before.value, step)) else None
  }

  predicate SafeStep(step: Step) {
    match step
    case Begins(_, project, _) => SeparatorSafe(project)
    case Changes(project) => SeparatorSafe(project)
    case Invalidates(project) => SeparatorSafe(project)
    case _ => true
  }

  /** Rows from after the project's last invalidation, showing at least what the store held then. */
  predicate IsFresh(w: World, project: string, version: nat, begun: nat) {
    begun > Of(w.cutoff, project) && version >= Of(w.due, project)
  }

  ghost predicate Inv(w: World) {
    && (forall p, read :: SeparatorSafe(p) && Key(p, read) in w.store.cache ==>
          var v := w.store.cache[Key(p, read)].value; IsFresh(w, p, v.version, v.begun))
    && (forall id :: id in w.pending ==> PendingHolds(w, w.pending[id]))
    && (forall p :: Of(w.cutoff, p) < w.clock && Of(w.due, p) <= Of(w.version, p))
  }

  predicate PendingHolds(w: World, p: Pending) {
    && SeparatorSafe(p.project) && p.begun < w.clock
    && p.gen <= Generation(w.store, Source(p.project))
    && (p.gen == Generation(w.store, Source(p.project)) ==>
          && p.begun > Of(w.cutoff, p.project)
          && (p.taken.Some? ==> p.taken.value >= Of(w.due, p.project)))
  }

  lemma KeysTellProjectsApart(p: string, read: string, q: string, read': string)
    requires SeparatorSafe(p) && SeparatorSafe(q)
    requires Key(p, read) == Key(q, read') || Source(q) + "::" <= Key(p, read)
    ensures p == q
  {
    KeyNamesProject(p, read);
    KeyNamesProject(q, read');
    if Source(q) + "::" <= Key(p, read) {
      var rest := Key(p, read)[|Source(q)| + 2..];
      assert Key(p, read) == Key(q, rest);
      KeyNamesProject(q, rest);
    }
    assert Source(p)[7..] == p && Source(q)[7..] == q;
  }

  lemma StepKeepsInv(w: World, step: Step)
    requires Inv(w) && Enabled(w, step) && SafeStep(step)
    ensures Inv(Apply(w, step))
  {
    var t := Apply(w, step);
    match step {
      case Begins(id, project, read) =>
        KeyNamesProject(project, read);
      case Answers(id) =>
        assert PendingHolds(w, w.pending[id]);
      case Finishes(id, expires) =>
        FinishKeepsInv(w, id, expires);
      case Changes(project) =>
      case Invalidates(project) =>
        InvalidateKeepsInv(w, project);
    }
  }

  lemma FinishKeepsInv(w: World, id: int, expires: int)
    requires Inv(w) && Enabled(w, Finishes(id, expires))
    ensures Inv(Apply(w, Finishes(id, expires)))
  {
    var t := Apply(w, Finishes(id, expires));
    var f := w.pending[id];
    KeyNamesProject(f.project, f.read);
    assert PendingHolds(w, f);
    forall p, read | SeparatorSafe(p) && Key(p, read) in t.store.cache
      ensures var v := t.store.cache[Key(p, read)].value; IsFresh(t, p, v.version, v.begun)
    {
      if Key(p, read) == Key(f.project, f.read) {
        KeysTellProjectsApart(p, read, f.project, f.read);
      }
    }
  }

  lemma DropForgets<V>(s: Store<V>, project: string, q: string, read: string)
    ensures Key(project, read) !in Drop(s, project).cache
    ensures Key(q, read) in Drop(s, project).cache ==>
      Key(q, read) in s.cache && Drop(s, project).cache[Key(q, read)] == s.cache[Key(q, read)]
    ensures Generation(Drop(s, project), Source(q)) == Generation(s, Source(q)) + if q == project then 1 else 0
  {
    assert Source(project) + "::" <= Key(project, read);
    assert Source(q)[7..] == q && Source(project)[7..] == project;
  }

  lemma InvalidateKeepsInv(w: World, project: string)
    requires Inv(w) && SeparatorSafe(project)
    ensures Inv(Apply(w, Invalidates(project)))
  {
    hide Key, Drop, SeparatorSafe, Generation;
    var t := Apply(w, Invalidates(project));
    forall p, read | SeparatorSafe(p) && Key(p, read) in t.store.cache
      ensures var v := t.store.cache[Key(p, read)].value; IsFresh(t, p, v.version, v.begun)
    {
      DropForgets(w.store, project, p, read);
      assert p != project;
    }
    forall id | id in t.pending ensures PendingHolds(t, t.pending[id]) {
      var f := t.pending[id];
      assert PendingHolds(w, f);
      DropForgets(w.store, project, f.project, f.read);
    }
    forall p ensures Of(t.cutoff, p) < t.clock && Of(t.due, p) <= Of(t.version, p) {
      assert Of(w.cutoff, p) < w.clock && Of(w.due, p) <= Of(w.version, p);
    }
  }

  lemma {:induction false} RunKeepsInv(steps: seq<Step>)
    requires Run(FRESH_WORLD, steps).Some? && forall s :: s in steps ==> SafeStep(s)
    ensures Inv(Run(FRESH_WORLD, steps).value)
  {
    if steps != [] {
      RunKeepsInv(steps[..|steps| - 1]);
      StepKeepsInv(Run(FRESH_WORLD, steps[..|steps| - 1]).value, steps[|steps| - 1]);
    }
  }

  /** Over every interleaving, a hit was read after its project's last invalidation, and shows no less than the store held then. */
  lemma HitsAreFresh(steps: seq<Step>, project: string, read: string, now: int)
    requires Run(FRESH_WORLD, steps).Some? && forall s :: s in steps ==> SafeStep(s)
    requires SeparatorSafe(project)
    requires Lookup(Run(FRESH_WORLD, steps).value.store, Key(project, read), now).Some?
    ensures var w := Run(FRESH_WORLD, steps).value;
            var hit := Lookup(w.store, Key(project, read), now).value;
            hit.begun > Of(w.cutoff, project) && hit.version >= Of(w.due, project)
  {
    RunKeepsInv(steps);
  }

  // ── what the world remembers of the run ────────────────────────────────────

  /** How often the run changed the project. */
  function ChangesTo(steps: seq<Step>, project: string): nat {
    if steps == [] then 0
    else ChangesTo(steps[..|steps| - 1], project) + if steps[|steps| - 1] == Changes(project) then 1 else 0
  }

  /** The number of the last step that invalidated the project, counting from 1; 0 if there is none. */
  function LastInvalidation(steps: seq<Step>, project: string): (n: nat)
    ensures n <= |steps|
  {
    if steps == [] then 0
    else if steps[|steps| - 1] == Invalidates(project) then |steps|
    else LastInvalidation(steps[..|steps| - 1], project)
  }

  lemma StepIsRemembered(w: World, step: Step, project: string)
    requires Enabled(w, step)
    ensures var t := Apply(w, step);
      && t.clock == w.clock + 1
      && Of(t.version, project) == Of(w.version, project) + (if step == Changes(project) then 1 else 0)
      && Of(t.cutoff, project) == (if step == Invalidates(project) then w.clock else Of(w.cutoff, project))
      && Of(t.due, project) == (if step == Invalidates(project) then Of(w.version, project) else Of(w.due, project))
  {
    hide Keep, Drop, Key, ProjectOf, Generation;
  }

  /** Version, cutoff and due are the run's own: its changes, its last invalidation, and the changes before that. */
  lemma {:induction false} WorldRemembersRun(steps: seq<Step>, project: string)
    requires Run(FRESH_WORLD, steps).Some?
    ensures var w := Run(FRESH_WORLD, steps).value;
      && w.clock == |steps| + 1
      && Of(w.version, project) == ChangesTo(steps, project)
      && Of(w.cutoff, project) == LastInvalidation(steps, project)
      && Of(w.due, project) == ChangesTo(steps[..LastInvalidation(steps, project)], project)
  {
    if steps != [] {
      hide Apply, Enabled;
      var n := |steps| - 1;
      WorldRemembersRun(steps[..n], project);
      StepIsRemembered(Run(FRESH_WORLD, steps[..n]).value, steps[n], project);
      var k := LastInvalidation(steps[..n], project);
      assert steps[..n][..k] == steps[..k];
      assert steps[..|steps|] == steps;
    }
  }

  /**
   In terms of the run alone: a hit was read by a `Begins` behind the project's last
   invalidation, and shows every change made before that invalidation.
   */
  lemma HitsShowTheRun(steps: seq<Step>, project: string, read: string, now: int)
    requires Run(FRESH_WORLD, steps).Some? && forall s :: s in steps ==> SafeStep(s)
    requires SeparatorSafe(project)
    requires Lookup(Run(FRESH_WORLD, steps).value.store, Key(project, read), now).Some?
    ensures var hit := Lookup(Run(FRESH_WORLD, steps).value.store, Key(project, read), now).value;
      && LastInvalidation(steps, project) < hit.begun <= |steps|
      && steps[hit.begun - 1].Begins? && steps[hit.begun - 1].project == project && steps[hit.begun - 1].read == read
      && ChangesTo(steps[..LastInvalidation(steps, project)], project) <= hit.version <= ChangesTo(steps, project)
  {
    HitsAreFresh(steps, project, read, now);
    WorldRemembersRun(steps, project);
    RunStampsReads(steps);
  }

  /** Where rows come from: a `Begins` of their own project and read at the step they name, and no version that was never there. */
  predicate ComesFrom(steps: seq<Step>, project: string, read: string, begun: nat) {
    && 1 <= begun <= |steps|
    && steps[begun - 1].Begins? && steps[begun - 1].project == project && steps[begun - 1].read == read
  }

  predicate PendingStamped(steps: seq<Step>, p: Pending) {
    && SeparatorSafe(p.project) && ComesFrom(steps, p.project, p.read, p.begun)
    && (p.taken.Some? ==> p.taken.value <= ChangesTo(steps, p.project))
  }

  predicate RowsStamped(steps: seq<Step>, project: string, read: string, v: Rows) {
    ComesFrom(steps, project, read, v.begun) && v.version <= ChangesTo(steps, project)
  }

  ghost predicate Stamped(w: World, steps: seq<Step>) {
    && (forall id :: id in w.pending ==> PendingStamped(steps, w.pending[id]))
    && (forall project, read :: SeparatorSafe(project) && Key(project, read) in w.store.cache ==>
          RowsStamped(steps, project, read, w.store.cache[Key(project, read)].value))
  }

  lemma PendingStays(steps: seq<Step>, step: Step, p: Pending)
    ensures PendingStamped(steps, p) ==> PendingStamped(steps + [step], p)
  {
    assert (steps + [step])[..|steps|] == steps;
  }

  lemma RowsStay(steps: seq<Step>, step: Step, project: string, read: string, v: Rows)
    ensures RowsStamped(steps, project, read, v) ==> RowsStamped(steps + [step], project, read, v)
  {
    assert (steps + [step])[..|steps|] == steps;
  }

  lemma AllStampsStay(w: World, steps: seq<Step>, step: Step)
    requires Stamped(w, steps)
    ensures Stamped(w, steps + [step])
  {
    hide PendingStamped, RowsStamped, SeparatorSafe, Key;
    forall p { PendingStays(steps, step, p); }
    forall project, read, v { RowsStay(steps, step, project, read, v); }
  }

  lemma SameKeySameRead(p: string, read: string, q: string, read': string)
    requires SeparatorSafe(p) && SeparatorSafe(q) && Key(p, read) == Key(q, read')
    ensures p == q && read == read'
  {
    KeysTellProjectsApart(p, read, q, read');
    assert Key(p, read)[|Source(p)| + 2..] == read && Key(q, read')[|Source(q)| + 2..] == read';
  }

  lemma BeginIsStamped(steps: seq<Step>, step: Step, gen: nat)
    requires step.Begins? && SeparatorSafe(step.project)
    ensures PendingStamped(steps + [step], Pending(step.project, step.read, gen, |steps| + 1, None))
  {
  }

  lemma AnswerIsStamped(steps: seq<Step>, p: Pending, version: nat)
    requires PendingStamped(steps, p) && version <= ChangesTo(steps, p.project)
    ensures PendingStamped(steps, p.(taken := Some(version)))
  {
  }

  lemma FinishIsStamped(steps: seq<Step>, p: Pending)
    requires PendingStamped(steps, p) && p.taken.Some?
    ensures SeparatorSafe(p.project) && RowsStamped(steps, p.project, p.read, Rows(p.taken.value, p.begun))
  {
  }

  lemma KeptIsStamped(w: World, steps: seq<Step>, id: int, expires: int)
    requires Stamped(w, steps) && Enabled(w, Finishes(id, expires))
    ensures Stamped(Apply(w, Finishes(id, expires)), steps)
  {
    hide PendingStamped, RowsStamped, SeparatorSafe, Key, ProjectOf, Generation;
    var f := w.pending[id];
    FinishIsStamped(steps, f);
    forall project, read | SeparatorSafe(project) && Key(project, read) == Key(f.project, f.read)
      ensures project == f.project && read == f.read
    {
      SameKeySameRead(project, read, f.project, f.read);
    }
  }

  lemma DroppedIsStamped(w: World, steps: seq<Step>, project: string)
    requires Stamped(w, steps)
    ensures Stamped(Apply(w, Invalidates(project)), steps)
  {
    hide PendingStamped, RowsStamped, SeparatorSafe, Key, Drop, ProjectOf, Generation;
    forall q, read { DropForgets(w.store, project, q, read); }
  }

  lemma StepKeepsStamps(w: World, steps: seq<Step>, step: Step)
    requires Stamped(w, steps) && Enabled(w, step) && SafeStep(step) && w.clock == |steps| + 1
    requires forall p :: Of(w.version, p) == ChangesTo(steps, p)
    ensures Stamped(Apply(w, step), steps + [step])
  {
    hide PendingStamped, RowsStamped, SeparatorSafe, Key, Keep, Drop, ProjectOf, Generation, ChangesTo, Of;
    AllStampsStay(w, steps, step);
    match step
    case Begins(id, project, read) =>
      BeginIsStamped(steps, step, Generation(w.store, ProjectOf(Key(project, read))));
    case Answers(id) =>
      var p := w.pending[id];
      AnswerIsStamped(steps, p, Of(w.version, p.project));
      PendingStays(steps, step, p.(taken := Some(Of(w.version, p.project))));
    case Finishes(id, expires) =>
      KeptIsStamped(w, steps + [step], id, expires);
    case Changes(project) =>
    case Invalidates(project) =>
      DroppedIsStamped(w, steps + [step], project);
  }

  lemma {:induction false} RunStampsReads(steps: seq<Step>)
    requires Run(FRESH_WORLD, steps).Some? && forall s :: s in steps ==> SafeStep(s)
    ensures Stamped(Run(FRESH_WORLD, steps).value, steps)
  {
    hide Stamped, Apply, Enabled, SafeStep, ChangesTo, Of;
    if steps == [] {
      NothingIsStamped();
    } else {
      var n := |steps| - 1;
      assert steps == steps[..n] + [steps[n]] && steps[n] in steps;
      RunStampsReads(steps[..n]);
      WorldRemembersRun(steps[..n], "");
      forall p { WorldRemembersRun(steps[..n], p); }
      StepKeepsStamps(Run(FRESH_WORLD, steps[..n]).value, steps[..n], steps[n]);
    }
  }

  lemma NothingIsStamped()
    ensures Stamped(FRESH_WORLD, [])
  {
  }

  /** So where every change has been followed by an invalidation, a hit shows the store as it is. */
  lemma InvalidatedChangesAreSeen(steps: seq<Step>, project: string, read: string, now: int)
    requires Run(FRESH_WORLD, steps).Some? && forall s :: s in steps ==> SafeStep(s)
    requires SeparatorSafe(project)
    requires Lookup(Run(FRESH_WORLD, steps).value.store, Key(project, read), now).Some?
    requires Of(Run(FRESH_WORLD, steps).value.due, project) == Of(Run(FRESH_WORLD, steps).value.version, project)
    ensures Lookup(Run(FRESH_WORLD, steps).value.store, Key(project, read), now).value.version
         == Of(Run(FRESH_WORLD, steps).value.version, project) == ChangesTo(steps, project)
  {
    HitsAreFresh(steps, project, read, now);
    HitsShowTheRun(steps, project, read, now);
    WorldRemembersRun(steps, project);
  }

  /** For any other project name the guard watches the wrong counter: a read that an invalidation overtook is cached. */
  lemma UnsafeProjectCachesStaleRows(project: string, read: string)
    requires !SeparatorSafe(project)
    ensures var w := Run(FRESH_WORLD, [Begins(0, project, read), Answers(0), Changes(project), Invalidates(project), Finishes(0, 100)]);
            && w.Some? && Key(project, read) in w.value.store.cache
            && var v := w.value.store.cache[Key(project, read)].value;
               v.begun < Of(w.value.cutoff, project) && v.version < Of(w.value.due, project)
  {
    KeyNamesProject(project, read);
    var steps := [Begins(0, project, read), Answers(0), Changes(project), Invalidates(project), Finishes(0, 100)];
    var w1 := Apply(FRESH_WORLD, steps[0]);
    var w2 := Apply(w1, steps[1]);
    var w3 := Apply(w2, steps[2]);
    var w4 := Apply(w3, steps[3]);
    var w5 := Apply(w4, steps[4]);
    assert steps[..0] == [] && Run(FRESH_WORLD, []) == Some(FRESH_WORLD);
    assert steps[..1][..0] == [] && Run(FRESH_WORLD, steps[..1]) == Some(w1);
    assert steps[..2][..1] == steps[..1] && Run(FRESH_WORLD, steps[..2]) == Some(w2);
    assert steps[..3][..2] == steps[..2] && Run(FRESH_WORLD, steps[..3]) == Some(w3);
    assert steps[..4][..3] == steps[..3] && Run(FRESH_WORLD, steps[..4]) == Some(w4);
    assert Run(FRESH_WORLD, steps) == Some(w5);
  }
}
