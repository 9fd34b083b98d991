/**
 The TTL cache of src/phalaka/beads-read.ts with its generation guard. A cached read is two atomic pieces
 of code around one await, so reads and invalidations interleave freely.
 */
module ReadCache {
  import opened Prelude

  // ── keys ───────────────────────────────────────────────────────────────────

  function Source(project: string): string {
    "engine:" + project
  }

  function Key(project: string, read: string): string {
    Source(project) + "::" + read
  }

  predicate SepAt(s: string, i: nat) {
    i + 1 < |s| && s[i] == ':' && s[i + 1] == ':'
  }

  /** `s.indexOf('::')`, or the length when there is none. */
  function FirstSep(s: string): (r: nat)
    ensures r <= |s|
    ensures SepAt(s, r) || r == |s|
    ensures forall i :: 0 <= i < r ==> !SepAt(s, i)
  {
    if s == "" || SepAt(s, 0) then 0
    else
      var r := FirstSep(s[1..]);
      assert forall i :: 0 < i < r + 1 ==> SepAt(s, i) == SepAt(s[1..], i - 1);
      r + 1
  }

  /** `projectOf`, on keys, which all contain the separator. */
  function ProjectOf(key: string): string {
    key[..FirstSep(key)]
  }

  /** Nothing in the project's name runs into the separators around it. A uuid has no colon at all. */
  predicate SeparatorSafe(project: string) {
    && project != "" && project[0] != ':' && project[|project| - 1] != ':'
    && forall i :: 0 <= i < |project| ==> !SepAt(project, i)
  }

  /** A key names its project back exactly when the project is separator-safe. */
  lemma KeyNamesProject(project: string, read: string)
    ensures ProjectOf(Key(project, read)) == Source(project) <==> SeparatorSafe(project)
  {
    var key := Key(project, read);
    var n := 7 + |project|;
    assert |Source(project)| == n && key[..n] == Source(project);
    assert SepAt(key, n);
    assert key[..7] == "engine:";
    assert forall i :: 0 <= i < |project| ==> key[7 + i] == project[i];
    if SeparatorSafe(project) {
      forall i | 0 <= i < n ensures !SepAt(key, i) {
        if 7 <= i < n - 1 {
          assert !SepAt(project, i - 7);
        }
      }
      assert FirstSep(key) == n;
    } else {
      var i := EarlySep(project, read);
      assert FirstSep(key) <= i < n;
      assert |ProjectOf(key)| < n;
    }
  }

  lemma EarlySep(project: string, read: string) returns (i: nat)
    requires !SeparatorSafe(project)
    ensures i < 7 + |project| && SepAt(Key(project, read), i)
  {
    var key := Key(project, read);
    assert key[..7] == "engine:";
    assert forall j :: 0 <= j < |project| ==> key[7 + j] == project[j];
    assert key[7 + |project|] == ':';
    if project == "" || project[0] == ':' {
      i := 6;
    } else if project[|project| - 1] == ':' {
      i := 6 + |project|;
    } else {
      var j :| 0 <= j < |project| && SepAt(project, j);
      i := 7 + j;
    }
  }

  // ── the two maps ───────────────────────────────────────────────────────────

  datatype Entry<+V> = Entry(expires: int, value: V)

  datatype Store<+V> = Store(cache: map<string, Entry<V>>, generation: map<string, nat>)

  function Generation<V>(s: Store<V>, source: string): nat {
    if source in s.generation then s.generation[source] else 0
  }

  function Lookup<V>(s: Store<V>, key: string, now: int): Option<V> {
    if key in s.cache && s.cache[key].expires > now then Some(s.cache[key].value) else None
  }

  /** What the code after the await does with a value. */
  function Keep<V>(s: Store<V>, key: string, gen: nat, value: V, expires: int): Store<V> {
    if Generation(s, ProjectOf(key)) == gen then s.(cache := s.cache[key := Entry(expires, value)]) else s
  }

  /** What an invalidation leaves. */
  function Drop<V>(s: Store<V>, project: string): Store<V> {
    var source := Source(project);
    Store(map k | k in s.cache && !(source + "::" <= k) :: s.cache[k],
          s.generation[source := Generation(s, source) + 1])
  }

  datatype BeginResult<+V> = Hit(value: V) | Miss(gen: nat)

  class Cache<V> {
    var cache: map<string, Entry<V>>
    var generation: map<string, nat>

    constructor ()
      ensures Contents() == Store(map[], map[])
    {
      cache, generation := map[], map[];
    }

    function Contents(): Store<V>
      reads this
    {
      Store(cache, generation)
    }

    /** `cached` up to its await: a live entry, or the generation the read starts in. */
    method Begin(key: string, now: int) returns (r: BeginResult<V>)
      ensures r.Hit? <==> Lookup(Contents(), key, now).Some?
      ensures r.Hit? ==> Lookup(Contents(), key, now) == Some(r.value)
      ensures r.Miss? ==> r.gen == Generation(Contents(), ProjectOf(key))
    {
      if key in cache && cache[key].expires > now {
        return Hit(cache[key].value);
      }
      var source := ProjectOf(key);
      return Miss(if source in generation then generation[source] else 0);
    }

    /** `cached` after its await: kept only in the generation it began in. */
    method Finish(key: string, gen: nat, value: V, now: int, ttl: int)
      modifies this`cache
      ensures Contents() == Keep(old(Contents()), key, gen, value, now + ttl)
    {
      var source := ProjectOf(key);
      var current := if source in generation then generation[source] else 0;
      if current == gen {
        cache := cache[key := Entry(now + ttl, value)];
      }
    }

    /** `invalidateProjectReads` */
    method Invalidate(project: string)
      modifies this
      ensures Contents() == Drop(old(Contents()), project)
    {
      var source := Source(project);
      generation := generation[source := (if source in generation then generation[source] else 0) + 1];
      var todo := cache.Keys;
      while todo != {}
        invariant todo <= old(cache).Keys
        invariant generation == Drop(old(Contents()), project).generation
        invariant cache == map k | k in old(cache) && !(source + "::" <= k && k !in todo) :: old(cache)[k]
      {
        var key :| key in todo;
        if source + "::" <= key { cache := cache - {key}; }
        todo := todo - {key};
      }
    }
  }
}
