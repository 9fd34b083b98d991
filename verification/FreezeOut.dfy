/**
 Where a snapshot is written: `resolveFreezeOutDir` of src/cli/freeze.ts.
 */
module FreezeOut {

  import opened Prelude
  import opened FileTree

  const MANIFEST := "manifest.json"

  /** `readdirSync(dir)` */
  function Entries(fs: Fs, dir: Path): set<string> {
    set q | q in fs && dir < q :: q[|dir|]
  }

  /** A directory with a manifest in it. */
  predicate IsSnapshot(fs: Fs, p: Path) {
    p in fs && fs[p].Dir? && p + [MANIFEST] in fs
  }

  predicate Ignorable(name: string) {
    name != "" && name[0] == '.'
  }

  predicate Recognised(fs: Fs, out: Path, name: string) {
    Ignorable(name) || IsSnapshot(fs, out + [name])
  }

  /** An entry that is not hidden, and no directory with a manifest in it. */
  predicate IsForeign(fs: Fs, out: Path, name: string) {
    && (name == "" || name[0] != '.')
    && !(out + [name] in fs && fs[out + [name]].Dir? && out + [name] + ["manifest.json"] in fs)
  }

  /** Absent, or a directory with nothing in it. */
  predicate IsFree(fs: Fs, dir: Path) {
    dir in fs ==> fs[dir].Dir? && Entries(fs, dir) == {}
  }

  predicate NothingIn(fs: Fs, dir: Path) {
    forall q :: q in fs ==> !(dir < q)
  }

  lemma FreeHoldsNothing(fs: Fs, dir: Path)
    ensures IsFree(fs, dir) <==> dir !in fs || (fs[dir].Dir? && NothingIn(fs, dir))
  {
    forall q | q in fs && dir < q ensures q[|dir|] in Entries(fs, dir) {}
  }

  // ── base, base-2, base-3, … ────────────────────────────────────────────────

  function Decimal(n: nat): (s: string)
    ensures s != ""
  {
    var last := ['0' + (n % 10) as char];
    if n < 10 then last else Decimal(n / 10) + last
  }

  lemma {:induction false} DecimalTellsApart(m: nat, n: nat)
    requires Decimal(m) == Decimal(n)
    ensures m == n
    decreases m + n
  {
    var a, b := Decimal(m), Decimal(n);
    assert a[|a| - 1] == b[|b| - 1];
    assert m % 10 == n % 10;
    assert m >= 10 ==> a[..|a| - 1] == Decimal(m / 10);
    assert n >= 10 ==> b[..|b| - 1] == Decimal(n / 10);
    if m >= 10 && n >= 10 {
      DecimalTellsApart(m / 10, n / 10);
    }
  }

  /** The number a decimal numeral stands for. */
  function Value(s: string): int {
    if s == "" then 0 else 10 * Value(s[..|s| - 1]) + (s[|s| - 1] as int - '0' as int)
  }

  /** A number's numeral is made of digits, has no leading zero, and stands for the number. */
  lemma {:induction false} DecimalIsNumeral(n: nat)
    ensures Value(Decimal(n)) == n && forall i :: 0 <= i < |Decimal(n)| ==> '0' <= Decimal(n)[i] <= '9'
    ensures n > 0 ==> Decimal(n)[0] != '0'
  {
    var s := Decimal(n);
    var last := ['0' + (n % 10) as char];
    if n < 10 {
      assert s == last && s[..0] == "";
    } else {
      DecimalIsNumeral(n / 10);
      assert s == Decimal(n / 10) + last && s[..|s| - 1] == Decimal(n / 10);
    }
  }

  /** The `k`th name tried, counting from 1. */
  function Candidate(out: Path, base: string, k: nat): Path {
    out + [if k <= 1 then base else base + "-" + Decimal(k)]
  }

  function Numbered(out: Path, base: string, k: nat): Path {
    out + [base + "-" + Decimal(k)]
  }

  lemma CandidatesDiffer(out: Path, base: string, j: nat, k: nat)
    requires 1 <= j < k
    ensures Candidate(out, base, j) != Candidate(out, base, k)
  {
    var a := if j == 1 then base else base + "-" + Decimal(j);
    var b := base + "-" + Decimal(k);
    assert Candidate(out, base, j)[|out|] == a && Candidate(out, base, k)[|out|] == b;
    assert j > 1 ==> a[|base| + 1..] == Decimal(j);
    assert b[|base| + 1..] == Decimal(k);
    if j > 1 && a == b {
      DecimalTellsApart(j, k);
    }
  }

  // ── resolveFreezeOutDir ────────────────────────────────────────────────────

  /** The directory the snapshot goes to; none where the call throws. */
  method ResolveFreezeOutDir(fs: Fs, out: Path, base: string) returns (r: Option<Path>)
    ensures r.Some? ==> IsFree(fs, r.value)
    ensures r.Some? ==> r.value !in fs || (fs[r.value].Dir? && NothingIn(fs, r.value))
    ensures IsFree(fs, out) ==> r == Some(out)
    ensures r.Some? && !IsFree(fs, out) ==>
      && (forall name :: name in Entries(fs, out) ==> Recognised(fs, out, name))
      && (r.value == out + [base] || exists k: nat :: k >= 2 && r.value == Numbered(out, base, k))
      && exists k :: k >= 1 && r.value == Candidate(out, base, k)
           && forall j :: 1 <= j < k ==> !IsFree(fs, Candidate(out, base, j))
    ensures r.Some? && !IsFree(fs, out) ==> forall name :: name in Entries(fs, out) ==> !IsForeign(fs, out, name)
    ensures r.None? ==>
      || (out in fs && fs[out].File?)
      || (exists name :: name in Entries(fs, out) && IsForeign(fs, out, name))
      || (exists k :: k >= 1 && Candidate(out, base, k) in fs && fs[Candidate(out, base, k)].File?)
  {
    FreeHoldsNothing(fs, out);
    if out !in fs {
      return Some(out);
    }
    if fs[out].File? {
      return None;
    }
    var entries := Entries(fs, out);
    if entries == {} {
      return Some(out);
    }
    if exists name :: name in entries && !Recognised(fs, out, name) {
      return None;
    }
    var n := 1;
    var dir := Candidate(out, base, n);
    ghost var tried: set<Path> := {};
    while dir in fs
      invariant n >= 1 && dir == Candidate(out, base, n)
      invariant tried == set j | 1 <= j < n :: Candidate(out, base, j)
      invariant tried <= fs.Keys
      invariant forall j :: 1 <= j < n ==> !IsFree(fs, Candidate(out, base, j))
      decreases fs.Keys - tried
    {
      if fs[dir].File? {
        return None;
      }
      if Entries(fs, dir) == {} {
        break;
      }
      forall j | 1 <= j < n ensures Candidate(out, base, j) != dir {
        CandidatesDiffer(out, base, j, n);
      }
      tried := tried + {dir};
      n := n + 1;
      dir := Candidate(out, base, n);
    }
    FreeHoldsNothing(fs, dir);
    assert n >= 2 ==> dir == Numbered(out, base, n);
    return Some(dir);
  }
}
