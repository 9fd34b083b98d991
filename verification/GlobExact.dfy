/**
 Exactly which globs `globToRegExp` of src/kshetra/toolchain.ts translates faithfully:
 any sentinel that closes by accident changes the language.
 */
module GlobExact {

  import opened GlobAccidents
  import opened GlobCompile
  import opened GlobMatch
  import opened GlobSyntax
  import opened Prelude

  // ── a place in the spelled text ────────────────────────────────────────────

  /** Position `n` of the spelled text is `j` into what is spelled for token `i`. */
  ghost predicate IsPlace(ts: seq<Token>, stage: Stage, n: nat, i: nat, j: nat) {
    && i <= |ts| && n <= |Spell(ts, stage)| && |Spell(ts[..i], stage)| + j == n
    && (if i == |ts| then j == 0 && Spell(ts, stage)[n..] == []
        else j < |Item(ts[i], stage)| && Spell(ts, stage)[n..] == Item(ts[i], stage)[j..] + Spell(ts[i + 1..], stage))
    && Spell(ts, stage)[..n - j] == Spell(ts[..i], stage)
  }

  lemma {:induction false} Place(ts: seq<Token>, stage: Stage, n: nat) returns (i: nat, j: nat)
    requires n <= |Spell(ts, stage)|
    ensures IsPlace(ts, stage, n, i, j)
  {
    if ts == [] {
      i, j := 0, 0;
    } else if n < |Item(ts[0], stage)| {
      i, j := 0, n;
      PlaceHere(ts, stage, n);
    } else {
      hide Item;
      var m := |Item(ts[0], stage)|;
      i, j := Place(ts[1..], stage, n - m);
      PlaceLater(ts, stage, n, i, j);
      i := i + 1;
    }
  }

  lemma PlaceHere(ts: seq<Token>, stage: Stage, n: nat)
    requires ts != [] && n < |Item(ts[0], stage)|
    ensures IsPlace(ts, stage, n, 0, n)
  {
    hide Item;
    var item, rest := Item(ts[0], stage), Spell(ts[1..], stage);
    assert (item + rest)[n..] == item[n..] + rest;
  }

  lemma PlaceLater(ts: seq<Token>, stage: Stage, n: nat, i: nat, j: nat)
    requires ts != [] && n >= |Item(ts[0], stage)| && IsPlace(ts[1..], stage, n - |Item(ts[0], stage)|, i, j)
    ensures IsPlace(ts, stage, n, i + 1, j)
  {
    hide Item;
    var item, rest := Item(ts[0], stage), Spell(ts[1..], stage);
    var m := |item|;
    assert ts[..i + 1] == [ts[0]] + ts[1..][..i] && ts[..i + 1][1..] == ts[1..][..i];
    assert Spell(ts, stage) == item + rest;
    assert (item + rest)[n..] == rest[n - m..];
    assert (item + rest)[..n - j] == item + rest[..n - m - j];
    if i < |ts| - 1 {
      assert ts[1..][i] == ts[i + 1] && ts[1..][i + 1..] == ts[i + 2..];
    }
  }

  /** What is spelled for a written sentinel takes its room. */
  lemma {:induction false} OwnTakesRoom(ts: seq<Token>, stage: Stage)
    ensures OwnCount(ts, stage) > 0 ==> |Spell(ts, stage)| >= |stage.Sentinel()|
  {
    if ts != [] {
      OwnTakesRoom(ts[1..], stage);
    }
  }

  /** Up to a place not a sentinel's length behind the first token, which is none, no sentinel was written. */
  lemma NoOwnYet(ts: seq<Token>, stage: Stage, i: nat)
    requires i <= |ts| && ts != [] && ts[0] != stage.Own()
    requires |Spell(ts[..i], stage)| < |Item(ts[0], stage)| + |stage.Sentinel()|
    ensures OwnCount(ts[..i], stage) == 0
  {
    if i > 0 {
      assert ts[..i][0] == ts[0] && ts[..i][1..] == ts[1..i];
      OwnTakesRoom(ts[1..i], stage);
    }
  }

  // ── an accident that costs no sentinel overlaps one ────────────────────────

  /** A sentinel overlaps another of its kind in two characters or one. */
  lemma Border(stage: Stage, j: nat)
    requires 1 <= j < |stage.Sentinel()|
    requires forall m :: 0 <= m < j ==> stage.Sentinel()[|stage.Sentinel()| - j + m] == stage.Sentinel()[m]
    ensures j <= 2
  {
    var w := stage.Sentinel();
    assert w[|w| - j] == w[0];
    assert j > 1 ==> w[|w| - j + 1] == w[1];
  }

  /**
   An accident at `k`, when the pass finds no more sentinels than were written, takes
   one or two characters of a written one: token `i`, of which the rest remains.
   */
  ghost predicate Overlaps(ts: seq<Token>, stage: Stage, k: nat, i: nat, j: nat) {
    var w := stage.Sentinel();
    && i < |ts| && ts[i] == stage.Own() && 1 <= j <= 2
    && |Spell(ts[..i], stage)| + j == k + |w| && OwnCount(ts[..i], stage) == 0
    && k + |w| <= |Spell(ts, stage)|
    && Spell(ts, stage)[k + |w|..] == AsLits(w[j..]) + Spell(ts[i + 1..], stage)
  }

  lemma OwnOverlaps(ts: seq<Token>, stage: Stage, k: nat) returns (i: nat, j: nat)
    requires AccidentAt(ts, stage, k) && k + |stage.Sentinel()| <= |Spell(ts, stage)|
    requires OwnCount(ts, stage) == 1 + Found(Spell(ts, stage)[k + |stage.Sentinel()|..], stage)
    ensures Overlaps(ts, stage, k, i, j)
  {
    hide Spell, Item, AsLits, AccidentAt, OwnCount, Found;
    i, j := PlaceOfEnd(ts, stage, k);
    OwnIsCut(ts, stage, k + |stage.Sentinel()|, i, j);
    CutIsBorder(ts, stage, k, i, j);
    CutOverlaps(ts, stage, k, i, j);
  }

  lemma PlaceOfEnd(ts: seq<Token>, stage: Stage, k: nat) returns (i: nat, j: nat)
    requires AccidentAt(ts, stage, k) && k + |stage.Sentinel()| <= |Spell(ts, stage)|
    ensures IsPlace(ts, stage, k + |stage.Sentinel()|, i, j) && OwnCount(ts[..i], stage) == 0
  {
    i, j := Place(ts, stage, k + |stage.Sentinel()|);
    NoOwnYet(ts, stage, i);
  }

  lemma CutOverlaps(ts: seq<Token>, stage: Stage, k: nat, i: nat, j: nat)
    requires IsPlace(ts, stage, k + |stage.Sentinel()|, i, j) && OwnCount(ts[..i], stage) == 0
    requires i < |ts| && ts[i] == stage.Own() && 1 <= j <= 2
    ensures Overlaps(ts, stage, k, i, j)
  {
    hide Spell, OwnCount;
    OwnItem(stage);
    assert AsLits(stage.Sentinel())[j..] == AsLits(stage.Sentinel()[j..]);
  }

  /** Behind the place the pass finds every sentinel written there, so one is cut by it. */
  lemma OwnIsCut(ts: seq<Token>, stage: Stage, n: nat, i: nat, j: nat)
    requires IsPlace(ts, stage, n, i, j) && OwnCount(ts[..i], stage) == 0
    requires OwnCount(ts, stage) == 1 + Found(Spell(ts, stage)[n..], stage)
    ensures i < |ts| && ts[i] == stage.Own() && j > 0
  {
    hide Spell, Item, Found;
    assert ts == ts[..i] + ts[i..];
    OwnCountAppend(ts[..i], ts[i..], stage);
    if i < |ts| {
      OwnAreFound(ts[i + 1..], stage);
      FoundBehind(Item(ts[i], stage)[j..], Spell(ts[i + 1..], stage), stage);
      assert ts[i..][1..] == ts[i + 1..];
      if j == 0 && ts[i] == stage.Own() {
        WholeIsFound(ts, stage, i);
      }
    }
  }

  lemma WholeIsFound(ts: seq<Token>, stage: Stage, i: nat)
    requires i < |ts|
    ensures OwnCount(ts[i..], stage) <= Found(Item(ts[i], stage)[0..] + Spell(ts[i + 1..], stage), stage)
  {
    OwnAreFound(ts[i..], stage);
    assert ts[i..][1..] == ts[i + 1..] && Item(ts[i], stage)[0..] == Item(ts[i], stage);
  }

  lemma CutIsBorder(ts: seq<Token>, stage: Stage, k: nat, i: nat, j: nat)
    requires AccidentAt(ts, stage, k) && IsPlace(ts, stage, k + |stage.Sentinel()|, i, j)
    requires i < |ts| && ts[i] == stage.Own() && j > 0
    ensures j <= 2
  {
    hide AsLits, Item, Spell, AccidentAt, OwnCount;
    var w, all := stage.Sentinel(), Spell(ts, stage);
    OwnItem(stage);
    OwnBefore(ts, stage, k + |w|, i, j);
    AccidentReads(ts, stage, k);
    forall m | 0 <= m < j ensures w[|w| - j + m] == w[m] {
      SharedChar(all, w, k, j, m);
    }
    Border(stage, j);
  }

  lemma OwnItem(stage: Stage)
    ensures Item(stage.Own(), stage) == AsLits(stage.Sentinel())
  {
  }

  lemma AccidentReads(ts: seq<Token>, stage: Stage, k: nat)
    requires AccidentAt(ts, stage, k)
    ensures k <= |Spell(ts, stage)| && AsLits(stage.Sentinel()) <= Spell(ts, stage)[k..]
  {
  }

  lemma SharedChar(all: seq<Token>, w: string, k: nat, j: nat, m: nat)
    requires m < j < |w| && k + |w| <= |all| && AsLits(w) <= all[k..] && all[k + |w| - j..k + |w|] == AsLits(w)[..j]
    ensures w[|w| - j + m] == w[m]
  {
    var at := k + |w| - j + m;
    assert all[k..][|w| - j + m] == all[at] && AsLits(w)[|w| - j + m] == Lit(w[|w| - j + m]);
    assert all[k + |w| - j..k + |w|][m] == all[at] && AsLits(w)[..j][m] == Lit(w[m]);
  }

  /** What lies before the place is the beginning of the token it is in. */
  lemma OwnBefore(ts: seq<Token>, stage: Stage, n: nat, i: nat, j: nat)
    requires IsPlace(ts, stage, n, i, j) && i < |ts|
    ensures Spell(ts, stage)[n - j..n] == Item(ts[i], stage)[..j]
  {
    hide Item;
    assert ts == ts[..i] + ts[i..] && ts[i..][1..] == ts[i + 1..];
    SpellAppend(ts[..i], ts[i..], stage);
    var item := Item(ts[i], stage);
    assert Spell(ts, stage)[n - j..] == item + Spell(ts[i + 1..], stage);
  }

  // ── an accident of the first kind ──────────────────────────────────────────

  lemma {:induction false} SpellLengths(ts: seq<Token>)
    ensures |Lits(Spell(ts, UndoDirs))| == |Lits(ts)| + 7 * OwnCount(ts, UndoAny) + 8 * OwnCount(ts, UndoDirs)
  {
    if ts != [] {
      hide Lits, Item, Spell, OwnCount;
      SpellLengths(ts[1..]);
      SpellHead(ts, UndoDirs);
      SpellHead(ts, UndoAny);
      LitsAppend(Item(ts[0], UndoDirs), Spell(ts[1..], UndoDirs));
      ItemLength(ts[0]);
      HeadCounts(ts[0], ts[1..]);
      assert ts == [ts[0]] + ts[1..];
    }
  }

  lemma ItemLength(t: Token)
    ensures |Lits(Item(t, UndoDirs))| == |Lits([t])| + (if t.Any? then 7 else 0) + if t.Dirs? then 8 else 0
  {
    hide Lits;
    SentinelCounts(UndoDirs);
    SentinelCounts(UndoAny);
    LitsOne(t);
  }

  /** Texts in which as many `D` come before have their next one at the same place. */
  lemma SamePlace(a: string, x: string, b: string, y: string)
    requires a + "D" + x == b + "D" + y && Ds(a) == Ds(b)
    ensures |a| == |b|
  {
    if |a| < |b| {
      DsBefore(a, x, b, y);
    } else if |b| < |a| {
      DsBefore(b, y, a, x);
    }
  }

  lemma DsBefore(a: string, x: string, b: string, y: string)
    requires a + "D" + x == b + "D" + y && |a| < |b|
    ensures Ds(a) < Ds(b)
  {
    var s := a + "D" + x;
    assert b == s[..|b|] && s[..|a| + 1] == a + "D";
    assert b == (a + "D") + b[|a| + 1..];
    DsAppend(a + "D", b[|a| + 1..]);
    DsAppend(a, "D");
    assert "D"[1..] == "";
  }

  /**
   What is literal before the `D` of an accident: `x` is spelled there, and token `q`
   is that `D`.
   */
  ghost predicate ReadsBefore(ts: seq<Token>, k: nat, x: string, q: nat) {
    && q < |ts| && ts[q] == Lit('D') && |x| == k + 2 && Spell(ts[..q], UndoDirs) == AsLits(x) && OwnCount(ts[..q], UndoDirs) == 0
    && k + 2 <= |Spell(ts, UndoDirs)| && Spell(ts, UndoDirs)[..k] == AsLits(x[..k])
    && forall m :: 0 <= m < |x| ==> x[m] != 'D'
  }

  lemma AccidentIsRead(ts: seq<Token>, k: nat) returns (x: string, q: nat)
    requires AccidentAt(ts, UndoDirs, k)
    ensures ReadsBefore(ts, k, x, q)
  {
    var all := Spell(ts, UndoDirs);
    AccidentReads(ts, UndoDirs, k);
    x := TextBefore(ts, k);
    assert all[k..][2] == AsLits(DIRS)[2] == Lit('D');
    var r;
    q, r := Place(ts, UndoDirs, k + 2);
    assert all[k + 2..][0] == all[k + 2] == all[k..][2];
    LiteralD(ts, k, q, r);
    NoOwnYet(ts, UndoDirs, q);
  }

  lemma TextBefore(ts: seq<Token>, k: nat) returns (x: string)
    requires AccidentAt(ts, UndoDirs, k)
    ensures k + 8 <= |Spell(ts, UndoDirs)| && |x| == k + 2 && Spell(ts, UndoDirs)[..k + 2] == AsLits(x)
    ensures forall m :: 0 <= m < |x| ==> x[m] != 'D'
  {
    var all := Spell(ts, UndoDirs);
    assert |AsLits(DIRS)| == 8;
    x := ANY[..k] + "@@";
    forall m | 0 <= m < k + 2 ensures all[m] == Lit(x[m]) {
      if m < k {
        assert all[m] == Item(ts[0], UndoDirs)[m];
      } else {
        assert all[m] == all[k..][m - k] == AsLits(DIRS)[m - k];
      }
    }
  }

  lemma LiteralD(ts: seq<Token>, k: nat, q: nat, r: nat)
    requires AccidentAt(ts, UndoDirs, k) && IsPlace(ts, UndoDirs, k + 2, q, r)
    requires |Spell(ts, UndoDirs)| > k + 2 && Spell(ts, UndoDirs)[k + 2..][0] == Lit('D')
    ensures q < |ts| && ts[q] == Lit('D') && r == 0
  {
    assert q < |ts|;
    assert Item(ts[q], UndoDirs)[r] == Lit('D');
  }

  /** One or two characters that begin no sentinel stay at the head of the text. */
  lemma ShortIsKept(xs: seq<Token>, stage: Stage, c: string)
    requires 1 <= |c| <= 2 && c[|c| - 1] != '@' && AsLits(c) <= xs
    ensures AsLits(c) <= Undo(xs, stage)
  {
    var w := AsLits(stage.Sentinel());
    assert w[0] == w[1] == Lit('@') && xs[|c| - 1] == AsLits(c)[|c| - 1] == Lit(c[|c| - 1]);
    assert !(w <= xs);
    if |c| == 2 {
      assert xs[1..][0] == xs[1];
      assert !(w <= xs[1..]);
      assert Undo(xs, stage) == [xs[0]] + Undo(xs[1..], stage);
      assert Undo(xs[1..], stage)[0] == xs[1];
      assert xs[0] == AsLits(c)[0];
    }
  }

  /** The second pass does not reach over what the first has written. */
  lemma {:induction false} UndoBarrier(a: seq<Token>, b: seq<Token>)
    ensures Undo(a + ([Dirs] + b), UndoAny) == Undo(a, UndoAny) + ([Dirs] + Undo(b, UndoAny))
    decreases |a|
  {
    hide Undo, Found, AsLits;
    var all := a + ([Dirs] + b);
    if a == [] {
      BarrierHere(b);
      assert all == [Dirs] + b;
    } else {
      SameHead(a, b);
      if AsLits(ANY) <= a {
        UndoFound(a, UndoAny);
        UndoFound(all, UndoAny);
        UndoBarrier(a[7..], b);
        assert all[7..] == a[7..] + ([Dirs] + b);
      } else {
        UndoNext(a, UndoAny);
        UndoNext(all, UndoAny);
        UndoBarrier(a[1..], b);
        assert all[1..] == a[1..] + ([Dirs] + b) && all[0] == a[0];
      }
    }
  }

  lemma BarrierHere(b: seq<Token>)
    ensures Undo([], UndoAny) == [] && Undo([Dirs] + b, UndoAny) == [Dirs] + Undo(b, UndoAny)
  {
    var all := [Dirs] + b;
    assert all[0] == Dirs && AsLits(ANY)[0].Lit? && all[1..] == b;
    UndoNext(all, UndoAny);
  }

  lemma SameHead(a: seq<Token>, b: seq<Token>)
    ensures AsLits(ANY) <= a + ([Dirs] + b) <==> AsLits(ANY) <= a
    ensures AsLits(ANY) <= a ==> |a| >= 7
  {
    var all := a + ([Dirs] + b);
    assert all[|a|] == Dirs;
    assert |a| < 7 ==> AsLits(ANY)[|a|].Lit?;
    assert |a| >= 7 ==> all[..7] == a[..7];
  }

  /** What an accident of the first kind leaves: `D` or `@D` comes next where the accident was. */
  lemma AccidentLeaves(ts: seq<Token>, us: seq<Token>, pre: seq<Token>, suf: seq<Token>, k: nat, i: nat, j: nat)
      returns (y: string)
    requires SplitsAt(ts, UndoDirs, pre, suf, k) && Overlaps(suf, UndoDirs, k, i, j)
    requires us == Undo(Undo(Spell(ts, UndoDirs), UndoDirs), UndoAny)
    ensures var head := Spell(pre, UndoAny) + Spell(suf, UndoDirs)[..k];
      Lits(us) == Lits(Undo(head, UndoAny)) + (if j == 2 then "" else "@") + "D" + y
  {
    hide Undo, Found, Spell, AsLits, Lits, OwnCount, AccidentAt;
    var head, tail := Spell(pre, UndoAny) + Spell(suf, UndoDirs)[..k], Spell(suf, UndoDirs)[k + 8..];
    var c := if j == 2 then "D" else "@D";
    TailBegins(suf, k, i, j);
    ShortIsKept(tail, UndoDirs, c);
    var once := Undo(tail, UndoDirs);
    ShortIsKept(once, UndoAny, c);
    Regroup(head, [Dirs], once);
    UndoBarrier(head, once);
    y := LeavesText(Undo(head, UndoAny), Undo(once, UndoAny), c);
  }

  lemma TailBegins(suf: seq<Token>, k: nat, i: nat, j: nat)
    requires Overlaps(suf, UndoDirs, k, i, j)
    ensures AsLits(if j == 2 then "D" else "@D") <= Spell(suf, UndoDirs)[k + 8..]
  {
    assert AsLits(DIRS[2..])[..1] == AsLits("D");
    assert AsLits(DIRS[1..])[..2] == AsLits("@D");
  }

  lemma LeavesText(a: seq<Token>, b: seq<Token>, c: string) returns (y: string)
    requires c in {"D", "@D"} && AsLits(c) <= b
    ensures Lits(a + ([Dirs] + b)) == Lits(a) + (if c == "D" then "" else "@") + "D" + y
  {
    var rest := b[|c|..];
    y := Lits(rest);
    LitsAppend(a, [Dirs] + b);
    LitsAppend([Dirs], b);
    LitsOne(Dirs);
    LitsAppend(AsLits(c), rest);
    LitsOfText(c);
    assert b == AsLits(c) + rest;
    assert Lits(a) + ("" + (c + y)) == Lits(a) + (if c == "D" then "" else "@") + "D" + y;
  }

  /** The literals of the glob up to that `D`. */
  lemma GlobReads(ts: seq<Token>, pre: seq<Token>, suf: seq<Token>, k: nat, x: string, q: nat)
    requires ts == pre + suf && ReadsBefore(suf, k, x, q)
    ensures Lits(ts) == Lits(pre) + Lits(suf[..q]) + "D" + Lits(suf[q + 1..])
    ensures k + 2 == |Lits(suf[..q])| + 7 * OwnCount(suf[..q], UndoAny) && Ds(Lits(suf[..q])) == 0
  {
    hide Lits, Spell, AsLits, OwnCount, Ds;
    var mid, rest := suf[..q], suf[q + 1..];
    LitsAppend(pre, suf);
    LitsAppend(mid, [Lit('D')] + rest);
    LitsAppend([Lit('D')], rest);
    LitsOne(Lit('D'));
    assert suf == mid + ([Lit('D')] + rest);
    SpellLengths(mid);
    SpellCounts(mid, UndoDirs);
    LitsOfText(x);
    NoDs(x);
    FourTexts(Lits(pre), Lits(mid), "D", Lits(rest));
  }

  lemma FourTexts(a: string, b: string, c: string, d: string)
    ensures a + (b + (c + d)) == a + b + c + d
  {
  }

  /** The literals the RegExp keeps of what comes before the accident. */
  lemma HeadKeeps(pre: seq<Token>, suf: seq<Token>, k: nat, x: string, q: nat)
    requires ReadsBefore(suf, k, x, q)
    ensures var head := Spell(pre, UndoAny) + Spell(suf, UndoDirs)[..k];
      && |Lits(pre)| + 7 * OwnCount(pre, UndoAny) + k == |Lits(Undo(head, UndoAny))| + 7 * Found(head, UndoAny)
      && Ds(Lits(Undo(head, UndoAny))) == Ds(Lits(pre))
  {
    var head := Spell(pre, UndoAny) + Spell(suf, UndoDirs)[..k];
    UndoCounts(head, UndoAny);
    SpellCounts(pre, UndoAny);
    LitsAppend(Spell(pre, UndoAny), Spell(suf, UndoDirs)[..k]);
    LitsOfText(x[..k]);
    NoDs(x[..k]);
    DsAppend(Lits(Spell(pre, UndoAny)), x[..k]);
  }

  /** An accident of the first kind changes the glob's literals: counted modulo 7, the next `D` is not where it was. */
  lemma DirsAccidentShows(ts: seq<Token>)
    requires !Clean(ts, UndoDirs)
    ensures Lits(Undo(Undo(Spell(ts, UndoDirs), UndoDirs), UndoAny)) != Lits(ts)
  {
    hide Undo, Spell, Lits, Ds, OwnCount, Found, AccidentAt, Clean;
    var us := Undo(Undo(Spell(ts, UndoDirs), UndoDirs), UndoAny);
    if Lits(us) == Lits(ts) {
      var pre, suf, k := FirstAccident(ts, UndoDirs);
      NoneIsLost(ts, us, pre, suf, k);
      var i, j := OwnOverlaps(suf, UndoDirs, k);
      var x, q := AccidentIsRead(suf, k);
      var y := AccidentLeaves(ts, us, pre, suf, k, i, j);
      GlobReads(ts, pre, suf, k, x, q);
      HeadKeeps(pre, suf, k, x, q);
      var head := Spell(pre, UndoAny) + Spell(suf, UndoDirs)[..k];
      var before, after := Lits(pre) + Lits(suf[..q]), Lits(Undo(head, UndoAny)) + if j == 2 then "" else "@";
      DsAppend(Lits(pre), Lits(suf[..q]));
      DsOfMark(Lits(Undo(head, UndoAny)), j);
      SamePlace(before, Lits(suf[q + 1..]), after, y);
    }
  }

  lemma DsOfMark(s: string, j: nat)
    ensures Ds(s + if j == 2 then "" else "@") == Ds(s)
  {
    NoDs(if j == 2 then "" else "@");
    DsAppend(s, if j == 2 then "" else "@");
  }

  /** With the same literals, the first pass finds as many sentinels as were written, though the accident is one of them. */
  lemma NoneIsLost(ts: seq<Token>, us: seq<Token>, pre: seq<Token>, suf: seq<Token>, k: nat)
    requires us == Undo(Undo(Spell(ts, UndoDirs), UndoDirs), UndoAny) && Lits(us) == Lits(ts)
    requires SplitsAt(ts, UndoDirs, pre, suf, k)
    ensures OwnCount(suf, UndoDirs) == 1 + Found(Spell(suf, UndoDirs)[k + 8..], UndoDirs)
  {
    hide Undo, Spell, Lits, Ds, OwnCount, Found, AccidentAt;
    UndoCounts(Spell(ts, UndoDirs), UndoDirs);
    UndoCounts(Undo(Spell(ts, UndoDirs), UndoDirs), UndoAny);
    SpellCounts(ts, UndoDirs);
    OwnCountAppend(pre, suf, UndoDirs);
  }

  // ── an accident of the second kind ─────────────────────────────────────────

  lemma AnyAccidentShows(ts: seq<Token>)
    requires !Clean(ts, UndoAny)
    ensures Lits(Undo(Spell(ts, UndoAny), UndoAny)) != Lits(ts)
  {
    hide Undo, Spell, Lits, OwnCount, Found, AccidentAt, Clean;
    var us := Undo(Spell(ts, UndoAny), UndoAny);
    if Lits(us) == Lits(ts) {
      var pre, suf, k := FirstAccident(ts, UndoAny);
      UndoCounts(Spell(ts, UndoAny), UndoAny);
      SpellCounts(ts, UndoAny);
      OwnCountAppend(pre, suf, UndoAny);
      var i, j := OwnOverlaps(suf, UndoAny, k);
      BeginsWithMarks(suf, k);
      var y := AnyLeaves(ts, us, pre, suf, i, j);
      LitsAppend(pre, suf);
      MarksDiffer(Lits(pre), Lits(suf[2..]), y, j);
    }
  }

  lemma MarksDiffer(a: string, z: string, y: string, j: nat)
    ensures a + ("@@" + z) != a + ((if j == 2 then "A" else "@A") + y)
  {
    var s, t := a + ("@@" + z), a + ((if j == 2 then "A" else "@A") + y);
    var at := |a| + if j == 2 then 0 else 1;
    assert s[at] == '@' && t[at] == 'A';
  }

  lemma BeginsWithMarks(ts: seq<Token>, k: nat)
    requires AccidentAt(ts, UndoAny, k)
    ensures k == 0 && |ts| >= 2 && Lits(ts) == "@@" + Lits(ts[2..])
  {
    FirstThree(ts, k);
    MarksFirst(ts);
  }

  lemma MarksFirst(ts: seq<Token>)
    requires |ts| >= 2 && ts[0] == ts[1] == Lit('@')
    ensures Lits(ts) == "@@" + Lits(ts[2..])
  {
    hide Lits;
    var one, rest := [Lit('@')], ts[2..];
    LitsOne(Lit('@'));
    LitsAppend(one, one + rest);
    LitsAppend(one, rest);
    assert ts == one + (one + rest);
  }

  lemma FirstThree(ts: seq<Token>, k: nat)
    requires AccidentAt(ts, UndoAny, k)
    ensures k == 0 && |ts| >= 2 && ts[0] == ts[1] == Lit('@')
  {
    var all, w := Spell(ts, UndoAny), AsLits(ANY);
    assert all[k..] == all;
    assert all[0] == w[0] == Lit('@') && all[1] == w[1] == Lit('@') && all[2] == w[2] == Lit('A');
    assert ts[0] == Lit('@') && all == [ts[0]] + Spell(ts[1..], UndoAny);
    SecondIsMark(ts[1..], all[1..]);
  }

  lemma SecondIsMark(ts: seq<Token>, all: seq<Token>)
    requires all == Spell(ts, UndoAny) && |all| >= 2 && all[0] == Lit('@') && all[1] == Lit('A')
    ensures ts != [] && ts[0] == Lit('@')
  {
    assert AsLits(ANY)[1] == Lit('@');
  }

  lemma AnyLeaves(ts: seq<Token>, us: seq<Token>, pre: seq<Token>, suf: seq<Token>, i: nat, j: nat) returns (y: string)
    requires SplitsAt(ts, UndoAny, pre, suf, 0) && Overlaps(suf, UndoAny, 0, i, j) && us == Undo(Spell(ts, UndoAny), UndoAny)
    ensures Lits(us) == Lits(pre) + ((if j == 2 then "A" else "@A") + y)
  {
    hide Undo, Found, Spell, Lits, OwnCount, AccidentAt;
    var tail, c := Spell(suf, UndoAny)[7..], if j == 2 then "A" else "@A";
    AnyTailBegins(suf, i, j);
    ShortIsKept(tail, UndoAny, c);
    var once := Undo(tail, UndoAny);
    LeftNothing(pre, suf);
    Regroup(pre, [Any], once);
    y := AnyText(pre, once, c);
  }

  lemma LeftNothing(pre: seq<Token>, suf: seq<Token>)
    ensures Left(pre, UndoAny) + Spell(suf, UndoAny)[..0] == pre
  {
  }

  lemma AnyTailBegins(suf: seq<Token>, i: nat, j: nat)
    requires Overlaps(suf, UndoAny, 0, i, j)
    ensures AsLits(if j == 2 then "A" else "@A") <= Spell(suf, UndoAny)[7..]
  {
    assert AsLits(ANY[2..])[..1] == AsLits("A");
    assert AsLits(ANY[1..])[..2] == AsLits("@A");
  }

  lemma AnyText(pre: seq<Token>, b: seq<Token>, c: string) returns (y: string)
    requires AsLits(c) <= b
    ensures Lits(pre + ([Any] + b)) == Lits(pre) + (c + y)
  {
    y := Lits(b[|c|..]);
    assert b == AsLits(c) + b[|c|..];
    LitsAppend(AsLits(c), b[|c|..]);
    LitsOfText(c);
    LitsOne(Any);
    LitsAppend([Any], b);
    LitsAppend(pre, [Any] + b);
    assert "" + Lits(b) == Lits(b);
  }

  // ── the exact condition ────────────────────────────────────────────────────

  lemma {:induction false} CleanIsUntouched(ts: seq<Token>)
    ensures Clean(ts, UndoDirs) ==> Untouched(ts, 4, Dirs, DIRS)
    ensures Clean(ts, UndoAny) ==> Untouched(ts, 5, Any, ANY)
  {
    if ts != [] {
      CleanIsUntouched(ts[1..]);
      SpellRenders(ts[1..]);
      if Clean(ts, UndoDirs) && ts[0] != Dirs {
        HeadIsUntouched(ts, UndoDirs, Text(ts[0], 4), Render(ts[1..], 4));
      }
      if Clean(ts, UndoAny) && ts[0] != Any {
        HeadIsUntouched(ts, UndoAny, Text(ts[0], 5), Render(ts[1..], 5));
      }
    }
  }

  lemma HeadIsUntouched(ts: seq<Token>, stage: Stage, text: string, rest: string)
    requires ts != [] && ts[0] != stage.Own() && forall k: nat :: k < |Item(ts[0], stage)| ==> !AccidentAt(ts, stage, k)
    requires text == Text(ts[0], if stage.UndoDirs? then 4 else 5) && rest == Render(Spell(ts[1..], stage), 6)
    ensures NoMatchIn(text, rest, stage.Sentinel())
  {
    var w := stage.Sentinel();
    if ts[0].Any? || ts[0] == Lit('@') {
      forall k | 0 <= k < |text| ensures !(w <= (text + rest)[k..]) {
        NoMatchAt(ts, stage, text, rest, k);
      }
    } else {
      assert '@' !in text;
      NoAtNoMatch(text, rest, w);
    }
  }

  lemma NoMatchAt(ts: seq<Token>, stage: Stage, text: string, rest: string, k: nat)
    requires ts != [] && (ts[0].Any? || ts[0] == Lit('@')) && ts[0] != stage.Own() && !AccidentAt(ts, stage, k)
    requires k < |text| && text == (if ts[0].Any? then ANY else "@") && rest == Render(Spell(ts[1..], stage), 6)
    ensures !(stage.Sentinel() <= (text + rest)[k..])
  {
    hide Render, AsLits, Spell, Item, AccidentAt, IsSpecial;
    SpelledFrom(ts, stage, text, k);
    TextIsBare(text, k);
    SentinelsAreBare();
    NoTextMatch(Spell(ts, stage)[k..], text[k..], Spell(ts[1..], stage), stage.Sentinel());
    assert (text + rest)[k..] == text[k..] + rest;
  }

  lemma NoTextMatch(xs: seq<Token>, a: string, rest: seq<Token>, w: string)
    requires xs == AsLits(a) + rest && Bare(a) && Bare(w) && !(AsLits(w) <= xs)
    ensures !(w <= a + Render(rest, 6))
  {
    hide Render, AsLits, Bare;
    RenderAppend(AsLits(a), rest, 6);
    LitsRender(a);
    TextIsLits(xs, w);
  }

  lemma TextIsBare(text: string, k: nat)
    requires text in {ANY, "@"} && k <= |text|
    ensures Bare(text[k..])
  {
    SentinelsAreBare();
    assert ANY[0] == '@';
    forall c | c in text[k..] ensures !IsSpecial(c) {
      assert c in text;
      assert c in ANY;
    }
  }

  lemma SpelledFrom(ts: seq<Token>, stage: Stage, text: string, k: nat)
    requires ts != [] && (ts[0].Any? || ts[0] == Lit('@')) && text == (if ts[0].Any? then ANY else "@") && k < |text|
    requires ts[0] != stage.Own() && !AccidentAt(ts, stage, k)
    ensures k <= |Spell(ts, stage)| && Spell(ts, stage)[k..] == AsLits(text[k..]) + Spell(ts[1..], stage)
    ensures !(AsLits(stage.Sentinel()) <= Spell(ts, stage)[k..])
  {
    assert Item(ts[0], stage) == AsLits(text);
  }

  /** Any accidental sentinel changes the literals; a glob that keeps them compiles to itself. */
  lemma AccidentShows(glob: string)
    requires Lits(Compiled(glob)) == Lits(Tokenize(glob))
    ensures SentinelsSafe(Tokenize(glob)) && Compiled(glob) == Tokenize(glob)
  {
    hide Undo, Spell, Lits, Clean, Untouched;
    var ts := Tokenize(glob);
    CleanIsUntouched(ts);
    if !Clean(ts, UndoDirs) {
      DirsAccidentShows(ts);
    } else {
      CleanUndo(ts, UndoDirs);
      if !Clean(ts, UndoAny) {
        AnyAccidentShows(ts);
      } else {
        CleanUndo(ts, UndoAny);
      }
    }
  }

  /**
   Every glob: the translation is faithful exactly when the glob has no `?` and no
   sentinel closes in it by accident.
   */
  lemma FaithfulExactlyWhenSafe(glob: string)
    ensures Faithful(glob) <==> '?' !in glob && SentinelsSafe(Tokenize(glob))
  {
    var ts, us := Tokenize(glob), Compiled(glob);
    LiteralsAreCharacters(glob, '?');
    if '?' in glob {
      MarkIsNeverFaithful(glob);
    } else if SentinelsSafe(ts) {
      SafeGlobIsFaithful(glob);
    } else if Faithful(glob) {
      forall s ensures MeansInLines(us, s) <==> MeansInLines(ts, s) {
        RegExpMeansCompiled(glob, s);
      }
      SameMeaningSameLits(ts, us);
      AccidentShows(glob);
    }
  }
}
