/**
 Sentinels that close by accident in `globToRegExp` of src/kshetra/toolchain.ts: how
 many a pass finds, what they leave of the glob's literal characters, and where the
 first one is.
 */
module GlobAccidents {

  import opened GlobCompile
  import opened GlobMatch
  import opened GlobSyntax
  import opened Prelude

  // ── the literal characters of a glob ───────────────────────────────────────

  function Lits(xs: seq<Token>): string {
    if xs == [] then "" else (if xs[0].Lit? then [xs[0].c] else "") + Lits(xs[1..])
  }

  lemma {:induction false} LitsAppend(a: seq<Token>, b: seq<Token>)
    ensures Lits(a + b) == Lits(a) + Lits(b)
  {
    if a == [] {
      assert a + b == b;
    } else {
      LitsAppend(a[1..], b);
      assert (a + b)[1..] == a[1..] + b && (a + b)[0] == a[0];
      Regroup(if a[0].Lit? then [a[0].c] else "", Lits(a[1..]), Lits(b));
    }
  }

  lemma {:induction false} LitsOfText(w: string)
    ensures Lits(AsLits(w)) == w
  {
    if w != "" {
      LitsOfText(w[1..]);
      assert AsLits(w)[1..] == AsLits(w[1..]) && w == [w[0]] + w[1..];
    }
  }

  /** Every wildcard standing for nothing, a glob means its literals. */
  lemma {:induction false} LitsAreMeant(ts: seq<Token>) returns (parts: seq<string>)
    ensures Splits(ts, parts, Lits(ts)) && OnOneLine(ts, parts)
  {
    if ts == [] {
      parts := [];
    } else {
      var rest := LitsAreMeant(ts[1..]);
      DirectoriesEndInSlash("");
      parts := [if ts[0].Lit? then [ts[0].c] else ""] + rest;
      assert parts[1..] == rest;
      forall i | 0 <= i < |ts|
        ensures TokenMeans(ts[i], parts[i]) && (ts[i].Any? || ts[i].Dirs? ==> OneLine(parts[i]))
      {
        assert i > 0 ==> ts[i] == ts[1..][i - 1] && parts[i] == rest[i - 1];
      }
    }
  }

  /** And whatever it means is longer, or is its literals. */
  lemma {:induction false} MeaningIsLonger(ts: seq<Token>, parts: seq<string>, s: string)
    requires Splits(ts, parts, s)
    ensures |s| >= |Lits(ts)| && (|s| == |Lits(ts)| ==> s == Lits(ts))
  {
    if ts != [] {
      MeaningIsLonger(ts[1..], parts[1..], Concat(parts[1..]));
      assert TokenMeans(ts[0], parts[0]);
    }
  }

  /** Globs that mean the same have the same literals. */
  lemma SameMeaningSameLits(ts: seq<Token>, us: seq<Token>)
    requires forall s :: MeansInLines(us, s) <==> MeansInLines(ts, s)
    ensures Lits(us) == Lits(ts)
  {
    var p := LitsAreMeant(ts);
    var q := LitsAreMeant(us);
    assert MeansInLines(us, Lits(ts)) && MeansInLines(ts, Lits(us));
    var p' :| Splits(us, p', Lits(ts)) && OnOneLine(us, p');
    var q' :| Splits(ts, q', Lits(us)) && OnOneLine(ts, q');
    MeaningIsLonger(us, p', Lits(ts));
    MeaningIsLonger(ts, q', Lits(us));
  }

  // ── how many sentinels there are, and how many a pass finds ────────────────

  function OwnCount(ts: seq<Token>, stage: Stage): nat {
    if ts == [] then 0 else (if ts[0] == stage.Own() then 1 else 0) + OwnCount(ts[1..], stage)
  }

  function Found(xs: seq<Token>, stage: Stage): nat
    decreases |xs|
  {
    var w := stage.Sentinel();
    if xs == [] then 0
    else if AsLits(w) <= xs then 1 + Found(xs[|w|..], stage)
    else Found(xs[1..], stage)
  }

  lemma {:induction false} OwnCountAppend(a: seq<Token>, b: seq<Token>, stage: Stage)
    ensures OwnCount(a + b, stage) == OwnCount(a, stage) + OwnCount(b, stage)
  {
    if a == [] {
      assert a + b == b;
    } else {
      OwnCountAppend(a[1..], b, stage);
      assert (a + b)[1..] == a[1..] + b && (a + b)[0] == a[0];
    }
  }

  lemma {:induction false} SpellAppend(a: seq<Token>, b: seq<Token>, stage: Stage)
    ensures Spell(a + b, stage) == Spell(a, stage) + Spell(b, stage)
  {
    hide Item;
    if a == [] {
      assert a + b == b;
    } else {
      SpellAppend(a[1..], b, stage);
      assert (a + b)[1..] == a[1..] + b && (a + b)[0] == a[0];
      Regroup(Item(a[0], stage), Spell(a[1..], stage), Spell(b, stage));
    }
  }

  /** Starting later, a pass finds no more, and one less at most for each sentinel's length. */
  lemma {:induction false} FoundLater(xs: seq<Token>, stage: Stage, k: nat)
    requires k <= |stage.Sentinel()| && k <= |xs|
    ensures Found(xs[k..], stage) <= Found(xs, stage) <= 1 + Found(xs[k..], stage)
    decreases |xs|
  {
    var n := |stage.Sentinel()|;
    if k == 0 {
      assert xs[0..] == xs;
    } else if AsLits(stage.Sentinel()) <= xs {
      FoundLater(xs[k..], stage, n - k);
      assert xs[k..][n - k..] == xs[n..];
    } else {
      FoundLater(xs[1..], stage, k - 1);
      assert xs[1..][k - 1..] == xs[k..];
    }
  }

  lemma {:induction false} FoundBehind(a: seq<Token>, xs: seq<Token>, stage: Stage)
    ensures Found(xs, stage) <= Found(a + xs, stage)
  {
    if a == [] {
      assert a + xs == xs;
    } else {
      FoundBehind(a[1..], xs, stage);
      FoundLater(a + xs, stage, 1);
      assert (a + xs)[1..] == a[1..] + xs;
    }
  }

  /** A pass finds at least as many sentinels as were written. */
  lemma {:induction false} OwnAreFound(ts: seq<Token>, stage: Stage)
    ensures OwnCount(ts, stage) <= Found(Spell(ts, stage), stage)
  {
    if ts != [] {
      OwnAreFound(ts[1..], stage);
      var rest := Spell(ts[1..], stage);
      if ts[0] == stage.Own() {
        var w := AsLits(stage.Sentinel());
        assert Spell(ts, stage) == w + rest && (w + rest)[|w|..] == rest;
      } else {
        FoundBehind(Item(ts[0], stage), rest, stage);
      }
    }
  }

  function Ds(s: string): nat {
    if s == "" then 0 else (if s[0] == 'D' then 1 else 0) + Ds(s[1..])
  }

  lemma {:induction false} DsAppend(a: string, b: string)
    ensures Ds(a + b) == Ds(a) + Ds(b)
  {
    if a == "" {
      assert a + b == b;
    } else {
      DsAppend(a[1..], b);
      assert (a + b)[1..] == a[1..] + b && (a + b)[0] == a[0];
    }
  }

  lemma {:induction false} NoDs(s: string)
    requires forall i :: 0 <= i < |s| ==> s[i] != 'D'
    ensures Ds(s) == 0
  {
    if s != "" {
      NoDs(s[1..]);
    }
  }

  lemma SentinelDs()
    ensures Ds(DIRS) == 1 && Ds(ANY) == 0
  {
    NoDs(ANY);
    NoDs("@@");
    NoDs("IRS@@");
    DsAppend("@@", "DIRS@@");
    assert DIRS == "@@" + "DIRS@@" && "DIRS@@"[1..] == "IRS@@";
  }

  /** One step of the pass. */
  lemma UndoNext(xs: seq<Token>, stage: Stage)
    requires xs != [] && !(AsLits(stage.Sentinel()) <= xs)
    ensures Undo(xs, stage) == [xs[0]] + Undo(xs[1..], stage) && Found(xs, stage) == Found(xs[1..], stage)
  {
  }

  lemma UndoFound(xs: seq<Token>, stage: Stage)
    requires AsLits(stage.Sentinel()) <= xs
    ensures var rest := xs[|stage.Sentinel()|..];
      && xs == AsLits(stage.Sentinel()) + rest
      && Undo(xs, stage) == [stage.Own()] + Undo(rest, stage) && Found(xs, stage) == 1 + Found(rest, stage)
  {
  }

  lemma LitsOne(t: Token)
    ensures Lits([t]) == if t.Lit? then [t.c] else ""
  {
    assert [t][1..] == [];
  }

  lemma SentinelCounts(stage: Stage)
    ensures Lits(AsLits(stage.Sentinel())) == stage.Sentinel() && Lits([stage.Own()]) == ""
    ensures |stage.Sentinel()| == (if stage.UndoDirs? then 8 else 7)
    ensures Ds(stage.Sentinel()) == (if stage.UndoDirs? then 1 else 0) && Ds("") == 0
  {
    LitsOfText(stage.Sentinel());
    LitsOne(stage.Own());
    SentinelDs();
  }

  lemma {:induction false} UndoCounts(xs: seq<Token>, stage: Stage)
    ensures stage.UndoAny? ==> |Lits(xs)| == |Lits(Undo(xs, stage))| + 7 * Found(xs, stage)
    ensures Ds(Lits(xs)) == Ds(Lits(Undo(xs, stage))) + if stage.UndoDirs? then Found(xs, stage) else 0
    decreases |xs|
  {
    if xs != [] {
      hide Undo, Found, Lits, AsLits, Ds;
      var w := stage.Sentinel();
      if AsLits(w) <= xs {
        UndoFound(xs, stage);
        UndoCounts(xs[|w|..], stage);
        FoundCounts(xs[|w|..], stage);
      } else {
        UndoNext(xs, stage);
        UndoCounts(xs[1..], stage);
        assert xs == [xs[0]] + xs[1..];
        HeadCounts(xs[0], xs[1..]);
        HeadCounts(xs[0], Undo(xs[1..], stage));
      }
    }
  }

  lemma HeadCounts(t: Token, xs: seq<Token>)
    ensures |Lits([t] + xs)| == |Lits([t])| + |Lits(xs)| && Ds(Lits([t] + xs)) == Ds(Lits([t])) + Ds(Lits(xs))
  {
    LitsAppend([t], xs);
    DsAppend(Lits([t]), Lits(xs));
  }

  lemma FoundCounts(rest: seq<Token>, stage: Stage)
    ensures |Lits(AsLits(stage.Sentinel()) + rest)| == (if stage.UndoDirs? then 8 else 7) + |Lits(rest)|
    ensures Ds(Lits(AsLits(stage.Sentinel()) + rest)) == (if stage.UndoDirs? then 1 else 0) + Ds(Lits(rest))
    ensures forall left :: Lits([stage.Own()] + left) == Lits(left)
  {
    hide Lits, Ds;
    SentinelCounts(stage);
    LitsAppend(AsLits(stage.Sentinel()), rest);
    DsAppend(stage.Sentinel(), Lits(rest));
    forall left ensures Lits([stage.Own()] + left) == Lits(left) {
      LitsAppend([stage.Own()], left);
      assert "" + Lits(left) == Lits(left);
    }
  }

  lemma {:induction false} SpellCounts(ts: seq<Token>, stage: Stage)
    ensures stage.UndoAny? ==> |Lits(Spell(ts, stage))| == |Lits(ts)| + 7 * OwnCount(ts, stage)
    ensures Ds(Lits(Spell(ts, stage))) == Ds(Lits(ts)) + if stage.UndoDirs? then OwnCount(ts, stage) else 0
  {
    if ts != [] {
      hide Lits, Spell, Item, Ds, OwnCount;
      SpellCounts(ts[1..], stage);
      SpellHead(ts, stage);
      SpellStep(ts[0], Spell(ts[1..], stage), stage);
      HeadCounts(ts[0], ts[1..]);
      assert ts == [ts[0]] + ts[1..];
    }
  }

  lemma SpellHead(ts: seq<Token>, stage: Stage)
    requires ts != []
    ensures Spell(ts, stage) == Item(ts[0], stage) + Spell(ts[1..], stage)
    ensures OwnCount(ts, stage) == (if ts[0] == stage.Own() then 1 else 0) + OwnCount(ts[1..], stage)
  {
  }

  lemma SpellStep(t: Token, rest: seq<Token>, stage: Stage)
    ensures stage.UndoAny? ==> |Lits(Item(t, stage) + rest)| == |Lits([t])| + |Lits(rest)| + if t == stage.Own() then 7 else 0
    ensures Ds(Lits(Item(t, stage) + rest))
         == Ds(Lits([t])) + Ds(Lits(rest)) + if stage.UndoDirs? && t == stage.Own() then 1 else 0
  {
    hide Lits, Item, Ds;
    ItemCounts(t, stage);
    LitsAppend(Item(t, stage), rest);
    DsAppend(Lits(Item(t, stage)), Lits(rest));
  }

  lemma ItemCounts(t: Token, stage: Stage)
    ensures stage.UndoAny? ==> |Lits(Item(t, stage))| == |Lits([t])| + if t.Any? then 7 else 0
    ensures Ds(Lits(Item(t, stage))) == Ds(Lits([t])) + if t.Dirs? && stage.UndoDirs? then 1 else 0
  {
    hide Lits, Ds;
    SentinelCounts(UndoDirs);
    SentinelCounts(UndoAny);
    LitsOne(t);
  }

  // ── the first accident ─────────────────────────────────────────────────────

  /** A sentinel begins inside what is spelled for the first token, which did not write it. */
  predicate AccidentAt(ts: seq<Token>, stage: Stage, k: nat) {
    && ts != [] && ts[0] != stage.Own() && k < |Item(ts[0], stage)|
    && AsLits(stage.Sentinel()) <= Spell(ts, stage)[k..]
  }

  /** The pass finds its sentinel nowhere but where a token wrote it. */
  predicate Clean(ts: seq<Token>, stage: Stage) {
    ts != [] ==> (forall k: nat :: k < |Item(ts[0], stage)| ==> !AccidentAt(ts, stage, k)) && Clean(ts[1..], stage)
  }

  /** What a clean pass leaves. */
  function Left(ts: seq<Token>, stage: Stage): seq<Token> {
    if stage.UndoDirs? then Spell(ts, UndoAny) else ts
  }

  lemma {:induction false} UndoSkips(xs: seq<Token>, stage: Stage, k: nat)
    requires k <= |xs| && forall i :: 0 <= i < k ==> !(AsLits(stage.Sentinel()) <= xs[i..])
    ensures Undo(xs, stage) == xs[..k] + Undo(xs[k..], stage) && Found(xs, stage) == Found(xs[k..], stage)
  {
    assert xs[0..] == xs;
    if k > 0 {
      hide Undo, Found, AsLits;
      forall i | 0 <= i < k - 1 ensures !(AsLits(stage.Sentinel()) <= xs[1..][i..]) {
        assert xs[1..][i..] == xs[i + 1..];
      }
      UndoNext(xs, stage);
      UndoSkips(xs[1..], stage, k - 1);
      assert xs[1..][k - 1..] == xs[k..] && xs[..k] == [xs[0]] + xs[1..][..k - 1];
    }
  }

  lemma LeftOne(t: Token, stage: Stage)
    ensures Left([t], stage) == if t == stage.Own() then [t] else Item(t, stage)
  {
    assert [t][1..] == [] && Spell([t], UndoAny) == Item(t, UndoAny) + [] == Item(t, UndoAny);
  }

  /** A token that begins no accident is left as it should be. */
  lemma UndoHead(ts: seq<Token>, stage: Stage)
    requires ts != [] && forall k: nat :: k < |Item(ts[0], stage)| ==> !AccidentAt(ts, stage, k)
    ensures Undo(Spell(ts, stage), stage) == Left([ts[0]], stage) + Undo(Spell(ts[1..], stage), stage)
    ensures Found(Spell(ts, stage), stage) == (if ts[0] == stage.Own() then 1 else 0) + Found(Spell(ts[1..], stage), stage)
  {
    var item, rest, all := Item(ts[0], stage), Spell(ts[1..], stage), Spell(ts, stage);
    assert [ts[0]][1..] == [];
    assert all[|item|..] == rest && all[..|item|] == item;
    if ts[0] == stage.Own() {
      LeftOne(ts[0], stage);
      UndoFound(all, stage);
    } else {
      forall i | 0 <= i < |item| ensures !(AsLits(stage.Sentinel()) <= all[i..]) {
        assert !AccidentAt(ts, stage, i);
      }
      UndoSkips(all, stage, |item|);
      LeftOne(ts[0], stage);
    }
  }

  lemma LeftAppend(t: Token, ts: seq<Token>, stage: Stage)
    ensures Left([t] + ts, stage) == Left([t], stage) + Left(ts, stage)
  {
    SpellAppend([t], ts, UndoAny);
  }

  lemma {:induction false} CleanUndo(ts: seq<Token>, stage: Stage)
    requires Clean(ts, stage)
    ensures Undo(Spell(ts, stage), stage) == Left(ts, stage)
  {
    if ts != [] {
      CleanUndo(ts[1..], stage);
      UndoHead(ts, stage);
      LeftAppend(ts[0], ts[1..], stage);
      assert ts == [ts[0]] + ts[1..];
    }
  }

  /** What the pass makes of `ts == pre + suf` when the first accident is `k` into `suf`. */
  ghost predicate SplitsAt(ts: seq<Token>, stage: Stage, pre: seq<Token>, suf: seq<Token>, k: nat) {
    && ts == pre + suf && AccidentAt(suf, stage, k) && k + |stage.Sentinel()| <= |Spell(suf, stage)|
    && Undo(Spell(ts, stage), stage)
       == Left(pre, stage) + Spell(suf, stage)[..k] + [stage.Own()] + Undo(Spell(suf, stage)[k + |stage.Sentinel()|..], stage)
    && Found(Spell(ts, stage), stage) == OwnCount(pre, stage) + 1 + Found(Spell(suf, stage)[k + |stage.Sentinel()|..], stage)
  }

  lemma {:induction false} FirstAccident(ts: seq<Token>, stage: Stage) returns (pre: seq<Token>, suf: seq<Token>, k: nat)
    requires !Clean(ts, stage)
    ensures SplitsAt(ts, stage, pre, suf, k)
  {
    if exists i: nat :: i < |Item(ts[0], stage)| && AccidentAt(ts, stage, i) {
      pre, suf := [], ts;
      k := LeastAccident(ts, stage);
      AccidentHere(ts, stage, k);
    } else {
      UndoHead(ts, stage);
      var p;
      p, suf, k := FirstAccident(ts[1..], stage);
      pre := [ts[0]] + p;
      AccidentLater(ts, stage, p, suf, k);
    }
  }

  lemma AccidentLater(ts: seq<Token>, stage: Stage, pre: seq<Token>, suf: seq<Token>, k: nat)
    requires ts != [] && SplitsAt(ts[1..], stage, pre, suf, k)
    requires Undo(Spell(ts, stage), stage) == Left([ts[0]], stage) + Undo(Spell(ts[1..], stage), stage)
    requires Found(Spell(ts, stage), stage) == (if ts[0] == stage.Own() then 1 else 0) + Found(Spell(ts[1..], stage), stage)
    ensures SplitsAt(ts, stage, [ts[0]] + pre, suf, k)
  {
    hide Undo, Found, Spell, Left, AccidentAt, OwnCount;
    OwnCountAppend([ts[0]], pre, stage);
    OneOwn(ts[0], stage);
    LeftAppend(ts[0], pre, stage);
    assert ts == [ts[0]] + ts[1..];
    Regroup([ts[0]], pre, suf);
    var w := |stage.Sentinel()|;
    FiveParts(Left([ts[0]], stage), Left(pre, stage), Spell(suf, stage)[..k], [stage.Own()],
              Undo(Spell(suf, stage)[k + w..], stage));
  }

  lemma OneOwn(t: Token, stage: Stage)
    ensures OwnCount([t], stage) == if t == stage.Own() then 1 else 0
  {
    assert [t][1..] == [];
  }

  lemma FiveParts(a: seq<Token>, b: seq<Token>, c: seq<Token>, d: seq<Token>, e: seq<Token>)
    ensures a + (b + c + d + e) == a + b + c + d + e
  {
  }

  lemma LeastAccident(ts: seq<Token>, stage: Stage) returns (k: nat)
    requires ts != [] && exists i: nat :: i < |Item(ts[0], stage)| && AccidentAt(ts, stage, i)
    ensures k < |Item(ts[0], stage)| && AccidentAt(ts, stage, k) && forall i: nat :: i < k ==> !AccidentAt(ts, stage, i)
  {
    hide AccidentAt, Item;
    k := 0;
    while !AccidentAt(ts, stage, k)
      invariant k < |Item(ts[0], stage)| && forall i: nat :: i < k ==> !AccidentAt(ts, stage, i)
      decreases |Item(ts[0], stage)| - k
    {
      k := k + 1;
    }
  }

  lemma LeftNone(stage: Stage)
    ensures Left([], stage) == [] && OwnCount([], stage) == 0
  {
  }

  lemma NoEarlierAccident(ts: seq<Token>, stage: Stage, k: nat)
    requires AccidentAt(ts, stage, k) && forall i: nat :: i < k ==> !AccidentAt(ts, stage, i)
    ensures k < |Spell(ts, stage)| && forall i :: 0 <= i < k ==> !(AsLits(stage.Sentinel()) <= Spell(ts, stage)[i..])
  {
    forall i | 0 <= i < k ensures !(AsLits(stage.Sentinel()) <= Spell(ts, stage)[i..]) {
      assert !AccidentAt(ts, stage, i);
    }
  }

  lemma SplitsHere(ts: seq<Token>, stage: Stage, k: nat)
    requires AccidentAt(ts, stage, k) && k <= |Spell(ts, stage)| && AsLits(stage.Sentinel()) <= Spell(ts, stage)[k..]
    requires var all := Spell(ts, stage); var rest := all[k..][|stage.Sentinel()|..];
      && Undo(all, stage) == all[..k] + ([stage.Own()] + Undo(rest, stage))
      && Found(all, stage) == 1 + Found(rest, stage)
    ensures SplitsAt(ts, stage, [], ts, k)
  {
    hide Undo, Found, Spell, AsLits, Left, AccidentAt, OwnCount;
    LeftNone(stage);
    AllTogether(Spell(ts, stage), stage, k);
    assert [] + ts == ts;
  }

  lemma AllTogether(all: seq<Token>, stage: Stage, k: nat)
    requires k <= |all| && AsLits(stage.Sentinel()) <= all[k..]
    ensures k + |stage.Sentinel()| <= |all|
    ensures var rest := all[k + |stage.Sentinel()|..];
      && all[k..][|stage.Sentinel()|..] == rest
      && all[..k] + ([stage.Own()] + Undo(rest, stage)) == [] + all[..k] + [stage.Own()] + Undo(rest, stage)
  {
    assert |AsLits(stage.Sentinel())| == |stage.Sentinel()|;
  }

  lemma AccidentHere(ts: seq<Token>, stage: Stage, k: nat)
    requires AccidentAt(ts, stage, k) && forall i: nat :: i < k ==> !AccidentAt(ts, stage, i)
    ensures SplitsAt(ts, stage, [], ts, k)
  {
    var all := Spell(ts, stage);
    NoEarlierAccident(ts, stage, k);
    hide Undo, Found, Spell, AsLits, Item, Left, AccidentAt;
    UndoSkips(all, stage, k);
    UndoFound(all[k..], stage);
    SplitsHere(ts, stage, k);
  }
}
