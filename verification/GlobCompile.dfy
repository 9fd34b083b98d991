/**
 What `globToRegExp` of src/kshetra/toolchain.ts compiles any glob to, accidental
 sentinels included: the last two passes as rewriting of tokens, in which a sentinel
 is the literal characters it is written with.
 */
module GlobCompile {

  import opened GlobMatch
  import opened GlobSyntax
  import opened Prelude

  function AsLits(w: string): (r: seq<Token>)
    ensures |r| == |w| && forall i :: 0 <= i < |w| ==> r[i] == Lit(w[i])
  {
    seq(|w|, i requires 0 <= i < |w| => Lit(w[i]))
  }

  /**
   The two passes that undo sentinels: the first looks for `@@DIRS@@` among sentinels
   of both kinds, the second for `@@ANY@@` when the first kind is gone.
   */
  datatype Stage = UndoDirs | UndoAny {
    function Sentinel(): (w: string)
      ensures 7 <= |w| <= 8
    {
      if UndoDirs? then DIRS else ANY
    }

    /** The token this pass writes. */
    function Own(): Token {
      if UndoDirs? then Dirs else Any
    }
  }

  /** A token as the pass finds it. */
  function Item(t: Token, stage: Stage): (r: seq<Token>)
    ensures |r| >= 1
  {
    if t.Any? then AsLits(ANY) else if t.Dirs? && stage.UndoDirs? then AsLits(DIRS) else [t]
  }

  function Spell(ts: seq<Token>, stage: Stage): seq<Token> {
    if ts == [] then [] else Item(ts[0], stage) + Spell(ts[1..], stage)
  }

  /** The pass: leftmost occurrences of the sentinel, left to right. */
  function Undo(xs: seq<Token>, stage: Stage): seq<Token>
    decreases |xs|
  {
    var w := stage.Sentinel();
    if xs == [] then []
    else if AsLits(w) <= xs then [stage.Own()] + Undo(xs[|w|..], stage)
    else [xs[0]] + Undo(xs[1..], stage)
  }

  /** The glob the compiled RegExp is of. */
  function Compiled(glob: string): seq<Token> {
    Undo(Undo(Spell(Tokenize(glob), UndoDirs), UndoDirs), UndoAny)
  }

  // ── token passes are text passes ───────────────────────────────────────────

  lemma {:induction false} RenderAppend(a: seq<Token>, b: seq<Token>, passes: nat)
    ensures Render(a + b, passes) == Render(a, passes) + Render(b, passes)
  {
    hide Text;
    if a == [] {
      assert a + b == b;
    } else {
      RenderAppend(a[1..], b, passes);
      assert (a + b)[1..] == a[1..] + b && (a + b)[0] == a[0];
      Regroup(Text(a[0], passes), Render(a[1..], passes), Render(b, passes));
    }
  }

  /** Characters that are written as they are, and begin no wildcard's text. */
  predicate Bare(w: string) {
    forall c :: c in w ==> !IsSpecial(c)
  }

  lemma {:induction false} LitsRender(w: string)
    requires Bare(w)
    ensures Render(AsLits(w), 6) == w
  {
    if w != "" {
      assert w[0] in w && forall c :: c in w[1..] ==> c in w;
      LitsRender(w[1..]);
      assert AsLits(w)[1..] == AsLits(w[1..]);
      assert w == [w[0]] + w[1..];
    }
  }

  lemma SentinelsAreBare()
    ensures Bare(DIRS) && Bare(ANY)
  {
    forall c | c in DIRS + ANY ensures !IsSpecial(c) {
      assert c == '@' || c == 'D' || c == 'I' || c == 'R' || c == 'S' || c == 'A' || c == 'N' || c == 'Y';
    }
  }

  lemma SpellRenders(ts: seq<Token>)
    ensures Render(ts, 4) == Render(Spell(ts, UndoDirs), 6)
    ensures Render(ts, 5) == Render(Spell(ts, UndoAny), 6)
  {
    SentinelsAreBare();
    LitsRender(DIRS);
    LitsRender(ANY);
    if ts != [] {
      SpellRenders(ts[1..]);
      RenderAppend(Item(ts[0], UndoDirs), Spell(ts[1..], UndoDirs), 6);
      RenderAppend(Item(ts[0], UndoAny), Spell(ts[1..], UndoAny), 6);
      ItemRenders(ts[0]);
    }
  }

  lemma ItemRenders(t: Token)
    ensures Text(t, 4) == Render(Item(t, UndoDirs), 6)
    ensures Text(t, 5) == Render(Item(t, UndoAny), 6)
  {
    SentinelsAreBare();
    LitsRender(DIRS);
    LitsRender(ANY);
    assert Render([t], 6) == Text(t, 6) + Render([], 6) == Text(t, 6);
  }

  /** Bare characters at the head of the text are literals at the head of the tokens. */
  lemma TextIsLits(xs: seq<Token>, w: string)
    requires Bare(w)
    ensures w <= Render(xs, 6) <==> AsLits(w) <= xs
  {
    if w <= Render(xs, 6) {
      LitsAreRead(xs, w);
    } else if AsLits(w) <= xs {
      LitsRender(w);
      assert xs == AsLits(w) + xs[|w|..];
      RenderAppend(AsLits(w), xs[|w|..], 6);
    }
  }

  lemma {:induction false} LitsAreRead(xs: seq<Token>, w: string)
    requires Bare(w) && w <= Render(xs, 6)
    ensures AsLits(w) <= xs
  {
    if w != "" {
      var rest := LitIsRead(xs, w);
      LitsAreRead(rest, w[1..]);
      assert AsLits(w) == [Lit(w[0])] + AsLits(w[1..]) && xs == [Lit(w[0])] + rest;
    }
  }

  lemma LitIsRead(xs: seq<Token>, w: string) returns (rest: seq<Token>)
    requires Bare(w) && w <= Render(xs, 6) && w != ""
    ensures xs == [Lit(w[0])] + rest && Bare(w[1..]) && w[1..] <= Render(rest, 6)
  {
    assert w[0] in w && forall c :: c in w[1..] ==> c in w;
    assert xs != [] && Render(xs, 6)[0] == w[0] && Text(xs[0], 6)[0] == w[0];
    rest := xs[1..];
    assert w == [w[0]] + w[1..] && Render(xs, 6) == [w[0]] + Render(rest, 6);
    PrefixBehind([w[0]], w[1..], Render(rest, 6));
  }

  /** A text that does not begin with the sentinel keeps its first token. */
  lemma HeadIsKept(xs: seq<Token>, w: string, rep: string)
    requires w in {DIRS, ANY} && xs != [] && !(AsLits(w) <= xs)
    ensures ReplaceAll(Render(xs, 6), w, rep) == Text(xs[0], 6) + ReplaceAll(Render(xs[1..], 6), w, rep)
  {
    SentinelsAreBare();
    TextIsLits(xs, w);
    var t, rest := Text(xs[0], 6), Render(xs[1..], 6);
    assert (t + rest)[0..] == t + rest;
    if xs[0] == Lit('@') {
      assert t == "@";
    } else {
      assert '@' !in t;
      NoAtNoMatch(t, rest, w);
    }
    SkipAligned(t, rest, w, rep);
  }

  lemma {:induction false} UndoText(xs: seq<Token>, stage: Stage)
    ensures ReplaceAll(Render(xs, 6), stage.Sentinel(), Text(stage.Own(), 6)) == Render(Undo(xs, stage), 6)
    decreases |xs|
  {
    var w, rep := stage.Sentinel(), Text(stage.Own(), 6);
    if xs != [] {
      hide ReplaceAll, Undo, Render, AsLits;
      if AsLits(w) <= xs {
        var rest := xs[|w|..];
        UndoText(rest, stage);
        SentinelsAreBare();
        LitsRender(w);
        assert xs == AsLits(w) + rest;
        RenderAppend(AsLits(w), rest, 6);
        MatchText(Render(rest, 6), w, rep);
        UndoHere(xs, stage);
        RenderCons(stage.Own(), Undo(rest, stage), 6);
      } else {
        UndoText(xs[1..], stage);
        HeadIsKept(xs, w, rep);
        UndoKeeps(xs, stage);
        RenderCons(xs[0], Undo(xs[1..], stage), 6);
      }
    }
  }

  lemma UndoKeeps(xs: seq<Token>, stage: Stage)
    requires xs != [] && !(AsLits(stage.Sentinel()) <= xs)
    ensures Undo(xs, stage) == [xs[0]] + Undo(xs[1..], stage)
  {
  }

  lemma UndoHere(xs: seq<Token>, stage: Stage)
    requires AsLits(stage.Sentinel()) <= xs
    ensures Undo(xs, stage) == [stage.Own()] + Undo(xs[|stage.Sentinel()|..], stage)
  {
  }

  /** The RegExp of any glob is written token by token from its compiled tokens. */
  lemma CompiledText(glob: string)
    ensures RegExpSource(glob) == Render(Compiled(glob), 6)
  {
    hide ReplaceAll, Undo;
    var ts := Tokenize(glob);
    FirstPasses(glob);
    SpellRenders(ts);
    UndoText(Spell(ts, UndoDirs), UndoDirs);
    UndoText(Undo(Spell(ts, UndoDirs), UndoDirs), UndoAny);
  }

  // ── what the compiled RegExp means ─────────────────────────────────────────

  lemma {:induction false} SpellAddsNoLit(ts: seq<Token>, stage: Stage, c: char)
    requires c !in "@DIRSANY"
    ensures Has(Spell(ts, stage), c) <==> Has(ts, c)
  {
    if ts != [] {
      SpellAddsNoLit(ts[1..], stage, c);
      assert ts == [ts[0]] + ts[1..];
      assert DIRS == "@@DIRS@@" && ANY == "@@ANY@@";
      assert Lit(c) in Item(ts[0], stage) <==> ts[0] == Lit(c);
    }
  }

  lemma {:induction false} UndoAddsNoLit(xs: seq<Token>, stage: Stage, c: char)
    requires c !in "@DIRSANY"
    ensures Has(Undo(xs, stage), c) <==> Has(xs, c)
    decreases |xs|
  {
    var w := stage.Sentinel();
    if xs == [] {
    } else if AsLits(w) <= xs {
      UndoAddsNoLit(xs[|w|..], stage, c);
      assert xs == AsLits(w) + xs[|w|..];
      assert forall i :: 0 <= i < |w| ==> w[i] in "@DIRSANY";
      assert Lit(c) !in AsLits(w);
    } else {
      UndoAddsNoLit(xs[1..], stage, c);
      assert xs == [xs[0]] + xs[1..];
    }
  }

  lemma CompiledHas(glob: string, c: char)
    requires c !in "@DIRSANY"
    ensures Has(Compiled(glob), c) <==> Has(Tokenize(glob), c)
  {
    var ts := Tokenize(glob);
    SpellAddsNoLit(ts, UndoDirs, c);
    UndoAddsNoLit(Spell(ts, UndoDirs), UndoDirs, c);
    UndoAddsNoLit(Undo(Spell(ts, UndoDirs), UndoDirs), UndoAny, c);
  }

  lemma CompiledHasNoStar(glob: string)
    ensures NoStarLit(Compiled(glob))
  {
    TokenizeIsTidy(glob);
    TidyHasNoStarLit(Tokenize(glob));
    CompiledHas(glob, '*');
  }

  /** The RegExp of any glob without `?` means its compiled tokens, line by line. */
  lemma RegExpMeansCompiled(glob: string, s: string)
    requires '?' !in glob
    ensures Parse(RegExpSource(glob)) == Some(PiecesOf(Compiled(glob)))
    ensures Matches(PiecesOf(Compiled(glob)), s) <==> MeansInLines(Compiled(glob), s)
  {
    CompiledText(glob);
    CompiledHasNoStar(glob);
    LiteralsAreCharacters(glob, '?');
    CompiledHas(glob, '?');
    ParseOfTokens(Compiled(glob));
    PiecesMeanTokens(Compiled(glob), s);
  }

  /** A glob with `?` is never translated faithfully, sentinels or not. */
  lemma MarkIsNeverFaithful(glob: string)
    requires '?' in glob
    ensures !Faithful(glob)
  {
    var us := Compiled(glob);
    CompiledText(glob);
    CompiledHasNoStar(glob);
    LiteralsAreCharacters(glob, '?');
    if Parse(Render(us, 6)).Some? {
      var ps := Parse(Render(us, 6)).value;
      MarksAreNotPieces(us);
      ShortestMatches(ps);
      ShortestHasOnlyPieces(ps, '?');
      LiteralIsMeant(Tokenize(glob), '?', Shortest(ps));
    }
  }
}
