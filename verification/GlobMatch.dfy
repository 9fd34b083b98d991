/**
 What the RegExp that `globToRegExp` builds matches, against what the glob says:
 src/kshetra/toolchain.ts.
 */
module GlobMatch {

  import opened Prelude
  import opened GlobSyntax

  // ── the RegExp's language ──────────────────────────────────────────────────

  /** One quantified atom of the RegExp; `optional` when a bare `?` follows a character. */
  datatype Piece = PChar(c: char, optional: bool) | PSegment | PAny | PDirs

  predicate PieceMatches(p: Piece, w: string) {
    match p
    case PChar(c, optional) => w == [c] || (optional && w == "")
    case PSegment => '/' !in w
    case PAny => OneLine(w)
    case PDirs => w == "" || (OneLine(w) && w[|w| - 1] == '/')
  }

  /** `^` and `$`: the pieces, in order, take the whole of `s`. */
  ghost predicate Matches(ps: seq<Piece>, s: string) {
    if ps == [] then s == ""
    else exists k :: 0 <= k <= |s| && PieceMatches(ps[0], s[..k]) && Matches(ps[1..], s[k..])
  }

  /** SyntaxCharacter of ECMA-262, section 22.2.1: what stands for itself only behind a backslash. */
  predicate IsSyntaxCharacter(c: char) {
    c in "^$\\.*+?()[]{}|"
  }

  /** The atom at the head of the RegExp text and its length; none where the text has no such atom. */
  function Atom(t: string): Option<(Piece, nat)>
    requires t != ""
    ensures Atom(t).Some? ==> 0 < Atom(t).value.1 <= |t|
  {
    if "(?:.*/)?" <= t then Some((PDirs, 8))
    else if "[^/]*" <= t then Some((PSegment, 5))
    else if ".*" <= t then Some((PAny, 2))
    else if t[0] == '\\' then (if |t| > 1 then Some((PChar(t[1], false), 2)) else None)
    else if IsSyntaxCharacter(t[0]) then None
    else Some((PChar(t[0], false), 1))
  }

  /** How many `?` right behind an atom belong to it: a character can be optional and lazy, the rest only lazy. */
  function Marks(p: Piece, t: string): (n: nat)
    ensures n <= |t| && forall i :: 0 <= i < n ==> t[i] == '?'
  {
    if t == "" || t[0] != '?' then 0
    else if p.PChar? && |t| > 1 && t[1] == '?' then 2
    else 1
  }

  function Marked(p: Piece, n: nat): Piece {
    if p.PChar? && n > 0 then PChar(p.c, true) else p
  }

  /** `new RegExp('^' + t + '$')`; none where it throws a SyntaxError. */
  function Parse(t: string): Option<seq<Piece>>
    decreases |t|
  {
    if t == "" then Some([])
    else match Atom(t)
      case None => None
      case Some(a) =>
        var n := Marks(a.0, t[a.1..]);
        match Parse(t[a.1 + n..])
        case None => None
        case Some(ps) => Some([Marked(a.0, n)] + ps)
  }

  /** A bare `?` makes the character before it optional, a second only lazy; a third, or one at the start, is a syntax error. */
  lemma MarkMakesOptional(c: char)
    requires !IsSyntaxCharacter(c)
    ensures Parse([c]) == Some([PChar(c, false)])
    ensures Parse([c, '?']) == Parse([c, '?', '?']) == Some([PChar(c, true)])
    ensures Parse([c, '?', '?', '?']) == Parse(['?']) == None
  {
    hide Atom;
    AtomOfPlain(c, "");
    AtomOfPlain(c, "?");
    AtomOfPlain(c, "??");
    AtomOfPlain(c, "???");
    NoAtomIsMark();
    assert [c][1..] == "" && [c] == [c] + "";
    assert [c, '?'][2..] == "" && [c, '?'] == [c] + "?" && [c, '?'][1..] == "?";
    assert [c, '?', '?'][3..] == "" && [c, '?', '?'] == [c] + "??" && [c, '?', '?'][1..] == "??";
    assert [c, '?', '?', '?'][3..] == ['?'] && [c, '?', '?', '?'] == [c] + "???" && [c, '?', '?', '?'][1..] == "???";
    assert [PChar(c, true)] + [] == [PChar(c, true)] && [PChar(c, false)] + [] == [PChar(c, false)];
  }

  lemma NoAtomIsMark()
    ensures Atom(['?']) == None
  {
    assert "(?:.*/)?"[0] == '(' && "[^/]*"[0] == '[' && ".*"[0] == '.';
    assert IsSyntaxCharacter('?') by { assert "^$\\.*+?()[]{}|"[6] == '?'; }
  }

  lemma AtomOfPlain(c: char, rest: string)
    requires !IsSyntaxCharacter(c)
    ensures Atom([c] + rest) == Some((PChar(c, false), 1))
  {
    assert "(?:.*/)?"[0] == '(' && "[^/]*"[0] == '[' && ".*"[0] == '.';
  }

  // ── the glob's own meaning ─────────────────────────────────────────────────

  function Concat(parts: seq<string>): string {
    if parts == [] then "" else parts[0] + Concat(parts[1..])
  }

  function Folders(names: seq<string>): string {
    if names == [] then "" else names[0] + "/" + Folders(names[1..])
  }

  /** Zero or more directories: names without a slash, each with one behind it. */
  ghost predicate IsDirectories(w: string) {
    exists names: seq<string> :: Folders(names) == w && forall i :: 0 <= i < |names| ==> '/' !in names[i]
  }

  ghost predicate TokenMeans(t: Token, w: string) {
    match t
    case Lit(c) => w == [c]
    case Star => '/' !in w
    case Any => true
    case Dirs => IsDirectories(w)
  }

  ghost predicate Splits(ts: seq<Token>, parts: seq<string>, s: string) {
    && |parts| == |ts| && Concat(parts) == s
    && forall i :: 0 <= i < |ts| ==> TokenMeans(ts[i], parts[i])
  }

  /** The wildcards that cross slashes stay on one line. */
  predicate OnOneLine(ts: seq<Token>, parts: seq<string>) {
    |parts| == |ts| && forall i :: 0 <= i < |ts| && (ts[i].Any? || ts[i].Dirs?) ==> OneLine(parts[i])
  }

  /** What the glob says: each of its tokens stands for a part of the path. */
  ghost predicate Means(ts: seq<Token>, s: string) {
    exists parts: seq<string> :: Splits(ts, parts, s)
  }

  /** The same with `**` and `**``/` kept from crossing a line terminator. */
  ghost predicate MeansInLines(ts: seq<Token>, s: string) {
    exists parts: seq<string> :: Splits(ts, parts, s) && OnOneLine(ts, parts)
  }

  lemma {:induction false} FoldersEndInSlash(names: seq<string>)
    ensures Folders(names) == "" || Folders(names)[|Folders(names)| - 1] == '/'
  {
    if names != [] {
      FoldersEndInSlash(names[1..]);
    }
  }

  lemma {:induction false} SlashEndedIsFolders(done: string, w: string) returns (names: seq<string>)
    requires '/' !in done && (w == "" ==> done == "") && (w != "" ==> w[|w| - 1] == '/')
    ensures Folders(names) == done + w
    ensures forall i :: 0 <= i < |names| ==> '/' !in names[i]
    decreases |w|
  {
    if w == "" {
      names := [];
    } else if w[0] == '/' {
      assert w[1..] != "" ==> w[1..][|w[1..]| - 1] == '/';
      var rest := SlashEndedIsFolders("", w[1..]);
      names := [done] + rest;
      assert names[1..] == rest;
      assert done + "/" + ("" + w[1..]) == done + w;
    } else {
      assert w[1..] != "" && w[1..][|w[1..]| - 1] == '/';
      names := SlashEndedIsFolders(done + [w[0]], w[1..]);
      assert (done + [w[0]]) + w[1..] == done + w;
    }
  }

  /** Directories are exactly the empty text and what ends in a slash. */
  lemma DirectoriesEndInSlash(w: string)
    ensures IsDirectories(w) <==> w == "" || w[|w| - 1] == '/'
  {
    if w == "" || w[|w| - 1] == '/' {
      var names := SlashEndedIsFolders("", w);
      assert "" + w == w;
    }
    forall names: seq<string> | Folders(names) == w ensures w == "" || w[|w| - 1] == '/' {
      FoldersEndInSlash(names);
    }
  }

  // ── parsing a token-by-token translation ───────────────────────────────────

  function PieceOf(t: Token): Piece {
    match t
    case Lit(c) => PChar(c, false)
    case Star => PSegment
    case Any => PAny
    case Dirs => PDirs
  }

  function PiecesOf(ts: seq<Token>): seq<Piece> {
    if ts == [] then [] else [PieceOf(ts[0])] + PiecesOf(ts[1..])
  }

  /** A token's text is one atom, unless it is a bare `?`. */
  lemma TokenAtom(t: Token, rest: string)
    requires t != Lit('*')
    ensures t != Lit('?') ==> Atom(Text(t, 6) + rest) == Some((PieceOf(t), |Text(t, 6)|))
    ensures t == Lit('?') ==> Atom(Text(t, 6) + rest) == None
  {
    var s := Text(t, 6) + rest;
    assert s[0] == Text(t, 6)[0];
    if t.Lit? && IsSpecial(t.c) {
      assert s[1] == t.c;
    }
  }

  predicate NoStarLit(ts: seq<Token>) {
    !Has(ts, '*')
  }

  lemma {:induction false} TidyHasNoStarLit(ts: seq<Token>)
    requires Tidy(ts)
    ensures NoStarLit(ts)
  {
    if ts != [] {
      TidyHasNoStarLit(ts[1..]);
      assert ts == [ts[0]] + ts[1..];
    }
  }

  lemma ParseStep(a: string, rest: string, p: Piece)
    requires a != "" && Atom(a + rest) == Some((p, |a|))
    ensures var n := Marks(p, rest);
            Parse(a + rest) == match Parse(rest[n..])
                               case None => None
                               case Some(ps) => Some([Marked(p, n)] + ps)
  {
    assert (a + rest)[|a|..] == rest;
    assert (a + rest)[|a| + Marks(p, rest)..] == rest[Marks(p, rest)..];
  }

  lemma {:induction false} ParseOfTokens(ts: seq<Token>)
    requires NoStarLit(ts) && !Has(ts, '?')
    ensures Parse(Render(ts, 6)) == Some(PiecesOf(ts))
  {
    if ts != [] {
      var us := ts[1..];
      assert ts[0] in ts && forall c :: c in us ==> c in ts;
      ParseOfTokens(us);
      NoMarkAhead(us);
      TokenAtom(ts[0], Render(us, 6));
      ParseStep(Text(ts[0], 6), Render(us, 6), PieceOf(ts[0]));
      assert Render(us, 6)[0..] == Render(us, 6);
    }
  }

  lemma NoMarkAhead(us: seq<Token>)
    requires us != [] ==> us[0] != Lit('?')
    ensures Render(us, 6) != "" ==> Render(us, 6)[0] != '?'
  {
    assert us != [] ==> Render(us, 6)[0] == Text(us[0], 6)[0];
  }

  // ── the RegExp's language is the glob's meaning ────────────────────────────

  lemma PieceMeansToken(t: Token, w: string)
    ensures PieceMatches(PieceOf(t), w)
       <==> TokenMeans(t, w) && (t.Any? || t.Dirs? ==> OneLine(w))
  {
    DirectoriesEndInSlash(w);
  }

  lemma {:induction false} MatchesSplits(ts: seq<Token>, s: string) returns (parts: seq<string>)
    requires Matches(PiecesOf(ts), s)
    ensures Splits(ts, parts, s) && OnOneLine(ts, parts)
  {
    if ts == [] {
      parts := [];
    } else {
      var ps := PiecesOf(ts);
      assert ps[0] == PieceOf(ts[0]) && ps[1..] == PiecesOf(ts[1..]);
      var k :| 0 <= k <= |s| && PieceMatches(ps[0], s[..k]) && Matches(ps[1..], s[k..]);
      PieceMeansToken(ts[0], s[..k]);
      hide PieceMatches, Matches, TokenMeans;
      var rest := MatchesSplits(ts[1..], s[k..]);
      parts := [s[..k]] + rest;
      assert parts[1..] == rest;
    }
  }

  lemma {:induction false} SplitsMatch(ts: seq<Token>, parts: seq<string>, s: string)
    requires Splits(ts, parts, s) && OnOneLine(ts, parts)
    ensures Matches(PiecesOf(ts), s)
  {
    if ts != [] {
      var ps := PiecesOf(ts);
      assert ps[0] == PieceOf(ts[0]) && ps[1..] == PiecesOf(ts[1..]);
      var k := |parts[0]|;
      assert s[..k] == parts[0] && s[k..] == Concat(parts[1..]);
      PieceMeansToken(ts[0], parts[0]);
      SplitsMatch(ts[1..], parts[1..], s[k..]);
    }
  }

  lemma PiecesMeanTokens(ts: seq<Token>, s: string)
    ensures Matches(PiecesOf(ts), s) <==> MeansInLines(ts, s)
  {
    if Matches(PiecesOf(ts), s) {
      var parts := MatchesSplits(ts, s);
    }
    forall parts: seq<string> | Splits(ts, parts, s) && OnOneLine(ts, parts)
      ensures Matches(PiecesOf(ts), s)
    {
      SplitsMatch(ts, parts, s);
    }
  }

  /** The compiled RegExp exists and matches exactly what the glob says. */
  ghost predicate Faithful(glob: string) {
    && Parse(RegExpSource(glob)).Some?
    && forall s :: Matches(Parse(RegExpSource(glob)).value, s) <==> MeansInLines(Tokenize(glob), s)
  }

  /** Any glob without `?` whose text never closes a sentinel by accident. */
  lemma SafeGlobIsFaithful(glob: string)
    requires !Has(Tokenize(glob), '?') && SentinelsSafe(Tokenize(glob))
    ensures Faithful(glob)
  {
    var ts := Tokenize(glob);
    PassesTranslateTokens(glob);
    TokenizeIsTidy(glob);
    TidyHasNoStarLit(ts);
    ParseOfTokens(ts);
    forall s ensures Matches(PiecesOf(ts), s) <==> MeansInLines(ts, s) {
      PiecesMeanTokens(ts, s);
    }
  }

  // ── globs it does not translate faithfully ─────────────────────────────────

  /** The shortest text the pieces match: every wildcard and every optional character left out. */
  function Shortest(ps: seq<Piece>): string {
    if ps == [] then ""
    else (if ps[0].PChar? && !ps[0].optional then [ps[0].c] else "") + Shortest(ps[1..])
  }

  lemma {:induction false} ShortestMatches(ps: seq<Piece>)
    ensures Matches(ps, Shortest(ps))
  {
    if ps != [] {
      ShortestMatches(ps[1..]);
      var s := Shortest(ps);
      var k := if ps[0].PChar? && !ps[0].optional then 1 else 0;
      assert s[k..] == Shortest(ps[1..]) && PieceMatches(ps[0], s[..k]);
    }
  }

  lemma {:induction false} ShortestHasOnlyPieces(ps: seq<Piece>, c: char)
    requires PChar(c, false) !in ps
    ensures c !in Shortest(ps)
  {
    if ps != [] {
      assert ps[0] in ps && forall p :: p in ps[1..] ==> p in ps;
      ShortestHasOnlyPieces(ps[1..], c);
    }
  }

  lemma {:induction false} PieceIsInEveryMatch(ps: seq<Piece>, c: char, s: string)
    requires PChar(c, false) in ps && Matches(ps, s)
    ensures c in s
  {
    var k :| 0 <= k <= |s| && PieceMatches(ps[0], s[..k]) && Matches(ps[1..], s[k..]);
    assert s == s[..k] + s[k..];
    if ps[0] == PChar(c, false) {
      assert s[..k][0] == c;
    } else {
      assert ps == [ps[0]] + ps[1..];
      PieceIsInEveryMatch(ps[1..], c, s[k..]);
    }
  }

  lemma PieceIsMatched(ps: seq<Piece>, c: char, s: string)
    requires PChar(c, false) in ps
    ensures Matches(ps, s) ==> c in s
  {
    if Matches(ps, s) {
      PieceIsInEveryMatch(ps, c, s);
    }
  }

  lemma {:induction false} LiteralIsInEveryMeaning(ts: seq<Token>, parts: seq<string>, c: char, s: string)
    requires Has(ts, c) && Splits(ts, parts, s)
    ensures c in s
  {
    if ts[0] == Lit(c) {
      assert s[0] == c;
    } else {
      assert ts == [ts[0]] + ts[1..];
      LiteralIsInEveryMeaning(ts[1..], parts[1..], c, Concat(parts[1..]));
    }
  }

  function LiteralParts(ts: seq<Token>): seq<string> {
    if ts == [] then [] else [if ts[0].Lit? then [ts[0].c] else ""] + LiteralParts(ts[1..])
  }

  /** A glob always means its own literals, with every wildcard standing for nothing. */
  lemma {:induction false} LiteralsAreMeant(ts: seq<Token>, c: char)
    requires !Has(ts, c)
    ensures Splits(ts, LiteralParts(ts), Concat(LiteralParts(ts))) && OnOneLine(ts, LiteralParts(ts))
    ensures c !in Concat(LiteralParts(ts))
  {
    if ts != [] {
      assert ts[0] in ts && forall u :: u in ts[1..] ==> u in ts;
      LiteralsAreMeant(ts[1..], c);
      var parts := LiteralParts(ts);
      assert parts[1..] == LiteralParts(ts[1..]);
      DirectoriesEndInSlash("");
      forall i | 0 <= i < |ts|
        ensures TokenMeans(ts[i], parts[i]) && (ts[i].Any? || ts[i].Dirs? ==> OneLine(parts[i]))
      {
        assert i > 0 ==> ts[i] == ts[1..][i - 1] && parts[i] == parts[1..][i - 1];
      }
    }
  }

  lemma LiteralIsMeant(ts: seq<Token>, c: char, s: string)
    requires Has(ts, c)
    ensures MeansInLines(ts, s) ==> c in s
  {
    forall parts: seq<string> | Splits(ts, parts, s) ensures c in s {
      LiteralIsInEveryMeaning(ts, parts, c, s);
    }
  }

  // a bare `?` never becomes a character of its own

  lemma MarkIsToken(us: seq<Token>)
    requires Render(us, 6) != "" && Render(us, 6)[0] == '?'
    ensures us != [] && us[0] == Lit('?') && Render(us, 6)[1..] == Render(us[1..], 6)
  {
    assert us != [] && Render(us, 6)[0] == Text(us[0], 6)[0];
  }

  lemma MarksAreTokens(us: seq<Token>, p: Piece) returns (n: nat)
    ensures n <= |us| && Render(us, 6)[Marks(p, Render(us, 6))..] == Render(us[n..], 6)
  {
    var t := Render(us, 6);
    n := Marks(p, t);
    if n > 0 {
      MarkIsToken(us);
      if n > 1 {
        assert t[1..][0] == t[1];
        MarkIsToken(us[1..]);
        assert us[1..][1..] == us[2..] && t[1..][1..] == t[2..];
      }
    }
  }

  lemma {:induction false} MarksAreNotPieces(ts: seq<Token>)
    requires NoStarLit(ts) && Parse(Render(ts, 6)).Some?
    ensures PChar('?', false) !in Parse(Render(ts, 6)).value
    decreases |ts|
  {
    if ts != [] {
      var us := ts[1..];
      assert ts[0] in ts;
      TokenAtom(ts[0], Render(us, 6));
      var p := PieceOf(ts[0]);
      assert ts[0] != Lit('?');
      ParseStep(Text(ts[0], 6), Render(us, 6), p);
      var n := MarksAreTokens(us, p);
      assert forall u :: u in us[n..] ==> u in us && u in ts;
      MarksAreNotPieces(us[n..]);
    }
  }

  lemma QuestionMarkIsNotFaithful(glob: string)
    requires Has(Tokenize(glob), '?') && SentinelsSafe(Tokenize(glob))
    ensures !Faithful(glob)
  {
    var ts := Tokenize(glob);
    PassesTranslateTokens(glob);
    TokenizeIsTidy(glob);
    TidyHasNoStarLit(ts);
    if Parse(Render(ts, 6)).Some? {
      var ps := Parse(Render(ts, 6)).value;
      MarksAreNotPieces(ts);
      ShortestMatches(ps);
      ShortestHasOnlyPieces(ps, '?');
      LiteralIsMeant(ts, '?', Shortest(ps));
    }
  }

  // a sentinel end that survives the passes is matched literally

  lemma ParseHead(t: string)
    requires t != "" && Parse(t).Some?
    ensures Atom(t).Some?
    ensures var a := Atom(t).value; var n := Marks(a.0, t[a.1..]);
      && Parse(t[a.1 + n..]).Some?
      && Parse(t).value == [Marked(a.0, n)] + Parse(t[a.1 + n..]).value
  {
  }

  lemma {:induction false} SentinelEndIsPiece(t: string, i: nat)
    requires i < |t| - 1 && t[i] == '@' && t[i + 1] == '@' && Parse(t).Some?
    ensures PChar('@', false) in Parse(t).value
    decreases |t|
  {
    hide Parse, Atom, Marks;
    ParseHead(t);
    var a := Atom(t).value;
    var rest := t[a.1..];
    var n := Marks(a.0, rest);
    if i < a.1 {
      AtomHoldsAt(t, i);
      assert rest[0] == '@';
      assert Parse(t).value[0] == PChar('@', false);
    } else {
      assert forall j :: 0 <= j < n ==> rest[j] == '?';
      assert rest[i - a.1] == '@' && rest[i + 1 - a.1] == '@';
      assert i - a.1 >= n;
      assert t[a.1 + n..] == rest[n..];
      SentinelEndIsPiece(rest[n..], i - a.1 - n);
    }
  }

  lemma AtomHoldsAt(t: string, i: nat)
    requires t != "" && Atom(t).Some? && i < Atom(t).value.1
    ensures t[i] == '@' ==> Atom(t).value == (PChar('@', false), i + 1)
  {
    if "(?:.*/)?" <= t {
      assert '@' !in t[..8] && t[i] == t[..8][i];
    } else if "[^/]*" <= t {
      assert '@' !in t[..5] && t[i] == t[..5][i];
    } else if ".*" <= t {
      assert '@' !in t[..2] && t[i] == t[..2][i];
    }
  }

  lemma CollisionIsNotFaithful(glob: string)
    requires !Has(Tokenize(glob), '@') && Collides(Tokenize(glob))
    ensures !Faithful(glob)
  {
    var ts := Tokenize(glob);
    var t := RegExpSource(glob);
    CollisionLeavesSentinelEnd(glob);
    LiteralsAreMeant(ts, '@');
    var s := Concat(LiteralParts(ts));
    assert MeansInLines(ts, s);
    var i :| 0 <= i < |t| - 1 && t[i] == '@' && t[i + 1] == '@';
    if Parse(t).Some? {
      SentinelEndIsPiece(t, i);
      PieceIsMatched(Parse(t).value, '@', s);
    }
  }

  /** For a glob without `@`, the translation is faithful exactly when it has no `?` and spells no `**DIRS**`. */
  lemma FaithfulExactly(glob: string)
    requires !Has(Tokenize(glob), '@')
    ensures Faithful(glob) <==> !Has(Tokenize(glob), '?') && !Collides(Tokenize(glob))
  {
    if Collides(Tokenize(glob)) {
      CollisionIsNotFaithful(glob);
    } else {
      SafeWithoutAt(Tokenize(glob));
      if Has(Tokenize(glob), '?') {
        QuestionMarkIsNotFaithful(glob);
      } else {
        SafeGlobIsFaithful(glob);
      }
    }
  }

  // ── tokens and the glob's characters ───────────────────────────────────────

  /** A character other than `*` and `/` is a literal token exactly when it is in the glob. */
  lemma {:induction false} LiteralsAreCharacters(glob: string, c: char)
    requires c != '*' && c != '/'
    ensures Has(Tokenize(glob), c) <==> c in glob
    decreases |glob|
  {
    if glob == "" {
    } else {
      var n := if "**/" <= glob then 3 else if "***/" <= glob then 1 else if "**" <= glob then 2 else 1;
      LiteralsAreCharacters(glob[n..], c);
      assert glob == glob[..n] + glob[n..];
      assert Tokenize(glob)[1..] == Tokenize(glob[n..]);
      assert Tokenize(glob) == [Tokenize(glob)[0]] + Tokenize(glob[n..]);
    }
  }

  /** For a glob without `@`, over its characters: faithful exactly when it has no `?` and spells no `**DIRS**`. */
  lemma GlobIsFaithfulExactly(glob: string)
    requires '@' !in glob
    ensures Faithful(glob) <==> '?' !in glob && !Collides(Tokenize(glob))
  {
    LiteralsAreCharacters(glob, '@');
    LiteralsAreCharacters(glob, '?');
    FaithfulExactly(glob);
  }

  lemma {:induction false} PlainIsItsOwnEscape(w: string)
    requires forall c :: c in w ==> !IsSpecial(c)
    ensures Escape(w) == w
  {
    if w != "" {
      assert w[0] in w && forall c :: c in w[1..] ==> c in w;
      PlainIsItsOwnEscape(w[1..]);
      assert w == [w[0]] + w[1..];
    }
  }

  lemma Untouching(w: string, pat: string, rep: string)
    requires pat != "" && NoMatchIn(w, "", pat)
    ensures ReplaceAll(w, pat, rep) == w
  {
    SkipAligned(w, "", pat, rep);
    assert w + "" == w;
  }

  lemma SpelledSentinelSource()
    ensures RegExpSource(ANY) == ".*"
  {
    PlainIsItsOwnEscape(ANY);
    NoStarsInAny();
    NoDirsInAny();
    Untouching(ANY, "**/", DIRS);
    Untouching(ANY, "**", ANY);
    Untouching(ANY, "*", "[^/]*");
    Untouching(ANY, DIRS, "(?:.*/)?");
    AnyIsReplaced();
    hide ReplaceAll, Escape, NoMatchIn;
  }

  lemma AnyIsReplaced()
    ensures ReplaceAll(ANY, ANY, ".*") == ".*"
  {
    MatchText("", ANY, ".*");
    assert ANY + "" == ANY && ".*" + "" == ".*";
  }

  lemma NoStarsInAny()
    ensures NoMatchIn(ANY, "", "**/") && NoMatchIn(ANY, "", "**") && NoMatchIn(ANY, "", "*")
  {
    NoAtNoMatch(ANY, "", "**/");
    NoAtNoMatch(ANY, "", "**");
    NoAtNoMatch(ANY, "", "*");
  }

  lemma NoDirsInAny()
    ensures NoMatchIn(ANY, "", DIRS)
  {
    forall k | 0 <= k < |ANY| ensures !(DIRS <= (ANY + "")[k..]) {
      assert |(ANY + "")[k..]| < |DIRS|;
    }
  }

  lemma AnyPieceMatchesNothing()
    ensures Parse(".*") == Some([PAny]) && Matches([PAny], "")
  {
    ParseStep(".*", "", PAny);
    assert ".*" + "" == ".*" && [PAny] + [] == [PAny] && [PAny][1..] == [];
    assert PieceMatches(PAny, ""[..0]) && Matches([PAny][1..], ""[0..]);
  }

  /** A glob that spells a sentinel out is rewritten to `.*`: the `@` in the glob matters. */
  lemma SpelledSentinelIsNotFaithful()
    ensures RegExpSource(ANY) == ".*" && !Faithful(ANY)
  {
    SpelledSentinelSource();
    AnyPieceMatchesNothing();
    LiteralsAreCharacters(ANY, '@');
    LiteralIsMeant(Tokenize(ANY), '@', "");
  }

  // ── lines ──────────────────────────────────────────────────────────────────

  lemma {:induction false} PartsOfOneLine(parts: seq<string>, s: string, i: nat)
    requires Concat(parts) == s && OneLine(s) && i < |parts|
    ensures OneLine(parts[i])
  {
    var rest := Concat(parts[1..]);
    assert forall j :: 0 <= j < |parts[0]| ==> parts[0][j] == s[j];
    if i > 0 {
      assert forall j :: 0 <= j < |rest| ==> rest[j] == s[|parts[0]| + j];
      PartsOfOneLine(parts[1..], rest, i - 1);
    }
  }

  /** On a path without line terminators the translation means the glob itself; elsewhere it only matches less. */
  lemma FaithfulOnLines(glob: string, s: string)
    requires Faithful(glob)
    ensures Matches(Parse(RegExpSource(glob)).value, s) ==> Means(Tokenize(glob), s)
    ensures OneLine(s) && Means(Tokenize(glob), s) ==> Matches(Parse(RegExpSource(glob)).value, s)
  {
    var ts := Tokenize(glob);
    if OneLine(s) && Means(ts, s) {
      var parts :| Splits(ts, parts, s);
      forall i | 0 <= i < |ts| ensures OneLine(parts[i]) {
        PartsOfOneLine(parts, s, i);
      }
      assert MeansInLines(ts, s);
    }
  }

  /** `**` says anything, but misses each of the four line terminators, and of single characters only those. */
  lemma NewlineIsMissed(c: char)
    ensures Faithful("**") && Means(Tokenize("**"), [c])
    ensures Matches(Parse(RegExpSource("**")).value, [c]) <==> c !in ['\n', '\r', '\U{2028}', '\U{2029}']
  {
    var ts := [Any];
    assert "**"[2..] == "";
    assert Tokenize("**") == ts;
    GlobIsFaithfulExactly("**");
    assert Concat([[c]]) == [c] + Concat([]) == [c];
    assert Splits(ts, [[c]], [c]);
    forall parts: seq<string> | Splits(ts, parts, [c]) ensures OnOneLine(ts, parts) <==> !LineTerminator(c) {
      assert parts == [parts[0]] && Concat(parts) == parts[0] + Concat(parts[1..]) == parts[0];
      assert parts[0][0] == c;
    }
  }

  // ── matchesTestGlob ────────────────────────────────────────────────────────

  /** `relPath.split('/').pop()` */
  function BaseName(path: string): (base: string)
    ensures '/' !in base
    ensures base == path || (|base| < |path| && path == path[..|path| - |base|] + base && path[|path| - |base| - 1] == '/')
  {
    if path == "" then ""
    else
      var base := BaseName(path[1..]);
      if |base| == |path| - 1 && path[0] != '/' then path else base
  }

  /** What one glob is tested against. */
  function Subject(relPath: string, glob: string): string {
    if '/' in glob then relPath else BaseName(relPath)
  }

  /** `globs.some(…)`: none where the first glob that decides throws. */
  ghost function MatchesTestGlob(relPath: string, globs: seq<string>): Option<bool> {
    if globs == [] then Some(false)
    else match Parse(RegExpSource(globs[0]))
      case None => None
      case Some(re) =>
        if Matches(re, Subject(relPath, globs[0])) then Some(true) else MatchesTestGlob(relPath, globs[1..])
  }

  /** An ending of the path that reaches past a slash holds it. */
  lemma LongerHoldsSlash(path: string, short: string, long: string)
    requires |short| < |long| <= |path| && path[|path| - |long|..] == long && path[|path| - |short| - 1] == '/'
    ensures '/' in long
  {
    assert long[|long| - |short| - 1] == path[|path| - |short| - 1];
  }

  /** A path has one last segment. */
  lemma LastSegmentIsUnique(path: string, base: string)
    requires '/' !in base && |base| <= |path| && path[|path| - |base|..] == base
    requires base == path || path[|path| - |base| - 1] == '/'
    ensures base == BaseName(path)
  {
    var last := BaseName(path);
    assert path[|path| - |last|..] == last;
    if |base| < |last| {
      LongerHoldsSlash(path, base, last);
    } else if |last| < |base| {
      LongerHoldsSlash(path, last, base);
    }
  }

  /**
   With faithful globs the answer is whether one of them means the path, or, having no
   slash, means `base`: what stands behind the path's last slash.
   */
  lemma {:induction false} TestGlobMeaning(relPath: string, globs: seq<string>, base: string)
    requires forall g :: g in globs ==> Faithful(g)
    requires '/' !in base && |base| <= |relPath| && relPath[|relPath| - |base|..] == base
    requires base == relPath || relPath[|relPath| - |base| - 1] == '/'
    ensures MatchesTestGlob(relPath, globs)
         == Some(exists g :: g in globs && MeansInLines(Tokenize(g), if '/' in g then relPath else base))
  {
    LastSegmentIsUnique(relPath, base);
    if globs != [] {
      assert globs[0] in globs && globs == [globs[0]] + globs[1..];
      TestGlobMeaning(relPath, globs[1..], base);
    }
  }
}
