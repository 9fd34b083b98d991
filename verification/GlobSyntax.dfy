/**
 `globToRegExp` of src/kshetra/toolchain.ts as text: five `replace` passes over
 the glob, and what they make of it token by token.
 */
module GlobSyntax {

  import opened Prelude

  const DIRS := "@@DIRS@@"
  const ANY := "@@ANY@@"

  /** `s.replace(/pat/g, rep)` for a literal pattern: leftmost matches, left to right. */
  function ReplaceAll(s: string, pat: string, rep: string): string
    requires pat != ""
    decreases |s|
  {
    if s == "" then ""
    else if pat <= s then rep + ReplaceAll(s[|pat|..], pat, rep)
    else [s[0]] + ReplaceAll(s[1..], pat, rep)
  }

  /** The characters of `/[.+^${}()|[\]\\]/`. */
  predicate IsSpecial(c: char) {
    c in ".+^${}()|[]\\"
  }

  function EscapeOne(c: char): string {
    if IsSpecial(c) then ['\\', c] else [c]
  }

  /** `glob.replace(/[.+^${}()|[\]\\]/g, '\\$&')` */
  function Escape(s: string): string {
    if s == "" then "" else EscapeOne(s[0]) + Escape(s[1..])
  }

  /** The text between `^` and `$` of the RegExp. */
  function RegExpSource(glob: string): string {
    ReplaceAll(ReplaceAll(ReplaceAll(ReplaceAll(ReplaceAll(Escape(glob),
      "**/", DIRS), "**", ANY), "*", "[^/]*"), DIRS, "(?:.*/)?"), ANY, ".*")
  }

  // ── the glob's tokens ──────────────────────────────────────────────────────

  /** `*`, `**`, `**``/`, or a character that stands for itself. */
  datatype Token = Lit(c: char) | Star | Any | Dirs

  /** A run of stars before a slash gives its last two to the slash; otherwise stars pair from the left. */
  function Tokenize(s: string): seq<Token>
    decreases |s|
  {
    if s == "" then []
    else if "**/" <= s then [Dirs] + Tokenize(s[3..])
    else if "***/" <= s then [Star] + Tokenize(s[1..])
    else if "**" <= s then [Any] + Tokenize(s[2..])
    else if s[0] == '*' then [Star] + Tokenize(s[1..])
    else [Lit(s[0])] + Tokenize(s[1..])
  }

  /** How a token reads after each number of passes. */
  function Text(t: Token, passes: nat): string {
    match t
    case Lit(c) => EscapeOne(c)
    case Star => if passes < 4 then "*" else "[^/]*"
    case Any => if passes < 3 then "**" else if passes < 6 then ANY else ".*"
    case Dirs => if passes < 2 then "**/" else if passes < 5 then DIRS else "(?:.*/)?"
  }

  function Render(ts: seq<Token>, passes: nat): string {
    if ts == [] then "" else Text(ts[0], passes) + Render(ts[1..], passes)
  }

  /** What `Tokenize` yields: no literal star, and no star token that would pair with what follows. */
  predicate Tidy(ts: seq<Token>) {
    ts != [] ==>
      && ts[0] != Lit('*') && Tidy(ts[1..])
      && (ts[0].Star? && |ts| > 1 ==> !ts[1].Star? && !ts[1].Any?)
  }

  lemma {:induction false} TokenizeIsTidy(s: string)
    ensures Tidy(Tokenize(s))
    decreases |s|
  {
    if s == "" {
    } else if "**/" <= s {
      TokenizeIsTidy(s[3..]);
    } else if "***/" <= s {
      TokenizeIsTidy(s[1..]);
      assert s[1..][..3] == "**/";
      assert Tokenize(s)[1..] == Tokenize(s[1..]);
    } else if "**" <= s {
      TokenizeIsTidy(s[2..]);
    } else {
      TokenizeIsTidy(s[1..]);
      assert Tokenize(s)[1..] == Tokenize(s[1..]);
      if s[0] == '*' && |s| > 1 {
        assert s[..2] != "**";
        assert s[1] != '*';
      }
    }
  }

  // ── passes over text that cannot match ─────────────────────────────────────

  /** A stretch without the pattern's first character is copied. */
  lemma {:induction false} SkipText(w: string, t: string, pat: string, rep: string)
    requires pat != "" && pat[0] !in w
    ensures ReplaceAll(w + t, pat, rep) == w + ReplaceAll(t, pat, rep)
  {
    if w == "" {
      assert w + t == t;
    } else {
      SkipText(w[1..], t, pat, rep);
      assert (w + t)[1..] == w[1..] + t;
      assert !(pat <= w + t);
      assert w == [w[0]] + w[1..];
    }
  }

  lemma MatchText(t: string, pat: string, rep: string)
    requires pat != ""
    ensures ReplaceAll(pat + t, pat, rep) == rep + ReplaceAll(t, pat, rep)
  {
    assert (pat + t)[|pat|..] == t;
  }

  lemma SkipOne(s: string, pat: string, rep: string)
    requires pat != "" && s != "" && !(pat <= s)
    ensures ReplaceAll(s, pat, rep) == [s[0]] + ReplaceAll(s[1..], pat, rep)
  {
  }

  // ── passes 1 and 2 ─────────────────────────────────────────────────────────

  lemma EscapeHead(s: string)
    ensures s == "" <==> Escape(s) == ""
    ensures s != "" && !IsSpecial(s[0]) ==> Escape(s)[0] == s[0] && Escape(s)[1..] == Escape(s[1..])
    ensures s != "" && IsSpecial(s[0]) ==> Escape(s)[0] == '\\'
  {
  }

  lemma StarHead(s: string)
    requires s != "" && s[0] == '*'
    ensures Escape(s) == "*" + Escape(s[1..])
  {
  }

  /** A star that tokenizes alone does not begin `**``/` in the escaped text. */
  lemma LoneStar(s: string)
    requires s != "" && s[0] == '*' && !("**/" <= s) && ("***/" <= s || !("**" <= s))
    ensures !("**/" <= Escape(s))
  {
    StarHead(s);
    EscapeHead(s[1..]);
    if "***/" <= s {
      assert s[1..][0] == '*' && s[1..][1..] == s[2..] && s[2..][0] == '*';
      StarHead(s[1..]);
      StarHead(s[2..]);
      assert Escape(s)[2] == '*';
    } else {
      assert |s| > 1 ==> s[1..][0] == s[1] && s[..2] == [s[0], s[1]];
      assert |s| > 1 ==> s[1] != '*';
      assert |s| > 1 ==> Escape(s)[1] == Escape(s[1..])[0];
      assert |s| == 1 ==> Escape(s) == "*";
    }
  }

  /** Nor does either star of a pair. */
  lemma PairOfStars(s: string)
    requires "**" <= s && !("**/" <= s) && !("***/" <= s)
    ensures !("**/" <= "*" + ("*" + Escape(s[2..]))) && !("**/" <= "*" + Escape(s[2..]))
  {
    var r := s[2..];
    EscapeHead(r);
    assert |r| > 0 ==> r[0] == s[2] && s[..3] == "**" + [r[0]];
    assert |r| > 0 ==> r[0] != '/';
    if |r| > 0 && r[0] == '*' {
      EscapeHead(r[1..]);
      assert |r| > 1 ==> r[1..][0] == r[1] == s[3] && s[..4] == "***" + [r[1]];
      assert |r| > 1 ==> r[1] != '/';
    }
  }

  lemma {:induction false} PassTwo(s: string)
    ensures ReplaceAll(Escape(s), "**/", DIRS) == Render(Tokenize(s), 2)
    decreases |s|
  {
    if s == "" {
    } else if "**/" <= s {
      PassTwo(s[3..]);
      PassTwoDirs(s);
    } else if s[0] != '*' {
      PassTwo(s[1..]);
      SkipText(EscapeOne(s[0]), Escape(s[1..]), "**/", DIRS);
      assert Tokenize(s)[1..] == Tokenize(s[1..]);
    } else if "***/" <= s || !("**" <= s) {
      PassTwo(s[1..]);
      PassTwoStar(s);
    } else {
      PassTwo(s[2..]);
      PassTwoAny(s);
    }
  }

  lemma RenderCons(tok: Token, ts: seq<Token>, passes: nat)
    ensures Render([tok] + ts, passes) == Text(tok, passes) + Render(ts, passes)
  {
    assert ([tok] + ts)[1..] == ts;
  }

  lemma DirsHead(s: string)
    requires "**/" <= s
    ensures Escape(s) == "**/" + Escape(s[3..]) && Tokenize(s) == [Dirs] + Tokenize(s[3..])
  {
    assert s[1..][1..] == s[2..] && s[2..][1..] == s[3..];
    assert s[1..][0] == '*' && s[2..][0] == '/';
    StarHead(s);
    StarHead(s[1..]);
    assert Escape(s[2..]) == "/" + Escape(s[3..]);
    assert "*" + ("*" + ("/" + Escape(s[3..]))) == "**/" + Escape(s[3..]);
  }

  lemma PassTwoDirs(s: string)
    requires "**/" <= s && ReplaceAll(Escape(s[3..]), "**/", DIRS) == Render(Tokenize(s[3..]), 2)
    ensures ReplaceAll(Escape(s), "**/", DIRS) == Render(Tokenize(s), 2)
  {
    hide ReplaceAll, Escape, Tokenize, Render;
    DirsHead(s);
    MatchText(Escape(s[3..]), "**/", DIRS);
    RenderCons(Dirs, Tokenize(s[3..]), 2);
  }

  lemma PassTwoStar(s: string)
    requires s != "" && s[0] == '*' && !("**/" <= s) && ("***/" <= s || !("**" <= s))
    requires ReplaceAll(Escape(s[1..]), "**/", DIRS) == Render(Tokenize(s[1..]), 2)
    ensures ReplaceAll(Escape(s), "**/", DIRS) == Render(Tokenize(s), 2)
  {
    StarHead(s);
    LoneStar(s);
    assert Tokenize(s) == [Star] + Tokenize(s[1..]);
    hide ReplaceAll, Escape, Tokenize, Render;
    SkipOne(Escape(s), "**/", DIRS);
    assert Escape(s)[1..] == Escape(s[1..]);
    RenderCons(Star, Tokenize(s[1..]), 2);
  }

  lemma PassTwoAny(s: string)
    requires "**" <= s && !("**/" <= s) && !("***/" <= s)
    requires ReplaceAll(Escape(s[2..]), "**/", DIRS) == Render(Tokenize(s[2..]), 2)
    ensures ReplaceAll(Escape(s), "**/", DIRS) == Render(Tokenize(s), 2)
  {
    assert Tokenize(s) == [Any] + Tokenize(s[2..]);
    assert s[1..][0] == '*' && s[1..][1..] == s[2..];
    StarHead(s);
    StarHead(s[1..]);
    PairOfStars(s);
    hide ReplaceAll, Escape, Tokenize, Render;
    var e := Escape(s[2..]);
    SkipOne("*" + ("*" + e), "**/", DIRS);
    SkipOne("*" + e, "**/", DIRS);
    assert ("*" + e)[1..] == e && ("*" + ("*" + e))[1..] == "*" + e;
    RenderCons(Any, Tokenize(s[2..]), 2);
    var r := ReplaceAll(e, "**/", DIRS);
    assert "*" + ("*" + r) == "**" + r;
  }

  // ── passes 3 and 4 ─────────────────────────────────────────────────────────

  lemma {:induction false} PassThree(ts: seq<Token>)
    requires Tidy(ts)
    ensures ReplaceAll(Render(ts, 2), "**", ANY) == Render(ts, 3)
  {
    if ts != [] {
      PassThree(ts[1..]);
      var rest := Render(ts[1..], 2);
      match ts[0]
      case Lit(c) => SkipText(Text(ts[0], 2), rest, "**", ANY);
      case Dirs => SkipText(DIRS, rest, "**", ANY);
      case Any => MatchText(rest, "**", ANY);
      case Star =>
        assert ts[1..] != [] ==> rest[0] == Text(ts[1], 2)[0];
        assert rest != "" ==> rest[0] != '*' && ("*" + rest)[1] == rest[0];
        SkipOne("*" + rest, "**", ANY);
    }
  }

  lemma {:induction false} PassFour(ts: seq<Token>)
    requires Tidy(ts)
    ensures ReplaceAll(Render(ts, 3), "*", "[^/]*") == Render(ts, 4)
  {
    if ts != [] {
      PassFour(ts[1..]);
      var rest := Render(ts[1..], 3);
      if ts[0].Star? {
        MatchText(rest, "*", "[^/]*");
      } else {
        SkipText(Text(ts[0], 3), rest, "*", "[^/]*");
      }
    }
  }

  // ── passes 5 and 6: the sentinels ──────────────────────────────────────────

  /** The pattern begins nowhere inside `w`, read with `t` behind it. */
  predicate NoMatchIn(w: string, t: string, pat: string) {
    forall k :: 0 <= k < |w| ==> !(pat <= (w + t)[k..])
  }

  /** No token but `own` holds the start of a match of `pat`. */
  predicate Untouched(ts: seq<Token>, passes: nat, own: Token, pat: string) {
    ts != [] ==>
      && (ts[0] == own || NoMatchIn(Text(ts[0], passes), Render(ts[1..], passes), pat))
      && Untouched(ts[1..], passes, own, pat)
  }

  lemma {:induction false} SkipAligned(w: string, t: string, pat: string, rep: string)
    requires pat != "" && NoMatchIn(w, t, pat)
    ensures ReplaceAll(w + t, pat, rep) == w + ReplaceAll(t, pat, rep)
  {
    if w == "" {
      assert w + t == t;
    } else {
      assert (w + t)[0..] == w + t && (w + t)[1..] == w[1..] + t;
      forall k | 0 <= k < |w[1..]| ensures !(pat <= (w[1..] + t)[k..]) {
        assert (w + t)[k + 1..] == (w[1..] + t)[k..];
      }
      SkipAligned(w[1..], t, pat, rep);
      assert w == [w[0]] + w[1..];
    }
  }

  lemma {:induction false} PassFive(ts: seq<Token>)
    requires Untouched(ts, 4, Dirs, DIRS)
    ensures ReplaceAll(Render(ts, 4), DIRS, "(?:.*/)?") == Render(ts, 5)
  {
    if ts != [] {
      PassFive(ts[1..]);
      if ts[0] == Dirs {
        MatchText(Render(ts[1..], 4), DIRS, "(?:.*/)?");
      } else {
        SkipAligned(Text(ts[0], 4), Render(ts[1..], 4), DIRS, "(?:.*/)?");
      }
    }
  }

  lemma {:induction false} PassSix(ts: seq<Token>)
    requires Untouched(ts, 5, Any, ANY)
    ensures ReplaceAll(Render(ts, 5), ANY, ".*") == Render(ts, 6)
  {
    if ts != [] {
      PassSix(ts[1..]);
      if ts[0] == Any {
        MatchText(Render(ts[1..], 5), ANY, ".*");
      } else {
        SkipAligned(Text(ts[0], 5), Render(ts[1..], 5), ANY, ".*");
      }
    }
  }

  /** Neither sentinel pass finds its sentinel anywhere but where an earlier pass wrote it. */
  predicate SentinelsSafe(ts: seq<Token>) {
    Untouched(ts, 4, Dirs, DIRS) && Untouched(ts, 5, Any, ANY)
  }

  /** The passes before the sentinels are undone rewrite exactly the glob's tokens. */
  lemma FirstPasses(glob: string)
    ensures ReplaceAll(ReplaceAll(ReplaceAll(Escape(glob), "**/", DIRS), "**", ANY), "*", "[^/]*")
         == Render(Tokenize(glob), 4)
  {
    TokenizeIsTidy(glob);
    PassTwo(glob);
    PassThree(Tokenize(glob));
    PassFour(Tokenize(glob));
  }

  /** When the sentinels are safe, the six passes translate the glob token by token. */
  lemma PassesTranslateTokens(glob: string)
    requires SentinelsSafe(Tokenize(glob))
    ensures RegExpSource(glob) == Render(Tokenize(glob), 6)
  {
    FirstPasses(glob);
    PassFive(Tokenize(glob));
    PassSix(Tokenize(glob));
  }

  // ── when the sentinels are safe ────────────────────────────────────────────

  /** The literal `w`, then a token that is written with a sentinel. */
  predicate Spells(ts: seq<Token>, w: string) {
    ts != [] &&
    if w == "" then ts[0].Any? || ts[0].Dirs?
    else ts[0] == Lit(w[0]) && Spells(ts[1..], w[1..])
  }

  /** `**DIRS**`: the sentinel ends of two tokens close around a literal `DIRS`. */
  predicate CollidesAtHead(ts: seq<Token>) {
    ts != [] && ts[0].Any? && Spells(ts[1..], "DIRS")
  }

  predicate Collides(ts: seq<Token>) {
    ts != [] && (CollidesAtHead(ts) || Collides(ts[1..]))
  }

  predicate Has(ts: seq<Token>, c: char) {
    Lit(c) in ts
  }

  predicate Plain(w: string) {
    forall c :: c in w ==> !IsSpecial(c) && c !in "@["
  }

  lemma PrefixBehind(a: string, b: string, t: string)
    ensures a + b <= a + t <==> b <= t
  {
    assert (a + b)[|a|..] == b && (a + t)[|a|..] == t;
    assert a + b <= a + t ==> (a + t)[..|a + b|][|a|..] == b && t[..|b|] == (a + t)[..|a + b|][|a|..];
    assert b <= t ==> a + t == (a + b) + t[|b|..];
  }

  /** A word with a sentinel start behind it can only have been spelled out by literals. */
  lemma {:induction false} SentinelAhead(us: seq<Token>, w: string)
    requires !Has(us, '@') && Plain(w) && w + "@@" <= Render(us, 4)
    ensures Spells(us, w)
  {
    var t := Render(us, 4);
    assert t[0] == (w + "@@")[0];
    assert us != [] && t[0] == Text(us[0], 4)[0];
    assert us[0] in us && forall c :: c in us[1..] ==> c in us;
    if w != "" {
      assert w[0] in w && (w + "@@")[0] == w[0];
      assert us[0] == Lit(w[0]) && t == [w[0]] + Render(us[1..], 4);
      assert w + "@@" == [w[0]] + (w[1..] + "@@");
      PrefixBehind([w[0]], w[1..] + "@@", Render(us[1..], 4));
      SentinelAhead(us[1..], w[1..]);
    }
  }

  lemma {:induction false} SpelledText(us: seq<Token>, w: string) returns (tail: string)
    requires Plain(w) && Spells(us, w)
    ensures Render(us, 4) == w + ("@@" + tail)
  {
    hide Render, Text, Plain;
    if w == "" {
      tail := SentinelText(us);
      assert "" + ("@@" + tail) == "@@" + tail;
    } else {
      PlainTail(w);
      tail := SpelledText(us[1..], w[1..]);
      PlainText(us, w);
      Regroup([w[0]], w[1..], "@@" + tail);
      assert w == [w[0]] + w[1..];
    }
  }

  lemma SentinelText(us: seq<Token>) returns (tail: string)
    requires us != [] && (us[0].Any? || us[0].Dirs?)
    ensures Render(us, 4) == "@@" + tail
  {
    tail := Text(us[0], 4)[2..] + Render(us[1..], 4);
  }

  lemma PlainTail(w: string)
    requires Plain(w) && w != ""
    ensures Plain(w[1..])
  {
    assert forall c :: c in w[1..] ==> c in w;
  }

  lemma PlainText(us: seq<Token>, w: string)
    requires Plain(w) && w != "" && us != [] && us[0] == Lit(w[0])
    ensures Render(us, 4) == [w[0]] + Render(us[1..], 4)
  {
    assert w[0] in w;
  }

  lemma NoAtNoMatch(w: string, t: string, pat: string)
    requires pat != "" && pat[0] !in w
    ensures NoMatchIn(w, t, pat)
  {
    forall k | 0 <= k < |w| ensures !(pat <= (w + t)[k..]) {
      assert (w + t)[k..][0] == w[k];
    }
  }

  lemma AnyUntouched(ts: seq<Token>)
    requires ts != [] && ts[0].Any? && !Has(ts, '@') && !CollidesAtHead(ts)
    ensures NoMatchIn(ANY, Render(ts[1..], 4), DIRS)
  {
    var us := ts[1..];
    var rest := Render(us, 4);
    assert ts == [Any] + us;
    assert forall c :: c in us ==> c in ts;
    if "DIRS@@" <= rest {
      SentinelAhead(us, "DIRS");
    }
    var all := ANY + rest;
    forall k | 0 <= k < |ANY| ensures !(DIRS <= all[k..]) {
      AnyOffset(us, k);
    }
  }

  lemma AnyOffset(us: seq<Token>, k: nat)
    requires k < 7 && !Has(us, '@') && !("DIRS@@" <= Render(us, 4))
    ensures !(DIRS <= (ANY + Render(us, 4))[k..])
  {
    hide Render, Has;
    var rest := Render(us, 4);
    var here := (ANY + rest)[k..];
    if k < 5 {
      assert here[0] == ANY[k] && here[1] == ANY[k + 1] && here[2] == ANY[k + 2];
    } else if k == 5 {
      assert here == "@@" + rest;
      PrefixBehind("@@", "DIRS@@", rest);
    } else {
      assert here == "@" + rest;
      LastAt(us);
    }
  }

  /** The sentinel's last `@` begins no match: no text that starts with `@` goes on with `D`. */
  lemma LastAt(us: seq<Token>)
    requires !Has(us, '@')
    ensures !(DIRS <= "@" + Render(us, 4))
  {
    var rest := Render(us, 4);
    PrefixBehind("@", "@DIRS@@", rest);
    assert us != [] ==> us[0] in us && rest[0] == Text(us[0], 4)[0];
    assert us != [] && (us[0].Any? || us[0].Dirs?) ==> rest[1] == '@';
  }

  lemma {:induction false} SafeWithoutAt(ts: seq<Token>)
    requires !Has(ts, '@') && !Collides(ts)
    ensures SentinelsSafe(ts)
  {
    if ts != [] {
      assert forall c :: c in ts[1..] ==> c in ts;
      SafeWithoutAt(ts[1..]);
      var rest := Render(ts[1..], 4);
      if ts[0].Any? {
        AnyUntouched(ts);
      } else if !ts[0].Dirs? {
        NoAtNoMatch(Text(ts[0], 4), rest, DIRS);
      }
      if !ts[0].Any? {
        NoAtNoMatch(Text(ts[0], 5), Render(ts[1..], 5), ANY);
      }
    }
  }

  // ── when they are not ──────────────────────────────────────────────────────

  /** Two sentinel ends side by side in the text, where no wildcard should leave any. */
  predicate HoldsSentinelEnd(t: string) {
    exists i :: 0 <= i < |t| - 1 && t[i] == '@' && t[i + 1] == '@'
  }

  /** The fifth pass takes the ends of its neighbours and leaves `@@ANY` behind. */
  lemma {:induction false} CollisionInPassFive(ts: seq<Token>) returns (pre: seq<Token>, z: string)
    requires !Has(ts, '@') && Collides(ts)
    ensures !Has(pre, '@') && z != "" && z[0] == '('
    ensures ReplaceAll(Render(ts, 4), DIRS, "(?:.*/)?") == Render(pre, 5) + ("@@ANY" + z)
  {
    if CollidesAtHead(ts) {
      pre := [];
      z := CollisionHere(ts);
      assert Render([], 5) + ("@@ANY" + z) == "@@ANY" + z;
    } else {
      assert forall c :: c in ts[1..] ==> c in ts;
      var p;
      p, z := CollisionInPassFive(ts[1..]);
      pre := [ts[0]] + p;
      hide ReplaceAll, Render, Text, Collides;
      RenderCons(ts[0], p, 5);
      PassFiveHead(ts);
      Regroup(Text(ts[0], 5), Render(p, 5), "@@ANY" + z);
    }
  }

  lemma CollisionHere(ts: seq<Token>) returns (z: string)
    requires CollidesAtHead(ts)
    ensures z != "" && z[0] == '('
    ensures ReplaceAll(Render(ts, 4), DIRS, "(?:.*/)?") == "@@ANY" + z
  {
    var tail := SpelledText(ts[1..], "DIRS");
    assert Render(ts, 4) == "@@ANY" + (DIRS + tail);
    StraddledMatch(tail);
    z := "(?:.*/)?" + ReplaceAll(tail, DIRS, "(?:.*/)?");
  }

  lemma PassFiveHead(ts: seq<Token>)
    requires ts != [] && !Has(ts, '@') && !CollidesAtHead(ts)
    ensures ReplaceAll(Render(ts, 4), DIRS, "(?:.*/)?")
         == Text(ts[0], 5) + ReplaceAll(Render(ts[1..], 4), DIRS, "(?:.*/)?")
  {
    var rest := Render(ts[1..], 4);
    if ts[0].Dirs? {
      MatchText(rest, DIRS, "(?:.*/)?");
    } else {
      if ts[0].Any? {
        AnyUntouched(ts);
      } else {
        NoAtNoMatch(Text(ts[0], 4), rest, DIRS);
      }
      SkipAligned(Text(ts[0], 4), rest, DIRS, "(?:.*/)?");
    }
  }

  lemma StraddledMatch(tail: string)
    ensures ReplaceAll("@@ANY" + (DIRS + tail), DIRS, "(?:.*/)?")
         == "@@ANY" + ("(?:.*/)?" + ReplaceAll(tail, DIRS, "(?:.*/)?"))
  {
    var t := DIRS + tail;
    forall k | 0 <= k < 5 ensures !(DIRS <= ("@@ANY" + t)[k..]) {
      var here := ("@@ANY" + t)[k..];
      assert here[0] == ("@@ANY" + t)[k] && here[1] == ("@@ANY" + t)[k + 1] && here[2] == ("@@ANY" + t)[k + 2];
    }
    SkipAligned("@@ANY", t, DIRS, "(?:.*/)?");
    MatchText(tail, DIRS, "(?:.*/)?");
  }

  lemma SentinelEndIsKept(z: string)
    requires z != "" ==> z[0] != '@'
    ensures "@@" <= ReplaceAll("@@ANY" + z, ANY, ".*")
  {
    var left := "@@ANY" + z;
    assert z != "" ==> left[5] == z[0];
    SkipOne(left, ANY, ".*");
    assert left[1..][1] == 'A';
    SkipOne(left[1..], ANY, ".*");
  }

  lemma {:induction false} CollisionInPassSix(pre: seq<Token>, z: string) returns (i: nat)
    requires !Has(pre, '@') && (z != "" ==> z[0] != '@')
    ensures var r := ReplaceAll(Render(pre, 5) + ("@@ANY" + z), ANY, ".*");
            i < |r| - 1 && r[i] == '@' && r[i + 1] == '@'
  {
    var left := "@@ANY" + z;
    if pre == [] {
      assert Render(pre, 5) + left == left;
      SentinelEndIsKept(z);
      i := 0;
    } else {
      assert forall c :: c in pre[1..] ==> c in pre;
      var j := CollisionInPassSix(pre[1..], z);
      var t := Render(pre[1..], 5) + left;
      assert Render(pre, 5) + left == Text(pre[0], 5) + t;
      if pre[0].Any? {
        MatchText(t, ANY, ".*");
        i := j + 2;
      } else {
        SkipText(Text(pre[0], 5), t, ANY, ".*");
        i := j + |Text(pre[0], 5)|;
      }
    }
  }

  lemma CollisionLeavesSentinelEnd(glob: string)
    requires !Has(Tokenize(glob), '@') && Collides(Tokenize(glob))
    ensures HoldsSentinelEnd(RegExpSource(glob))
  {
    FirstPasses(glob);
    var pre, z := CollisionInPassFive(Tokenize(glob));
    var i := CollisionInPassSix(pre, z);
  }
}
