/**
 Cutting growing text into lines: the idiom `(carry + chunk).split('\n')` with the
 last piece carried over, which the activity stream, the planning tail and the
 agents' stdout reader share.
 */
module Lines {
  import opened Prelude

  /** The complete lines of a text: each ended by a newline. */
  function Whole(s: string): seq<string> {
    if s == "" then []
    else
      var n := |s| - 1;
      if s[n] == '\n' then Whole(s[..n]) + [Carry(s[..n])] else Whole(s[..n])
  }

  /** What follows the last newline. */
  function Carry(s: string): string {
    if s == "" then ""
    else
      var n := |s| - 1;
      if s[n] == '\n' then "" else Carry(s[..n]) + [s[n]]
  }

  /** `s.split('\n')`: the complete lines, then the unfinished one. */
  function Split(s: string): seq<string> {
    Whole(s) + [Carry(s)]
  }

  /** `ls.join('\n')` */
  function Join(ls: seq<string>): string
    requires |ls| >= 1
  {
    var n := |ls| - 1;
    if n == 0 then ls[0] else Join(ls[..n]) + ("\n" + ls[n])
  }

  /** Splitting undoes joining: the pieces are newline-free and join back to the text. */
  lemma {:induction false} JoinOfSplit(s: string)
    ensures Join(Split(s)) == s
    ensures forall l :: l in Split(s) ==> '\n' !in l
  {
    if s != "" {
      var n := |s| - 1;
      JoinOfSplit(s[..n]);
      assert s == s[..n] + [s[n]];
      var whole, carry := Whole(s[..n]), Carry(s[..n]);
      if s[n] == '\n' {
        assert Split(s) == Split(s[..n]) + [""];
        assert Split(s)[..|Split(s)| - 1] == Split(s[..n]);
        assert "\n" + "" == "\n";
      } else {
        assert Split(s)[..|whole|] == whole == Split(s[..n])[..|whole|];
        if whole != [] {
          assert Join(whole) + ("\n" + (carry + [s[n]])) == Join(whole) + ("\n" + carry) + [s[n]];
        }
        assert '\n' !in carry by { assert carry in Split(s[..n]); }
      }
      forall l | l in Split(s) ensures '\n' !in l {
        assert l in Split(s[..n]) || l == "" || l == carry + [s[n]];
      }
    }
  }

  /** And it is the only such cut: newline-free pieces are recovered from their join. */
  lemma {:induction false} SplitOfJoin(ls: seq<string>)
    requires |ls| >= 1 && forall l :: l in ls ==> '\n' !in l
    ensures Split(Join(ls)) == ls
  {
    var n := |ls| - 1;
    if n == 0 {
      NoNewline(ls[0]);
    } else {
      SplitOfJoin(ls[..n]);
      NewlineEnds(Join(ls[..n]), ls[n]);
      assert ls == ls[..n] + [ls[n]];
    }
  }

  lemma NewlineEnds(before: string, l: string)
    requires '\n' !in l
    ensures Split(before + ("\n" + l)) == Split(before) + [l]
  {
    var line := before + "\n";
    assert line[..|line| - 1] == before;
    SplitAppend(line, l);
    NoNewline(l);
    assert before + ("\n" + l) == line + l;
    assert Carry(line) + l == l;
  }

  lemma {:induction false} NoNewline(s: string)
    requires '\n' !in s
    ensures Whole(s) == [] && Carry(s) == s
  {
    if s != "" {
      NoNewline(s[..|s| - 1]);
    }
  }

  lemma {:induction false} CarryHasNoNewline(s: string)
    ensures '\n' !in Carry(s)
  {
    if s != "" {
      CarryHasNoNewline(s[..|s| - 1]);
    }
  }

  /** Text that continues only ever extends its carry. */
  lemma {:induction false} SplitAppend(a: string, b: string)
    ensures Whole(a + b) == Whole(a) + Whole(Carry(a) + b)
    ensures Carry(a + b) == Carry(Carry(a) + b)
  {
    if b == "" {
      CarryHasNoNewline(a);
      NoNewline(Carry(a));
      assert a + b == a && Carry(a) + b == Carry(a);
    } else {
      var n := |b| - 1;
      SplitAppend(a, b[..n]);
      assert (a + b)[..|a + b| - 1] == a + b[..n];
      assert (Carry(a) + b)[..|Carry(a) + b| - 1] == Carry(a) + b[..n];
    }
  }

  function Concat(chunks: seq<string>): string {
    if chunks == [] then "" else Concat(chunks[..|chunks| - 1]) + chunks[|chunks| - 1]
  }

  /** The lines delivered and the carry left after feeding the chunks one by one. */
  function Feed(carry: string, chunks: seq<string>): (seq<string>, string) {
    if chunks == [] then ([], carry)
    else
      var (lines, c) := Feed(carry, chunks[..|chunks| - 1]);
      var text := c + chunks[|chunks| - 1];
      (lines + Whole(text), Carry(text))
  }

  /** However the text is cut into chunks, the lines delivered and the carry are its split. */
  lemma {:induction false} ChunkingIsInvisible(carry: string, chunks: seq<string>)
    requires '\n' !in carry
    ensures Feed(carry, chunks).0 == Whole(carry + Concat(chunks))
    ensures Feed(carry, chunks).1 == Carry(carry + Concat(chunks))
  {
    if chunks == [] {
      NoNewline(carry);
      assert carry + Concat(chunks) == carry;
    } else {
      var n := |chunks| - 1;
      ChunkingIsInvisible(carry, chunks[..n]);
      SplitAppend(carry + Concat(chunks[..n]), chunks[n]);
      LastChunk(carry, chunks);
    }
  }

  lemma LastChunk(carry: string, chunks: seq<string>)
    requires chunks != []
    ensures carry + Concat(chunks) == carry + Concat(chunks[..|chunks| - 1]) + chunks[|chunks| - 1]
  {
    Regroup(carry, Concat(chunks[..|chunks| - 1]), chunks[|chunks| - 1]);
  }

  // ── blank lines ────────────────────────────────────────────────────────────

  /** What `trim` strips: white space and line terminators. */
  predicate IsSpace(c: char) {
    || c == ' ' || '\t' <= c <= '\r' || c == '\U{00A0}' || c == '\U{1680}'
    || '\U{2000}' <= c <= '\U{200A}' || '\U{2028}' <= c <= '\U{2029}'
    || c == '\U{202F}' || c == '\U{205F}' || c == '\U{3000}' || c == '\U{FEFF}'
  }

  function LeadingSpace(s: string): (n: nat)
    ensures n <= |s|
  {
    if s != "" && IsSpace(s[0]) then 1 + LeadingSpace(s[1..]) else 0
  }

  /** The length of `s` up to its last character that is not space. */
  function InkEnd(s: string): (n: nat)
    ensures n <= |s|
  {
    if s != "" && IsSpace(s[|s| - 1]) then InkEnd(s[..|s| - 1]) else |s|
  }

  /** `s.trim()` */
  function Trim(s: string): string {
    var u := s[LeadingSpace(s)..];
    u[..InkEnd(u)]
  }

  lemma {:induction false} OnlySpaceBefore(s: string)
    ensures forall k :: 0 <= k < LeadingSpace(s) ==> IsSpace(s[k])
    ensures LeadingSpace(s) < |s| ==> !IsSpace(s[LeadingSpace(s)])
  {
    if s != "" && IsSpace(s[0]) {
      OnlySpaceBefore(s[1..]);
    }
  }

  lemma {:induction false} OnlySpaceBehind(s: string)
    ensures forall k :: InkEnd(s) <= k < |s| ==> IsSpace(s[k])
    ensures InkEnd(s) > 0 ==> !IsSpace(s[InkEnd(s) - 1])
  {
    if s != "" && IsSpace(s[|s| - 1]) {
      OnlySpaceBehind(s[..|s| - 1]);
    }
  }

  /** Trimming takes the space off both ends, and nothing else. */
  lemma TrimMeans(s: string)
    ensures exists i, j :: 0 <= i <= j <= |s| && Trim(s) == s[i..j] && forall k :: 0 <= k < |s| && !(i <= k < j) ==> IsSpace(s[k])
    ensures Trim(s) != "" ==> !IsSpace(Trim(s)[0]) && !IsSpace(Trim(s)[|Trim(s)| - 1])
  {
    OnlySpaceBefore(s);
    var i := LeadingSpace(s);
    var u := s[i..];
    OnlySpaceBehind(u);
    var j := i + InkEnd(u);
    assert Trim(s) == s[i..j];
    forall k | j <= k < |s| ensures IsSpace(s[k]) {
      assert s[k] == u[k - i];
    }
  }

  predicate IsAt(s: string, w: string, k: nat) {
    k + |w| <= |s| && s[k..k + |w|] == w
  }

  /** `s.includes(w)` */
  predicate Contains(s: string, w: string) {
    exists k :: 0 <= k <= |s| && IsAt(s, w, k)
  }

  lemma IsAtBehind(s: string, t: string, w: string, j: nat, k: nat)
    requires j + |t| <= |s| && t == s[j..j + |t|] && IsAt(t, w, k)
    ensures IsAt(s, w, j + k)
  {
    var here, there := s[j + k..j + k + |w|], t[k..k + |w|];
    forall i | 0 <= i < |w| ensures here[i] == there[i] {
      assert there[i] == t[k + i] == s[j + (k + i)];
    }
    assert here == there;
  }

  /** Trimming never makes a word appear. */
  lemma TrimAddsNothing(s: string, w: string)
    requires Contains(Trim(s), w)
    ensures Contains(s, w)
  {
    var j := LeadingSpace(s);
    var t := Trim(s);
    var k :| 0 <= k <= |t| && IsAt(t, w, k);
    assert t == s[j..j + |t|];
    IsAtBehind(s, t, w, j, k);
  }

  /** The lines a consumer that skips blank ones sees. */
  function NonBlank(ls: seq<string>): seq<string> {
    if ls == [] then []
    else NonBlank(ls[..|ls| - 1]) + NonBlankOne(ls[|ls| - 1])
  }

  function NonBlankOne(l: string): seq<string> {
    if Trim(l) != "" then [l] else []
  }

  lemma {:induction false} NonBlankAppend(a: seq<string>, b: seq<string>)
    ensures NonBlank(a + b) == NonBlank(a) + NonBlank(b)
  {
    hide NonBlankOne;
    if b == [] {
      assert a + b == a;
    } else {
      var n := |b| - 1;
      NonBlankAppend(a, b[..n]);
      assert (a + b)[..|a + b| - 1] == a + b[..n];
      assert (a + b)[|a + b| - 1] == b[n];
    }
  }
}
