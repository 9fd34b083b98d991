/**
 The byte-offset tails of `PhalakaChangeStream` (src/phalaka/stream.ts). A file's
 content is a string, and its size the string's length: chunks end on character
 boundaries.
 */
module ActivityStream {
  import opened Lines
  import opened Prelude

  // ── one file's tail ────────────────────────────────────────────────────────

  /** `offsets.get(path)` and `partials.get(path) ?? ''`. */
  datatype Tail = Tail(offset: Option<int>, partial: string)

  /** What one visit sees of a file: its content, or that it is missing, or that it cannot be opened. */
  datatype Look = Missing | Unreadable(size: nat) | Content(text: string) {
    function Size(): int {
      match this
      case Missing => -1
      case Unreadable(n) => n
      case Content(t) => |t|
    }
  }

  /**
   `readSync(fd, buf, 0, size - offset, offset)`. An offset of -1 makes the read
   start at the top with a buffer one byte longer than the file, whose last byte
   stays NUL.
   */
  function ReadFrom(text: string, offset: int): string
    requires -1 <= offset <= |text|
  {
    if offset < 0 then text + ['\0'] else text[offset..]
  }

  /** One pass of the loop body of `drainActivity`: the tail afterwards and the lines it cut. */
  function Visit(t: Tail, look: Look): (Tail, seq<string>)
    requires t.offset.Some? ==> t.offset.value >= -1
  {
    if look.Missing? then (t, [])
    else if t.offset.None? then (t.(offset := Some(look.Size())), [])
    else
      var shrunk := look.Size() < t.offset.value;
      var offset := if shrunk then 0 else t.offset.value;
      var partial := if shrunk then "" else t.partial;
      if look.Size() == offset || look.Unreadable? then (t.(partial := partial), [])
      else
        var text := partial + ReadFrom(look.text, offset);
        (Tail(Some(look.Size()), Carry(text)), Whole(text))
  }

  /** Successive visits: the lines they cut altogether, and the tail they leave. */
  function Visits(t: Tail, looks: seq<Look>): (r: (Tail, seq<string>))
    requires t.offset.Some? ==> t.offset.value >= -1
    ensures r.0.offset.Some? ==> r.0.offset.value >= -1
  {
    if looks == [] then (t, [])
    else
      var (t1, lines) := Visits(t, looks[..|looks| - 1]);
      var (t2, more) := Visit(t1, looks[|looks| - 1]);
      (t2, lines + more)
  }

  /** The file only grows: every content seen extends the ones before, and the size is never less. */
  ghost predicate OnlyGrows(base: string, looks: seq<Look>) {
    && (forall i :: 0 <= i < |looks| ==> looks[i].Content? ==> base <= looks[i].text)
    && (forall i, j :: 0 <= i < j < |looks| && looks[i].Content? && looks[j].Content? ==> looks[i].text <= looks[j].text)
    && (forall i :: 0 <= i < |looks| && looks[i].Unreadable? ==> looks[i].size >= |base|)
    && (forall i, j :: 0 <= i < j < |looks| && looks[i].Content? && looks[j].Unreadable? ==> looks[j].size >= |looks[i].text|)
  }

  /** The longest content read so far. */
  function LastRead(base: string, looks: seq<Look>): string {
    if looks == [] then base
    else
      var last := looks[|looks| - 1];
      if last.Content? then last.text else LastRead(base, looks[..|looks| - 1])
  }

  lemma {:induction false} LastReadGrows(base: string, looks: seq<Look>)
    requires OnlyGrows(base, looks)
    ensures base <= LastRead(base, looks)
    ensures LastRead(base, looks) == base || exists i :: 0 <= i < |looks| && looks[i] == Content(LastRead(base, looks))
  {
    if looks != [] && !looks[|looks| - 1].Content? {
      LastReadGrows(base, looks[..|looks| - 1]);
    }
  }

  /**
   Every schedule of visits to a growing file, with any of them failing, cuts
   exactly the complete lines of what was appended, and carries the rest.
   */
  lemma {:induction false} TailIsSplitOfAppended(base: string, looks: seq<Look>)
    requires OnlyGrows(base, looks)
    ensures var (t, lines) := Visits(Tail(Some(|base|), ""), looks);
            && |base| <= |LastRead(base, looks)| && t.offset == Some(|LastRead(base, looks)|)
            && lines + [t.partial] == Split(LastRead(base, looks)[|base|..])
  {
    hide Visit, Whole, Carry, Split;
    if looks == [] {
      NothingAppended(base);
      assert [] + [""] == [""];
    } else {
      var n := |looks| - 1;
      TailIsSplitOfAppended(base, looks[..n]);
      LastReadGrows(base, looks[..n]);
      var (t, lines) := Visits(Tail(Some(|base|), ""), looks[..n]);
      var before := LastRead(base, looks[..n]);
      GrowingVisit(before[|base|..], before, t, lines, looks[n]);
      var after := LastRead(base, looks);
      assert before <= after;
      assert after[|base|..] == before[|base|..] + after[|before|..];
    }
  }

  lemma NothingAppended(base: string)
    ensures Visits(Tail(Some(|base|), ""), []) == (Tail(Some(|base|), ""), []) && [""] == Split(base[|base|..])
  {
    assert base[|base|..] == "";
  }

  /** One visit to a file read up to `before`: `text` has come out of it so far, and what was appended since follows. */
  lemma GrowingVisit(text: string, before: string, t: Tail, lines: seq<string>, look: Look)
    requires t.offset == Some(|before|) && lines + [t.partial] == Split(text)
    requires look.Content? ==> before <= look.text
    requires look.Unreadable? ==> look.size >= |before|
    ensures var (t', more) := Visit(t, look);
            var after := if look.Content? then look.text else before;
            t'.offset == Some(|after|) && lines + more + [t'.partial] == Split(text + after[|before|..])
  {
    hide Whole, Carry;
    SamePieces(lines, t.partial, text);
    if look.Content? {
      SplitAppend(text, look.text[|before|..]);
      if look.text[|before|..] == "" {
        assert text + "" == text;
      }
    } else {
      assert text + before[|before|..] == text;
    }
  }

  lemma SamePieces(lines: seq<string>, carry: string, s: string)
    requires lines + [carry] == Split(s)
    ensures lines == Whole(s) && carry == Carry(s)
  {
    assert (lines + [carry])[..|lines|] == lines;
    assert Split(s)[..|Whole(s)|] == Whole(s);
    assert |lines| == |Whole(s)|;
    assert (lines + [carry])[|lines|] == carry;
  }

  // ── where the tail falls short ─────────────────────────────────────────────

  /** The first content a visit to the file reads. */
  function FirstRead(looks: seq<Look>): string
    requires exists i :: 0 <= i < |looks| && looks[i].Content?
  {
    var n := |looks| - 1;
    if exists i :: 0 <= i < n && looks[i].Content? then FirstRead(looks[..n]) else looks[n].text
  }

  /** Has any visit read the file? */
  predicate EverRead(looks: seq<Look>) {
    exists i :: 0 <= i < |looks| && looks[i].Content?
  }

  /**
   A file absent when the stream was primed is read from the top with a NUL behind
   what was there: its lines are the split of the log with that NUL spliced in.
   */
  lemma {:induction false} PrimedOnMissingSplicesNul(looks: seq<Look>)
    requires OnlyGrows("", looks)
    ensures var (t, lines) := Visits(Tail(Some(-1), ""), looks);
            if EverRead(looks) then
              && FirstRead(looks) <= LastRead("", looks) && t.offset == Some(|LastRead("", looks)|)
              && lines + [t.partial] == Split(FirstRead(looks) + ['\0'] + LastRead("", looks)[|FirstRead(looks)|..])
            else t == Tail(Some(-1), "") && lines == []
  {
    hide Visit, Whole, Carry, Split;
    if looks != [] {
      var n := |looks| - 1;
      PrimedOnMissingSplicesNul(looks[..n]);
      if EverRead(looks[..n]) {
        SplicedVisit(looks);
      } else {
        assert EverRead(looks) <==> looks[n].Content?;
        FirstVisit(looks[n]);
      }
    }
  }

  lemma NulExtendsCarry(text: string)
    ensures Whole(text + ['\0']) == Whole(text) && Carry(text + ['\0']) == Carry(text) + ['\0']
  {
    assert (text + ['\0'])[..|text|] == text;
  }

  /** The first visit reads the whole file, and a NUL, which joins the carry. */
  lemma FirstVisit(look: Look)
    ensures var (t, lines) := Visit(Tail(Some(-1), ""), look);
            if look.Content? then
              && (t, lines) == (Tail(Some(|look.text|), Carry(look.text) + ['\0']), Whole(look.text))
              && lines + [t.partial] == Split(look.text + ['\0'] + look.text[|look.text|..])
            else (t, lines) == (Tail(Some(-1), ""), [])
  {
    hide Whole, Carry;
    if look.Content? {
      var read := look.text + ['\0'];
      NulExtendsCarry(look.text);
      assert "" + read == read && read + look.text[|look.text|..] == read;
    }
  }

  lemma SameSplice(first: string, before: string, after: string)
    requires first <= before <= after
    ensures first + ['\0'] + before[|first|..] + after[|before|..] == first + ['\0'] + after[|first|..]
  {
    assert after[|first|..] == before[|first|..] + after[|before|..];
  }

  lemma ReadStillGrows(looks: seq<Look>)
    requires looks != [] && OnlyGrows("", looks)
    ensures var n := |looks| - 1; var before := LastRead("", looks[..n]);
      && (looks[n].Content? ==> before <= looks[n].text) && (looks[n].Unreadable? ==> looks[n].size >= |before|)
      && before <= LastRead("", looks)
  {
    LastReadGrows("", looks[..|looks| - 1]);
  }

  lemma SplicedVisit(looks: seq<Look>)
    requires looks != [] && OnlyGrows("", looks) && EverRead(looks[..|looks| - 1])
    requires var before := looks[..|looks| - 1]; var (t, lines) := Visits(Tail(Some(-1), ""), before);
      && FirstRead(before) <= LastRead("", before) && t.offset == Some(|LastRead("", before)|)
      && lines + [t.partial] == Split(FirstRead(before) + ['\0'] + LastRead("", before)[|FirstRead(before)|..])
    ensures EverRead(looks)
    ensures var (t, lines) := Visits(Tail(Some(-1), ""), looks);
      && FirstRead(looks) <= LastRead("", looks) && t.offset == Some(|LastRead("", looks)|)
      && lines + [t.partial] == Split(FirstRead(looks) + ['\0'] + LastRead("", looks)[|FirstRead(looks)|..])
  {
    hide Visit, Whole, Carry, Split;
    var n := |looks| - 1;
    var first, before, look := FirstRead(looks[..n]), LastRead("", looks[..n]), looks[n];
    StillFirst(looks);
    ReadStillGrows(looks);
    var (t, lines) := Visits(Tail(Some(-1), ""), looks[..n]);
    GrowingVisit(first + ['\0'] + before[|first|..], before, t, lines, look);
    SameSplice(first, before, LastRead("", looks));
  }

  lemma StillFirst(looks: seq<Look>)
    requires looks != []
    ensures EverRead(looks[..|looks| - 1]) ==> EverRead(looks) && FirstRead(looks) == FirstRead(looks[..|looks| - 1])
  {
    var n := |looks| - 1;
    if EverRead(looks[..n]) {
      var i :| 0 <= i < n && looks[..n][i].Content?;
      assert looks[i].Content?;
    }
  }

  /** The line after a NUL in the carry begins with the carry, NUL and all. */
  lemma NextLineHoldsNul(n: nat, partial: string, text: string)
    requires n <= |text| && '\n' !in partial
    ensures var lines := Visit(Tail(Some(n), partial + ['\0']), Content(text)).1;
      lines != [] ==> partial + ['\0'] <= lines[0]
  {
    NoNewline(partial + ['\0']);
    FirstLineExtends(partial + ['\0'], text[n..]);
  }

  lemma {:induction false} FirstLineExtends(carry: string, s: string)
    requires '\n' !in carry
    ensures if Whole(carry + s) != [] then carry <= Whole(carry + s)[0] else carry <= Carry(carry + s)
  {
    if s == "" {
      NoNewline(carry);
      assert carry + s == carry;
    } else {
      FirstLineExtends(carry, s[..|s| - 1]);
      assert (carry + s)[..|carry + s| - 1] == carry + s[..|s| - 1];
    }
  }

  /**
   So the lines of a growing log are those of what was appended since the stream
   was primed exactly if the file was there then, or nothing has been read of it.
   */
  lemma PrimedTailIsExact(existed: bool, base: string, looks: seq<Look>)
    requires OnlyGrows(base, looks) && (!existed ==> base == "")
    ensures var (t, lines) := Visits(Tail(Some(if existed then |base| else -1), ""), looks);
      |base| <= |LastRead(base, looks)|
      && (lines + [t.partial] == Split(LastRead(base, looks)[|base|..]) <==> existed || !EverRead(looks))
  {
    LastReadGrows(base, looks);
    if existed {
      TailIsSplitOfAppended(base, looks);
    } else {
      PrimedOnMissingSplicesNul(looks);
      var all := LastRead("", looks);
      assert all[0..] == all;
      if EverRead(looks) {
        var first := FirstRead(looks);
        JoinOfSplit(all);
        JoinOfSplit(first + ['\0'] + all[|first|..]);
        assert |first + ['\0'] + all[|first|..]| == |all| + 1;
      } else {
        NothingRead(looks);
      }
    }
  }

  lemma {:induction false} NothingRead(looks: seq<Look>)
    requires !EverRead(looks)
    ensures LastRead("", looks) == ""
  {
    if looks != [] {
      assert !looks[|looks| - 1].Content?;
      StillFirst(looks);
      NothingRead(looks[..|looks| - 1]);
    }
  }

  /**
   A shrink that a visit sees restarts the tail exactly when that visit reads
   something: seen empty or unreadable, the old offset stays, and the file must be
   seen again while shorter than it.
   */
  lemma SeenShrinkRestarts(t: Tail, look: Look)
    requires t.offset.Some? && 0 <= look.Size() < t.offset.value
    ensures Visit(t, look).0.offset == Some(look.Size()) <==> look.Content? && look.text != ""
    ensures Visit(t, look).0.offset == Some(look.Size()) ==>
              Visit(t, look).1 + [Visit(t, look).0.partial] == Split(look.text)
    ensures Visit(t, look).0.offset != Some(look.Size()) ==> Visit(t, look) == (t.(partial := ""), [])
  {
    if look.Content? && look.text != "" {
      assert "" + look.text[0..] == look.text;
    }
  }

  lemma OneVisit(t: Tail, look: Look)
    requires t.offset.Some? ==> t.offset.value >= -1
    ensures Visits(t, [look]) == Visit(t, look)
  {
    var looks := [look];
    assert looks[..|looks| - 1] == [];
    assert Visits(t, []) == (t, []);
    assert Visits(t, looks).1 == [] + Visit(t, look).1 == Visit(t, look).1;
  }

  /** So a file seen truncated to nothing and then regrown past the old offset loses what it was regrown with. */
  lemma TruncatedToEmptyLosesText(old_: string, text: string)
    requires 0 < |old_| <= |text|
    ensures Visits(Tail(Some(|old_|), ""), [Content(""), Content(text)]).1 == Whole(text[|old_|..])
  {
    var looks := [Content(""), Content(text)];
    var t := Tail(Some(|old_|), "");
    var first := [Content("")];
    assert looks[..1] == first && first[..0] == [];
    assert Visits(t, []) == (t, []);
    assert Visit(t, first[0]) == (t, []);
    OneVisit(t, Content(""));
    assert Visits(t, first) == (t, []);
    assert "" + text[|old_|..] == text[|old_|..];
    if |text| == |old_| {
      assert text[|old_|..] == "";
    }
  }

  // ── the stream's two maps ──────────────────────────────────────────────────

  /** A parsed line, broadcast for its file. */
  datatype Sent<E> = Sent(path: string, event: E)

  function TailOf(offsets: map<string, int>, partials: map<string, string>, path: string): Tail {
    Tail(if path in offsets then Some(offsets[path]) else None, if path in partials then partials[path] else "")
  }

  /** The events of the lines that are not blank and parse. */
  function Events<E>(path: string, lines: seq<string>, parse: string -> Option<E>): seq<Sent<E>> {
    if lines == [] then []
    else
      var n := |lines| - 1;
      Events(path, lines[..n], parse) + EventOf(path, lines[n], parse)
  }

  function EventOf<E>(path: string, line: string, parse: string -> Option<E>): seq<Sent<E>> {
    if Trim(line) != "" && parse(Trim(line)).Some? then [Sent(path, parse(Trim(line)).value)] else []
  }

  /** What `look` says of a path; every path not mentioned is missing. */
  function LookAt(disk: map<string, Look>, path: string): Look {
    if path in disk then disk[path] else Missing
  }

  class ActivityTails<E(==)> {
    var offsets: map<string, int>
    var partials: map<string, string>
    /** Every frame broadcast so far. */
    var sent: seq<Sent<E>>
    const parse: string -> Option<E>

    constructor (parse: string -> Option<E>)
      ensures Valid() && sent == [] && this.parse == parse
      ensures forall path :: TailOf(offsets, partials, path) == Tail(None, "")
    {
      offsets, partials, sent, this.parse := map[], map[], [], parse;
    }

    ghost predicate Valid()
      reads this
    {
      forall path :: path in offsets ==> offsets[path] >= -1
    }

    /** `prime`: each file's tail starts at its end; a missing file is recorded as -1. */
    method Prime(paths: seq<string>, disk: map<string, Look>)
      requires Valid()
      modifies this`offsets
      ensures Valid()
      ensures forall path :: TailOf(offsets, partials, path)
                == if path in paths then old(TailOf(offsets, partials, path)).(offset := Some(LookAt(disk, path).Size()))
                   else old(TailOf(offsets, partials, path))
    {
      for i := 0 to |paths|
        invariant Valid()
        invariant forall path :: TailOf(offsets, partials, path)
                    == if path in paths[..i] then old(TailOf(offsets, partials, path)).(offset := Some(LookAt(disk, path).Size()))
                       else old(TailOf(offsets, partials, path))
      {
        assert paths[..i + 1] == paths[..i] + [paths[i]];
        offsets := offsets[paths[i] := LookAt(disk, paths[i]).Size()];
      }
      assert paths[..|paths|] == paths;
    }

    /** The body of the drain's loop for one file. */
    method DrainOne(path: string, look: Look)
      requires Valid()
      modifies this
      ensures Valid()
      ensures TailOf(offsets, partials, path) == Visit(old(TailOf(offsets, partials, path)), look).0
      ensures forall p :: p != path ==> TailOf(offsets, partials, p) == old(TailOf(offsets, partials, p))
      ensures sent == old(sent) + Events(path, Visit(old(TailOf(offsets, partials, path)), look).1, parse)
    {
      assert Events(path, [], parse) == [];
      hide Whole, Carry, Events;
      ghost var t := TailOf(offsets, partials, path);
      if look.Size() < 0 { return; }
      if path !in offsets {
        offsets := offsets[path := look.Size()];
        return;
      }
      var offset := offsets[path];
      if look.Size() < offset {
        offset := 0;
        partials := partials[path := ""];
      }
      if look.Size() == offset || look.Unreadable? { return; }
      var chunk := ReadFrom(look.text, offset);
      offsets := offsets[path := look.Size()];
      var text := (if path in partials then partials[path] else "") + chunk;
      partials := partials[path := Carry(text)];
      Emit(path, Whole(text));
    }

    /** Broadcasts one `activity` per line that is not blank and parses. */
    method Emit(path: string, lines: seq<string>)
      modifies this`sent
      ensures sent == old(sent) + Events(path, lines, parse)
    {
      for i := 0 to |lines|
        invariant sent == old(sent) + Events(path, lines[..i], parse)
      {
        assert lines[..i + 1][..i] == lines[..i];
        var trimmed := Trim(lines[i]);
        if trimmed != "" {
          var event := parse(trimmed);
          if event.Some? { sent := sent + [Sent(path, event.value)]; }
        }
      }
      assert lines[..|lines|] == lines;
    }

    /** `drainActivity`, with distinct paths: each file's tail takes its visit, and its events follow in path order. */
    method DrainActivity(paths: seq<string>, disk: map<string, Look>)
      requires Valid() && forall i, j :: 0 <= i < j < |paths| ==> paths[i] != paths[j]
      modifies this
      ensures Valid()
      ensures forall path :: TailOf(offsets, partials, path) == Drained(paths, |paths|, disk, old(offsets), old(partials), path)
      ensures sent == old(sent) + DrainEvents(paths, |paths|, disk, old(offsets), old(partials), parse)
    {
      hide Visit, Events, Drained, DrainEvents, TailOf;
      ghost var offsets0, partials0 := offsets, partials;
      DrainedNone(paths, disk, offsets0, partials0, parse);
      for i := 0 to |paths|
        invariant Valid()
        invariant forall path :: TailOf(offsets, partials, path) == Drained(paths, i, disk, offsets0, partials0, path)
        invariant sent == old(sent) + DrainEvents(paths, i, disk, offsets0, partials0, parse)
      {
        TailIsValid(offsets0, partials0, paths[i]);
        DrainedOneMore(paths, i, disk, offsets0, partials0, parse);
        ghost var done := DrainEvents(paths, i, disk, offsets0, partials0, parse);
        ghost var more := Events(paths[i], Visit(TailOf(offsets0, partials0, paths[i]), LookAt(disk, paths[i])).1, parse);
        DrainOne(paths[i], LookAt(disk, paths[i]));
        Regroup(old(sent), done, more);
      }
    }

    /**
     The poll's drains, one after another, each with the paths and the disk it finds:
     every path's tail takes its visits, and what is sent for it is the events of the
     lines they cut, once and in order.
     */
    method DrainAll(drains: seq<Drain>)
      requires Valid() && forall d :: d in drains ==> d.Distinct()
      modifies this
      ensures Valid()
      ensures forall path ::
        Drawn(path, drains, old(offsets), old(partials), old(sent), offsets, partials, sent, parse)
    {
      hide Visit, Visits, Events, For, TailOf, LooksOf;
      ghost var offsets0, partials0, sent0 := offsets, partials, sent;
      forall path ensures Drawn(path, drains[..0], offsets0, partials0, sent0, offsets, partials, sent, parse) {
        DrawnNone(path, drains, offsets0, partials0, sent0, parse);
      }
      for i := 0 to |drains|
        invariant Valid()
        invariant forall path :: Drawn(path, drains[..i], offsets0, partials0, sent0, offsets, partials, sent, parse)
      {
        ghost var offsets1, partials1, sent1 := offsets, partials, sent;
        ghost var upto := drains[..i + 1];
        assert drains[i].Distinct();
        DrainActivity(drains[i].paths, drains[i].disk);
        forall path ensures Drawn(path, upto, offsets0, partials0, sent0, offsets, partials, sent, parse) {
          DrawnOneMore(path, drains, i, offsets0, partials0, sent0, offsets1, partials1, sent1, offsets, partials, sent, parse);
        }
      }
      assert drains[..|drains|] == drains;
    }
  }

  // ── a schedule of drains ───────────────────────────────────────────────────

  /** One drain: the files `activityPaths` names at the time, and what the disk shows of them. */
  datatype Drain = Drain(paths: seq<string>, disk: map<string, Look>) {
    predicate Distinct() {
      forall i, j :: 0 <= i < j < |paths| ==> paths[i] != paths[j]
    }
  }

  /** A path a drain does not name is left as a missing one is. */
  function LooksOf(path: string, drains: seq<Drain>): (looks: seq<Look>)
    ensures |looks| == |drains|
  {
    seq(|drains|, i requires 0 <= i < |drains| => if path in drains[i].paths then LookAt(drains[i].disk, path) else Missing)
  }

  /** The frames sent for one file. */
  function For<E>(path: string, sent: seq<Sent<E>>): seq<Sent<E>> {
    if sent == [] then []
    else
      var n := |sent| - 1;
      For(path, sent[..n]) + if sent[n].path == path then [sent[n]] else []
  }

  /** What the drains did for one path: its tail took its visits, and the events of the lines they cut were sent. */
  ghost predicate Drawn<E>(path: string, drains: seq<Drain>, offsets0: map<string, int>, partials0: map<string, string>,
      sent0: seq<Sent<E>>, offsets: map<string, int>, partials: map<string, string>, sent: seq<Sent<E>>, parse: string -> Option<E>)
    requires forall p :: p in offsets0 ==> offsets0[p] >= -1
  {
    var (t, lines) := Visits(TailOf(offsets0, partials0, path), LooksOf(path, drains));
    TailOf(offsets, partials, path) == t && For(path, sent) == For(path, sent0) + Events(path, lines, parse)
  }

  lemma DrawnNone<E>(path: string, drains: seq<Drain>, offsets0: map<string, int>, partials0: map<string, string>,
      sent0: seq<Sent<E>>, parse: string -> Option<E>)
    requires forall p :: p in offsets0 ==> offsets0[p] >= -1
    ensures Drawn(path, drains[..0], offsets0, partials0, sent0, offsets0, partials0, sent0, parse)
  {
    assert LooksOf(path, drains[..0]) == [];
  }

  lemma DrawnOneMore<E>(path: string, drains: seq<Drain>, i: nat, offsets0: map<string, int>, partials0: map<string, string>,
      sent0: seq<Sent<E>>, offsets1: map<string, int>, partials1: map<string, string>, sent1: seq<Sent<E>>,
      offsets2: map<string, int>, partials2: map<string, string>, sent2: seq<Sent<E>>, parse: string -> Option<E>)
    requires i < |drains| && drains[i].Distinct()
    requires forall p :: p in offsets0 ==> offsets0[p] >= -1
    requires forall p :: p in offsets1 ==> offsets1[p] >= -1
    requires Drawn(path, drains[..i], offsets0, partials0, sent0, offsets1, partials1, sent1, parse)
    requires var d := drains[i]; TailOf(offsets2, partials2, path) == Drained(d.paths, |d.paths|, d.disk, offsets1, partials1, path)
    requires var d := drains[i]; sent2 == sent1 + DrainEvents(d.paths, |d.paths|, d.disk, offsets1, partials1, parse)
    ensures Drawn(path, drains[..i + 1], offsets0, partials0, sent0, offsets2, partials2, sent2, parse)
  {
    hide Visit, Events, For, DrainEvents, LooksOf;
    var d := drains[i];
    var t := TailOf(offsets0, partials0, path);
    var looks, look := LooksOf(path, drains[..i]), if path in d.paths then LookAt(d.disk, path) else Missing;
    var (t1, lines) := Visits(t, looks);
    LooksOneMore(path, drains, i);
    DrainIsOneVisit(path, d, offsets1, partials1, parse);
    VisitsOneMore(t, looks, look);
    var more := Visit(t1, look).1;
    ForAppend(path, sent1, DrainEvents(d.paths, |d.paths|, d.disk, offsets1, partials1, parse));
    EventsAppend(path, lines, more, parse);
    Regroup(For(path, sent0), Events(path, lines, parse), Events(path, more, parse));
  }

  lemma LooksOneMore(path: string, drains: seq<Drain>, i: nat)
    requires i < |drains|
    ensures LooksOf(path, drains[..i + 1])
         == LooksOf(path, drains[..i]) + [if path in drains[i].paths then LookAt(drains[i].disk, path) else Missing]
  {
  }

  lemma VisitsOneMore(t: Tail, looks: seq<Look>, look: Look)
    requires t.offset.Some? ==> t.offset.value >= -1
    ensures var (t1, lines) := Visits(t, looks);
      Visits(t, looks + [look]) == (Visit(t1, look).0, lines + Visit(t1, look).1)
  {
    assert (looks + [look])[..|looks|] == looks;
  }

  /** A drain of distinct paths visits each of them once, and sends for it what that visit cut. */
  lemma DrainIsOneVisit<E>(path: string, d: Drain, offsets: map<string, int>, partials: map<string, string>, parse: string -> Option<E>)
    requires d.Distinct() && forall p :: p in offsets ==> offsets[p] >= -1
    ensures var (t, lines) := Visit(TailOf(offsets, partials, path), if path in d.paths then LookAt(d.disk, path) else Missing);
      && Drained(d.paths, |d.paths|, d.disk, offsets, partials, path) == t
      && For(path, DrainEvents(d.paths, |d.paths|, d.disk, offsets, partials, parse)) == Events(path, lines, parse)
  {
    DrainEventsFor(path, d, |d.paths|, offsets, partials, parse);
    assert path in d.paths <==> Among(d.paths, |d.paths|, path);
  }

  lemma {:induction false} DrainEventsFor<E>(path: string, d: Drain, n: nat, offsets: map<string, int>, partials: map<string, string>,
      parse: string -> Option<E>)
    requires n <= |d.paths| && d.Distinct() && forall p :: p in offsets ==> offsets[p] >= -1
    ensures For(path, DrainEvents(d.paths, n, d.disk, offsets, partials, parse))
         == if Among(d.paths, n, path) then Events(path, Visit(TailOf(offsets, partials, path), LookAt(d.disk, path)).1, parse) else []
  {
    hide Visit, Events, For;
    if n == 0 {
      NothingFor<E>(path);
    } else {
      var last := d.paths[n - 1];
      DrainEventsFor(path, d, n - 1, offsets, partials, parse);
      var lines := Visit(TailOf(offsets, partials, last), LookAt(d.disk, last)).1;
      ForAppend(path, DrainEvents(d.paths, n - 1, d.disk, offsets, partials, parse), Events(last, lines, parse));
      EventsFor(path, last, lines, parse);
      assert Among(d.paths, n, path) <==> Among(d.paths, n - 1, path) || path == last;
    }
  }

  lemma NothingFor<E>(path: string)
    ensures For<E>(path, []) == []
  {
  }

  lemma {:induction false} ForAppend<E>(path: string, a: seq<Sent<E>>, b: seq<Sent<E>>)
    ensures For(path, a + b) == For(path, a) + For(path, b)
  {
    if b == [] {
      assert a + b == a;
    } else {
      var n := |b| - 1;
      ForAppend(path, a, b[..n]);
      assert (a + b)[..|a + b| - 1] == a + b[..n];
    }
  }

  lemma {:induction false} EventsAppend<E>(path: string, a: seq<string>, b: seq<string>, parse: string -> Option<E>)
    ensures Events(path, a + b, parse) == Events(path, a, parse) + Events(path, b, parse)
  {
    hide EventOf;
    if b == [] {
      assert a + b == a;
    } else {
      var n, all := |b| - 1, a + b;
      EventsAppend(path, a, b[..n], parse);
      assert all[..|all| - 1] == a + b[..n] && all[|all| - 1] == b[n];
      Regroup(Events(path, a, parse), Events(path, b[..n], parse), EventOf(path, b[n], parse));
    }
  }

  lemma {:induction false} EventsFor<E>(path: string, other: string, lines: seq<string>, parse: string -> Option<E>)
    ensures For(path, Events(other, lines, parse)) == if other == path then Events(path, lines, parse) else []
  {
    if lines != [] {
      var n := |lines| - 1;
      EventsFor(path, other, lines[..n], parse);
      ForAppend(path, Events(other, lines[..n], parse), EventOf(other, lines[n], parse));
    }
  }

  /**
   So over any schedule of drains, a file that only grows from where its tail stands
   has exactly the events of its appended complete lines sent for it, each once and
   in order.
   */
  lemma FramesAreTheLines<E>(path: string, base: string, drains: seq<Drain>, parse: string -> Option<E>)
    requires OnlyGrows(base, LooksOf(path, drains))
    ensures var read := LastRead(base, LooksOf(path, drains));
      && |base| <= |read|
      && Events(path, Visits(Tail(Some(|base|), ""), LooksOf(path, drains)).1, parse) == Events(path, Whole(read[|base|..]), parse)
  {
    var looks := LooksOf(path, drains);
    TailIsSplitOfAppended(base, looks);
    var (t, lines) := Visits(Tail(Some(|base|), ""), looks);
    SamePieces(lines, t.partial, LastRead(base, looks)[|base|..]);
  }

  lemma TailIsValid(offsets: map<string, int>, partials: map<string, string>, path: string)
    requires forall p :: p in offsets ==> offsets[p] >= -1
    ensures var t := TailOf(offsets, partials, path); t.offset.Some? ==> t.offset.value >= -1
  {
  }

  lemma DrainedNone<E>(paths: seq<string>, disk: map<string, Look>, offsets: map<string, int>,
      partials: map<string, string>, parse: string -> Option<E>)
    requires forall p :: p in offsets ==> offsets[p] >= -1
    ensures forall path :: Drained(paths, 0, disk, offsets, partials, path) == TailOf(offsets, partials, path)
    ensures DrainEvents(paths, 0, disk, offsets, partials, parse) == []
  {
  }

  /** The next path takes its visit from the tail it came with, and no other changes. */
  lemma DrainedOneMore<E>(paths: seq<string>, i: nat, disk: map<string, Look>, offsets: map<string, int>,
      partials: map<string, string>, parse: string -> Option<E>)
    requires i < |paths| && forall p :: p in offsets ==> offsets[p] >= -1
    requires forall j, k :: 0 <= j < k < |paths| ==> paths[j] != paths[k]
    ensures Drained(paths, i, disk, offsets, partials, paths[i]) == TailOf(offsets, partials, paths[i])
    ensures Drained(paths, i + 1, disk, offsets, partials, paths[i])
         == Visit(TailOf(offsets, partials, paths[i]), LookAt(disk, paths[i])).0
    ensures forall path :: path != paths[i] ==>
      Drained(paths, i + 1, disk, offsets, partials, path) == Drained(paths, i, disk, offsets, partials, path)
    ensures DrainEvents(paths, i + 1, disk, offsets, partials, parse)
         == DrainEvents(paths, i, disk, offsets, partials, parse)
          + Events(paths[i], Visit(TailOf(offsets, partials, paths[i]), LookAt(disk, paths[i])).1, parse)
  {
    hide Visit, Events;
    assert !Among(paths, i, paths[i]) && Among(paths, i + 1, paths[i]);
    forall path | path != paths[i] ensures Among(paths, i + 1, path) <==> Among(paths, i, path) {
      assert Among(paths, i, path) ==> Among(paths, i + 1, path);
    }
  }

  predicate Among(paths: seq<string>, n: nat, path: string)
    requires n <= |paths|
  {
    exists i :: 0 <= i < n && paths[i] == path
  }

  /** A file's tail after a drain of the first `n` paths. */
  ghost function Drained(paths: seq<string>, n: nat, disk: map<string, Look>, offsets: map<string, int>,
                         partials: map<string, string>, path: string): Tail
    requires n <= |paths| && forall p :: p in offsets ==> offsets[p] >= -1
  {
    var t := TailOf(offsets, partials, path);
    if Among(paths, n, path) then Visit(t, LookAt(disk, path)).0 else t
  }

  /** What a drain of the first `n` paths broadcasts, given the maps it starts from. */
  ghost function DrainEvents<E>(paths: seq<string>, n: nat, disk: map<string, Look>, offsets: map<string, int>,
                                partials: map<string, string>, parse: string -> Option<E>): seq<Sent<E>>
    requires n <= |paths| && forall path :: path in offsets ==> offsets[path] >= -1
  {
    if n == 0 then []
    else
      var path := paths[n - 1];
      DrainEvents(paths, n - 1, disk, offsets, partials, parse)
      + Events(path, Visit(TailOf(offsets, partials, path), LookAt(disk, path)).1, parse)
  }
}
