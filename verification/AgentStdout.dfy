/**
 The line splitter an agent's stdout goes through (src/agents/runner.ts), chunk by
 chunk to the parser, with the last partial line flushed at the close.
 */
module AgentStdout {
  import opened Lines

  class StdoutSplitter {
    var stdoutBuf: string
    /** The lines handed to the adapter's parser. */
    var lines: seq<string>

    constructor ()
      ensures stdoutBuf == "" && lines == []
    {
      stdoutBuf, lines := "", [];
    }

    /** The `data` handler. */
    method OnData(chunk: string)
      modifies this
      ensures stdoutBuf == Carry(old(stdoutBuf) + chunk)
      ensures lines == old(lines) + NonBlank(Whole(old(stdoutBuf) + chunk))
    {
      hide Whole, Carry, Trim;
      stdoutBuf := stdoutBuf + chunk;
      var cut := Whole(stdoutBuf);
      stdoutBuf := Carry(stdoutBuf);
      for i := 0 to |cut|
        invariant stdoutBuf == Carry(old(stdoutBuf) + chunk)
        invariant lines == old(lines) + NonBlank(cut[..i])
      {
        assert cut[..i + 1][..i] == cut[..i];
        if Trim(cut[i]) != "" { lines := lines + [cut[i]]; }
      }
      assert cut[..|cut|] == cut;
    }

    /** The `close` handler flushes a trailing partial line. */
    method OnClose()
      modifies this`lines
      ensures lines == old(lines) + NonBlankOne(stdoutBuf)
    {
      if Trim(stdoutBuf) != "" { lines := lines + [stdoutBuf]; }
    }

    /**
     A whole process: its `data` events, then its `close`. The parser gets each
     non-blank line of the output once, in order, the last one flushed.
     */
    method Run(chunks: seq<string>)
      requires stdoutBuf == "" && lines == []
      modifies this
      ensures lines == ParserInput(chunks) == NonBlank(Split(Concat(chunks)))
    {
      hide Whole, Carry, NonBlank, NonBlankOne;
      NothingFed();
      for i := 0 to |chunks|
        invariant stdoutBuf == Feed("", chunks[..i]).1 && lines == DataLines(chunks[..i])
      {
        var fed := chunks[..i + 1];
        assert fed[..|fed| - 1] == chunks[..i] && fed[|fed| - 1] == chunks[i];
        OnData(chunks[i]);
      }
      assert chunks[..|chunks|] == chunks;
      OnClose();
      StdoutIsItsLines(chunks);
    }
  }

  lemma NothingFed()
    ensures Feed("", []).1 == "" && DataLines([]) == []
  {
  }

  /** The parser's input over a whole process: data events, then close. */
  function ParserInput(chunks: seq<string>): seq<string> {
    DataLines(chunks) + NonBlankOne(Feed("", chunks).1)
  }

  /** What the data events alone hand over, by the contract of `OnData`. */
  function DataLines(chunks: seq<string>): seq<string> {
    if chunks == [] then []
    else
      var n := |chunks| - 1;
      DataLines(chunks[..n]) + NonBlank(Whole(Feed("", chunks[..n]).1 + chunks[n]))
  }

  /** However stdout arrives, the parser gets each non-blank line of the whole output once, in order, the last one flushed. */
  lemma {:induction false} StdoutIsItsLines(chunks: seq<string>)
    ensures ParserInput(chunks) == NonBlank(Split(Concat(chunks)))
  {
    DataLinesAreWhole(chunks);
    ChunkingIsInvisible("", chunks);
    assert "" + Concat(chunks) == Concat(chunks);
    assert Split(Concat(chunks))[..|Split(Concat(chunks))| - 1] == Whole(Concat(chunks));
  }

  lemma {:induction false} DataLinesAreWhole(chunks: seq<string>)
    ensures DataLines(chunks) == NonBlank(Whole(Concat(chunks)))
  {
    if chunks != [] {
      var n := |chunks| - 1;
      DataLinesAreWhole(chunks[..n]);
      ChunkingIsInvisible("", chunks[..n]);
      assert "" + Concat(chunks[..n]) == Concat(chunks[..n]);
      SplitAppend(Concat(chunks[..n]), chunks[n]);
      NonBlankAppend(Whole(Concat(chunks[..n])), Whole(Carry(Concat(chunks[..n])) + chunks[n]));
    }
  }
}
