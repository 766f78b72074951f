/** The read loop of the cluster connection (src/dxcluster.c, worker_main): bytes arrive in chunks of any size and
    are cut into lines. Carriage returns are skipped, lines are cut at 1023 characters, empty lines are ignored. */
module LineSplitter {

  const LINE_BUFFER: nat := 1024

  datatype State = State(line: string, lines: seq<string>)

  /** One byte of the stream: `lines` are those handed to handle_line, `line` is the one being collected. */
  function Feed(s: State, c: char): State {
    if c == '\r' then s
    else if c == '\n' then State([], if s.line != [] then s.lines + [s.line] else s.lines)
    else if |s.line| < LINE_BUFFER - 1 then s.(line := s.line + [c])
    else s
  }

  function FeedAll(s: State, bytes: string): State {
    if bytes == [] then s else Feed(FeedAll(s, bytes[..|bytes| - 1]), bytes[|bytes| - 1])
  }

  /** The chunks in the order in which recv returned them. */
  function FeedChunks(s: State, chunks: seq<string>): State {
    if chunks == [] then s else FeedAll(FeedChunks(s, chunks[..|chunks| - 1]), chunks[|chunks| - 1])
  }

  function Concat(chunks: seq<string>): string {
    if chunks == [] then "" else Concat(chunks[..|chunks| - 1]) + chunks[|chunks| - 1]
  }

  lemma {:induction false} FeedAppend(s: State, a: string, b: string)
    ensures FeedAll(s, a + b) == FeedAll(FeedAll(s, a), b)
  {
    if b == [] {
      assert a + b == a;
    } else {
      assert (a + b)[..|a + b| - 1] == a + b[..|b| - 1];
      FeedAppend(s, a, b[..|b| - 1]);
    }
  }

  /** Only the bytes matter, not how recv split them. */
  lemma {:induction false} ChunkingIndependence(s: State, chunks: seq<string>)
    ensures FeedChunks(s, chunks) == FeedAll(s, Concat(chunks))
  {
    if chunks != [] {
      ChunkingIndependence(s, chunks[..|chunks| - 1]);
      FeedAppend(s, Concat(chunks[..|chunks| - 1]), chunks[|chunks| - 1]);
    }
  }

  // ----- The same, as a batch job -----

  function WithoutCR(s: string): string {
    if s == [] then [] else WithoutCR(s[..|s| - 1]) + if s[|s| - 1] == '\r' then [] else [s[|s| - 1]]
  }

  /** Split at every line feed; the last piece is what follows the last line feed. */
  function Split(s: string): (pieces: seq<string>)
    ensures pieces != []
  {
    if s == [] then [[]]
    else
      var p, c := Split(s[..|s| - 1]), s[|s| - 1];
      if c == '\n' then p + [[]] else p[|p| - 1 := p[|p| - 1] + [c]]
  }

  function Cut(line: string): string {
    if |line| <= 1023 then line else line[..1023]
  }

  /** The complete lines, cut, without the empty ones. */
  function Handled(pieces: seq<string>): seq<string> {
    if pieces == [] then []
    else
      var line := Cut(pieces[|pieces| - 1]);
      Handled(pieces[..|pieces| - 1]) + if line != [] then [line] else []
  }

  /** The state after all pieces but the last have been lines. */
  function Finish(pieces: seq<string>): State
    requires pieces != []
  {
    State(Cut(pieces[|pieces| - 1]), Handled(pieces[..|pieces| - 1]))
  }

  function Batch(bytes: string): State {
    Finish(Split(WithoutCR(bytes)))
  }

  lemma SplitLast(s: string, c: char)
    ensures Split(s + [c]) == (var p := Split(s);
                               if c == '\n' then p + [[]] else p[|p| - 1 := p[|p| - 1] + [c]])
  {
    assert (s + [c])[..|s|] == s;
  }

  lemma WithoutCRLast(s: string, c: char)
    ensures WithoutCR(s + [c]) == if c == '\r' then WithoutCR(s) else WithoutCR(s) + [c]
  {
    assert (s + [c])[..|s|] == s;
  }

  lemma FinishLine(pieces: seq<string>)
    requires pieces != []
    ensures Finish(pieces + [[]]) == Feed(Finish(pieces), '\n')
  {
    assert (pieces + [[]])[..|pieces|] == pieces;
  }

  lemma FinishChar(pieces: seq<string>, c: char)
    requires pieces != [] && c != '\r' && c != '\n'
    ensures Finish(pieces[|pieces| - 1 := pieces[|pieces| - 1] + [c]]) == Feed(Finish(pieces), c)
  {
    var last := |pieces| - 1;
    assert pieces[last := pieces[last] + [c]][..last] == pieces[..last];
  }

  lemma BatchStep(bytes: string, c: char)
    ensures Batch(bytes + [c]) == Feed(Batch(bytes), c)
  {
    WithoutCRLast(bytes, c);
    if c != '\r' {
      var s := WithoutCR(bytes);
      SplitLast(s, c);
      if c == '\n' {
        FinishLine(Split(s));
      } else {
        FinishChar(Split(s), c);
      }
    }
  }

  /** The incremental splitter is the batch split on line feeds, with carriage returns removed, lines cut at 1023
      characters and empty lines dropped. */
  lemma {:induction false} SplitterIsBatch(bytes: string)
    ensures FeedAll(State([], []), bytes) == Batch(bytes)
  {
    if bytes != [] {
      var before, c := bytes[..|bytes| - 1], bytes[|bytes| - 1];
      SplitterIsBatch(before);
      BatchStep(before, c);
      assert before + [c] == bytes;
    }
  }

  /** The lines handed on do not depend on the chunks. */
  lemma LinesOfStream(chunks: seq<string>)
    ensures FeedChunks(State([], []), chunks) == Batch(Concat(chunks))
  {
    ChunkingIndependence(State([], []), chunks);
    SplitterIsBatch(Concat(chunks));
  }

  // ----- The buffer itself -----

  class Worker {
    const lineBuf: array<char>
    var linePos: nat
    var handled: seq<string>

    ghost predicate Valid()
      reads this
    {
      lineBuf.Length == LINE_BUFFER && linePos < LINE_BUFFER
    }

    ghost function Abstract(): State
      requires Valid()
      reads this, lineBuf
    {
      State(lineBuf[..linePos], handled)
    }

    constructor ()
      ensures Valid() && Abstract() == State([], []) && fresh(lineBuf)
    {
      lineBuf := new char[LINE_BUFFER](_ => '\0');
      linePos, handled := 0, [];
    }

    /** The loop over the receive buffer; `rxbuf` is what one recv returned. */
    method PullLines(rxbuf: string)
      requires Valid()
      modifies this`linePos, this`handled, lineBuf
      ensures Valid() && Abstract() == FeedAll(old(Abstract()), rxbuf)
    {
      for i := 0 to |rxbuf|
        invariant Valid() && Abstract() == FeedAll(old(Abstract()), rxbuf[..i])
      {
        var c := rxbuf[i];
        assert rxbuf[..i + 1][..i] == rxbuf[..i];
        if c == '\r' {
          continue;
        }
        if c == '\n' {
          lineBuf[linePos] := '\0';
          if linePos > 0 {
            handled := handled + [lineBuf[..linePos]];
          }
          linePos := 0;
        } else if linePos < LINE_BUFFER - 1 {
          lineBuf[linePos] := c;
          linePos := linePos + 1;
        }
      }
      assert rxbuf[..|rxbuf|] == rxbuf;
    }
  }
}