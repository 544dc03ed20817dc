/** The incremental reader loop of web/src/pages/Playground.tsx. Chunks are the decoded texts of the
    reads; delta gives the text a line adds to the answer ("" if none). */
module SseReader {
  import opened Text

  /** What the handled lines add up to. */
  function Answer(lines: seq<string>, delta: string -> string): string {
    if lines == [] then "" else Answer(Init(lines), delta) + delta(Last(lines))
  }

  /** The lines that have been ended by a newline, and the unfinished rest. */
  function Lines(text: string): seq<string> {
    Init(Split(text, '\n'))
  }

  function Rest(text: string): string {
    Last(Split(text, '\n'))
  }

  lemma {:induction false} AnswerAppend(a: seq<string>, b: seq<string>, delta: string -> string)
    ensures Answer(a + b, delta) == Answer(a, delta) + Answer(b, delta)
  {
    if b == [] {
      assert a + b == a;
    } else {
      assert Init(a + b) == a + Init(b);
      AnswerAppend(a, Init(b), delta);
    }
  }

  /** Each line adds its text once, in its place. */
  lemma AnswerInOrder(a: seq<string>, line: string, b: seq<string>, delta: string -> string)
    ensures Answer(a + [line] + b, delta) == Answer(a, delta) + delta(line) + Answer(b, delta)
    ensures Answer([], delta) == ""
  {
    AnswerAppend(a + [line], b, delta);
    assert Init(a + [line]) == a;
  }

  /** One more read: the buffered rest and the chunk are split again. */
  lemma NextChunk(text: string, chunk: string)
    ensures Lines(text + chunk) == Lines(text) + Lines(Rest(text) + chunk)
    ensures Rest(text + chunk) == Rest(Rest(text) + chunk)
  {
    SplitAppend(text, chunk, '\n');
  }

  method ReadAll(chunks: seq<string>, delta: string -> string)
    returns (buf: string, acc: string, handled: seq<string>)
    ensures handled == Lines(Concat(chunks)) && buf == Rest(Concat(chunks))
    ensures acc == Answer(Lines(Concat(chunks)), delta)
  {
    buf, acc, handled := "", "", [];
    for i := 0 to |chunks|
      invariant handled == Lines(Concat(chunks[..i])) && buf == Rest(Concat(chunks[..i]))
      invariant acc == Answer(handled, delta)
    {
      assert Init(chunks[..i + 1]) == chunks[..i];
      NextChunk(Concat(chunks[..i]), chunks[i]);
      buf := buf + chunks[i];
      var lines := Split(buf, '\n');
      buf, lines := Last(lines), Init(lines);
      acc := HandleLines(lines, acc, handled, delta);
      handled := handled + lines;
    }
    assert chunks[..|chunks|] == chunks;
  }

  /** The inner loop: one delta per finished line. */
  method HandleLines(lines: seq<string>, before: string, ghost handled: seq<string>, delta: string -> string)
    returns (acc: string)
    requires before == Answer(handled, delta)
    ensures acc == Answer(handled + lines, delta)
  {
    acc := before;
    for j := 0 to |lines|
      invariant acc == before + Answer(lines[..j], delta)
    {
      assert Init(lines[..j + 1]) == lines[..j];
      acc := acc + delta(lines[j]);
    }
    assert lines[..|lines|] == lines;
    AnswerAppend(handled, lines, delta);
  }

  /** Lines, each followed by its newline. */
  function Ended(lines: seq<string>): string {
    if lines == [] then "" else lines[0] + "\n" + Ended(lines[1..])
  }

  lemma {:induction false} JoinIsEnded(lines: seq<string>, rest: string)
    ensures Join(lines + [rest], '\n') == Ended(lines) + rest
  {
    if lines != [] {
      JoinIsEnded(lines[1..], rest);
      assert (lines + [rest])[1..] == lines[1..] + [rest];
    } else {
      assert lines + [rest] == [rest] && "" + rest == rest;
    }
  }

  /** After every read the handled lines and the buffer reassemble all text so far, and they are the
      only way to cut it into newline-ended lines and a rest without newline: each ended line is
      handled once, in order, and nothing else is. */
  lemma LinesReassemble(text: string, lines: seq<string>, rest: string)
    ensures Ended(Lines(text)) + Rest(text) == text
    ensures lines == Lines(text) && rest == Rest(text) <==>
            Ended(lines) + rest == text && '\n' !in rest && forall l :: l in lines ==> '\n' !in l
  {
    JoinSplit(text, '\n');
    JoinIsEnded(Lines(text), Rest(text));
    assert Split(text, '\n') == Lines(text) + [Rest(text)];
    SplitPiecesHaveNoSeparator(text, '\n');
    if Ended(lines) + rest == text && '\n' !in rest && forall l :: l in lines ==> '\n' !in l {
      JoinIsEnded(lines, rest);
      SplitJoin(lines + [rest], '\n');
    }
  }

  /** Two chunkings of the same stream give the same lines, buffer and answer; an unfinished last line
      adds nothing. */
  lemma ChunkingIsIrrelevant(a: seq<string>, b: seq<string>, more: string, delta: string -> string)
    requires Concat(a) == Concat(b) + more && '\n' !in more
    ensures Lines(Concat(a)) == Lines(Concat(b)) && Rest(Concat(a)) == Rest(Concat(b)) + more
    ensures Answer(Lines(Concat(a)), delta) == Answer(Lines(Concat(b)), delta)
  {
    NextChunk(Concat(b), more);
    SplitPiecesHaveNoSeparator(Concat(b), '\n');
    SplitWithoutSeparator(Rest(Concat(b)) + more, '\n');
  }
}
