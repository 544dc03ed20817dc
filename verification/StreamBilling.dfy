/** The raw pass-through of internal/handler/proxy.go: the bounded tail of the stream that is kept for
    billing, and the fold of its SSE lines. A string is a list of bytes, written as characters. */
module StreamBilling {
  import opened Options
  import opened Text

  const MAX_BODY_BYTES := 16 * 1024 * 1024

  datatype Usage = Usage(prompt: int, completion: int, total: int)

  const NO_USAGE := Usage(0, 0, 0)

  /** What the code reads of one parsed chunk; choice is the content and finish reason of the first. */
  datatype Chunk = Chunk(id: string, choice: Option<(string, string)>, usage: Usage)

  /** What the library does with a line and a payload: trimming of white space, which goes by UTF-8
      characters, and JSON decoding. The results hold whatever these are. */
  datatype Parser = Parser(trim: string -> string, json: string -> Option<Chunk>)

  datatype Folded = Folded(id: string, text: string, finish: string, usage: Usage)

  /* ---------------------------------------------------------------- the fold */

  /** The payload of a data line that is worth parsing. */
  function Payload(line: string, parse: Parser): Option<string> {
    var l := parse.trim(line);
    if !("data:" <= l) then None
    else
      var payload := parse.trim(l[5..]);
      if payload == "" || payload == "[DONE]" then None else Some(payload)
  }

  function ChunkOf(line: string, parse: Parser): Option<Chunk> {
    match Payload(line, parse)
    case Some(payload) => parse.json(payload)
    case None => None
  }

  function FoldChunk(f: Folded, c: Chunk): Folded {
    Folded(
      if c.id != "" then c.id else f.id,
      if c.choice.Some? then f.text + c.choice.value.0 else f.text,
      if c.choice.Some? && c.choice.value.1 != "" then c.choice.value.1 else f.finish,
      if c.usage.total > 0 then c.usage else f.usage)
  }

  function FoldLines(lines: seq<string>, parse: Parser): Folded {
    if lines == [] then Folded("", "", "", NO_USAGE)
    else
      var f := FoldLines(Init(lines), parse);
      match ChunkOf(Last(lines), parse)
      case Some(c) => FoldChunk(f, c)
      case None => f
  }

  function Accumulated(raw: string, parse: Parser): Folded {
    var f := FoldLines(Split(raw, '\n'), parse);
    if f.finish == "" then f.(finish := "stop") else f
  }

  method AccumulateOpenAISSE(raw: string, parse: Parser) returns (r: Folded)
    ensures r == Accumulated(raw, parse)
  {
    var id, text, finish, usage := "", "", "", NO_USAGE;
    var lines := Split(raw, '\n');
    for i := 0 to |lines|
      invariant FoldLines(lines[..i], parse) == Folded(id, text, finish, usage)
    {
      assert Init(lines[..i + 1]) == lines[..i];
      var line := parse.trim(lines[i]);
      if !("data:" <= line) {
        continue;
      }
      var payload := parse.trim(line[5..]);
      if payload == "" || payload == "[DONE]" {
        continue;
      }
      var chunk := parse.json(payload);
      if chunk == None {
        continue;
      }
      var c := chunk.value;
      if c.id != "" {
        id := c.id;
      }
      if c.choice.Some? {
        text := text + c.choice.value.0;
        if c.choice.value.1 != "" {
          finish := c.choice.value.1;
        }
      }
      if c.usage.total > 0 {
        usage := c.usage;
      }
    }
    assert lines[..|lines|] == lines;
    if finish == "" {
      finish := "stop";
    }
    r := Folded(id, text, finish, usage);
  }

  /** The usage a line bears, if any. */
  function UsageOf(line: string, parse: Parser): Option<Usage> {
    match ChunkOf(line, parse)
    case Some(c) => if c.usage.total > 0 then Some(c.usage) else None
    case None => None
  }

  /** The fold bills the last usage-bearing line and nothing else. */
  lemma {:induction false} FoldTakesLastUsage(lines: seq<string>, parse: Parser, k: nat)
    requires k < |lines| ==> UsageOf(lines[k], parse).Some?
    requires forall j :: k < j < |lines| ==> UsageOf(lines[j], parse).None?
    requires k >= |lines| ==> forall j :: 0 <= j < |lines| ==> UsageOf(lines[j], parse).None?
    ensures FoldLines(lines, parse).usage == if k < |lines| then UsageOf(lines[k], parse).value else NO_USAGE
  {
    if lines != [] && k != |lines| - 1 {
      assert forall j :: 0 <= j < |Init(lines)| ==> Init(lines)[j] == lines[j];
      FoldTakesLastUsage(Init(lines), parse, if k < |lines| then k else |lines|);
    }
  }

  /** What the chunk of a line says, "" if the line has none. */
  function ContentOf(line: string, parse: Parser): string {
    match ChunkOf(line, parse)
    case Some(c) => if c.choice.Some? then c.choice.value.0 else ""
    case None => ""
  }

  function FinishOf(line: string, parse: Parser): string {
    match ChunkOf(line, parse)
    case Some(c) => if c.choice.Some? then c.choice.value.1 else ""
    case None => ""
  }

  function IdOf(line: string, parse: Parser): string {
    match ChunkOf(line, parse)
    case Some(c) => c.id
    case None => ""
  }

  /** The contents of all lines, first line first. */
  function Contents(lines: seq<string>, parse: Parser): string {
    if lines == [] then "" else ContentOf(lines[0], parse) + Contents(lines[1..], parse)
  }

  lemma {:induction false} ContentsAppend(a: seq<string>, b: seq<string>, parse: Parser)
    ensures Contents(a + b, parse) == Contents(a, parse) + Contents(b, parse)
  {
    if a == [] {
      assert a + b == b;
    } else {
      assert (a + b)[1..] == a[1..] + b;
      ContentsAppend(a[1..], b, parse);
    }
  }

  /** The text is the contents of the chunks in their order. */
  lemma {:induction false} FoldConcatenates(lines: seq<string>, parse: Parser)
    ensures FoldLines(lines, parse).text == Contents(lines, parse)
  {
    if lines != [] {
      var before, last := Init(lines), Last(lines);
      FoldConcatenates(before, parse);
      assert lines == before + [last];
      ContentsAppend(before, [last], parse);
      assert Contents([last], parse) == ContentOf(last, parse) + "";
      assert Contents(before, parse) + "" == Contents(before, parse);
    }
  }

  /** The finish reason is the last one that is not empty. */
  lemma {:induction false} FoldTakesLastFinish(lines: seq<string>, parse: Parser, k: nat)
    requires k < |lines| ==> FinishOf(lines[k], parse) != ""
    requires forall j :: 0 <= j < |lines| && (j > k || k >= |lines|) ==> FinishOf(lines[j], parse) == ""
    ensures FoldLines(lines, parse).finish == if k < |lines| then FinishOf(lines[k], parse) else ""
  {
    if lines != [] && k != |lines| - 1 {
      assert forall j :: 0 <= j < |Init(lines)| ==> Init(lines)[j] == lines[j];
      FoldTakesLastFinish(Init(lines), parse, if k < |lines| then k else |lines|);
    }
  }

  /** The id is the last one that is not empty. */
  lemma {:induction false} FoldTakesLastId(lines: seq<string>, parse: Parser, k: nat)
    requires k < |lines| ==> IdOf(lines[k], parse) != ""
    requires forall j :: 0 <= j < |lines| && (j > k || k >= |lines|) ==> IdOf(lines[j], parse) == ""
    ensures FoldLines(lines, parse).id == if k < |lines| then IdOf(lines[k], parse) else ""
  {
    if lines != [] && k != |lines| - 1 {
      assert forall j :: 0 <= j < |Init(lines)| ==> Init(lines)[j] == lines[j];
      FoldTakesLastId(Init(lines), parse, if k < |lines| then k else |lines|);
    }
  }

  /** The last line that satisfies a condition, or the number of lines. */
  lemma {:induction false} LastSuch(lines: seq<string>, condition: string -> bool) returns (k: nat)
    ensures k <= |lines| && (k < |lines| ==> condition(lines[k]))
    ensures forall j :: 0 <= j < |lines| && (j > k || k == |lines|) ==> !condition(lines[j])
  {
    if lines == [] {
      k := 0;
    } else if condition(Last(lines)) {
      k := |lines| - 1;
    } else {
      k := LastSuch(Init(lines), condition);
      assert forall j :: 0 <= j < |Init(lines)| ==> Init(lines)[j] == lines[j];
      k := if k == |lines| - 1 then |lines| else k;
    }
  }

  /** The answer of a stream: all contents in order, the last finish reason that is given or "stop", and the
      last id that is given. */
  lemma AccumulatedAnswer(raw: string, parse: Parser) returns (finish: nat, id: nat)
    ensures var lines, r := Split(raw, '\n'), Accumulated(raw, parse);
            && r.text == Contents(lines, parse)
            && (forall j :: 0 <= j < |lines| && (j > finish || finish == |lines|) ==> FinishOf(lines[j], parse) == "")
            && finish <= |lines| && (finish < |lines| ==> FinishOf(lines[finish], parse) != "")
            && r.finish == (if finish < |lines| then FinishOf(lines[finish], parse) else "stop")
            && (forall j :: 0 <= j < |lines| && (j > id || id == |lines|) ==> IdOf(lines[j], parse) == "")
            && id <= |lines| && r.id == if id < |lines| then IdOf(lines[id], parse) else ""
  {
    var lines := Split(raw, '\n');
    FoldConcatenates(lines, parse);
    finish := LastSuch(lines, line => FinishOf(line, parse) != "");
    FoldTakesLastFinish(lines, parse, finish);
    id := LastSuch(lines, line => IdOf(line, parse) != "");
    FoldTakesLastId(lines, parse, id);
  }

  /** A line counts exactly if it is a data line, up to white space, with a payload that is not the end mark. */
  lemma PayloadExactly(line: string, payload: string, parse: Parser)
    ensures Payload(line, parse) == Some(payload) <==>
            && payload != "" && payload != "[DONE]"
            && exists rest: string :: parse.trim(line) == "data:" + rest && parse.trim(rest) == payload
  {
    var l := parse.trim(line);
    if "data:" <= l {
      assert l == "data:" + l[5..];
    }
    forall rest: string | l == "data:" + rest ensures "data:" <= l && rest == l[5..] {
    }
  }

  /* ---------------------------------------------------------------- the tail */

  /** The last n bytes, or everything if there are fewer. */
  function Tail(s: string, n: nat): string {
    if |s| <= n then s else s[|s| - n..]
  }

  lemma TailAppend(s: string, more: string, n: nat)
    ensures Tail(Tail(s, n) + more, n) == Tail(s + more, n)
  {
  }

  /** What a read returns (some bytes, perhaps with an error or the end), and whether writing those
      bytes to the client fails. */
  datatype Read = Read(data: string, failed: bool, writeFails: bool)

  predicate Stops(r: Read) {
    r.failed || (r.data != "" && r.writeFails)
  }

  /** The bytes of the first n reads. */
  function DataOf(stream: seq<Read>, n: nat): string
    requires n <= |stream|
  {
    if n == 0 then "" else DataOf(stream, n - 1) + stream[n - 1].data
  }

  /** What is kept of the first n reads for billing. */
  function Kept(stream: seq<Read>, n: nat): string
    requires n <= |stream|
  {
    Tail(DataOf(stream, n), MAX_BODY_BYTES)
  }

  /** What is kept after the next read follows from what was kept before. */
  lemma NextRead(stream: seq<Read>, n: nat)
    requires n < |stream|
    ensures DataOf(stream, n + 1) == DataOf(stream, n) + stream[n].data
    ensures Kept(stream, n + 1) == Tail(Kept(stream, n) + stream[n].data, MAX_BODY_BYTES)
    ensures stream[n].data == "" ==> Kept(stream, n + 1) == Kept(stream, n)
  {
    TailAppend(DataOf(stream, n), stream[n].data, MAX_BODY_BYTES);
    assert DataOf(stream, n) + "" == DataOf(stream, n);
  }

  /** sniff = sniff[len(sniff)-maxBodyBytes:], once it has grown too long. */
  method KeepTail(sniff: string, n: nat) returns (kept: string)
    ensures kept == Tail(sniff, n)
  {
    kept := sniff;
    if |kept| > n {
      kept := kept[|kept| - n..];
    }
  }

  class Ledger {
    var bills: seq<Usage>

    constructor ()
      ensures bills == []
    {
      bills := [];
    }

    /** The fold never fails, so every stream is billed with whatever usage its tail shows. */
    method BillStream(sniff: string, parse: Parser)
      modifies this
      ensures bills == old(bills) + [Accumulated(sniff, parse).usage]
    {
      var u := AccumulateOpenAISSE(sniff, parse);
      bills := bills + [u.usage];
    }

    /** Forwards a stream that stops at some read. However it is cut into reads and however it ends,
        exactly one bill is written, from the last 16 MiB read. */
    method Passthrough(stream: seq<Read>, parse: Parser) returns (stop: nat, sent: string)
      requires exists i :: 0 <= i < |stream| && Stops(stream[i])
      modifies this
      ensures stop < |stream| && Stops(stream[stop]) && forall i :: 0 <= i < stop ==> !Stops(stream[i])
      ensures bills == old(bills) + [Accumulated(Kept(stream, stop + 1), parse).usage]
      ensures sent == DataOf(stream, stop) + if stream[stop].writeFails then "" else stream[stop].data
    {
      var sniff := "";
      sent := "";
      stop := 0;
      while true
        invariant stop < |stream| && forall i :: 0 <= i < stop ==> !Stops(stream[i])
        invariant sniff == Kept(stream, stop) && sent == DataOf(stream, stop)
        invariant bills == old(bills)
        decreases |stream| - stop
      {
        var r := stream[stop];
        NextRead(stream, stop);
        if r.data != "" {
          sniff := KeepTail(sniff + r.data, MAX_BODY_BYTES);
          assert sniff == Kept(stream, stop + 1);
          if r.writeFails {
            BillStream(sniff, parse);
            return;
          }
          sent := sent + r.data;
        }
        assert sniff == Kept(stream, stop + 1) && sent == DataOf(stream, stop + 1);
        if r.failed {
          BillStream(sniff, parse);
          return;
        }
        stop := stop + 1;
      }
    }
  }

  /* ---------------------------------------------------------------- what the tail still shows */

  /** Cut anywhere, the lines of the remainder are the lines of the whole from some line j on, the
      first of them perhaps without its beginning. */
  lemma CutLines(whole: string, cut: nat) returns (j: nat, missing: string)
    requires cut <= |whole|
    ensures var lines, left := Split(whole, '\n'), Split(whole[cut..], '\n');
            j < |lines| && lines[j] == missing + left[0] && left[1..] == lines[j + 1..]
  {
    var a, b := whole[..cut], whole[cut..];
    var before := Split(a, '\n');
    j, missing := |before| - 1, Last(before);
    assert whole == a + b;
    SplitAppend(a, b, '\n');
    SplitPiecesHaveNoSeparator(a, '\n');
    SplitPrefix(missing, b, '\n');
    var lines := Split(whole, '\n');
    assert lines == Init(before) + ([missing + Split(b, '\n')[0]] + Split(b, '\n')[1..]);
    assert lines[j + 1..] == Split(b, '\n')[1..];
  }

  /** The usage billed from a cut stream comes from the last usage-bearing line after the cut line, or
      else from what is left of the cut line itself. */
  lemma CutUsage(whole: string, cut: nat, parse: Parser, k: nat)
    requires cut <= |whole|
    requires var lines := Split(whole, '\n');
             && k < |lines| && UsageOf(lines[k], parse).Some?
             && forall i :: k < i < |lines| ==> UsageOf(lines[i], parse).None?
    ensures var left := Split(whole[cut..], '\n');
            var billed := FoldLines(left, parse).usage;
            if k >= |Split(whole, '\n')| - |left| + 1 then
              billed == UsageOf(Split(whole, '\n')[k], parse).value
            else
              billed == match UsageOf(left[0], parse) case Some(u) => u case None => NO_USAGE
  {
    var lines, left := Split(whole, '\n'), Split(whole[cut..], '\n');
    var j, missing := CutLines(whole, cut);
    assert |left| == |lines| - j;
    assert forall i :: 1 <= i < |left| ==> left[i] == lines[j + i] by {
      assert forall i :: 1 <= i < |left| ==> left[i] == left[1..][i - 1];
    }
    if k >= j + 1 {
      FoldTakesLastUsage(left, parse, k - j);
    } else if UsageOf(left[0], parse).Some? {
      FoldTakesLastUsage(left, parse, 0);
    } else {
      FoldTakesLastUsage(left, parse, |left|);
    }
  }

  /** The line that starts at the cut, or before it, is the one the cut goes through. */
  lemma WholeLineAfterCut(whole: string, n: nat, k: nat)
    requires k < |Split(whole, '\n')| && |Join(Split(whole, '\n')[k..], '\n')| <= n < |whole|
    ensures var tail := whole[|whole| - n..];
            exists front: seq<string> :: Split(tail, '\n') == front + Split(whole, '\n')[k..]
  {
    var lines := Split(whole, '\n');
    var rest := Join(lines[k..], '\n');
    var tail := whole[|whole| - n..];
    assert k == 0 ==> lines[k..] == lines;
    JoinSplit(whole, '\n');
    SplitPiecesHaveNoSeparator(whole, '\n');
    SplitJoin(lines[k..], '\n');
    if k > 0 {
      assert lines == lines[..k] + lines[k..];
      JoinAppend(lines[..k], lines[k..], '\n');
      var front := Join(lines[..k], '\n') + "\n";
      assert whole == front + rest;
      if n == |rest| {
        assert tail == rest;
        assert Split(tail, '\n') == [] + lines[k..];
      } else {
        var part := front[|whole| - n..|front| - 1];
        assert tail == part + ['\n'] + rest;
        SplitAtSeparator(part, rest, '\n');
      }
    }
  }

  /** The billed usage is that of the whole stream whenever the last line that bears usage lies wholly
      in the kept tail: its text and all that follows fit into the bound. */
  lemma TailBillsWholeStream(whole: string, n: nat, parse: Parser, k: nat)
    requires var lines := Split(whole, '\n');
             && k < |lines| && UsageOf(lines[k], parse).Some?
             && (forall i :: k < i < |lines| ==> UsageOf(lines[i], parse).None?)
             && |Join(lines[k..], '\n')| <= n
    ensures Accumulated(Tail(whole, n), parse).usage == Accumulated(whole, parse).usage
  {
    var lines := Split(whole, '\n');
    FoldTakesLastUsage(lines, parse, k);
    if |whole| > n {
      WholeLineAfterCut(whole, n, k);
      var tail := whole[|whole| - n..];
      var front: seq<string> :| Split(tail, '\n') == front + lines[k..];
      var left := Split(tail, '\n');
      assert left[|front|] == lines[k];
      assert forall i :: |front| < i < |left| ==> left[i] == lines[k + (i - |front|)];
      FoldTakesLastUsage(left, parse, |front|);
    }
  }
}
