/** The pivot types of internal/dto, and what the protocol adapters share. */
module Protocol {
  import opened Options
  import opened Text

  datatype Message = Message(role: string, content: string, name: string)

  datatype Request = Request(
    model: string, messages: seq<Message>, temperature: Option<real>, topP: Option<real>,
    maxTokens: Option<int>, stream: bool, includeUsage: Option<bool>, stop: seq<string>,
    frequencyPenalty: Option<real>, presencePenalty: Option<real>, user: string)

  datatype Usage = Usage(prompt: int, completion: int, total: int)

  datatype Choice = Choice(message: Message, finish: string)

  datatype Response = Response(id: string, model: string, choices: seq<Choice>, usage: Usage)

  datatype Decoded = Ok(request: Request) | Err(error: string)

  /** A JSON content value: absent or null, a string, an array of typed blocks, or something else. */
  datatype Content = NoContent | TextContent(text: string) | Blocks(blocks: seq<Block>) | OtherContent

  datatype Block = Block(kind: string, text: string)

  datatype WireMessage = WireMessage(role: string, content: Content)

  /** Texts put together with a newline before each one that follows some text. */
  function Glue(texts: seq<string>): string {
    if texts == [] then ""
    else
      var before := Glue(Init(texts));
      if before != "" then before + "\n" + Last(texts) else Last(texts)
  }

  function TextsOf(blocks: seq<Block>): seq<string> {
    if blocks == [] then []
    else TextsOf(Init(blocks)) + if Last(blocks).kind == "text" then [Last(blocks).text] else []
  }

  /** extractText: a string as it is, text blocks glued, anything else empty. */
  function ExtractText(c: Content): string {
    match c
    case TextContent(text) => text
    case Blocks(blocks) => Glue(TextsOf(blocks))
    case _ => ""
  }

  lemma GlueAppend(texts: seq<string>, t: string)
    ensures Glue(texts + [t]) == if Glue(texts) != "" then Glue(texts) + "\n" + t else t
  {
  }

  method ExtractBlocks(blocks: seq<Block>) returns (sb: string)
    ensures sb == ExtractText(Blocks(blocks))
  {
    sb := "";
    for i := 0 to |blocks|
      invariant sb == Glue(TextsOf(blocks[..i]))
    {
      assert Init(blocks[..i + 1]) == blocks[..i];
      var b := blocks[i];
      if b.kind == "text" {
        GlueAppend(TextsOf(blocks[..i]), b.text);
        if |sb| > 0 {
          sb := sb + "\n";
        }
        sb := sb + b.text;
      } else {
        assert TextsOf(blocks[..i]) + [] == TextsOf(blocks[..i]);
      }
    }
    assert blocks[..|blocks|] == blocks;
  }

  /** The texts from the first one on that is not empty. */
  function FromFirstText(texts: seq<string>): seq<string> {
    if texts != [] && texts[0] == "" then FromFirstText(texts[1..]) else texts
  }

  lemma {:induction false} FromFirstTextAppend(texts: seq<string>, t: string)
    ensures FromFirstText(texts + [t]) ==
            if FromFirstText(texts) == [] && t == "" then [] else FromFirstText(texts) + [t]
    ensures FromFirstText(texts) != [] ==> FromFirstText(texts)[0] != ""
  {
    if texts == [] {
      assert [] + [t] == [t] && FromFirstText([t]) == if t == "" then [] else [t];
    } else {
      FromFirstTextAppend(texts[1..], t);
      assert (texts + [t])[1..] == texts[1..] + [t];
    }
  }

  /** Gluing is joining with newlines, except that empty texts in front leave no line. */
  lemma {:induction false} GlueIsJoin(texts: seq<string>)
    ensures Glue(texts) == Join(FromFirstText(texts), '\n')
  {
    if texts != [] {
      var before, t := Init(texts), Last(texts);
      GlueIsJoin(before);
      FromFirstTextAppend(before, t);
      assert before + [t] == texts;
      if FromFirstText(before) != [] {
        JoinAppend(FromFirstText(before), [t], '\n');
      }
    }
  }

  /** The texts are those of the text blocks, in order. */
  lemma {:induction false} TextsAppend(a: seq<Block>, x: Block, b: seq<Block>)
    ensures TextsOf(a + [x] + b) == TextsOf(a) + (if x.kind == "text" then [x.text] else []) + TextsOf(b)
    ensures TextsOf([]) == []
  {
    if b == [] {
      assert a + [x] + b == a + [x];
      InitLast(a, x);
    } else {
      var before, last := a + [x] + Init(b), Last(b);
      TextsAppend(a, x, Init(b));
      assert a + [x] + b == before + [last];
      InitLast(before, last);
      AppendAssociates(TextsOf(a) + (if x.kind == "text" then [x.text] else []), TextsOf(Init(b)),
                       if last.kind == "text" then [last.text] else []);
    }
  }

  /** What a content value says: a string as it is, the text blocks joined with newlines, or nothing. */
  lemma TextExtracted(c: Content)
    ensures c.TextContent? ==> ExtractText(c) == c.text
    ensures c.Blocks? ==> ExtractText(c) == Join(FromFirstText(TextsOf(c.blocks)), '\n')
    ensures c.NoContent? || c.OtherContent? ==> ExtractText(c) == ""
  {
    if c.Blocks? {
      GlueIsJoin(TextsOf(c.blocks));
    }
  }

  /* ---------------------------------------------------------------- system and other turns */

  function SystemTexts(ms: seq<Message>): seq<string> {
    if ms == [] then []
    else SystemTexts(Init(ms)) + if Last(ms).role == "system" then [Last(ms).content] else []
  }

  /** The turns that are not system messages, in order and without their names. */
  function Turns(ms: seq<Message>): seq<Message> {
    if ms == [] then []
    else Turns(Init(ms)) + if Last(ms).role == "system" then [] else [Last(ms).(name := "")]
  }

  lemma {:induction false} TurnsAreTurns(ms: seq<Message>)
    ensures forall m :: m in Turns(ms) ==> m.role != "system" && m.name == ""
    ensures SystemTexts(Turns(ms)) == [] && Turns(Turns(ms)) == Turns(ms)
  {
    if ms != [] {
      TurnsAreTurns(Init(ms));
      if Last(ms).role != "system" {
        var before, m := Turns(Init(ms)), Last(ms).(name := "");
        assert Init(before + [m]) == before;
      } else {
        assert Turns(Init(ms)) + [] == Turns(Init(ms));
      }
    }
  }

  /** What one more message adds. */
  lemma NextMessage(ms: seq<Message>, i: nat)
    requires i < |ms|
    ensures ms[i].role == "system" ==>
              SystemTexts(ms[..i + 1]) == SystemTexts(ms[..i]) + [ms[i].content] && Turns(ms[..i + 1]) == Turns(ms[..i])
    ensures ms[i].role != "system" ==>
              && SystemTexts(ms[..i + 1]) == SystemTexts(ms[..i])
              && Turns(ms[..i + 1]) == Turns(ms[..i]) + [ms[i].(name := "")]
  {
    assert Init(ms[..i + 1]) == ms[..i];
    assert SystemTexts(ms[..i]) + [] == SystemTexts(ms[..i]) && Turns(ms[..i]) + [] == Turns(ms[..i]);
  }

  /** What one more message adds to the system text and to the turns. */
  lemma NextSystem(ms: seq<Message>, i: nat)
    requires i < |ms|
    ensures var before := Glue(SystemTexts(ms[..i]));
            Glue(SystemTexts(ms[..i + 1])) ==
            if ms[i].role != "system" then before
            else if before != "" then before + "\n" + ms[i].content else ms[i].content
    ensures Turns(ms[..i + 1]) == Turns(ms[..i]) + if ms[i].role == "system" then [] else [ms[i].(name := "")]
  {
    NextMessage(ms, i);
    if ms[i].role == "system" {
      GlueAppend(SystemTexts(ms[..i]), ms[i].content);
    }
  }

  /** One leading system message, if there is text for it, and the turns after it. */
  function Canonical(system: string, turns: seq<Message>): seq<Message> {
    (if system != "" then [Message("system", system, "")] else []) + turns
  }

  /** Taking a canonical list apart gives its system text and its turns back. */
  lemma {:induction false} CanonicalParts(system: string, turns: seq<Message>)
    requires SystemTexts(turns) == [] && Turns(turns) == turns
    ensures SystemTexts(Canonical(system, turns)) == if system != "" then [system] else []
    ensures Turns(Canonical(system, turns)) == turns
    decreases |turns|
  {
    if turns == [] {
      if system != "" {
        assert Canonical(system, turns) == [Message("system", system, "")];
        assert Init([Message("system", system, "")]) == [];
      }
    } else {
      PureTurnsInit(turns);
      CanonicalParts(system, Init(turns));
      assert Init(Canonical(system, turns)) == Canonical(system, Init(turns));
      assert Init(turns) + [Last(turns)] == turns;
    }
  }

  /** System texts and turns are taken message by message, in order. */
  lemma {:induction false} PartsAppend(a: seq<Message>, m: Message, b: seq<Message>)
    ensures SystemTexts(a + [m] + b) ==
            SystemTexts(a) + (if m.role == "system" then [m.content] else []) + SystemTexts(b)
    ensures Turns(a + [m] + b) ==
            Turns(a) + (if m.role == "system" then [] else [Message(m.role, m.content, "")]) + Turns(b)
    ensures SystemTexts([]) == [] && Turns([]) == []
  {
    if b == [] {
      assert a + [m] + b == a + [m];
      InitLast(a, m);
    } else {
      var before, last := a + [m] + Init(b), Last(b);
      PartsAppend(a, m, Init(b));
      assert a + [m] + b == before + [last];
      InitLast(before, last);
      AppendAssociates(SystemTexts(a) + (if m.role == "system" then [m.content] else []), SystemTexts(Init(b)),
                       if last.role == "system" then [last.content] else []);
      AppendAssociates(Turns(a) + (if m.role == "system" then [] else [m.(name := "")]), Turns(Init(b)),
                       if last.role == "system" then [] else [last.(name := "")]);
    }
  }

  /** How many messages a system text makes. */
  function Lead(system: string): nat {
    if system == "" then 0 else 1
  }

  /** A system message, if there is text for it, and n messages after it. */
  predicate LedBy(ms: seq<Message>, system: string, n: nat) {
    |ms| == Lead(system) + n && (system != "" ==> ms[0] == Message("system", system, ""))
  }

  lemma CanonicalIsLed(system: string, turns: seq<Message>, i: nat)
    requires i < |turns|
    ensures LedBy(Canonical(system, turns), system, |turns|)
    ensures Canonical(system, turns)[Lead(system) + i] == turns[i]
  {
  }

  /** What any format carries of a request beside its messages. */
  predicate SameSampling(a: Request, b: Request) {
    a.temperature == b.temperature && a.topP == b.topP && a.stop == b.stop
  }

  lemma PureTurnsInit(turns: seq<Message>)
    requires turns != [] && SystemTexts(turns) == [] && Turns(turns) == turns
    ensures SystemTexts(Init(turns)) == [] && Turns(Init(turns)) == Init(turns) && Last(turns).role != "system"
    ensures Last(turns).name == ""
  {
  }

  lemma InitLast<T>(s: seq<T>, t: T)
    ensures Init(s + [t]) == s && Last(s + [t]) == t
  {
  }
}
