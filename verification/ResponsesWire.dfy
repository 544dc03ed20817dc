/** internal/provider/openai-responses.go and the Responses codec of internal/inbound/codec.go. */
module ResponsesWire {
  import opened Options
  import opened Text
  import opened Protocol

  /** The input field: absent, null, a string, an array of messages, or something else. */
  datatype Input = NoInput | NullInput | TextInput(text: string) | Items(items: seq<WireMessage>) | OtherInput

  datatype Body = Body(
    model: string, input: Input, instructions: string, stream: bool, temperature: Option<real>,
    topP: Option<real>, maxTokens: Option<int>, stop: seq<string>)

  function ToItems(ms: seq<Message>): seq<WireMessage> {
    seq(|ms|, i requires 0 <= i < |ms| => WireMessage(ms[i].role, TextContent(ms[i].content)))
  }

  /** A nil slice of blocks is marshalled as null. */
  function ToResponses(r: Request): Body {
    Body(r.model, if Turns(r.messages) == [] then NullInput else Items(ToItems(Turns(r.messages))),
         Join(SystemTexts(r.messages), '\n'), r.stream, r.temperature, r.topP, r.maxTokens, r.stop)
  }

  method StringsJoin(ss: seq<string>, sep: char) returns (result: string)
    ensures result == Join(ss, sep)
  {
    if |ss| == 0 {
      return "";
    }
    result := ss[0];
    for i := 1 to |ss|
      invariant result == Join(ss[..i], sep)
    {
      result := result + [sep] + ss[i];
      JoinAppend(ss[..i], [ss[i]], sep);
      assert ss[..i + 1] == ss[..i] + [ss[i]];
    }
    assert ss[..|ss|] == ss;
  }

  method BuildResponses(r: Request) returns (out: Body)
    ensures out == ToResponses(r)
  {
    var instructions: seq<string>, blocks: seq<WireMessage> := [], [];
    for i := 0 to |r.messages|
      invariant instructions == SystemTexts(r.messages[..i])
      invariant blocks == ToItems(Turns(r.messages[..i]))
    {
      NextMessage(r.messages, i);
      var m := r.messages[i];
      if m.role == "system" {
        instructions := instructions + [m.content];
      } else {
        blocks := blocks + [WireMessage(m.role, TextContent(m.content))];
      }
    }
    assert r.messages[..|r.messages|] == r.messages;
    var text := "";
    if |instructions| > 0 {
      text := StringsJoin(instructions, '\n');
    }
    out := Body(r.model, if |blocks| == 0 then NullInput else Items(blocks), text,
                r.stream, r.temperature, r.topP, r.maxTokens, r.stop);
  }

  function FromItems(items: seq<WireMessage>): seq<Message> {
    seq(|items|, i requires 0 <= i < |items| => Message(items[i].role, ExtractText(items[i].content), ""))
  }

  function Filled(b: Body, messages: seq<Message>): Request {
    Request(b.model, messages, b.temperature, b.topP, b.maxTokens, b.stream, None, b.stop, None, None, "")
  }

  /** null decodes into the empty string, so it is read as one empty user turn. */
  function Decode(b: Body): Decoded {
    if b.model == "" then Err("model is required")
    else
      match b.input
      case NoInput => Err("input is required")
      case NullInput => Ok(Filled(b, Canonical(b.instructions, [Message("user", "", "")])))
      case TextInput(text) => Ok(Filled(b, Canonical(b.instructions, [Message("user", text, "")])))
      case Items(items) => Ok(Filled(b, Canonical(b.instructions, FromItems(items))))
      case OtherInput => Err("invalid responses input format")
  }

  method DecodeBody(b: Body) returns (d: Decoded)
    ensures d == Decode(b)
  {
    if b.model == "" {
      return Err("model is required");
    }
    if b.input == NoInput {
      return Err("input is required");
    }
    var messages := [];
    if b.instructions != "" {
      messages := [Message("system", b.instructions, "")];
    }
    ghost var lead := messages;
    match b.input {
      case NoInput =>
      case NullInput =>
        messages := messages + [Message("user", "", "")];
      case TextInput(text) =>
        messages := messages + [Message("user", text, "")];
      case Items(items) =>
        for i := 0 to |items|
          invariant messages == lead + FromItems(items[..i])
        {
          messages := messages + [Message(items[i].role, ExtractText(items[i].content), "")];
        }
        assert items[..|items|] == items;
      case OtherInput =>
        return Err("invalid responses input format");
    }
    d := Ok(Filled(b, messages));
  }

  /** What is read of every body: the settings as they are. */
  lemma DecodesSettings(b: Body)
    ensures Decode(b).Ok? <==> b.model != "" && !b.input.NoInput? && !b.input.OtherInput?
    ensures Decode(b).Err? ==>
              Decode(b).error == if b.model == "" then "model is required"
                                 else if b.input.NoInput? then "input is required"
                                 else "invalid responses input format"
    ensures Decode(b).Ok? ==>
              var r := Decode(b).request;
              && r.model == b.model && r.stream == b.stream && r.temperature == b.temperature
              && r.topP == b.topP && r.maxTokens == b.maxTokens && r.stop == b.stop
  {
  }

  /** What is read of every body with a list: the instructions in front, and then each message with its role
      and text. */
  lemma DecodesItems(b: Body, i: nat)
    requires Decode(b).Ok? && b.input.Items?
    ensures i < |b.input.items| ==>
              var ms := Decode(b).request.messages;
              && LedBy(ms, b.instructions, |b.input.items|)
              && ms[Lead(b.instructions) + i] ==
                 Message(b.input.items[i].role, ExtractText(b.input.items[i].content), "")
    ensures b.input.items == [] ==> LedBy(Decode(b).request.messages, b.instructions, 0)
  {
    if i < |b.input.items| {
      CanonicalIsLed(b.instructions, FromItems(b.input.items), i);
    }
  }

  /** What is read of every body without a list: the instructions, and one user turn with the given text, or
      an empty one for null. */
  lemma DecodesText(b: Body)
    requires Decode(b).Ok? && !b.input.Items?
    ensures var ms := Decode(b).request.messages;
            && LedBy(ms, b.instructions, 1)
            && Last(ms) == Message("user", if b.input.TextInput? then b.input.text else "", "")
  {
    CanonicalIsLed(b.instructions, [Message("user", if b.input.TextInput? then b.input.text else "", "")], 0);
  }

  /** What is sent, for every request: its settings, the system texts joined, and each turn with its role
      and text, or null. */
  lemma SendsExactly(r: Request)
    ensures var b, turns := ToResponses(r), Turns(r.messages);
            && b.model == r.model && b.stream == r.stream && b.temperature == r.temperature
            && b.topP == r.topP && b.maxTokens == r.maxTokens && b.stop == r.stop
            && b.instructions == Join(SystemTexts(r.messages), '\n')
            && (turns == [] <==> b.input.NullInput?)
            && (turns != [] ==>
                  && b.input.Items? && |b.input.items| == |turns|
                  && forall i :: 0 <= i < |turns| ==>
                       b.input.items[i] == WireMessage(turns[i].role, TextContent(turns[i].content)))
  {
  }

  /** The turns that come back: without any turn, an empty user turn appears. */
  function TurnsBack(r: Request): seq<Message> {
    if Turns(r.messages) == [] then [Message("user", "", "")] else Turns(r.messages)
  }

  function Canon(r: Request): Request {
    Filled(ToResponses(r), Canonical(Join(SystemTexts(r.messages), '\n'), TurnsBack(r)))
  }

  /** A sent request that names a model is read back as its canonical form: one leading system message
      with the system texts joined by newlines, and the other turns in order with the same roles and
      texts. */
  lemma DecodeToResponses(r: Request)
    ensures Decode(ToResponses(r)) == if r.model == "" then Err("model is required") else Ok(Canon(r))
  {
    TurnsAreTurns(r.messages);
    ItemsBack(Turns(r.messages));
    DecodeByInput(ToResponses(r), Turns(r.messages));
  }

  /** What decoding makes of the two inputs that are ever sent. */
  lemma DecodeByInput(b: Body, turns: seq<Message>)
    requires b.input == if turns == [] then NullInput else Items(ToItems(turns))
    requires FromItems(ToItems(turns)) == turns
    ensures Decode(b) ==
            if b.model == "" then Err("model is required")
            else Ok(Filled(b, Canonical(b.instructions, if turns == [] then [Message("user", "", "")] else turns)))
  {
  }

  lemma ItemsBack(turns: seq<Message>)
    requires forall m :: m in turns ==> m.name == ""
    ensures FromItems(ToItems(turns)) == turns
  {
  }

  /** The canonical form has the same instructions, and its turns are those that came back. */
  lemma CanonParts(r: Request)
    ensures Join(SystemTexts(Canon(r).messages), '\n') == Join(SystemTexts(r.messages), '\n')
    ensures Turns(Canon(r).messages) == TurnsBack(r)
  {
    TurnsAreTurns(r.messages);
    LoneUserTurn(Message("user", "", ""));
    CanonicalParts(Join(SystemTexts(r.messages), '\n'), TurnsBack(r));
  }

  /** The canonical form is sent as the same body, unless the request had no turn. */
  lemma CanonIsFixed(r: Request)
    ensures Canon(Canon(r)) == Canon(r)
    ensures ToResponses(Canon(r)) == ToResponses(r) <==> Turns(r.messages) != []
  {
    CanonParts(r);
  }

  /** The settings survive. */
  lemma CanonKeepsSettings(r: Request)
    ensures Canon(r).model == r.model && Canon(r).stream == r.stream && SameSampling(Canon(r), r)
    ensures Canon(r).maxTokens == r.maxTokens
  {
  }

  /** A second trip changes nothing more, not even for a request without turns. */
  lemma SecondTripIsIdentity(r: Request)
    requires r.model != ""
    ensures Decode(ToResponses(Canon(r))) == Ok(Canon(r))
  {
    CanonIsFixed(r);
    DecodeToResponses(Canon(r));
  }

  lemma LoneUserTurn(m: Message)
    requires m.role == "user" && m.name == ""
    ensures SystemTexts([m]) == [] && Turns([m]) == [m]
  {
  }

  /* ---------------------------------------------------------------- responses */

  datatype Output = Output(kind: string, content: string)

  datatype Reply = Reply(id: string, output: seq<Output>, usage: Usage)

  function EncodeChat(r: Response): Reply {
    var text := if r.choices == [] then "" else r.choices[0].message.content;
    Reply(r.id, if text != "" then [Output("output_text", text)] else [], r.usage)
  }

  function OutputText(output: seq<Output>): string {
    if output == [] then ""
    else OutputText(Init(output)) + if Last(output).kind == "output_text" then Last(output).content else ""
  }

  function FromResponses(a: Reply, model: string): Response {
    var text := OutputText(a.output);
    Response(a.id, model,
             [Choice(Message("assistant", if text == "" && a.output != [] then a.output[0].content else text, ""),
                     "stop")],
             a.usage)
  }

  /** The output texts, run together in order. */
  lemma {:induction false} OutputAppend(a: seq<Output>, x: Output, b: seq<Output>)
    ensures OutputText(a + [x] + b) ==
            OutputText(a) + (if x.kind == "output_text" then x.content else "") + OutputText(b)
    ensures OutputText([]) == ""
  {
    if b == [] {
      assert a + [x] + b == a + [x];
      NextOutput(a, x);
    } else {
      var before, last := a + [x] + Init(b), Last(b);
      OutputAppend(a, x, Init(b));
      assert a + [x] + b == before + [last];
      NextOutput(before, last);
      AppendAssociates(OutputText(a) + (if x.kind == "output_text" then x.content else ""), OutputText(Init(b)),
                       if last.kind == "output_text" then last.content else "");
    }
  }

  lemma NextOutput(a: seq<Output>, x: Output)
    ensures OutputText(a + [x]) == OutputText(a) + if x.kind == "output_text" then x.content else ""
  {
    InitLast(a, x);
  }

  /** What comes back of any response: the first choice's text, stopped, with the same id and usage. */
  lemma ResponseComesBack(r: Response, model: string)
    ensures var back := FromResponses(EncodeChat(r), model);
            && back.id == r.id && back.model == model && back.usage == r.usage && |back.choices| == 1
            && back.choices[0].message.role == "assistant" && back.choices[0].finish == "stop"
            && back.choices[0].message.content == if r.choices == [] then "" else r.choices[0].message.content
  {
    if r.choices != [] {
      var x := Output("output_text", r.choices[0].message.content);
      OutputAppend([], x, []);
      assert [] + [x] + [] == [x];
    }
  }

  /** Text that is not marked as such is used only where no output text is there, and only the first. */
  lemma FallbackText(a: Reply, model: string)
    ensures FromResponses(a, model).choices[0].message.content ==
            if OutputText(a.output) != "" || a.output == [] then OutputText(a.output) else a.output[0].content
  {
  }

  /** A one-choice answer survives exactly when it stopped: the format carries no finish reason. */
  lemma ResponseSurvivesExactly(id: string, model: string, text: string, finish: string, usage: Usage)
    ensures var r := Response(id, model, [Choice(Message("assistant", text, ""), finish)], usage);
            && (FromResponses(EncodeChat(r), model) == r <==> finish == "stop")
            && FromResponses(EncodeChat(r), model).choices[0].message.content == text
  {
    var output := [Output("output_text", text)];
    assert Init(output) == [] && OutputText(output) == "" + text;
    var r := Response(id, model, [Choice(Message("assistant", text, ""), finish)], usage);
    var back := FromResponses(EncodeChat(r), model);
    assert back.choices[0] == Choice(Message("assistant", text, ""), "stop");
    assert finish == "stop" ==> back.choices == r.choices;
  }
}
