/** internal/provider/anthropic.go and the Anthropic codec of internal/inbound/codec.go. */
module AnthropicWire {
  import opened Options
  import opened Text
  import opened Protocol

  const DEFAULT_MAX_TOKENS := 4096

  /** What the provider sends. */
  datatype Out = Out(
    model: string, maxTokens: int, messages: seq<(string, string)>, system: string, stream: bool,
    temperature: Option<real>, topP: Option<real>, stopSequences: seq<string>)

  /** What the codec reads. */
  datatype In = In(
    model: string, maxTokens: int, messages: seq<WireMessage>, system: Content, stream: bool,
    temperature: Option<real>, topP: Option<real>, stop: seq<string>)

  /** The body as JSON carries it: an empty system text is omitted. */
  function OnWire(o: Out): In {
    In(o.model, o.maxTokens,
       seq(|o.messages|, i requires 0 <= i < |o.messages| =>
         WireMessage(o.messages[i].0, TextContent(o.messages[i].1))),
       if o.system == "" then NoContent else TextContent(o.system),
       o.stream, o.temperature, o.topP, o.stopSequences)
  }

  function Pairs(ms: seq<Message>): seq<(string, string)> {
    seq(|ms|, i requires 0 <= i < |ms| => (ms[i].role, ms[i].content))
  }

  function ToAnthropic(r: Request): Out {
    Out(r.model, if r.maxTokens.Some? && r.maxTokens.value > 0 then r.maxTokens.value else DEFAULT_MAX_TOKENS,
        Pairs(Turns(r.messages)), Glue(SystemTexts(r.messages)), r.stream, r.temperature, r.topP, r.stop)
  }

  lemma PairsAppend(ms: seq<Message>, m: Message)
    ensures Pairs(ms + [m.(name := "")]) == Pairs(ms) + [(m.role, m.content)] && Pairs(ms + []) == Pairs(ms)
  {
    assert ms + [] == ms;
  }

  method BuildAnthropic(r: Request) returns (out: Out)
    ensures out == ToAnthropic(r)
  {
    var maxTokens := DEFAULT_MAX_TOKENS;
    if r.maxTokens.Some? && r.maxTokens.value > 0 {
      maxTokens := r.maxTokens.value;
    }
    var system, messages := CollectMessages(r.messages);
    out := Out(r.model, maxTokens, messages, system, r.stream, r.temperature, r.topP, r.stop);
  }

  /** The loop of toAnthropic: system texts are glued, the other turns collected. */
  method CollectMessages(ms: seq<Message>) returns (system: string, messages: seq<(string, string)>)
    ensures system == Glue(SystemTexts(ms)) && messages == Pairs(Turns(ms))
  {
    system, messages := "", [];
    for i := 0 to |ms|
      invariant system == Glue(SystemTexts(ms[..i]))
      invariant messages == Pairs(Turns(ms[..i]))
    {
      NextSystem(ms, i);
      PairsAppend(Turns(ms[..i]), ms[i]);
      var m := ms[i];
      if m.role == "system" {
        if system != "" {
          system := system + "\n";
        }
        system := system + m.content;
        continue;
      }
      messages := messages + [(m.role, m.content)];
    }
    assert ms[..|ms|] == ms;
  }

  function Extracted(ms: seq<WireMessage>): seq<Message> {
    seq(|ms|, i requires 0 <= i < |ms| => Message(ms[i].role, ExtractText(ms[i].content), ""))
  }

  /** A request as the codec fills it in; what the wire does not carry stays unset. */
  function Filled(a: In, messages: seq<Message>): Request {
    Request(a.model, messages, a.temperature, a.topP, if a.maxTokens > 0 then Some(a.maxTokens) else None,
            a.stream, None, a.stop, None, None, "")
  }

  function Decode(a: In): Decoded {
    if a.model == "" then Err("model is required")
    else if a.messages == [] then Err("messages is required")
    else Ok(Filled(a, Canonical(ExtractText(a.system), Extracted(a.messages))))
  }

  method DecodeBody(a: In) returns (d: Decoded)
    ensures d == Decode(a)
  {
    if a.model == "" {
      return Err("model is required");
    }
    if |a.messages| == 0 {
      return Err("messages is required");
    }
    var messages := [];
    if a.system != NoContent {
      var sys := ExtractText(a.system);
      if sys != "" {
        messages := [Message("system", sys, "")] + messages;
      }
    }
    ghost var lead := messages;
    for i := 0 to |a.messages|
      invariant messages == lead + Extracted(a.messages[..i])
    {
      messages := messages + [Message(a.messages[i].role, ExtractText(a.messages[i].content), "")];
    }
    assert a.messages[..|a.messages|] == a.messages;
    d := Ok(Filled(a, messages));
  }

  /** What is read of every body: the settings as they are. */
  lemma DecodesSettings(a: In)
    ensures Decode(a).Ok? <==> a.model != "" && a.messages != []
    ensures Decode(a).Err? ==> Decode(a).error == if a.model == "" then "model is required" else "messages is required"
    ensures Decode(a).Ok? ==>
              var r := Decode(a).request;
              && r.model == a.model && r.stream == a.stream
              && r.temperature == a.temperature && r.topP == a.topP && r.stop == a.stop
              && (r.maxTokens.Some? <==> a.maxTokens > 0)
              && (r.maxTokens.Some? ==> r.maxTokens.value == a.maxTokens)
  {
  }

  /** What is read of every body: its system text in front, and then each message with its role and text. */
  lemma DecodesMessages(a: In, i: nat)
    requires Decode(a).Ok? && i < |a.messages|
    ensures var ms, system := Decode(a).request.messages, ExtractText(a.system);
            && LedBy(ms, system, |a.messages|)
            && ms[Lead(system) + i] == Message(a.messages[i].role, ExtractText(a.messages[i].content), "")
  {
    CanonicalIsLed(ExtractText(a.system), Extracted(a.messages), i);
  }

  /** What is sent, for every request: its settings with an explicit token limit, the system texts in one,
      and then each turn with its role and text. */
  lemma SendsExactly(r: Request)
    ensures var o, turns := OnWire(ToAnthropic(r)), Turns(r.messages);
            && o.model == r.model && o.stream == r.stream
            && o.temperature == r.temperature && o.topP == r.topP && o.stop == r.stop
            && o.maxTokens > 0
            && (r.maxTokens.Some? && r.maxTokens.value > 0 ==> o.maxTokens == r.maxTokens.value)
            && (r.maxTokens.None? || r.maxTokens.value <= 0 ==> o.maxTokens == 4096)
            && ExtractText(o.system) == Join(FromFirstText(SystemTexts(r.messages)), '\n')
            && |o.messages| == |turns|
            && forall i :: 0 <= i < |turns| ==>
                 o.messages[i] == WireMessage(turns[i].role, TextContent(turns[i].content))
  {
    GlueIsJoin(SystemTexts(r.messages));
  }

  /** What is left of a request that went out in the Anthropic format. */
  function Canon(r: Request): Request {
    Filled(OnWire(ToAnthropic(r)), Canonical(Glue(SystemTexts(r.messages)), Turns(r.messages)))
  }

  /** A sent request is read back as its canonical form: one leading system message with the glued
      system texts, the other turns in order with the same roles and texts, and an explicit token
      limit. It is refused exactly when it names no model or has no turn. */
  lemma DecodeToAnthropic(r: Request)
    ensures Decode(OnWire(ToAnthropic(r))) ==
            if r.model == "" then Err("model is required")
            else if Turns(r.messages) == [] then Err("messages is required")
            else Ok(Canon(r))
  {
    TurnsAreTurns(r.messages);
    TurnsBack(r, Turns(r.messages));
  }

  lemma TurnsBack(r: Request, turns: seq<Message>)
    requires turns == Turns(r.messages) && forall m :: m in turns ==> m.name == ""
    ensures Extracted(OnWire(ToAnthropic(r)).messages) == turns
  {
  }

  /** The canonical form has the same system text and the same turns. */
  lemma CanonParts(r: Request)
    ensures Glue(SystemTexts(Canon(r).messages)) == Glue(SystemTexts(r.messages))
    ensures Turns(Canon(r).messages) == Turns(r.messages)
  {
    var system := Glue(SystemTexts(r.messages));
    TurnsAreTurns(r.messages);
    CanonicalParts(system, Turns(r.messages));
    GlueAppend([], system);
    assert [] + [system] == [system];
  }

  lemma CanonIsFixed(r: Request)
    ensures ToAnthropic(Canon(r)) == ToAnthropic(r) && Canon(Canon(r)) == Canon(r)
  {
    CanonParts(r);
  }

  /** The settings survive; only the token limit may be filled in. */
  lemma CanonKeepsSettings(r: Request)
    ensures Canon(r).model == r.model && Canon(r).stream == r.stream && SameSampling(Canon(r), r)
    ensures Canon(r).maxTokens == r.maxTokens <==> r.maxTokens.Some? && r.maxTokens.value > 0
    ensures Canon(r).maxTokens != r.maxTokens ==> Canon(r).maxTokens == Some(4096)
  {
  }

  /** A second trip changes nothing more. */
  lemma SecondTripIsIdentity(r: Request)
    requires r.model != "" && Turns(r.messages) != []
    ensures Decode(OnWire(ToAnthropic(Canon(r)))) == Ok(Canon(r))
  {
    CanonIsFixed(r);
    DecodeToAnthropic(r);
  }

  /* ---------------------------------------------------------------- responses */

  /** A Messages API response. */
  datatype Reply = Reply(id: string, model: string, content: seq<Block>, stopReason: string,
                         inputTokens: int, outputTokens: int)

  function FirstText(r: Response): string {
    if r.choices == [] then "" else r.choices[0].message.content
  }

  function EncodeChat(r: Response): Reply {
    Reply(r.id, r.model,
          if FirstText(r) != "" then [Block("text", FirstText(r))] else [],
          if r.choices == [] then ""
          else match r.choices[0].finish
               case "length" => "max_tokens"
               case "stop" => "end_turn"
               case "" => "end_turn"
               case other => other,
          r.usage.prompt, r.usage.completion)
  }

  function FromAnthropic(a: Reply): Response {
    Response(a.id, a.model,
             [Choice(Message("assistant", Glue(TextsOf(a.content)), ""),
                     match a.stopReason
                     case "max_tokens" => "length"
                     case "end_turn" => "stop"
                     case "" => "stop"
                     case other => other)],
             Usage(a.inputTokens, a.outputTokens, a.inputTokens + a.outputTokens))
  }

  method ReadReply(a: Reply) returns (r: Response)
    ensures r == FromAnthropic(a)
  {
    var text := ExtractBlocks(a.content);
    var finish := "stop";
    if a.stopReason == "max_tokens" {
      finish := "length";
    } else if a.stopReason != "end_turn" && a.stopReason != "" {
      finish := a.stopReason;
    }
    r := Response(a.id, a.model, [Choice(Message("assistant", text, ""), finish)],
                  Usage(a.inputTokens, a.outputTokens, a.inputTokens + a.outputTokens));
  }

  /** The text of any reply: its text blocks, joined with newlines. */
  lemma ReplyText(a: Reply)
    ensures |FromAnthropic(a).choices| == 1
    ensures FromAnthropic(a).choices[0].message ==
            Message("assistant", Join(FromFirstText(TextsOf(a.content)), '\n'), "")
  {
    GlueIsJoin(TextsOf(a.content));
  }

  /** What comes back of any response: the first choice, with its finish reason unified, or an empty answer
      that stopped, under the same id and model and with the total added up. */
  lemma ResponseComesBack(r: Response)
    ensures var back := FromAnthropic(EncodeChat(r));
            && back.id == r.id && back.model == r.model && |back.choices| == 1
            && back.usage == Usage(r.usage.prompt, r.usage.completion, r.usage.prompt + r.usage.completion)
            && back.choices[0].message.role == "assistant"
            && back.choices[0].message.content == (if r.choices == [] then "" else r.choices[0].message.content)
            && back.choices[0].finish ==
               if r.choices == [] || r.choices[0].finish in {"", "stop", "end_turn"} then "stop"
               else if r.choices[0].finish in {"length", "max_tokens"} then "length"
               else r.choices[0].finish
  {
    ReplyText(EncodeChat(r));
    if FirstText(r) != "" {
      TextsAppend([], Block("text", FirstText(r)), []);
      assert [] + [Block("text", FirstText(r))] + [] == [Block("text", FirstText(r))];
    }
  }

  /** A one-choice answer of the assistant survives the trip exactly when its finish reason is not one
      that the two tables send elsewhere and its total is the sum of its parts. */
  lemma ResponseSurvivesExactly(id: string, model: string, text: string, finish: string, usage: Usage)
    ensures var r := Response(id, model, [Choice(Message("assistant", text, ""), finish)], usage);
            FromAnthropic(EncodeChat(r)) == r <==>
              finish !in {"", "end_turn", "max_tokens"} && usage.total == usage.prompt + usage.completion
    ensures var r := Response(id, model, [Choice(Message("assistant", text, ""), finish)], usage);
            FirstText(FromAnthropic(EncodeChat(r))) == text
  {
    var r := Response(id, model, [Choice(Message("assistant", text, ""), finish)], usage);
    assert Glue(TextsOf(EncodeChat(r).content)) == text by {
      assert Init([Block("text", text)]) == [] && Init([text]) == [];
      assert [] + [text] == [text];
    }
  }
}
