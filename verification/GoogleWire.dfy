/** internal/provider/google.go, the Gemini codec of internal/inbound/codec.go, and the model name in
    the URL path (internal/handler/proxy.go). */
module GoogleWire {
  import opened Options
  import opened Text
  import opened Protocol

  datatype Part = Part(text: string)

  datatype Turn = Turn(role: string, parts: seq<Part>)

  datatype Config = Config(temperature: Option<real>, topP: Option<real>, maxOutputTokens: int, stop: seq<string>)

  /** The generateContent body; both sides declare the same fields. */
  datatype Body = Body(contents: seq<Turn>, system: Option<seq<Part>>, config: Option<Config>)

  function ToRole(role: string): string {
    if role == "assistant" then "model" else role
  }

  function FromRole(role: string): string {
    if role == "model" then "assistant" else role
  }

  function ToTurns(ms: seq<Message>): seq<Turn> {
    seq(|ms|, i requires 0 <= i < |ms| => Turn(ToRole(ms[i].role), [Part(ms[i].content)]))
  }

  function Parts(texts: seq<string>): seq<Part> {
    seq(|texts|, i requires 0 <= i < |texts| => Part(texts[i]))
  }

  function ToGoogle(r: Request): Body {
    Body(ToTurns(Turns(r.messages)),
         if SystemTexts(r.messages) == [] then None else Some(Parts(SystemTexts(r.messages))),
         if r.maxTokens.Some? || r.temperature.Some? || r.topP.Some? || r.stop != [] then
           Some(Config(r.temperature, r.topP, if r.maxTokens.Some? then r.maxTokens.value else 0, r.stop))
         else None)
  }

  method BuildGoogle(r: Request) returns (out: Body)
    ensures out == ToGoogle(r)
  {
    var config: Option<Config> := None;
    if r.maxTokens.Some? || r.temperature.Some? || r.topP.Some? || |r.stop| > 0 {
      var limit := 0;
      if r.maxTokens.Some? {
        limit := r.maxTokens.value;
      }
      config := Some(Config(r.temperature, r.topP, limit, r.stop));
    }
    var contents, system := CollectMessages(r.messages);
    out := Body(contents, system, config);
  }

  lemma TurnsAppend(ms: seq<Message>, m: Message)
    ensures ToTurns(ms + [m.(name := "")]) == ToTurns(ms) + [Turn(ToRole(m.role), [Part(m.content)])]
  {
  }

  lemma PartsAppend(texts: seq<string>, t: string)
    ensures Parts(texts + [t]) == Parts(texts) + [Part(t)]
  {
  }

  /** The system parts, if there are any. */
  function SystemParts(ms: seq<Message>): Option<seq<Part>> {
    if SystemTexts(ms) == [] then None else Some(Parts(SystemTexts(ms)))
  }

  /** The loop of toGoogle: system texts become parts of their own, the other turns are collected. */
  method CollectMessages(ms: seq<Message>) returns (contents: seq<Turn>, system: Option<seq<Part>>)
    ensures contents == ToTurns(Turns(ms)) && system == SystemParts(ms)
  {
    contents, system := [], None;
    for i := 0 to |ms|
      invariant contents == ToTurns(Turns(ms[..i]))
      invariant system == SystemParts(ms[..i])
    {
      NextMessage(ms, i);
      var m := ms[i];
      if m.role == "system" {
        PartsAppend(SystemTexts(ms[..i]), m.content);
        if system == None {
          system := Some([]);
        }
        system := Some(system.value + [Part(m.content)]);
        continue;
      }
      TurnsAppend(Turns(ms[..i]), m);
      var role := m.role;
      if role == "assistant" {
        role := "model";
      }
      contents := contents + [Turn(role, [Part(m.content)])];
    }
    assert ms[..|ms|] == ms;
  }

  /** The system parts, put together without separator. */
  function SystemText(parts: seq<Part>): string {
    if parts == [] then "" else SystemText(Init(parts)) + Last(parts).text
  }

  /** The non-empty parts of a turn, glued. */
  function NonEmpty(parts: seq<Part>): seq<string> {
    if parts == [] then []
    else NonEmpty(Init(parts)) + if Last(parts).text == "" then [] else [Last(parts).text]
  }

  function FromTurns(ts: seq<Turn>): seq<Message> {
    seq(|ts|, i requires 0 <= i < |ts| => Message(FromRole(ts[i].role), Glue(NonEmpty(ts[i].parts)), ""))
  }

  function Filled(b: Body, model: string, messages: seq<Message>): Request {
    match b.config
    case None => Request(model, messages, None, None, None, false, None, [], None, None, "")
    case Some(c) =>
      Request(model, messages, c.temperature, c.topP,
              if c.maxOutputTokens > 0 then Some(c.maxOutputTokens) else None,
              false, None, c.stop, None, None, "")
  }

  /** The codec, with the model name the handler takes from the path. */
  function Decode(b: Body, model: string): Decoded {
    if b.contents == [] then Err("contents is required")
    else
      Ok(Filled(b, model, Canonical(if b.system.Some? then SystemText(b.system.value) else "",
                                    FromTurns(b.contents))))
  }

  method DecodeBody(b: Body, model: string) returns (d: Decoded)
    ensures d == Decode(b, model)
  {
    if |b.contents| == 0 {
      return Err("contents is required");
    }
    var messages := [];
    if b.system.Some? {
      var sys := "";
      for i := 0 to |b.system.value|
        invariant sys == SystemText(b.system.value[..i])
      {
        assert Init(b.system.value[..i + 1]) == b.system.value[..i];
        sys := sys + b.system.value[i].text;
      }
      assert b.system.value[..|b.system.value|] == b.system.value;
      if sys != "" {
        messages := [Message("system", sys, "")];
      }
    }
    ghost var lead := messages;
    for i := 0 to |b.contents|
      invariant messages == lead + FromTurns(b.contents[..i])
    {
      var text := JoinParts(b.contents[i].parts);
      messages := messages + [Message(FromRole(b.contents[i].role), text, "")];
    }
    assert b.contents[..|b.contents|] == b.contents;
    d := Ok(Filled(b, model, messages));
  }

  method JoinParts(parts: seq<Part>) returns (text: string)
    ensures text == Glue(NonEmpty(parts))
  {
    text := "";
    for i := 0 to |parts|
      invariant text == Glue(NonEmpty(parts[..i]))
    {
      assert Init(parts[..i + 1]) == parts[..i];
      if parts[i].text != "" {
        GlueAppend(NonEmpty(parts[..i]), parts[i].text);
        if text != "" {
          text := text + "\n";
        }
        text := text + parts[i].text;
      } else {
        assert NonEmpty(parts[..i]) + [] == NonEmpty(parts[..i]);
      }
    }
    assert parts[..|parts|] == parts;
  }

  /** What is read of every body: the settings as they are, if there are any. */
  lemma DecodesSettings(b: Body, model: string)
    ensures Decode(b, model).Ok? <==> b.contents != []
    ensures Decode(b, model).Err? ==> Decode(b, model).error == "contents is required"
    ensures Decode(b, model).Ok? ==>
              var r := Decode(b, model).request;
              && r.model == model && !r.stream
              && r.temperature == (if b.config.Some? then b.config.value.temperature else None)
              && r.topP == (if b.config.Some? then b.config.value.topP else None)
              && r.stop == (if b.config.Some? then b.config.value.stop else [])
              && (r.maxTokens.Some? <==> b.config.Some? && b.config.value.maxOutputTokens > 0)
              && (r.maxTokens.Some? ==> r.maxTokens.value == b.config.value.maxOutputTokens)
  {
  }

  /** What is read of every body: the system parts run together in front, and then each turn with its role
      and its non-empty parts. */
  lemma DecodesContents(b: Body, model: string, i: nat)
    requires i < |b.contents|
    ensures var ms := Decode(b, model).request.messages;
            var system, turn := if b.system.Some? then SystemText(b.system.value) else "", b.contents[i];
            && LedBy(ms, system, |b.contents|)
            && ms[Lead(system) + i] == Message(if turn.role == "model" then "assistant" else turn.role,
                                               Join(NonEmpty(turn.parts), '\n'), "")
  {
    CanonicalIsLed(if b.system.Some? then SystemText(b.system.value) else "", FromTurns(b.contents), i);
    GlueNonEmpty(b.contents[i].parts);
  }

  /** No empty text is among the non-empty ones, so gluing them is joining them. */
  lemma {:induction false} GlueNonEmpty(parts: seq<Part>)
    ensures forall t :: t in NonEmpty(parts) ==> t != ""
    ensures Glue(NonEmpty(parts)) == Join(NonEmpty(parts), '\n')
  {
    if parts != [] {
      GlueNonEmpty(Init(parts));
    }
    GlueIsJoin(NonEmpty(parts));
    assert NonEmpty(parts) != [] ==> NonEmpty(parts)[0] in NonEmpty(parts);
  }

  /** The parts are taken one by one, in order. */
  lemma {:induction false} PartByPart(a: seq<Part>, x: Part, b: seq<Part>)
    ensures SystemText(a + [x] + b) == SystemText(a) + x.text + SystemText(b) && SystemText([]) == ""
    ensures NonEmpty(a + [x] + b) == NonEmpty(a) + (if x.text != "" then [x.text] else []) + NonEmpty(b)
    ensures NonEmpty([]) == []
  {
    if b == [] {
      assert a + [x] + b == a + [x];
      InitLast(a, x);
    } else {
      var before, last := a + [x] + Init(b), Last(b);
      PartByPart(a, x, Init(b));
      assert a + [x] + b == before + [last];
      InitLast(before, last);
      AppendAssociates(SystemText(a) + x.text, SystemText(Init(b)), last.text);
      AppendAssociates(NonEmpty(a) + (if x.text != "" then [x.text] else []), NonEmpty(Init(b)),
                       if last.text == "" then [] else [last.text]);
    }
  }

  /** What is sent, for every request: each turn with the API's name for its role and one part, each system
      text as a part of its own, and the settings if there are any. */
  lemma SendsExactly(r: Request)
    ensures var b, turns, texts := ToGoogle(r), Turns(r.messages), SystemTexts(r.messages);
            && |b.contents| == |turns|
            && (forall i :: 0 <= i < |turns| ==>
                  b.contents[i] == Turn(if turns[i].role == "assistant" then "model" else turns[i].role,
                                        [Part(turns[i].content)]))
            && (b.system.Some? <==> texts != [])
            && (b.system.Some? ==>
                  |b.system.value| == |texts| && forall i :: 0 <= i < |texts| ==> b.system.value[i].text == texts[i])
    ensures var b := ToGoogle(r);
            && (b.config.None? <==> r.maxTokens.None? && r.temperature.None? && r.topP.None? && r.stop == [])
            && (b.config.Some? ==>
                  && b.config.value.temperature == r.temperature && b.config.value.topP == r.topP
                  && b.config.value.stop == r.stop
                  && b.config.value.maxOutputTokens == if r.maxTokens.Some? then r.maxTokens.value else 0)
  {
  }

  /** Assistant turns may come back under the name the API gives them. */
  function Renamed(ms: seq<Message>): seq<Message> {
    seq(|ms|, i requires 0 <= i < |ms| => ms[i].(role := FromRole(ms[i].role)))
  }

  function Canon(r: Request): Request {
    Filled(ToGoogle(r), r.model, Canonical(Concat(SystemTexts(r.messages)), Renamed(Turns(r.messages))))
  }

  lemma {:induction false} SystemTextOfParts(texts: seq<string>)
    ensures SystemText(Parts(texts)) == Concat(texts)
  {
    if texts != [] {
      SystemTextOfParts(Init(texts));
      assert Init(Parts(texts)) == Parts(Init(texts));
    }
  }

  lemma OnePart(text: string)
    ensures Glue(NonEmpty([Part(text)])) == text
  {
  }

  /** A sent request is read back as its canonical form, under the model name of the path: one leading
      system message with the system texts run together, the other turns in order with the same texts,
      and roles equal up to model/assistant. It is refused exactly when it has no turn. */
  lemma DecodeToGoogle(r: Request)
    ensures Decode(ToGoogle(r), r.model) ==
            if Turns(r.messages) == [] then Err("contents is required") else Ok(Canon(r))
  {
    var turns := Turns(r.messages);
    TurnsAreTurns(r.messages);
    SystemTextOfParts(SystemTexts(r.messages));
    forall i | 0 <= i < |turns| ensures FromTurns(ToTurns(turns))[i] == Renamed(turns)[i] {
      OnePart(turns[i].content);
      assert turns[i] in turns;
    }
    assert FromTurns(ToTurns(turns)) == Renamed(turns);
  }

  lemma {:induction false} RenamedTurns(turns: seq<Message>)
    requires SystemTexts(turns) == [] && Turns(turns) == turns
    ensures SystemTexts(Renamed(turns)) == [] && Turns(Renamed(turns)) == Renamed(turns)
    decreases |turns|
  {
    if turns != [] {
      PureTurnsInit(turns);
      RenamedTurns(Init(turns));
      RenamedInit(turns);
      var before, m := Renamed(Init(turns)), Last(Renamed(turns));
      assert Renamed(turns) == before + [m];
      InitLast(before, m);
    }
  }

  lemma RenamedInit(turns: seq<Message>)
    requires turns != [] && Last(turns).role != "system" && Last(turns).name == ""
    ensures Init(Renamed(turns)) == Renamed(Init(turns))
    ensures Last(Renamed(turns)).role != "system" && Last(Renamed(turns)).(name := "") == Last(Renamed(turns))
  {
  }

  /** The canonical form has the same system text, and its turns under their unified roles. */
  lemma CanonParts(r: Request)
    ensures Concat(SystemTexts(Canon(r).messages)) == Concat(SystemTexts(r.messages))
    ensures Turns(Canon(r).messages) == Renamed(Turns(r.messages))
  {
    var system := Concat(SystemTexts(r.messages));
    TurnsAreTurns(r.messages);
    RenamedTurns(Turns(r.messages));
    CanonicalParts(system, Renamed(Turns(r.messages)));
    ConcatOne(system);
  }

  lemma ConcatOne(s: string)
    ensures Concat([s]) == s
  {
  }

  lemma CanonIsFixed(r: Request)
    ensures Canon(Canon(r)) == Canon(r)
  {
    var c := Canon(r);
    CanonParts(r);
    assert Renamed(Renamed(Turns(r.messages))) == Renamed(Turns(r.messages));
    assert c.messages == Canonical(Concat(SystemTexts(r.messages)), Renamed(Turns(r.messages)));
    SettingsFixed(r);
  }

  /** The settings survive, except that a limit that is not positive is dropped and no stream is asked for. */
  lemma CanonKeepsSettings(r: Request)
    ensures Canon(r).model == r.model && SameSampling(Canon(r), r) && !Canon(r).stream
    ensures Canon(r).maxTokens == if r.maxTokens.Some? && r.maxTokens.value > 0 then r.maxTokens else None
  {
  }

  /** The canonical form has the same contents and system text on the wire; its body is the same exactly when
      there was at most one system text, not empty, and no limit that leaves a trace of its own. */
  lemma CanonIsSentAgain(r: Request)
    ensures ToGoogle(Canon(r)).contents == ToGoogle(r).contents
    ensures ToGoogle(Canon(r)).system ==
            if Concat(SystemTexts(r.messages)) == "" then None else Some([Part(Concat(SystemTexts(r.messages)))])
    ensures ToGoogle(Canon(r)).system == ToGoogle(r).system <==>
            SystemTexts(r.messages) == [] || (|SystemTexts(r.messages)| == 1 && SystemTexts(r.messages)[0] != "")
    ensures ToGoogle(Canon(r)).config == ToGoogle(r).config <==>
            || r.maxTokens.None? || r.maxTokens.value > 0
            || (r.maxTokens.value == 0 && (r.temperature.Some? || r.topP.Some? || r.stop != []))
  {
    CanonParts(r);
    RolesGoBack(Turns(r.messages));
    SystemSentAgain(r);
    OneSystemPart(SystemTexts(r.messages));
  }

  /** The API's names of the roles are not changed by the unification. */
  lemma RolesGoBack(turns: seq<Message>)
    ensures ToTurns(Renamed(turns)) == ToTurns(turns)
  {
  }

  lemma SystemSentAgain(r: Request)
    ensures var texts := SystemTexts(r.messages);
            ToGoogle(Canon(r)).system == if Concat(texts) == "" then None else Some([Part(Concat(texts))])
  {
    var system := Concat(SystemTexts(r.messages));
    TurnsAreTurns(r.messages);
    RenamedTurns(Turns(r.messages));
    CanonicalParts(system, Renamed(Turns(r.messages)));
    assert Parts([system]) == [Part(system)];
  }

  /** System parts run into one are the parts they were exactly when there is at most one, and it says something. */
  lemma OneSystemPart(texts: seq<string>)
    ensures (if Concat(texts) == "" then None else Some([Part(Concat(texts))])) ==
            (if texts == [] then None else Some(Parts(texts))) <==>
            texts == [] || (|texts| == 1 && texts[0] != "")
  {
    if |texts| == 1 {
      assert texts == [texts[0]];
      ConcatOne(texts[0]);
      assert Parts(texts) == [Part(texts[0])];
    } else if texts != [] {
      assert |Parts(texts)| != 1;
    }
  }

  /** The settings that come back are sent the same way again. */
  lemma SettingsFixed(r: Request)
    ensures forall ms :: Filled(ToGoogle(Canon(r)), r.model, ms) == Filled(ToGoogle(r), r.model, ms)
  {
  }

  /** A second trip changes nothing more. */
  lemma SecondTripIsIdentity(r: Request)
    requires Turns(r.messages) != []
    ensures Decode(ToGoogle(Canon(r)), r.model) == Ok(Canon(r))
  {
    CanonParts(r);
    CanonIsFixed(r);
    DecodeToGoogle(Canon(r));
  }

  /* ---------------------------------------------------------------- the model in the path */

  predicate SegmentChar(c: char) {
    'A' <= c <= 'Z' || 'a' <= c <= 'z' || '0' <= c <= '9' || c in "._~-"
  }

  predicate ValidSegment(seg: string) {
    seg != "." && seg != ".." && 1 <= |seg| <= 128 && forall c :: c in seg ==> SegmentChar(c)
  }

  predicate ValidSegments(model: string) {
    forall seg :: seg in Split(model, '/') ==> ValidSegment(seg)
  }

  /** sanitizeModelPath. */
  function SanitizeModelPath(model: string): string {
    var m := TrimSpace(model);
    if m == "" || !ValidSegments(m) then "unknown-model" else m
  }

  /** validModelPath. */
  predicate ValidModelPath(model: string) {
    Utf8Length(model) <= 512 && ValidSegments(model)
  }

  function GeneratePath(model: string): string {
    "/v1beta/models/" + (SanitizeModelPath(model) + ":generateContent")
  }

  /** strings.Index. */
  function IndexOf(s: string, q: string): Option<nat>
    decreases |s|
  {
    if q <= s then Some(0)
    else if s == "" then None
    else match IndexOf(s[1..], q)
         case Some(i) => Some(i + 1)
         case None => None
  }

  lemma {:induction false} IndexOfInside(s: string, q: string)
    ensures IndexOf(s, q).Some? ==> IndexOf(s, q).value + |q| <= |s|
  {
    if !(q <= s) && s != "" {
      IndexOfInside(s[1..], q);
    }
  }

  /** extractGeminiModel. */
  function ExtractGeminiModel(path: string): string {
    match IndexOf(path, "/models/")
    case None => ""
    case Some(i) =>
      IndexOfInside(path, "/models/");
      var rest := path[i + 8..];
      match IndexOf(rest, ":")
      case None => rest
      case Some(j) => IndexOfInside(rest, ":"); rest[..j]
  }

  /** The name the receiving handler works with; None where it refuses the path. */
  function ModelFromPath(path: string): Option<string> {
    var model := ExtractGeminiModel(path);
    if model == "" || !ValidModelPath(model) then None else Some(model)
  }

  lemma {:induction false} IndexOfFirst(head: string, c: char, tail: string)
    requires c !in head
    ensures IndexOf(head + ([c] + tail), [c]) == Some(|head|)
  {
    var s := head + ([c] + tail);
    if head == "" {
      assert [c] <= s;
    } else {
      assert s[0] == head[0] && s[0] != c;
      assert s[1..] == head[1..] + ([c] + tail);
      IndexOfFirst(head[1..], c, tail);
    }
  }

  /** The marker first occurs at position 7 of a path that starts like this. */
  lemma MarkerPosition(s: string, q: string)
    requires |s| >= 15 && q <= s[7..] && |q| >= 2 && q[0] == '/' && q[1] == 'm'
    requires s[0] == '/' && s[1] == 'v' && forall i :: 1 <= i < 7 ==> s[i] != '/'
    ensures IndexOf(s, q) == Some(7)
  {
    assert IndexOf(s[7..], q) == Some(0);
    IndexOfStep(s, q, 6);
    IndexOfStep(s, q, 5);
    IndexOfStep(s, q, 4);
    IndexOfStep(s, q, 3);
    IndexOfStep(s, q, 2);
    IndexOfStep(s, q, 1);
    IndexOfStep(s, q, 0);
    assert s[0..] == s;
  }

  lemma IndexOfStep(s: string, q: string, i: nat)
    requires i + 1 < |s| && |q| >= 2 && q[0] == '/' && q[1] == 'm'
    requires s[i] != '/' || s[i + 1] != 'm'
    requires IndexOf(s[i + 1..], q).Some?
    ensures IndexOf(s[i..], q) == Some(IndexOf(s[i + 1..], q).value + 1)
  {
  }

  lemma {:induction false} CharsOfSegments(model: string, c: char)
    requires ValidSegments(model) && c in model && c != '/'
    ensures SegmentChar(c)
  {
    CharInSomePiece(model, '/', c);
    var seg :| seg in Split(model, '/') && c in seg;
    assert ValidSegment(seg);
  }

  lemma ValidSegmentsAreClean(model: string)
    requires ValidSegments(model)
    ensures ':' !in model && (forall c :: c in model ==> !IsSpace(c)) && model != ""
  {
    forall c | c in model ensures c != ':' && !IsSpace(c) {
      if c != '/' {
        CharsOfSegments(model, c);
      }
    }
    assert Split(model, '/')[0] in Split(model, '/');
    assert ValidSegment(Split(model, '/')[0]);
  }

  lemma {:induction false} CharInSomePiece(s: string, sep: char, c: char)
    requires c in s && c != sep
    ensures exists p :: p in Split(s, sep) && c in p
  {
    var t := s[1..];
    var rest := Split(t, sep);
    assert s == [s[0]] + t;
    SplitStep(s[0], t, sep);
    if s[0] == c {
      assert c in [s[0]] + rest[0] && [s[0]] + rest[0] in Split(s, sep);
    } else {
      CharInSomePiece(t, sep, c);
      var p :| p in rest && c in p;
      if s[0] == sep {
        assert p in Split(s, sep);
      } else if p == rest[0] {
        assert c in [s[0]] + rest[0] && [s[0]] + rest[0] in Split(s, sep);
      } else {
        assert p in rest[1..] && p in Split(s, sep);
      }
    }
  }

  /** A model name reaches a Gemini-speaking peer unchanged exactly when the peer's own rule accepts it:
      dot- and slash-safe segments, and at most 512 bytes. */
  lemma ModelSurvivesPathExactly(model: string)
    ensures ModelFromPath(GeneratePath(model)) == Some(model) <==> ValidModelPath(model)
  {
    var m := SanitizeModelPath(model);
    SanitizedIsValid(model);
    ExtractFromGenerated(m);
    ValidSegmentsAreClean(m);
    if ValidModelPath(model) {
      ValidSegmentsAreClean(model);
      TrimSpaceKeepsClean(model);
    }
  }

  lemma ExtractFromGenerated(m: string)
    requires ValidSegments(m)
    ensures ExtractGeminiModel("/v1beta/models/" + (m + ":generateContent")) == m
  {
    var rest := m + ":generateContent";
    var path := "/v1beta/models/" + rest;
    ValidSegmentsAreClean(m);
    assert path[7..] == "/models/" + rest;
    MarkerPosition(path, "/models/");
    assert path[15..] == rest;
    assert ":generateContent" == [':'] + "generateContent";
    assert rest == m + ([':'] + "generateContent");
    IndexOfFirst(m, ':', "generateContent");
  }

  lemma SanitizedIsValid(model: string)
    ensures ValidSegments(SanitizeModelPath(model))
  {
    OneSegment("unknown-model");
  }

  lemma OneSegment(s: string)
    requires ValidSegment(s) && '/' !in s
    ensures ValidSegments(s)
  {
    SplitWithoutSeparator(s, '/');
  }

  /* ---------------------------------------------------------------- responses */

  datatype Reply = Reply(candidate: Option<(seq<Part>, string)>, promptTokens: int, candidateTokens: int)

  function EncodeChat(r: Response): Reply {
    Reply(Some(([Part(if r.choices == [] then "" else r.choices[0].message.content)],
                if r.choices != [] && r.choices[0].finish == "length" then "MAX_TOKENS" else "STOP")),
          r.usage.prompt, r.usage.completion)
  }

  function LowerAll(s: string): string {
    seq(|s|, i requires 0 <= i < |s| => if 'A' <= s[i] <= 'Z' then (s[i] as int + 32) as char else s[i])
  }

  function PartTexts(parts: seq<Part>): seq<string> {
    seq(|parts|, i requires 0 <= i < |parts| => parts[i].text)
  }

  function FromGoogle(g: Reply, model: string): Response {
    Response("", model,
             [Choice(Message("assistant", if g.candidate == None then "" else Glue(PartTexts(g.candidate.value.0)), ""),
                     if g.candidate == None then "stop"
                     else match g.candidate.value.1
                          case "MAX_TOKENS" => "length"
                          case "STOP" => "stop"
                          case "" => "stop"
                          case other => LowerAll(other))],
             Usage(g.promptTokens, g.candidateTokens, g.promptTokens + g.candidateTokens))
  }

  /** What comes back of any response: the first choice's text, cut off or stopped, under the model asked for
      and with the total added up. */
  lemma ResponseComesBack(r: Response, model: string)
    ensures var back := FromGoogle(EncodeChat(r), model);
            && back.id == "" && back.model == model && |back.choices| == 1
            && back.usage == Usage(r.usage.prompt, r.usage.completion, r.usage.prompt + r.usage.completion)
            && back.choices[0].message.role == "assistant"
            && back.choices[0].message.content == (if r.choices == [] then "" else r.choices[0].message.content)
            && back.choices[0].finish ==
               if r.choices != [] && r.choices[0].finish == "length" then "length" else "stop"
  {
    var text := if r.choices == [] then "" else r.choices[0].message.content;
    assert EncodeChat(r).candidate.value.0 == [Part(text)];
    assert PartTexts([Part(text)]) == [text];
    assert Glue([text]) == text by {
      assert Init([text]) == [];
    }
  }

  /** The text of any reply: the parts of its first candidate, joined with newlines. */
  lemma ReplyText(g: Reply, model: string)
    ensures |FromGoogle(g, model).choices| == 1
    ensures FromGoogle(g, model).choices[0].message.content ==
            if g.candidate == None then "" else Join(FromFirstText(PartTexts(g.candidate.value.0)), '\n')
  {
    if g.candidate != None {
      GlueIsJoin(PartTexts(g.candidate.value.0));
    }
  }

  /** A one-choice answer survives exactly when it has no id, stopped or ran into the limit, and its
      total is the sum of its parts; its text always does. */
  lemma ResponseSurvivesExactly(id: string, model: string, text: string, finish: string, usage: Usage)
    ensures var r := Response(id, model, [Choice(Message("assistant", text, ""), finish)], usage);
            FromGoogle(EncodeChat(r), model) == r <==>
              id == "" && finish in {"stop", "length"} && usage.total == usage.prompt + usage.completion
    ensures var r := Response(id, model, [Choice(Message("assistant", text, ""), finish)], usage);
            FromGoogle(EncodeChat(r), model).choices[0].message.content == text
  {
    var r := Response(id, model, [Choice(Message("assistant", text, ""), finish)], usage);
    assert PartTexts([Part(text)]) == [text];
    assert Glue([text]) == text by {
      assert Init([text]) == [];
    }
    assert EncodeChat(r).candidate.value.0 == [Part(text)];
  }
}
