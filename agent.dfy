/**
 * `WeatherAgent.get_response`: the choice between small talk and a weather query, the
 * default city, the weather lookup with its failure path, the defensive extraction of
 * the provider's fields, the last-six-turns context and the `tools_used` bookkeeping.
 *
 * The weather provider and the text generator are oracles passed in as functions: the
 * lookup of a city gives the decoded body or an error text, generation of a prompt
 * gives the reply or the text of the exception it raised.
 */
module WeatherAgent {
  import opened Wrappers
  import opened Text
  import opened Json
  import opened CityExtraction

  datatype Role = User | Assistant

  /** One entry of a conversation history: `{"role": ..., "content": ...}`. */
  datatype Turn = Turn(role: Role, content: string)

  /** `role.title()` for the two roles the service stores. */
  function RoleTitle(r: Role): string {
    match r
    case User => "User"
    case Assistant => "Assistant"
  }

  // ------------------------- Small talk -------------------------

  const GreetingKeywords: seq<string> :=
    ["hello", "hi", "hey", "how are you", "good morning", "good evening"]

  /** The greeting test: some keyword occurs anywhere in the lower-cased message. */
  predicate IsSmallTalk(message: string) {
    exists k :: 0 <= k < |GreetingKeywords| && Contains(Lower(message), GreetingKeywords[k])
  }

  /**
   * Any piece of the message that lower-cases to a keyword makes it small talk, even
   * inside a word: "Hey there!" does, and so does "weather in Chicago" (it holds "hi").
   */
  lemma {:induction false} KeywordAnywhereIsSmallTalk(a: string, w: string, b: string)
    requires Lower(w) in GreetingKeywords
    ensures IsSmallTalk(a + w + b)
  {
    LowerAppend(a + w, b);
    LowerAppend(a, w);
    ContainsAt(Lower(a), Lower(w), Lower(b));
    var k :| 0 <= k < |GreetingKeywords| && GreetingKeywords[k] == Lower(w);
    assert Contains(Lower(a + w + b), GreetingKeywords[k]);
  }

  /** A city whose name holds "hi" is taken for a greeting: no weather lookup follows. */
  lemma ChicagoIsSmallTalk(m: string)
    requires m == "weather in Chicago"
    ensures IsSmallTalk(m)
  {
    assert m == "weather in C" + "hi" + "cago";
    assert Lower("hi") == GreetingKeywords[1];
    KeywordAnywhereIsSmallTalk("weather in C", "hi", "cago");
  }

  /** Conversely, a small-talk message holds a keyword at some position of its lower case. */
  lemma SmallTalkKeyword(message: string) returns (k: nat, i: nat)
    requires IsSmallTalk(message)
    ensures k < |GreetingKeywords| && i + |GreetingKeywords[k]| <= |Lower(message)|
    ensures Lower(message)[i..i + |GreetingKeywords[k]|] == GreetingKeywords[k]
  {
    k :| 0 <= k < |GreetingKeywords| && Contains(Lower(message), GreetingKeywords[k]);
    i := ContainsWitness(Lower(message), GreetingKeywords[k]);
  }

  // ------------------------- Context -------------------------

  /** How many history entries a prompt quotes. */
  const ContextTurns := 6

  /** `f"{m['role'].title()}: {m['content']}"`. */
  function ContextLine(t: Turn): string {
    RoleTitle(t.role) + ": " + t.content
  }

  /** The lines quoted in a prompt: one per entry of `history[-6:]`, oldest first. */
  function ContextLines(history: seq<Turn>): (lines: seq<string>)
    ensures |lines| == (if |history| < ContextTurns then |history| else ContextTurns)
    ensures forall i :: 0 <= i < |lines| ==> lines[i] == ContextLine(history[|history| - |lines| + i])
  {
    var recent := LastN(history, ContextTurns);
    seq(|recent|, i requires 0 <= i < |recent| => ContextLine(recent[i]))
  }

  /** `"\n".join(...)` of those lines. */
  function Context(history: seq<Turn>): string {
    Join("\n", ContextLines(history))
  }

  /**
   * Reading the context back: when no message holds a line break, splitting the
   * context at line breaks gives one `Role: content` line for each of the last six
   * entries (all of them when there are fewer), oldest first.
   */
  lemma ContextUsesLastSix(history: seq<Turn>)
    requires history != []
    requires forall k, i :: 0 <= k < |history| && 0 <= i < |history[k].content| ==> history[k].content[i] != '\n'
    ensures var lines := Split(Context(history), '\n');
      && |lines| == (if |history| < 6 then |history| else 6)
      && forall i :: 0 <= i < |lines| ==> lines[i] == ContextLine(history[|history| - |lines| + i])
  {
    var lines := ContextLines(history);
    forall k | 0 <= k < |lines|
      ensures forall i :: 0 <= i < |lines[k]| ==> lines[k][i] != '\n'
    {
      LineHasNoBreak(history[|history| - |lines| + k]);
    }
    SplitJoin(lines, '\n');
    assert "\n" == ['\n'];
  }

  /** A rendered line breaks only where its message does. */
  lemma LineHasNoBreak(t: Turn)
    requires forall i :: 0 <= i < |t.content| ==> t.content[i] != '\n'
    ensures forall i :: 0 <= i < |ContextLine(t)| ==> ContextLine(t)[i] != '\n'
  {
    var title := RoleTitle(t.role);
    forall i | 0 <= i < |ContextLine(t)|
      ensures ContextLine(t)[i] != '\n'
    {
      if i >= |title| + 2 {
        assert ContextLine(t)[i] == t.content[i - |title| - 2];
      }
    }
  }

  // ------------------------- City -------------------------

  const DefaultCity := "New York"

  /** `_extract_city(message) or "New York"`: the one city the weather branch looks up. */
  function LookupCity(message: string): (city: string)
    ensures city != [] && !IsTrimChar(city[0]) && !IsTrimChar(city[|city| - 1])
    ensures city == DefaultCity <==> ExtractCity(message) == None || ExtractCity(message) == Some(DefaultCity)
    ensures ExtractCity(message).Some? ==> city == ExtractCity(message).value
  {
    match ExtractCity(message)
    case Some(c) => c
    case None => DefaultCity
  }

  // ------------------------- Weather fields -------------------------

  /** The weather summary the agent builds from the provider's body. */
  datatype Snapshot = Snapshot(
    city: Json,
    country: Json,
    description: string,
    temperature: Json,
    feelsLike: Json,
    humidity: Json,
    windSpeed: Json,
    time: Json)

  const NA := JStr("N/A")

  /** What the `except` branch assigns: the looked-up city and sentinels everywhere else. */
  function Fallback(city: string): Snapshot {
    Snapshot(JStr(city), JStr(""), "N/A", NA, NA, NA, NA, JNull)
  }

  /** `weather_list[0]`: the first entry of a non-empty `weather` list, and `{}` otherwise. */
  function WeatherSection(members: seq<(string, Json)>): Json {
    match Member(members, "weather")
    case Some(JArr(items)) => if items != [] then items[0] else JObj([])
    case _ => JObj([])
  }

  /** `data.get(key) or {}` is `v`: the value sent under `key` when it is true, `{}` otherwise. */
  predicate SectionIs(members: seq<(string, Json)>, key: string, v: Json) {
    match Member(members, key)
    case Some(x) => if Falsy(x) then v == JObj([]) else v == x
    case None => v == JObj([])
  }

  /** Calling `.get` on `data.get(key)` raises: a true value that is not a dict was sent. */
  predicate RaisesOn(members: seq<(string, Json)>, key: string) {
    Member(members, key).Some? && !Falsy(Member(members, key).value) && !Member(members, key).value.JObj?
  }

  /**
   * The four objects the extraction reads from, or None when reading them raises: the
   * body is not a dict, `weather[0]` is not a dict, or `main`, `wind` or `sys` is a true
   * value that is not a dict. A false value is replaced by `{}` (by `[{}]` for `weather`), and a
   * `weather` that is not a list gives `{}`.
   */
  function Sections(data: Json): (r: Option<(Json, Json, Json, Json)>)
    ensures r.Some? ==> data.JObj? && r.value.0.JObj? && r.value.1.JObj? && r.value.2.JObj? && r.value.3.JObj?
  {
    if !data.JObj? then None
    else
      var m := data.members;
      var weatherList := Or(Get(m, "weather", JNull), JArr([JObj([])]));
      var weather := if weatherList.JArr? then weatherList.items[0] else JObj([]);
      var main := Or(Get(m, "main", JNull), JObj([]));
      var wind := Or(Get(m, "wind", JNull), JObj([]));
      var sys := Or(Get(m, "sys", JNull), JObj([]));
      if weather.JObj? && main.JObj? && wind.JObj? && sys.JObj? then Some((weather, main, wind, sys))
      else None
  }

  /**
   * What `Sections` reads: `weather[0]` (or `{}`), and `main`, `wind` and `sys` when
   * they are true values (`{}` otherwise). Reading raises exactly when the body is not
   * a dict, `weather[0]` is not a dict, or `main`, `wind` or `sys` is a true value that
   * is not a dict.
   */
  lemma SectionsRead(data: Json)
    ensures var r := Sections(data);
      r.Some? ==> && r.value.0 == WeatherSection(data.members)
                  && SectionIs(data.members, "main", r.value.1)
                  && SectionIs(data.members, "wind", r.value.2)
                  && SectionIs(data.members, "sys", r.value.3)
    ensures !data.JObj? ==> Sections(data).None?
    ensures data.JObj? ==>
      (Sections(data).None? <==> || !WeatherSection(data.members).JObj?
                                 || RaisesOn(data.members, "main")
                                 || RaisesOn(data.members, "wind")
                                 || RaisesOn(data.members, "sys"))
  {
  }

  /** The `try`/`except` block that turns the provider's body into a summary. */
  function ExtractFields(data: Json, city: string): (s: Snapshot)
    ensures s.city == JStr(city) || !Falsy(s.city)
  {
    match Sections(data)
    case None => Fallback(city)
    case Some((weather, main, wind, sys)) =>
      var m := data.members;
      Snapshot(
        Or(Get(m, "name", JNull), JStr(city)),
        Get(sys.members, "country", JStr("")),
        Capitalize(Show(Get(weather.members, "description", NA))),
        Get(main.members, "temp", NA),
        Get(main.members, "feels_like", NA),
        Get(main.members, "humidity", NA),
        Get(wind.members, "speed", NA),
        Get(m, "dt", JNull))
  }

  /** `data[outer][inner]`, when `data` and `data[outer]` are objects holding those keys. */
  function Path(data: Json, outer: string, inner: string): (r: Option<Json>)
    ensures r.Some? ==> data.JObj? && Member(data.members, outer).Some?
  {
    if !data.JObj? then None
    else match Member(data.members, outer)
      case Some(JObj(section)) => Member(section, inner)
      case _ => None
  }

  /** `data["weather"][0][key]`, when that path exists through a list and objects. */
  function FirstWeather(data: Json, key: string): Option<Json> {
    if !data.JObj? then None
    else match Member(data.members, "weather")
      case Some(JArr(items)) =>
        if items != [] && items[0].JObj? then Member(items[0].members, key) else None
      case _ => None
  }

  /**
   * Missing fields never fail the request. The name and the time are the provider's
   * values or their sentinels (the looked-up city, None); a missing one is the sentinel.
   */
  lemma TopFieldsAreSentinels(data: Json, city: string)
    ensures var s := ExtractFields(data, city);
      && (s.time == JNull || (data.JObj? && Member(data.members, "dt") == Some(s.time)))
      && (s.city == JStr(city) || (data.JObj? && Member(data.members, "name") == Some(s.city) && !Falsy(s.city)))
  {
  }

  /** Without `weather[0]["description"]` the description is the sentinel. */
  lemma DescriptionSentinel(data: Json, city: string)
    requires FirstWeather(data, "description").None?
    ensures Sections(data).Some? ==> ExtractFields(data, city).description == "N/a"
    ensures Sections(data).None? ==> ExtractFields(data, city).description == "N/A"
  {
    if Sections(data).Some? {
      WeatherDescriptionMissing(data);
      assert Show(NA) == "N/A";
      assert Capitalize("N/A") == "N/a";
    }
  }

  /**
   * The fields read from `main`, `wind` and `sys` are each the provider's value at its
   * path or the sentinel ("N/A", "" for the country); a missing one is the sentinel.
   */
  lemma SectionFieldsAreSentinels(data: Json, city: string)
    ensures var s := ExtractFields(data, city);
      && (s.temperature == NA || Path(data, "main", "temp") == Some(s.temperature))
      && (s.feelsLike == NA || Path(data, "main", "feels_like") == Some(s.feelsLike))
      && (s.humidity == NA || Path(data, "main", "humidity") == Some(s.humidity))
      && (s.windSpeed == NA || Path(data, "wind", "speed") == Some(s.windSpeed))
      && (s.country == JStr("") || Path(data, "sys", "country") == Some(s.country))
  {
    match Sections(data)
    case None =>
    case Some((weather, main, wind, sys)) =>
      var m := data.members;
      SectionValue(m, "main", main, "temp", NA);
      SectionValue(m, "main", main, "feels_like", NA);
      SectionValue(m, "main", main, "humidity", NA);
      SectionValue(m, "wind", wind, "speed", NA);
      SectionValue(m, "sys", sys, "country", JStr(""));
  }

  /** A value read from a section that `Sections` replaced or kept. */
  lemma SectionValue(m: seq<(string, Json)>, outer: string, section: Json, inner: string, default: Json)
    requires section == Or(Get(m, outer, JNull), JObj([])) && section.JObj?
    ensures var v := Get(section.members, inner, default);
      v == default || Path(JObj(m), outer, inner) == Some(v)
  {
  }

  lemma WeatherDescriptionMissing(data: Json)
    requires Sections(data).Some? && FirstWeather(data, "description").None?
    ensures Member(Sections(data).value.0.members, "description").None?
  {
  }

  /**
   * Conversely, a well-formed body's values are used as they are: when no section
   * raises, every field the provider sent is the one reported.
   */
  lemma ProviderValuesAreUsed(data: Json, city: string)
    requires Sections(data).Some?
    ensures var s := ExtractFields(data, city);
      && (forall v :: Path(data, "main", "temp") == Some(v) ==> s.temperature == v)
      && (forall v :: Path(data, "main", "feels_like") == Some(v) ==> s.feelsLike == v)
      && (forall v :: Path(data, "main", "humidity") == Some(v) ==> s.humidity == v)
      && (forall v :: Path(data, "wind", "speed") == Some(v) ==> s.windSpeed == v)
      && (forall v :: Path(data, "sys", "country") == Some(v) ==> s.country == v)
      && (forall v :: FirstWeather(data, "description") == Some(v) ==> s.description == Capitalize(Show(v)))
      && (forall v :: Member(data.members, "name") == Some(v) && !Falsy(v) ==> s.city == v)
      && (forall v :: Member(data.members, "dt") == Some(v) ==> s.time == v)
  {
    MeasurementsAreUsed(data, city);
    TopValuesAreUsed(data, city);
  }

  // The section readings of `ProviderValuesAreUsed`, proved on their own.
  lemma MeasurementsAreUsed(data: Json, city: string)
    requires Sections(data).Some?
    ensures var s := ExtractFields(data, city);
      && (forall v :: Path(data, "main", "temp") == Some(v) ==> s.temperature == v)
      && (forall v :: Path(data, "main", "feels_like") == Some(v) ==> s.feelsLike == v)
      && (forall v :: Path(data, "main", "humidity") == Some(v) ==> s.humidity == v)
      && (forall v :: Path(data, "wind", "speed") == Some(v) ==> s.windSpeed == v)
      && (forall v :: Path(data, "sys", "country") == Some(v) ==> s.country == v)
  {
  }

  // The description, name and time readings of `ProviderValuesAreUsed`, proved on their own.
  lemma TopValuesAreUsed(data: Json, city: string)
    requires Sections(data).Some?
    ensures var s := ExtractFields(data, city);
      && (forall v :: FirstWeather(data, "description") == Some(v) ==> s.description == Capitalize(Show(v)))
      && (forall v :: Member(data.members, "name") == Some(v) && !Falsy(v) ==> s.city == v)
      && (forall v :: Member(data.members, "dt") == Some(v) ==> s.time == v)
  {
  }

  /** A body that is not a dict, or is one whose sections do not fit, gives the fallback. */
  lemma MalformedBodyFallsBack(data: Json, city: string)
    requires Sections(data).None?
    ensures ExtractFields(data, city) == Snapshot(JStr(city), JStr(""), "N/A", NA, NA, NA, NA, JNull)
  {
  }

  // ------------------------- Replies -------------------------

  /** What the generator is asked; its wording and `json.dumps` layout are not modelled. */
  datatype Prompt =
    | SmallTalkPrompt(context: string, message: string)
    | LookupFailedPrompt(message: string, error: string)
    | WeatherPrompt(context: string, message: string, snapshot: Snapshot)

  /** A call the agent makes to one of its two oracles. */
  datatype Call = Lookup(city: string) | Generate(prompt: Prompt)

  /** `{"response": ..., "tools_used": [...]}`. */
  datatype AgentResult = AgentResult(response: string, toolsUsed: seq<string>)

  /** The lookup failed: an error came back, or the body is empty (`not weather_data`). */
  predicate LookupFailed(outcome: Result<Json>) {
    outcome.Err? || Falsy(outcome.value)
  }

  /** `str(weather_err)`: the error text, or "None" when only the body was empty. */
  function LookupError(outcome: Result<Json>): string {
    if outcome.Err? then outcome.error else "None"
  }

  /**
   * The reply when generation raises in the weather branch: the f-string
   * `f"The weather in {name}: {desc}, {temp}\U{B0}C (Gemini error: {e})"` as the join of its pieces.
   */
  function FallbackReply(s: Snapshot, e: string): string {
    Join("", ["The weather in ", Show(s.city), ": ", s.description, ", ", Show(s.temperature),
              "\U{B0}C (Gemini error: ", e, ")"])
  }

  /** Even without the generator, the weather reply names the city, the sky and the temperature. */
  lemma FallbackReplyMentions(s: Snapshot, e: string)
    ensures Contains(FallbackReply(s, e), Show(s.city))
    ensures Contains(FallbackReply(s, e), s.description)
    ensures Contains(FallbackReply(s, e), Show(s.temperature))
    ensures Contains(FallbackReply(s, e), e)
  {
    var parts := ["The weather in ", Show(s.city), ": ", s.description, ", ", Show(s.temperature),
                  "\U{B0}C (Gemini error: ", e, ")"];
    JoinContainsPart("", parts, 1);
    JoinContainsPart("", parts, 3);
    JoinContainsPart("", parts, 5);
    JoinContainsPart("", parts, 7);
  }

  /** The weather reply opens with the city's name. */
  lemma FallbackReplyStart(s: Snapshot, e: string)
    ensures "The weather in " + Show(s.city) <= FallbackReply(s, e)
  {
    var parts := ["The weather in ", Show(s.city), ": ", s.description, ", ", Show(s.temperature),
                  "\U{B0}C (Gemini error: ", e, ")"];
    var rest := Join("", parts[2..]);
    assert parts[1..][1..] == parts[2..];
    assert Join("", parts) == "The weather in " + "" + (Show(s.city) + "" + rest);
    assert Join("", parts) == "The weather in " + Show(s.city) + rest;
  }

  /** The reply when generation raises in the small-talk branch. */
  function GreetingReply(e: string): string {
    "Hello! (Gemini error: " + e + ")"
  }

  /** The reply when generation raises after a failed lookup. */
  function ApologyReply(e: string): string {
    "Sorry, " + "I couldn\U{2019}t fetch the weather." + " (Gemini error: " + e + ")"
  }

  /**
   * The reply that replaces a failed generation, for each kind of prompt: a greeting, an
   * apology or the weather in brief, each showing the error text.
   */
  function GenerationFailedReply(p: Prompt, e: string): (r: string)
    ensures Contains(r, e)
    ensures p.SmallTalkPrompt? ==> "Hello!" <= r
    ensures p.LookupFailedPrompt? ==> "Sorry" <= r
    ensures p.WeatherPrompt? ==> "The weather in " + Show(p.snapshot.city) <= r
  {
    match p
    case SmallTalkPrompt(_, _) =>
      ContainsAt("Hello! (Gemini error: ", e, ")");
      GreetingReply(e)
    case LookupFailedPrompt(_, _) =>
      ContainsAt("Sorry, " + "I couldn\U{2019}t fetch the weather." + " (Gemini error: ", e, ")");
      ApologyReply(e)
    case WeatherPrompt(_, _, s) =>
      FallbackReplyMentions(s, e);
      FallbackReplyStart(s, e);
      FallbackReply(s, e)
  }

  /**
   * The reply to prompt `p`: the generated text unchanged, or, when generation raised,
   * a reply that still shows the error text to the user.
   */
  function Reply(p: Prompt, generated: Result<string>): (r: string)
    ensures generated.Ok? ==> r == generated.value
    ensures generated.Err? ==> Contains(r, generated.error)
  {
    match generated
    case Ok(text) => text
    case Err(e) => GenerationFailedReply(p, e)
  }

  // ------------------------- get_response -------------------------

  /**
   * `get_response(message, history)`. Besides the result, `calls` lists the oracle
   * calls in the order they are made.
   */
  method GetResponse(message: string, history: seq<Turn>,
                     lookup: string -> Result<Json>, generate: Prompt -> Result<string>)
    returns (result: AgentResult, calls: seq<Call>)
    ensures IsSmallTalk(message) ==>
      && calls == [Generate(SmallTalkPrompt(Context(history), message))]
      && result.toolsUsed == ["Gemini"]
    ensures !IsSmallTalk(message) ==>
      var city := LookupCity(message);
      var outcome := lookup(city);
      && |calls| == 2 && calls[0] == Lookup(city)
      && (LookupFailed(outcome) ==>
            calls[1] == Generate(LookupFailedPrompt(message, LookupError(outcome)))
            && result.toolsUsed == ["Gemini"])
      && (!LookupFailed(outcome) ==>
            calls[1] == Generate(WeatherPrompt(Context(history), message, ExtractFields(outcome.value, city)))
            && result.toolsUsed == ["OpenWeather", "Gemini"])
    ensures calls != [] && calls[|calls| - 1].Generate?
    ensures result.response == Reply(calls[|calls| - 1].prompt, generate(calls[|calls| - 1].prompt))
    ensures result.toolsUsed[|result.toolsUsed| - 1] == "Gemini"
  {
    var toolsUsed: seq<string> := [];
    calls := [];

    if IsSmallTalk(message) {
      toolsUsed := toolsUsed + ["Gemini"];
      var prompt := SmallTalkPrompt(Context(history), message);
      calls := calls + [Generate(prompt)];
      var reply := Reply(prompt, generate(prompt));
      return AgentResult(reply, toolsUsed), calls;
    }

    var city := LookupCity(message);
    calls := calls + [Lookup(city)];
    var outcome := lookup(city);

    if LookupFailed(outcome) {
      toolsUsed := toolsUsed + ["Gemini"];
      var prompt := LookupFailedPrompt(message, LookupError(outcome));
      calls := calls + [Generate(prompt)];
      var reply := Reply(prompt, generate(prompt));
      return AgentResult(reply, toolsUsed), calls;
    }

    var snapshot := ExtractFields(outcome.value, city);
    toolsUsed := toolsUsed + ["OpenWeather", "Gemini"];
    var prompt := WeatherPrompt(Context(history), message, snapshot);
    calls := calls + [Generate(prompt)];
    var reply := Reply(prompt, generate(prompt));
    result := AgentResult(reply, toolsUsed);
  }
}
