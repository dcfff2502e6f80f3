# Weather chat service: city extraction, reply dispatch and session store

This project models the core of a small conversational weather assistant in Dafny and
proves properties of the model. The assistant does three things:

- It reads a free-text chat message and heuristically extracts a city name. This is
  `WeatherAgent._extract_city`.
- It chooses between a small-talk reply and a weather reply, looks the city up with a
  weather provider, extracts the provider's fields defensively and asks a text generator
  to compose the answer. This is `WeatherAgent.get_response`.
- It keeps a short per-session conversation history in memory. These are the
  `conversations` dict and the `chat` and `clear_history` handlers.

Files:

- `wrappers.dfy`: `Option` and `Result`.
- `text.dfy`: the Python string operations the code relies on.
  - `str.isspace`, `strip(chars)`, `lower()` and `capitalize()`.
  - The `in` substring test.
  - `split(...)[-1]`, `"\n".join` and `xs[-n:]`.
- `json.dfy`: the decoded JSON body of the weather provider.
  - Python truthiness of a value.
  - `dict.get`, which returns the last binding of a repeated key.
  - `str()` and `repr()` of a value.
- `city.dfy`: `_extract_city`.
  - The regular expression `\bin\s+([A-Za-z\s\-\.\,']+)$` is modelled by hand, with
    `re.IGNORECASE` and the leftmost-match semantics of `re.search`.
  - The comma rule and the last-word rule follow it.
- `agent.dfy`: `get_response` as a method.
  - The weather lookup and the text generator are oracle parameters. Each returns a
    `Result`.
  - The method also returns the trace of oracle calls it made.
- `sessions.dfy`: the session store.
  - It is a class whose field `conversations` maps session ids to histories.
  - The `/chat` and `/chat/history/{id}` handlers are its methods.

Behaviours of the code worth knowing:

- Rule 1 of the city heuristic does not fall through when the trimmed capture is empty.
  The code returns `None` at once (agents/weather_agent.py:35).
- With several "in" clauses the first qualifying one wins, because `re.search` is
  leftmost. So "rain in Paris in spring" yields "Paris in spring".
- `?` is not in the trim set and not in the capture class. So "weather in San
  Francisco?" fails rule 1 and yields "Francisco?" by the last-word rule.
- A missing description is `"N/A".capitalize()`, i.e. `"N/a"`, on the normal path.
  Only the `except` path gives `"N/A"`.
- A body without `main` or `weather` is not a lookup error. Those fields become
  sentinels.
- The greeting test is a plain substring test on the lower-cased message. So "weather in
  Chicago" counts as small talk, because it contains "hi".

## Model

| member | source | states |
|---|---|---|
| CityExtraction.MatchesAtIsPattern | agents/weather_agent.py:32 | `MatchesAt` holds exactly when `\bin`, a non-empty whitespace run and a non-empty run of class characters reach the end of the message; group 1 starts at the latest such split (greedy `\s+`) |
| CityExtraction.FirstMatch | agents/weather_agent.py:32 | `re.search` is leftmost: a returned position matches and no earlier position does; None means no position matches |
| CityExtraction.ExtractCity | agents/weather_agent.py:23-50 | a returned city is never empty and neither starts nor ends with space, `.`, `,` or `'` |
| CityExtraction.TrailingInClauseWins | agents/weather_agent.py:32-35 | when the pattern matches, the leftmost match decides: the stripped capture, or None when stripping leaves nothing; the comma and last-word rules are not tried |
| CityExtraction.LaterInIsInsideCapture | agents/weather_agent.py:32 | any later matching "in" lies inside the group captured for the earlier one |
| CityExtraction.LeftmostInExample | agents/weather_agent.py:32-35 | "rain in Paris in spring" yields "Paris in spring" |
| CityExtraction.NoInNoMatch | agents/weather_agent.py:32 | a message with no "in" (any letter case) never matches the pattern |
| CityExtraction.TrailingPunctuationDefeatsPattern | agents/weather_agent.py:32 | a message whose last character is outside the capture class (such as `?`) never matches, because of the `$` anchor |
| CityExtraction.QuestionExample | agents/weather_agent.py:29-48 | "weather in San Francisco?" yields "Francisco?": rule 1 fails, there is no comma, and the last word is kept with its `?` |
| CityExtraction.CommaRule | agents/weather_agent.py:38-41 | with no match and a comma present, a non-empty stripped text after the last comma is the city; when it is empty the last-word rule decides |
| CityExtraction.CommaTail | agents/weather_agent.py:39 | the comma candidate of "<anything>, <city>" is the city, when the city has no comma and does not start or end with a trim character |
| CityExtraction.CommaMessage | agents/weather_agent.py:29-41 | a stripped message "<text>, <city>" without a matching "in" yields the city, when the city has no comma and no trim character at either end |
| CityExtraction.CommaExample | agents/weather_agent.py:38-41 | "Paris, France" yields "France" |
| CityExtraction.LastWordRule | agents/weather_agent.py:44-48 | the last-word rule gives None exactly when the stripped last token is empty or lower-cases to "weather" or "forecast"; otherwise it gives exactly that stripped token, which is not empty and has no trim character at either end |
| CityExtraction.LastWordTail | agents/weather_agent.py:44-46 | the last-word candidate of "<text> <word>" is the word, when the word holds no whitespace and no trim character at either end |
| CityExtraction.LastWordMessage | agents/weather_agent.py:29-48 | a stripped message "<text> <word>" with no match and no comma yields its last word, unless that word is a query word |
| CityExtraction.LastWordIsNotQueryWord | agents/weather_agent.py:44-50 | when rules 1 and 2 give nothing, the result is the last-word rule's, and it is never "weather" or "forecast" in any letter case |
| CityExtraction.LongWordIsNotQueryWord | agents/weather_agent.py:47 | a token longer than eight characters is never a refused query word |
| CityExtraction.BlankMessageHasNoCity | agents/weather_agent.py:29-50 | an empty or whitespace-only message yields None |
| Text.FirstKept | agents/weather_agent.py:29 | the scan `lstrip` makes: it stops at the first character not in the strip set, or at the end, and every character it passed over is in the set |
| Text.LastKept | agents/weather_agent.py:29 | the scan `rstrip` makes: it stops just past the last character not in the strip set, or at the start, and every character it passed over is in the set |
| Text.TrimBounds | agents/weather_agent.py:34 | `strip(chars)` keeps a contiguous piece after a stripped prefix and before a stripped suffix; that piece has no stripped character at either end |
| Text.TrimEmpty | agents/weather_agent.py:34-35 | `strip(chars)` leaves nothing exactly when every character is in the strip set |
| Text.TrimLeading | agents/weather_agent.py:39 | a leading character from the strip set does not change what `strip(chars)` returns |
| Text.LastN | main.py:57 | `xs[-n:]` has `min(len(xs), n)` elements: all of `xs` when it is no longer than `n`, and otherwise the last `n` elements of `xs` in order |
| Text.Lower | agents/weather_agent.py:83 | `lower()` leaves no ASCII capital; the result is at least as long as the input and at most twice as long |
| Text.LowerAppend | agents/weather_agent.py:83 | `lower()` of a concatenation is the concatenation of the lower-cased pieces |
| Text.Capitalize | agents/weather_agent.py:128 | `capitalize()` is empty exactly when its input is; its first character is no ASCII small letter and no later character is an ASCII capital |
| Text.AfterLast | agents/weather_agent.py:39 | `split(",")[-1]` is the suffix after the last separator, or the whole string without one, and holds no separator |
| Text.ContainsWitness | agents/weather_agent.py:83 | `sub in s` names a position where `sub` occurs in `s` |
| Text.SplitJoin | agents/weather_agent.py:85 | splitting a `"\n".join` of line-break-free parts gives the parts back |
| Json.Member | agents/weather_agent.py:120 | `dict.get` finds None exactly when no member has the key; otherwise it finds the value of the key's last binding, after which no member has the key |
| Json.Or | agents/weather_agent.py:120-125 | `value or fallback` is one of its two operands; a true value is kept; with a true fallback the result is true |
| Json.Show | agents/weather_agent.py:128 | `str()` of a string is the string itself; of None, a bool, a list or a dict it is never empty |
| Json.Repr | agents/weather_agent.py:166 | `repr()` is never empty except for a number's own text; a string is shown between single quotes with its characters in order |
| Json.Keys | agents/weather_agent.py:120 | the keys of the dict `json.loads` builds: exactly the keys bound in the object, each once |
| Json.RepeatedKeyShownOnce | agents/weather_agent.py:128 | `repr()` of the decoded `{"a": 1, "a": 2}` is `{'a': 2}`: a repeated key is shown once, with its last value |
| WeatherAgent.KeywordAnywhereIsSmallTalk | agents/weather_agent.py:83 | any piece of a message that lower-cases to a greeting keyword makes the message small talk, even inside a word |
| WeatherAgent.ChicagoIsSmallTalk | agents/weather_agent.py:83 | "weather in Chicago" is taken for a greeting because it contains "hi" |
| WeatherAgent.SmallTalkKeyword | agents/weather_agent.py:83 | conversely, a message counted as small talk has some greeting keyword at some position of its lower case |
| WeatherAgent.ContextLines | agents/weather_agent.py:85 | the context has `min(len(history), 6)` lines; line `i` is the `Title(role): content` line of the history entry that many places from the end, so the lines quote the last six entries of `history`, oldest first |
| WeatherAgent.ContextUsesLastSix | agents/weather_agent.py:139 | when no message holds a line break, the context reads back as at most six lines, one per entry of the last six turns, oldest first |
| WeatherAgent.LookupCity | agents/weather_agent.py:100 | the looked-up city is never empty and has no trim character at either end; it is the extracted city whenever extraction found one, and "New York" exactly when extraction found nothing or found "New York" |
| WeatherAgent.Sections | agents/weather_agent.py:119-125 | when reading succeeds, the body and the four sections read are all dicts |
| WeatherAgent.SectionsRead | agents/weather_agent.py:119-133 | the sections read are `weather[0]` (`{}` for a missing, false or non-list `weather`) and `main`, `wind` and `sys` when true (`{}` when missing or false); reading raises exactly when the body is not a dict, `weather[0]` is not a dict, or `main`, `wind` or `sys` is a true value that is not a dict |
| WeatherAgent.ExtractFields | agents/weather_agent.py:120 | the reported name (`name or city`) is the looked-up city or a true value |
| WeatherAgent.TopFieldsAreSentinels | agents/weather_agent.py:120-135 | missing fields never fail the request: the time is the provider's `dt` or None, and the name is the provider's true `name` or the looked-up city |
| WeatherAgent.SectionFieldsAreSentinels | agents/weather_agent.py:123-135 | the temperature, feels-like, humidity, wind speed and country are each the provider's value at its path or the sentinel |
| WeatherAgent.DescriptionSentinel | agents/weather_agent.py:121-135 | without `weather[0]["description"]` the description is "N/a" (the capitalized "N/A") when reading the sections succeeds, and "N/A" when it raises |
| WeatherAgent.ProviderValuesAreUsed | agents/weather_agent.py:120-133 | when no section raises, every field the provider sent is reported unchanged: the true `name`, `dt`, and the temperature, feels-like, humidity, wind speed and country at their paths; the description is the capitalized `str()` of the provider's description |
| WeatherAgent.MalformedBodyFallsBack | agents/weather_agent.py:134-135 | when extraction raises, the summary is the looked-up city with sentinels everywhere else |
| WeatherAgent.FallbackReplyMentions | agents/weather_agent.py:166 | when generation fails in the weather branch, the reply contains the name, the description, the temperature and the error text |
| WeatherAgent.FallbackReplyStart | agents/weather_agent.py:166 | the weather fallback reply opens with "The weather in " and the name |
| WeatherAgent.GenerationFailedReply | agents/weather_agent.py:93-166 | the reply replacing a failed generation shows the error text; it opens with "Hello!" for small talk, "Sorry" after a failed lookup and "The weather in <name>" for a weather prompt |
| WeatherAgent.Reply | agents/weather_agent.py:93-166 | a successful generation is the reply unchanged; a failed one gives a reply that shows the error text |
| WeatherAgent.GetResponse | agents/weather_agent.py:75-168 | see the list below the table |
| Sessions.SessionKey | main.py:54 | the key is never empty; it is "default" exactly when the id is absent, empty or "default"; any other id is its own key |
| Sessions.SentHistory | main.py:55-64 | the history handed to the agent is the last `min(len(previous), 10)` previous turns, in order, followed by the current user message |
| Sessions.AfterChat | main.py:55-70 | the stored history is the last ≤10 previous turns, in order, then the user turn, then the assistant turn; its length is at most 12 |
| Sessions.KeepLastPreservesWellFormed | main.py:57 | truncating an even-length, alternating, user-first history to its last ten turns keeps it so |
| Sessions.SentHistoryAlternates | main.py:61-64 | the history passed to the agent alternates, starting and ending with a user turn |
| Sessions.ChatPreservesWellFormed | main.py:57-68 | one exchange keeps a stored history even-length and alternating, starting with the user |
| Sessions.StoreUpdateValid | main.py:57-68 | writing a well-formed history of at most twelve turns under one key keeps every stored history well-formed and short |
| Sessions.ExchangeKeepsStoreValid | main.py:55-70 | storing the history one exchange leaves on a session of a valid store keeps every stored history well-formed and at most twelve turns long |
| Sessions.SessionStore.constructor | main.py:47 | the store starts empty, which satisfies the store invariant |
| Sessions.SessionStore.Chat | main.py:52-76 | see the list below the table |
| Sessions.SessionStore.ClearHistory | main.py:78-81 | the key is removed; clearing an unknown session leaves the store unchanged; the status is always "cleared"; the store invariant is kept |

`WeatherAgent.GetResponse` states:

- A small-talk message makes exactly one call, to generate from the small-talk prompt. `tools_used` is then `["Gemini"]`.
- Otherwise there are exactly two calls. The first is one lookup of `LookupCity(message)`.
  - A failed lookup (an error, or an empty body) is followed by the apology prompt, and `tools_used` is `["Gemini"]`.
  - A successful lookup is followed by the weather prompt with the extracted fields, and `tools_used` is `["OpenWeather", "Gemini"]`.
- The response is the generated text, or the fallback reply for that prompt when generation fails.
- `tools_used` always ends with "Gemini".

`Sessions.SessionStore.Chat` states:

- The session under `SessionKey` becomes `AfterChat` of its previous history. No previous history counts as empty.
- The agent receives the message and `SentHistory`.
- A missing `response` is returned as "" and a missing `tools_used` as [].
- Every other session is unchanged.
- The store invariant is kept: every history is well-formed and at most 12 turns long.

## Left out

- The HTTP fetch of the weather provider is not modelled: the URL, the status codes, the 8-second timeout and the error texts. It is the `lookup` oracle, whose error text the model takes as given.
- The text generator client and its SDK are the `generate` oracle. That client is not part of this model, and neither is the unused HTTP helper module.
- `asyncio`, thread offload and races between requests for the same session are left out. The model is sequential.
- FastAPI wiring, CORS, static files, the `/` route, environment loading and the constructor's missing-key error are left out.
- Exact prompt wording and the `json.dumps` layout are left out. A prompt is a datatype holding the formatted context, the message, the error text or the weather summary.
- `\b` counts as word characters only the ASCII letters, the digits, `_` and the four non-ASCII letters that case-fold onto ASCII. Other Unicode letters and digits, which Python's `\w` also includes, are not modelled.
- `lower()` is exact for ASCII, U+0130 and U+212A, the only characters whose lower case contains an ASCII letter. Other characters are kept unchanged. `capitalize()` upper-cases ASCII letters only.
- Json.Repr: a string is not escaped (quotes, backslashes, unprintable characters) and is always shown in single quotes. A number carries the text `str()` gives it. Keys are shown in first-binding order, each once with its last value, as the decoded dict holds them.
- The `$` anchor's match before a final newline is not modelled. The message is stripped first, so no final newline can remain.
- WeatherAgent.GenerationFailedReply: states the error text and the opening words of each fallback reply, not the whole text; the full wording is in `GreetingReply`, `ApologyReply` and `FallbackReply`.
- WeatherAgent.Reply: for a failed generation states only that the error text is shown; the opening words are stated by `GenerationFailedReply`.
- Sessions.SessionStore.Chat: the agent is an opaque function of the message and the history. An agent that raises, which would leave the user turn stored without an answer, is not modelled.
- Sessions.SessionStore.Chat: appending to the stored list in place is modelled as writing the longer list back under the same key. There is no aliasing to observe, because nothing else holds the list.
- Roles other than user and assistant cannot occur: the handlers only ever store those two.
