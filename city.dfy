/**
 * `WeatherAgent._extract_city` (agents/weather_agent.py): pick a city name out of a chat
 * message with three rules tried in order, a trailing "in <city>" clause, the text after
 * the last comma, and the last word.
 */
module CityExtraction {
  import opened Wrappers
  import opened Text

  /** The characters `.strip(" .,'")` removes from a candidate. */
  predicate IsTrimChar(c: char) { c == ' ' || c == '.' || c == ',' || c == '\'' }

  /**
   * `[A-Za-z]` under `re.IGNORECASE`: the ASCII letters and the four non-ASCII letters
   * that case-fold onto them (U+0130, U+0131, U+017F, U+212A).
   */
  predicate IsClassLetter(c: char) {
    ('A' <= c <= 'Z') || ('a' <= c <= 'z')
    || c == '\U{130}' || c == '\U{131}' || c == '\U{17F}' || c == '\U{212A}'
  }

  /** The capture class `[A-Za-z\s\-\.\,']` under `re.IGNORECASE`. */
  predicate InCityClass(c: char) {
    IsClassLetter(c) || IsSpace(c) || c == '-' || c == '.' || c == ',' || c == '\''
  }

  /** A `\w` character: letters, digits and the underscore (letters as far as `IsClassLetter` goes). */
  predicate IsWordChar(c: char) {
    IsClassLetter(c) || ('0' <= c <= '9') || c == '_'
  }

  /** The literals `i` and `n` of the pattern under `re.IGNORECASE`. */
  predicate IsLetterI(c: char) { c == 'i' || c == 'I' || c == '\U{130}' || c == '\U{131}' }
  predicate IsLetterN(c: char) { c == 'n' || c == 'N' }

  /** `\bin` matches at position `p` of `t`. */
  predicate InWordAt(t: string, p: nat) {
    p + 2 <= |t| && IsLetterI(t[p]) && IsLetterN(t[p + 1]) && (p == 0 || !IsWordChar(t[p - 1]))
  }

  /** The first position at or after `q` that is not whitespace, `|t|` when there is none. */
  function SpaceRunEnd(t: string, q: nat): (e: nat)
    requires q <= |t|
    ensures q <= e <= |t|
    ensures forall k :: q <= k < e ==> IsSpace(t[k])
    ensures e == |t| || !IsSpace(t[e])
    decreases |t| - q
  {
    if q < |t| && IsSpace(t[q]) then SpaceRunEnd(t, q + 1) else q
  }

  /**
   * Where group 1 starts for an attempt at `p`: the greedy `\s+` takes the whole
   * whitespace run and gives back its last character only when the run reaches the end.
   */
  function CaptureStart(t: string, p: nat): nat
    requires p + 2 <= |t|
  {
    var e := SpaceRunEnd(t, p + 2);
    if e < |t| then e else |t| - 1
  }

  /** `\bin\s+([A-Za-z\s\-\.\,']+)$` matches with its match starting at `p`. */
  predicate MatchesAt(t: string, p: nat) {
    InWordAt(t, p) && p + 2 < |t| && IsSpace(t[p + 2])
    && p + 2 < CaptureStart(t, p)
    && forall k :: CaptureStart(t, p) <= k < |t| ==> InCityClass(t[k])
  }

  /**
   * The pattern read declaratively: after `\bin` at `p`, whitespace up to `c` (at least
   * one character) and class characters from `c` to the end (at least one).
   */
  predicate SplitsAt(t: string, p: nat, c: nat) {
    InWordAt(t, p) && p + 2 < c < |t|
    && (forall k :: p + 2 <= k < c ==> IsSpace(t[k]))
    && (forall k :: c <= k < |t| ==> InCityClass(t[k]))
  }

  /**
   * `MatchesAt` is the pattern: it holds exactly when some split exists, and the group
   * it captures starts at the latest split, as the greedy `\s+` makes it.
   */
  lemma {:induction false} MatchesAtIsPattern(t: string, p: nat, c: nat)
    ensures MatchesAt(t, p) ==> SplitsAt(t, p, CaptureStart(t, p))
    ensures SplitsAt(t, p, c) ==> MatchesAt(t, p) && c <= CaptureStart(t, p)
  {
    if SplitsAt(t, p, c) {
      var e := SpaceRunEnd(t, p + 2);
      assert IsSpace(t[p + 2]);
      assert CaptureStart(t, p) >= c;
      forall k | CaptureStart(t, p) <= k < |t| ensures InCityClass(t[k]) {
        assert c <= k;
      }
    }
    if MatchesAt(t, p) {
      var e := SpaceRunEnd(t, p + 2);
      forall k | p + 2 <= k < CaptureStart(t, p) ensures IsSpace(t[k]) {
        assert k < e;
      }
    }
  }

  /** `re.search`: the leftmost position at or after `from` where the pattern matches. */
  function FirstMatch(t: string, from: nat): (r: Option<nat>)
    requires from <= |t|
    ensures r.Some? ==> from <= r.value < |t| && MatchesAt(t, r.value)
    ensures forall p :: from <= p < (if r.Some? then r.value else |t|) ==> !MatchesAt(t, p)
    decreases |t| - from
  {
    if from == |t| then None
    else if MatchesAt(t, from) then Some(from)
    else FirstMatch(t, from + 1)
  }

  predicate IsComma(c: char) { c == ',' }

  /** The text after the last comma, stripped (rule 2). */
  function CommaCandidate(msg: string): string {
    Trim(AfterLast(msg, IsComma), IsTrimChar)
  }

  /** The last whitespace-separated token, stripped (rule 3). */
  function LastWordCandidate(msg: string): string {
    Trim(AfterLast(msg, IsSpace), IsTrimChar)
  }

  /** The words rule 3 refuses, compared after `.lower()`. */
  predicate IsQueryWord(s: string) {
    Lower(s) == "weather" || Lower(s) == "forecast"
  }

  /** A trimmed candidate kept only when something is left. */
  function NonEmpty(city: string): (r: Option<string>)
    requires city != [] ==> !IsTrimChar(city[0]) && !IsTrimChar(city[|city| - 1])
    ensures r.Some? ==> r.value != [] && !IsTrimChar(r.value[0]) && !IsTrimChar(r.value[|r.value| - 1])
  {
    if city != [] then Some(city) else None
  }

  /** `_extract_city(message)`: None when no rule gives a usable city. */
  function ExtractCity(message: string): (r: Option<string>)
    ensures r.Some? ==> r.value != [] && !IsTrimChar(r.value[0]) && !IsTrimChar(r.value[|r.value| - 1])
  {
    var msg := PyStrip(message);
    match FirstMatch(msg, 0)
    case Some(p) => NonEmpty(Trim(msg[CaptureStart(msg, p)..], IsTrimChar))
    case None =>
      if ',' in msg && CommaCandidate(msg) != [] then NonEmpty(CommaCandidate(msg))
      else LastWordRule(msg)
  }

  /**
   * Rule 1: when the pattern matches, the leftmost match decides. Its stripped capture
   * is the city, or there is none when stripping leaves nothing; the other rules are
   * not tried.
   */
  lemma TrailingInClauseWins(message: string, p: nat)
    requires MatchesAt(PyStrip(message), p)
    requires forall q :: 0 <= q < p ==> !MatchesAt(PyStrip(message), q)
    ensures var msg := PyStrip(message);
      var city := Trim(msg[CaptureStart(msg, p)..], IsTrimChar);
      ExtractCity(message) == if city == [] then None else Some(city)
  {
    var msg := PyStrip(message);
    var r := FirstMatch(msg, 0);
    if r != Some(p) {
      assert false;
    }
  }

  /**
   * Why the first "in" wins: a later "in" that would also match lies inside the group
   * captured for the earlier one, so "rain in Paris in spring" yields "Paris in spring".
   */
  lemma LaterInIsInsideCapture(t: string, p: nat, p': nat)
    requires MatchesAt(t, p) && MatchesAt(t, p') && p < p'
    ensures CaptureStart(t, p) <= p'
  {
    assert !IsSpace(t[p']);
    if p' <= p + 2 {
      assert false;
    }
    assert SpaceRunEnd(t, p + 2) <= p';
  }

  /**
   * Rule 2: with no match and a comma, the stripped text after the last comma is the
   * city when it is not empty; when it is empty, rule 3 decides.
   */
  lemma CommaRule(message: string)
    requires FirstMatch(PyStrip(message), 0).None?
    requires ',' in PyStrip(message)
    ensures var tail := CommaCandidate(PyStrip(message));
      && (tail != [] ==> ExtractCity(message) == Some(tail))
      && (tail == [] ==> ExtractCity(message) == LastWordRule(PyStrip(message)))
  {
  }

  /** Rule 3 alone: the stripped last token, unless it is empty or a query word. */
  function LastWordRule(msg: string): (r: Option<string>)
    ensures r.Some? ==> !IsQueryWord(r.value) && r.value != []
    ensures r.Some? ==> !IsTrimChar(r.value[0]) && !IsTrimChar(r.value[|r.value| - 1])
    ensures r.None? <==> LastWordCandidate(msg) == [] || IsQueryWord(LastWordCandidate(msg))
    ensures r.Some? ==> r.value == LastWordCandidate(msg)
  {
    var w := LastWordCandidate(msg);
    if w != [] && !IsQueryWord(w) then Some(w) else None
  }

  /** Rule 3 never yields "weather" or "forecast", in any letter case. */
  lemma LastWordIsNotQueryWord(message: string)
    requires FirstMatch(PyStrip(message), 0).None?
    requires ',' !in PyStrip(message) || CommaCandidate(PyStrip(message)) == []
    ensures ExtractCity(message) == LastWordRule(PyStrip(message))
    ensures ExtractCity(message).Some? ==> !IsQueryWord(ExtractCity(message).value)
  {
  }

  /** An empty or whitespace-only message has no city. */
  lemma BlankMessageHasNoCity(message: string)
    requires forall i :: 0 <= i < |message| ==> IsSpace(message[i])
    ensures ExtractCity(message) == None
  {
    TrimEmpty(message, IsSpace);
  }

  /** Without an "in" (in any letter case) the pattern cannot match. */
  lemma NoInNoMatch(t: string)
    requires forall p :: 0 <= p < |t| - 1 ==> !(IsLetterI(t[p]) && IsLetterN(t[p + 1]))
    ensures FirstMatch(t, 0) == None
  {
    var r := FirstMatch(t, 0);
    if r.Some? {
      assert false;
    }
  }

  /**
   * A message ending in a character outside the class (a `?` or `!`, say) never
   * matches the pattern, because the match must run to the end.
   */
  lemma TrailingPunctuationDefeatsPattern(t: string)
    requires t != [] && !InCityClass(t[|t| - 1])
    ensures FirstMatch(t, 0) == None
  {
    var r := FirstMatch(t, 0);
    if r.Some? {
      assert false;
    }
  }

  /** Words longer than "forecast" are never query words. */
  lemma LongWordIsNotQueryWord(w: string)
    requires |w| > 8
    ensures !IsQueryWord(w)
  {
  }

  /** Rule 3's candidate for "<a> <word>": the word, whatever comes before the space. */
  lemma LastWordTail(a: string, w: string)
    requires forall i :: 0 <= i < |w| ==> !IsSpace(w[i])
    requires w != [] && !IsTrimChar(w[0]) && !IsTrimChar(w[|w| - 1])
    ensures LastWordCandidate(a + " " + w) == w
  {
    assert a + " " + w == a + [' '] + w;
    AfterLastAt(a, ' ', w, IsSpace);
    TrimUnchanged(w, IsTrimChar);
  }

  /** Rule 2's candidate for "<a>, <city>": the city, whatever comes before the comma. */
  lemma CommaTail(a: string, w: string)
    requires forall i :: 0 <= i < |w| ==> w[i] != ','
    requires w != [] && !IsTrimChar(w[0]) && !IsTrimChar(w[|w| - 1])
    ensures CommaCandidate(a + ", " + w) == w
  {
    assert a + ", " + w == a + [','] + ([' '] + w);
    AfterLastAt(a, ',', [' '] + w, IsComma);
    TrimLeading(' ', w, IsTrimChar);
    TrimUnchanged(w, IsTrimChar);
  }

  /** A stripped message "<a> <word>" that rules 1 and 2 pass over yields its last word. */
  lemma LastWordMessage(m: string, a: string, w: string)
    requires PyStrip(m) == m && m == a + " " + w
    requires FirstMatch(m, 0) == None && ',' !in m
    requires forall i :: 0 <= i < |w| ==> !IsSpace(w[i])
    requires w != [] && !IsTrimChar(w[0]) && !IsTrimChar(w[|w| - 1]) && !IsQueryWord(w)
    ensures ExtractCity(m) == Some(w)
  {
    LastWordTail(a, w);
    LastWordIsNotQueryWord(m);
  }

  /** A stripped message "<a>, <city>" without a matching "in" yields the city. */
  lemma CommaMessage(m: string, a: string, w: string)
    requires PyStrip(m) == m && m == a + ", " + w
    requires FirstMatch(m, 0) == None
    requires forall i :: 0 <= i < |w| ==> w[i] != ','
    requires w != [] && !IsTrimChar(w[0]) && !IsTrimChar(w[|w| - 1])
    ensures ExtractCity(m) == Some(w)
  {
    CommaTail(a, w);
    assert m[|a|] == ',';
    CommaRule(m);
  }

  // A literal-message fact used by `QuestionExample`; each such fact has its own small lemma.
  lemma QuestionIsStripped(m: string)
    requires m == "weather in San Francisco?"
    ensures PyStrip(m) == m
  {
    TrimUnchanged(m, IsSpace);
  }

  // A literal-message fact used by `QuestionExample`.
  lemma QuestionHasNoComma(m: string)
    requires m == "weather in San Francisco?"
    ensures ',' !in m
  {
  }

  // A literal-message fact used by `QuestionExample`.
  lemma QuestionHasNoMatch(m: string)
    requires m == "weather in San Francisco?"
    ensures FirstMatch(m, 0) == None
  {
    TrailingPunctuationDefeatsPattern(m);
  }

  // A literal-message fact used by `QuestionExample`.
  lemma QuestionParts(m: string)
    requires m == "weather in San Francisco?"
    ensures m == "weather in San" + " " + "Francisco?"
  {
  }

  // A literal-word fact used by `QuestionExample`.
  lemma FranciscoIsLastWord(w: string)
    requires w == "Francisco?"
    ensures forall i :: 0 <= i < |w| ==> !IsSpace(w[i])
    ensures w != [] && !IsTrimChar(w[0]) && !IsTrimChar(w[|w| - 1]) && !IsQueryWord(w)
  {
    LongWordIsNotQueryWord(w);
  }

  /** A question mark defeats rule 1: the city is the last word, question mark included. */
  lemma QuestionExample(m: string)
    requires m == "weather in San Francisco?"
    ensures ExtractCity(m) == Some("Francisco?")
  {
    QuestionIsStripped(m);
    QuestionHasNoComma(m);
    QuestionHasNoMatch(m);
    QuestionParts(m);
    FranciscoIsLastWord("Francisco?");
    LastWordMessage(m, "weather in San", "Francisco?");
  }

  // A literal-message fact used by `CommaExample`.
  lemma FranceIsStripped(m: string)
    requires m == "Paris, France"
    ensures PyStrip(m) == m && FirstMatch(m, 0) == None
  {
    TrimUnchanged(m, IsSpace);
    NoInNoMatch(m);
  }

  /** Rule 2: "Paris, France" gives "France". */
  lemma CommaExample(m: string)
    requires m == "Paris, France"
    ensures ExtractCity(m) == Some("France")
  {
    FranceIsStripped(m);
    CommaMessage(m, "Paris", "France");
  }

  // A literal-message fact used by `LeftmostInExample`.
  lemma SpringMatch(m: string)
    requires m == "rain in Paris in spring"
    ensures MatchesAt(m, 5) && CaptureStart(m, 5) == 8
  {
    assert SpaceRunEnd(m, 7) == 8;
  }

  // A literal-message fact used by `LeftmostInExample`.
  lemma SpringNoEarlierMatch(m: string)
    requires m == "rain in Paris in spring"
    ensures forall q :: 0 <= q < 5 ==> !MatchesAt(m, q)
  {
    forall q | 0 <= q < 5 ensures !MatchesAt(m, q) {
      assert !InWordAt(m, q);
    }
  }

  // A literal-message fact used by `LeftmostInExample`.
  lemma SpringCapture(m: string)
    requires m == "rain in Paris in spring"
    ensures Trim(m[8..], IsTrimChar) == "Paris in spring"
  {
    assert m[8..] == "Paris in spring";
    TrimUnchanged("Paris in spring", IsTrimChar);
  }

  // The facts above gathered for `TrailingInClauseWins`.
  lemma SpringMatchesAtFive(m: string)
    requires m == "rain in Paris in spring"
    ensures MatchesAt(PyStrip(m), 5) && forall q :: 0 <= q < 5 ==> !MatchesAt(PyStrip(m), q)
    ensures Trim(PyStrip(m)[CaptureStart(PyStrip(m), 5)..], IsTrimChar) == "Paris in spring"
  {
    SpringMatch(m);
    SpringNoEarlierMatch(m);
    SpringCapture(m);
    TrimUnchanged(m, IsSpace);
  }

  /** The first "in" wins: "rain in Paris in spring" gives "Paris in spring". */
  lemma LeftmostInExample(m: string)
    requires m == "rain in Paris in spring"
    ensures ExtractCity(m) == Some("Paris in spring")
  {
    SpringMatchesAtFive(m);
    TrailingInClauseWins(m, 5);
  }
}
