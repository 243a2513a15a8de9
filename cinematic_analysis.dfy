/**
 * `analyzeAndSuggestCinematicFrame`: the temperature chosen for an attempt, the text handed to
 * `JSON.parse` once an optional code fence is stripped, the checks and repairs applied to the
 * parsed suggestion, and the catch block that turns every failure into one user-facing message.
 *
 * The remote model and `JSON.parse` are parameters: `generateContent` gives the reply to a
 * request, `parse` the outcome of parsing a text.
 */
module CinematicAnalysis {
  import opened Wrappers
  import opened Js
  import opened Types
  import opened ServiceFailures

  // ---------------------------------------------------------------------------
  // Temperature rotation

  /** The temperatures successive attempts cycle through. */
  const TEMPERATURES: seq<real> := [0.65, 0.75, 0.80, 0.60, 0.70]

  /**
   * `temperatures[(attemptCount - 1) % temperatures.length]`. With JavaScript's truncating `%`
   * a negative index reads `undefined` (`None`); `-0` reads the first entry.
   */
  function Temperature(attemptCount: int): (t: Option<real>)
    ensures attemptCount >= 1 ==> t == Some(TEMPERATURES[(attemptCount - 1) % 5])
    ensures t.Some? <==> attemptCount >= 1 || (attemptCount - 1) % 5 == 0
    ensures t.Some? ==> t.value in TEMPERATURES
    ensures attemptCount < 1 && t.Some? ==> t.value == TEMPERATURES[0]
  {
    var index := JsRemainder(attemptCount - 1, |TEMPERATURES|);
    if 0 <= index < |TEMPERATURES| then Some(TEMPERATURES[index]) else None
  }

  /** Attempts five apart use the same temperature. */
  lemma TemperatureRepeatsEveryFiveAttempts(attemptCount: int)
    requires attemptCount >= 1
    ensures Temperature(attemptCount + 5) == Temperature(attemptCount)
  {
  }

  /** The first and the sixth attempt both run at 0.65. */
  lemma FirstAndSixthAttemptsShareTemperature()
    ensures Temperature(1) == Temperature(6) == Some(0.65)
  {
  }

  /** An attempt count that was reset to 0 and not incremented would send no temperature at all. */
  lemma ResetAttemptCountSendsNoTemperature()
    ensures Temperature(0) == None
    ensures Temperature(-4) == Some(0.65)
  {
  }

  // ---------------------------------------------------------------------------
  // The request and the two foreign calls' outcomes

  const ANALYSIS_MODEL := "gemini-2.5-flash-preview-04-17"

  /** What is sent to the model; the instruction text itself is a constant and is not modelled. */
  datatype ContentRequest = ContentRequest(
    model: string,
    imageMimeType: string,
    imageData: string,
    responseMimeType: string,
    temperature: Option<real>)

  function AnalysisRequest(base64ImageData: string, mimeType: string, attemptCount: int): ContentRequest {
    ContentRequest(ANALYSIS_MODEL, mimeType, base64ImageData, "application/json", Temperature(attemptCount))
  }

  /** The remote call either answers with text or throws. */
  datatype ContentReply = Replied(text: string) | CallFailed(failure: Failure)

  /** `JSON.parse` either yields a value or throws a `SyntaxError`. */
  datatype ParseOutcome = Parsed(value: JsValue) | SyntaxError(message: string)

  // ---------------------------------------------------------------------------
  // Code fences: /^```(\w*)?\s*\n?(.*?)\n?\s*```$/s

  const FENCE := "```"

  /** The text opens and closes with its own three backticks. */
  predicate IsFenced(s: string) {
    |s| >= 6 && s[..3] == FENCE && s[|s| - 3..] == FENCE
  }

  /** Where the language tag ends and where the captured body starts and ends. */
  datatype FenceMatch = FenceMatch(tagEnd: nat, bodyStart: nat, bodyEnd: nat)

  /**
   * The match the fence expression finds: the tag takes every `\w` after the opening fence,
   * the separator every following `\s`, and the lazy body stops as soon as only whitespace is
   * left before the closing fence.
   */
  ghost predicate MatchesFenceRegex(s: string, m: FenceMatch) {
    && IsFenced(s)
    && 3 <= m.tagEnd <= m.bodyStart <= m.bodyEnd <= |s| - 3
    && (forall i :: 3 <= i < m.tagEnd ==> IsWordChar(s[i]))
    && !IsWordChar(s[m.tagEnd])
    && (forall i :: m.tagEnd <= i < m.bodyStart ==> IsWhitespace(s[i]))
    && !IsWhitespace(s[m.bodyStart])
    && (forall i :: m.bodyEnd <= i < |s| - 3 ==> IsWhitespace(s[i]))
    && (m.bodyStart < m.bodyEnd ==> !IsWhitespace(s[m.bodyEnd - 1]))
  }

  /** `jsonStr.match(fenceRegex)`: the expression matches exactly the fenced texts. */
  function MatchFence(s: string): (m: Option<FenceMatch>)
    ensures m.Some? <==> IsFenced(s)
    ensures m.Some? ==> MatchesFenceRegex(s, m.value)
  {
    if !IsFenced(s) then None
    else
      Some(FenceScan(s))
  }

  /** The positions found by taking `\w` after the opening fence, then `\s`, and `\s` back from the closing one. */
  function FenceScan(s: string): (m: FenceMatch)
    requires IsFenced(s)
    ensures MatchesFenceRegex(s, m)
  {
    var close := |s| - 3;
    assert !IsWordChar(s[close]) && !IsWhitespace(s[close]) by {
      assert s[close] == s[close..][0] == '`';
    }
    var tagEnd := WordCharsEnd(s, 3, close);
    var bodyStart := WhitespaceEnd(s, tagEnd, close);
    var bodyEnd := WhitespaceStart(s, bodyStart, close);
    FenceMatch(tagEnd, bodyStart, bodyEnd)
  }

  /** The greedy and lazy choices leave one match only. */
  lemma FenceMatchIsUnique(s: string, m1: FenceMatch, m2: FenceMatch)
    requires MatchesFenceRegex(s, m1) && MatchesFenceRegex(s, m2)
    ensures m1 == m2
  {
  }

  /** The captured body neither starts nor ends with whitespace, so trimming it again is a no-op. */
  lemma FenceBodyIsTrimmed(s: string, m: FenceMatch)
    requires MatchesFenceRegex(s, m)
    ensures IsTrimmed(s[m.bodyStart..m.bodyEnd])
  {
  }

  /**
   * The text given to `JSON.parse`: the trimmed reply, or the trimmed body of its fence when
   * that body is not empty.
   */
  function ParserInput(responseText: string): (json: string)
    ensures IsTrimmed(json)
  {
    var trimmed := Trim(responseText);
    match MatchFence(trimmed)
    case Some(m) => if m.bodyStart < m.bodyEnd then Trim(trimmed[m.bodyStart..m.bodyEnd]) else trimmed
    case None => trimmed
  }

  /** A reply that is not fenced once trimmed is only trimmed. */
  lemma UnfencedTextIsOnlyTrimmed(text: string)
    requires !IsFenced(Trim(text))
    ensures ParserInput(text) == Trim(text)
  {
  }

  /** An object text with no fence around it reaches the parser unchanged. */
  lemma ObjectTextReachesParserUnchanged(json: string)
    requires |json| >= 2 && json[0] == '{' && json[|json| - 1] == '}'
    ensures ParserInput(json) == json
  {
    assert Trim(json) == json by {
      TrimmedIsFixed(json);
    }
    assert MatchFence(json) == None by {
      if |json| >= 6 {
        assert json[..3][0] == '{';
      }
    }
  }

  /**
   * An object text fenced as "```json\n" + text + "\n```" (any `\w` tag) reaches the parser
   * exactly as the bare text does.
   */
  lemma FencedObjectTextParsesAlike(tag: string, json: string)
    requires forall i :: 0 <= i < |tag| ==> IsWordChar(tag[i])
    requires |json| >= 2 && json[0] == '{' && json[|json| - 1] == '}'
    ensures ParserInput(FENCE + tag + "\n" + json + "\n" + FENCE) == json == ParserInput(json)
  {
    var s := FENCE + tag + "\n" + json + "\n" + FENCE;
    var m := FenceAroundObjectText(tag, json);
    assert s[0] == '`' && s[|s| - 1] == '`';
    assert s[m.bodyStart..m.bodyEnd] == json;
    ParserGetsFenceBody(s, m);
    ObjectTextReachesParserUnchanged(json);
  }

  /** A fenced reply with a non-empty body hands exactly that body to the parser. */
  lemma ParserGetsFenceBody(s: string, m: FenceMatch)
    requires IsTrimmed(s) && MatchesFenceRegex(s, m) && m.bodyStart < m.bodyEnd
    ensures ParserInput(s) == s[m.bodyStart..m.bodyEnd]
  {
    TrimmedIsFixed(s);
    FenceMatchIsUnique(s, m, MatchFence(s).value);
    FenceBodyIsTrimmed(s, m);
    TrimmedIsFixed(s[m.bodyStart..m.bodyEnd]);
  }

  /** Where the fence expression splits a fenced object text. */
  lemma FenceAroundObjectText(tag: string, json: string) returns (m: FenceMatch)
    requires forall i :: 0 <= i < |tag| ==> IsWordChar(tag[i])
    requires |json| >= 2 && json[0] == '{' && json[|json| - 1] == '}'
    ensures MatchesFenceRegex(FENCE + tag + "\n" + json + "\n" + FENCE, m)
    ensures m.bodyStart == 4 + |tag| && m.bodyEnd == m.bodyStart + |json|
  {
    var s := FENCE + tag + "\n" + json + "\n" + FENCE;
    var start := 4 + |tag|;
    var end := start + |json|;
    assert |s| == end + 4;
    assert forall i :: 3 <= i < 3 + |tag| ==> s[i] == tag[i - 3];
    assert s[3 + |tag|] == '\n' && s[end] == '\n';
    assert s[start] == '{' && s[end - 1] == '}';
    assert s[..3] == FENCE && s[|s| - 3..] == FENCE;
    m := FenceMatch(3 + |tag|, start, end);
  }

  // ---------------------------------------------------------------------------
  // Bounding boxes

  const ANALYSIS_TEXT := "analysisText"
  const BOX := "suggestedBoundingBox"
  const PROMPT := "cinematicConceptPrompt"

  /** The box's four coordinates, when each of them is a number. */
  function BoxOf(box: JsValue): (b: Option<BoundingBox>)
    ensures b.Some? <==>
              && box.Obj? && Field(box.fields, "x").Num? && Field(box.fields, "y").Num?
              && Field(box.fields, "width").Num? && Field(box.fields, "height").Num?
    ensures b.Some? ==>
              && Field(box.fields, "x") == Num(b.value.x) && Field(box.fields, "y") == Num(b.value.y)
              && Field(box.fields, "width") == Num(b.value.width) && Field(box.fields, "height") == Num(b.value.height)
  {
    if !box.Obj? then None
    else
      match (Field(box.fields, "x"), Field(box.fields, "y"), Field(box.fields, "width"), Field(box.fields, "height"))
      case (Num(x), Num(y), Num(width), Num(height)) => Some(BoundingBox(x, y, width, height))
      case _ => None
  }

  /** The service's bounds: a non-empty rectangle inside the image, with 0.001 of slack on its far edges. */
  predicate BoxWithinImage(b: BoundingBox) {
    && b.width > 0.0 && b.height > 0.0
    && 0.0 <= b.x <= 1.0 && 0.0 <= b.y <= 1.0
    && b.width <= 1.0 && b.height <= 1.0
    && b.x + b.width <= 1.001 && b.y + b.height <= 1.001
  }

  /** A suggested box the service keeps. */
  predicate IsAcceptableBox(box: JsValue) {
    BoxOf(box).Some? && BoxWithinImage(BoxOf(box).value)
  }

  // ---------------------------------------------------------------------------
  // Normalisation of the parsed suggestion

  /**
   * The parsed object once the concept prompt has yielded to a box and an invalid box has
   * been replaced by `null`.
   */
  function NormalizedFields(fields: JsObject): (obj: JsObject)
    ensures obj.Keys == fields.Keys
    ensures forall k :: k in fields && k != BOX && k != PROMPT ==> obj[k] == fields[k]
    ensures !(Truthy(Field(obj, BOX)) && Truthy(Field(obj, PROMPT)))
    ensures Truthy(Field(obj, BOX)) ==> IsAcceptableBox(Field(obj, BOX))
    ensures Truthy(Field(fields, BOX)) ==>
              (Field(obj, BOX) == Field(fields, BOX) <==> IsAcceptableBox(Field(fields, BOX)))
    ensures !Truthy(Field(fields, BOX)) ==> Field(obj, BOX) == Field(fields, BOX)
    ensures Field(obj, BOX) != Field(fields, BOX) ==> Field(obj, BOX) == Null
    ensures (Field(obj, PROMPT) == Field(fields, PROMPT))
              == !(Truthy(Field(fields, BOX)) && Truthy(Field(fields, PROMPT)))
    ensures Field(obj, PROMPT) != Field(fields, PROMPT) ==> Field(obj, PROMPT) == Null
  {
    var box := Field(fields, BOX);
    var prompt := Field(fields, PROMPT);
    map k | k in fields ::
      if k == PROMPT && Truthy(box) && Truthy(prompt) then Null
      else if k == BOX && Truthy(box) && !IsAcceptableBox(box) then Null
      else fields[k]
  }

  /** The first repair: a truthy box and a truthy prompt together make the prompt `null`. */
  function YieldPromptToBox(fields: JsObject): JsObject {
    if Truthy(Field(fields, BOX)) && Truthy(Field(fields, PROMPT)) then fields[PROMPT := Null] else fields
  }

  /** The second repair: a truthy box that is not acceptable becomes `null`. */
  function DropInvalidBox(fields: JsObject): JsObject {
    if Truthy(Field(fields, BOX)) && !IsAcceptableBox(Field(fields, BOX)) then fields[BOX := Null] else fields
  }

  /** The two repairs made one after the other give the normalised object. */
  lemma RepairsInTurnNormalize(fields: JsObject)
    ensures DropInvalidBox(YieldPromptToBox(fields)) == NormalizedFields(fields)
  {
    assert Field(YieldPromptToBox(fields), BOX) == Field(fields, BOX);
  }

  /** What every suggestion the service returns satisfies. */
  predicate SuggestionInvariant(obj: JsObject) {
    && Truthy(Field(obj, ANALYSIS_TEXT))
    && !(Truthy(Field(obj, BOX)) && Truthy(Field(obj, PROMPT)))
    && (Truthy(Field(obj, BOX)) ==> IsAcceptableBox(Field(obj, BOX)))
  }

  /** A response that supplies both fields but an invalid box comes back with neither. */
  lemma BothSuppliedWithInvalidBoxGivesNeither(fields: JsObject)
    requires Truthy(Field(fields, BOX)) && Truthy(Field(fields, PROMPT))
    requires !IsAcceptableBox(Field(fields, BOX))
    ensures Field(NormalizedFields(fields), BOX) == Null
    ensures Field(NormalizedFields(fields), PROMPT) == Null
  {
  }

  /** How the `try` block of the analysis ends. */
  datatype Completion = Returned(obj: JsObject) | Threw(failure: Failure)

  /** The `TypeError` an engine of the V8 family raises when the parsed value is `null` or `undefined`. */
  function CannotReadAnalysisText(v: JsValue): string {
    "Cannot read properties of " + (if v.Null? then "null" else "undefined") + " (reading 'analysisText')"
  }

  /** The parsed value has a truthy `analysisText`. */
  predicate HasAnalysisText(v: JsValue) {
    !IsNullish(v) && Truthy(Get(v, ANALYSIS_TEXT))
  }

  /** What the steps after `JSON.parse` make of its outcome. */
  function Normalized(parsed: ParseOutcome): (c: Completion)
    ensures c.Returned? <==> parsed.Parsed? && HasAnalysisText(parsed.value)
    ensures c.Returned? ==> parsed.value.Obj? && SuggestionInvariant(c.obj)
    ensures c.Returned? ==> Field(c.obj, ANALYSIS_TEXT) == Get(parsed.value, ANALYSIS_TEXT)
    ensures c.Returned? ==> c.obj == NormalizedFields(parsed.value.fields)
    ensures (parsed.Parsed? && !IsNullish(parsed.value) && !HasAnalysisText(parsed.value))
              ==> c == Threw(ErrorThrown(MISSING_ANALYSIS_TEXT))
    ensures parsed.SyntaxError? ==> c == Threw(ErrorThrown(parsed.message))
    ensures parsed.Parsed? && IsNullish(parsed.value) ==> c == Threw(ErrorThrown(CannotReadAnalysisText(parsed.value)))
  {
    match parsed
    case SyntaxError(message) => Threw(ErrorThrown(message))
    case Parsed(v) =>
      if IsNullish(v) then Threw(ErrorThrown(CannotReadAnalysisText(v)))
      else if !Truthy(Get(v, ANALYSIS_TEXT)) then Threw(ErrorThrown(MISSING_ANALYSIS_TEXT))
      else Returned(NormalizedFields(v.fields))
  }

  /** The `try` block: the remote call, fence stripping, parsing and normalisation. */
  function TryAnalysis(reply: ContentReply, parse: string -> ParseOutcome): Completion {
    match reply
    case CallFailed(f) => Threw(f)
    case Replied(text) => Normalized(parse(ParserInput(text)))
  }

  const ANALYSIS_KEY_MISSING := "API Key not configured for Gemini Service."

  /** How `analyzeAndSuggestCinematicFrame` settles, given the model's reply to its request. */
  function AnalysisOutcome(apiKeyConfigured: bool, reply: ContentReply, parse: string -> ParseOutcome): Result<JsObject> {
    if !apiKeyConfigured then Err(ANALYSIS_KEY_MISSING)
    else
      match TryAnalysis(reply, parse)
      case Returned(obj) => Ok(obj)
      case Threw(f) => Err(AnalysisFailureMessage(f))
  }

  /** The text of the reply trimmed, and replaced by the trimmed body of its fence when there is one. */
  method StripFence(text: string) returns (jsonStr: string)
    ensures jsonStr == ParserInput(text)
  {
    jsonStr := Trim(text);
    var fence := MatchFence(jsonStr);
    if fence.Some? && fence.value.bodyStart < fence.value.bodyEnd {
      jsonStr := Trim(jsonStr[fence.value.bodyStart..fence.value.bodyEnd]);
    }
  }

  /** The parsed object repaired in place: the prompt yields to a box, then an invalid box is nulled. */
  method RepairSuggestion(fields: JsObject) returns (parsedData: JsObject)
    ensures parsedData == NormalizedFields(fields)
  {
    parsedData := fields;
    if Truthy(Field(parsedData, BOX)) && Truthy(Field(parsedData, PROMPT)) {
      parsedData := parsedData[PROMPT := Null];
    }
    assert parsedData == YieldPromptToBox(fields);
    if Truthy(Field(parsedData, BOX)) {
      var box := Field(parsedData, BOX);
      if !IsAcceptableBox(box) {
        parsedData := parsedData[BOX := Null];
      }
    }
    RepairsInTurnNormalize(fields);
  }

  /**
   * The analysis call: build the request, ask the model, strip a fence from its text, parse
   * it, check and repair the parsed object in place, and report any failure.
   */
  method AnalyzeAndSuggestCinematicFrame(
    apiKeyConfigured: bool,
    base64ImageData: string,
    mimeType: string,
    attemptCount: int,
    generateContent: ContentRequest -> ContentReply,
    parse: string -> ParseOutcome)
    returns (r: Result<JsObject>)
    ensures r == AnalysisOutcome(apiKeyConfigured, generateContent(AnalysisRequest(base64ImageData, mimeType, attemptCount)), parse)
  {
    if !apiKeyConfigured {
      return Err(ANALYSIS_KEY_MISSING);
    }
    var request := AnalysisRequest(base64ImageData, mimeType, attemptCount);
    var reply := generateContent(request);
    var completion: Completion;
    match reply {
      case CallFailed(f) =>
        completion := Threw(f);
      case Replied(text) =>
        var jsonStr := StripFence(text);
        var parsed := parse(jsonStr);
        match parsed {
          case SyntaxError(message) =>
            completion := Threw(ErrorThrown(message));
          case Parsed(value) =>
            if IsNullish(value) {
              completion := Threw(ErrorThrown(CannotReadAnalysisText(value)));
            } else if !Truthy(Get(value, ANALYSIS_TEXT)) {
              completion := Threw(ErrorThrown(MISSING_ANALYSIS_TEXT));
            } else {
              var parsedData := RepairSuggestion(value.fields);
              completion := Returned(parsedData);
            }
        }
        assert completion == Normalized(parsed);
    }
    assert completion == TryAnalysis(reply, parse);
    match completion {
      case Returned(obj) => r := Ok(obj);
      case Threw(f) => r := Err(AnalysisFailureMessage(f));
    }
  }

  // ---------------------------------------------------------------------------
  // Properties of the whole call

  /** A missing, `null` or empty `analysisText` fails the call with the wrapped message. */
  lemma MissingAnalysisTextReported(text: string, parse: string -> ParseOutcome, v: JsValue)
    requires parse(ParserInput(text)) == Parsed(v)
    requires !IsNullish(v) && !Truthy(Get(v, ANALYSIS_TEXT))
    ensures AnalysisOutcome(true, Replied(text), parse)
            == Err(ANALYSIS_FAILED_PREFIX + "AI response is missing required field: " + ANALYSIS_TEXT + ".")
  {
    assert TryAnalysis(Replied(text), parse) == Threw(ErrorThrown(MISSING_ANALYSIS_TEXT));
    MissingFieldMessageLetters();
    LetterlessErrorPassesThrough(MISSING_ANALYSIS_TEXT);
  }

  /** The unset-key guard sits before the `try`, so its message is not wrapped. */
  lemma MissingApiKeyIsNotWrapped(reply: ContentReply, parse: string -> ParseOutcome)
    ensures AnalysisOutcome(false, reply, parse) == Err(ANALYSIS_KEY_MISSING)
    ensures !(ANALYSIS_FAILED_PREFIX <= AnalysisOutcome(false, reply, parse).message)
  {
  }

  /** A fenced object text and the bare text settle the call the same way. */
  lemma FencedReplyAnalyzedAlike(tag: string, json: string, parse: string -> ParseOutcome)
    requires forall i :: 0 <= i < |tag| ==> IsWordChar(tag[i])
    requires |json| >= 2 && json[0] == '{' && json[|json| - 1] == '}'
    ensures AnalysisOutcome(true, Replied(FENCE + tag + "\n" + json + "\n" + FENCE), parse)
            == AnalysisOutcome(true, Replied(json), parse)
  {
    FencedObjectTextParsesAlike(tag, json);
  }

  /**
   * A successful call returns the parsed object with its `analysisText` untouched, at most
   * one of box and concept prompt set, and only a box within the image.
   */
  lemma SuccessfulAnalysisIsConsistent(apiKeyConfigured: bool, text: string, parse: string -> ParseOutcome)
    requires AnalysisOutcome(apiKeyConfigured, Replied(text), parse).Ok?
    ensures parse(ParserInput(text)).Parsed?
    ensures var obj := AnalysisOutcome(apiKeyConfigured, Replied(text), parse).value;
            && SuggestionInvariant(obj)
            && Field(obj, ANALYSIS_TEXT) == Get(parse(ParserInput(text)).value, ANALYSIS_TEXT)
            && obj == NormalizedFields(parse(ParserInput(text)).value.fields)
  {
  }

  // ---------------------------------------------------------------------------
  // The declared shape of a suggestion

  /** The object has the types the service's `AiCinematicSuggestion` declares (absent counts as `null`). */
  predicate ConformsToSuggestion(obj: JsObject) {
    && Field(obj, ANALYSIS_TEXT).Str?
    && (IsNullish(Field(obj, BOX)) || BoxOf(Field(obj, BOX)).Some?)
    && (IsNullish(Field(obj, PROMPT)) || Field(obj, PROMPT).Str?)
  }

  /** The typed record a conforming object stands for. */
  function ToSuggestion(obj: JsObject): AiCinematicSuggestion
    requires ConformsToSuggestion(obj)
  {
    AiCinematicSuggestion(
      Field(obj, ANALYSIS_TEXT).s,
      if IsNullish(Field(obj, BOX)) then None else BoxOf(Field(obj, BOX)),
      if IsNullish(Field(obj, PROMPT)) then None else Some(Field(obj, PROMPT).s))
  }

  /** Normalisation keeps a response of the declared shape in that shape. */
  lemma NormalizationKeepsDeclaredShape(fields: JsObject)
    requires ConformsToSuggestion(fields)
    ensures ConformsToSuggestion(NormalizedFields(fields))
  {
  }

  /**
   * In typed terms: the text is non-empty, and a box comes only within the image and with no
   * concept prompt beside it other than an empty one.
   */
  lemma TypedSuggestionInvariant(obj: JsObject)
    requires SuggestionInvariant(obj) && ConformsToSuggestion(obj)
    ensures ToSuggestion(obj).analysisText != ""
    ensures ToSuggestion(obj).suggestedBoundingBox.Some? ==>
              BoxWithinImage(ToSuggestion(obj).suggestedBoundingBox.value)
              && ToSuggestion(obj).cinematicConceptPrompt in {None, Some("")}
  {
  }

  // ---------------------------------------------------------------------------
  // Two responses

  /** A reply `JSON.parse` rejects is reported through the catch block like any error thrown in the `try`. */
  lemma MalformedReplyReported(text: string, parse: string -> ParseOutcome, message: string)
    requires parse(ParserInput(text)) == SyntaxError(message)
    ensures AnalysisOutcome(true, Replied(text), parse) == Err(AnalysisFailureMessage(ErrorThrown(message)))
  {
  }

  /** A reply that parses to `null` fails on reading `analysisText`, and that failure is reported alike. */
  lemma NullReplyReported(text: string, parse: string -> ParseOutcome)
    requires parse(ParserInput(text)) == Parsed(Null)
    ensures AnalysisOutcome(true, Replied(text), parse)
            == Err(AnalysisFailureMessage(ErrorThrown(CannotReadAnalysisText(Null))))
  {
  }

  /** A reply parsed into an object with a truthy `analysisText` makes the call return that object normalised. */
  lemma ParsedObjectSettles(text: string, parse: string -> ParseOutcome, fields: JsObject)
    requires parse(ParserInput(text)) == Parsed(Obj(fields)) && Truthy(Field(fields, ANALYSIS_TEXT))
    ensures AnalysisOutcome(true, Replied(text), parse) == Ok(NormalizedFields(fields))
  {
  }

  /** A box inside the image, with no concept prompt beside it, is kept: the call returns the parsed object unchanged. */
  lemma CropSuggestionKept(text: string, parse: string -> ParseOutcome, fields: JsObject)
    requires parse(ParserInput(text)) == Parsed(Obj(fields)) && Truthy(Field(fields, ANALYSIS_TEXT))
    requires IsAcceptableBox(Field(fields, BOX)) && !Truthy(Field(fields, PROMPT))
    ensures AnalysisOutcome(true, Replied(text), parse) == Ok(fields)
  {
    ParsedObjectSettles(text, parse, fields);
    assert NormalizedFields(fields) == fields;
  }

  /** A box reaching past the image, with no concept prompt beside it, is dropped without failing the call; nothing else changes. */
  lemma OverflowingBoxDropped(text: string, parse: string -> ParseOutcome, fields: JsObject)
    requires parse(ParserInput(text)) == Parsed(Obj(fields)) && Truthy(Field(fields, ANALYSIS_TEXT))
    requires Truthy(Field(fields, BOX)) && !IsAcceptableBox(Field(fields, BOX)) && !Truthy(Field(fields, PROMPT))
    ensures AnalysisOutcome(true, Replied(text), parse) == Ok(fields[BOX := Null])
  {
    ParsedObjectSettles(text, parse, fields);
    assert NormalizedFields(fields) == fields[BOX := Null];
  }

  /** Without a truthy box, the concept prompt and everything else come back as they were. */
  lemma LonePromptKept(text: string, parse: string -> ParseOutcome, fields: JsObject)
    requires parse(ParserInput(text)) == Parsed(Obj(fields)) && Truthy(Field(fields, ANALYSIS_TEXT))
    requires !Truthy(Field(fields, BOX))
    ensures AnalysisOutcome(true, Replied(text), parse) == Ok(fields)
  {
    ParsedObjectSettles(text, parse, fields);
    assert NormalizedFields(fields) == fields;
  }

  /** One crop suggestion: the box (0.1, 0.1, 0.8, 0.9) lies within the image and is kept. */
  lemma CropSuggestionExample(text: string, parse: string -> ParseOutcome)
    requires parse(ParserInput(text)) == Parsed(Obj(map[
               ANALYSIS_TEXT := Str("Crop tighter."),
               BOX := Obj(map["x" := Num(0.1), "y" := Num(0.1), "width" := Num(0.8), "height" := Num(0.9)]),
               PROMPT := Null]))
    ensures AnalysisOutcome(true, Replied(text), parse) == Ok(parse(ParserInput(text)).value.fields)
  {
    var fields := parse(ParserInput(text)).value.fields;
    CropSuggestionKept(text, parse, fields);
  }

  /** One overflowing box: (0.9, 0.9, 0.5, 0.5) reaches past the right and bottom edges and is dropped. */
  lemma OverflowingBoxExample(text: string, parse: string -> ParseOutcome)
    requires parse(ParserInput(text)) == Parsed(Obj(map[
               ANALYSIS_TEXT := Str("Try this concept."),
               BOX := Obj(map["x" := Num(0.9), "y" := Num(0.9), "width" := Num(0.5), "height" := Num(0.5)]),
               PROMPT := Null]))
    ensures AnalysisOutcome(true, Replied(text), parse) == Ok(parse(ParserInput(text)).value.fields[BOX := Null])
  {
    var fields := parse(ParserInput(text)).value.fields;
    OverflowingBoxDropped(text, parse, fields);
  }
}
