/**
 * What the two catch blocks of the Gemini service receive, the substring tests that sort it
 * into categories, and the message each block throws in the end.
 *
 * Each fixed message is written as its opening words followed by the rest; the lemmas that
 * tell the messages apart look only at those opening words.
 */
module ServiceFailures {
  import opened Js

  /** A value thrown inside a `try` block of the service. */
  datatype Failure =
    /** An `Error` instance (`instanceof Error`) with its `message`. */
    | ErrorThrown(message: string)
    /** Some other object with a string `message` property; `text` is `String(error)`. */
    | MessageObjectThrown(message: string, text: string)
    /** Anything else; `text` is `String(error)`. */
    | OtherThrown(text: string)

  /** The failure passes the `'message' in error && typeof error.message === 'string'` test. */
  predicate HasStringMessage(f: Failure) {
    f.ErrorThrown? || f.MessageObjectThrown?
  }

  /** The text a catch block appends to its generic prefix: the message of an `Error`, else `String(error)`. */
  function Describe(f: Failure): string {
    match f
    case ErrorThrown(message) => message
    case MessageObjectThrown(_, text) => text
    case OtherThrown(text) => text
  }

  /** The kinds of failure the service reports with a fixed message, and the rest. */
  datatype FailureCategory = InvalidApiKey | SafetyBlocked | RateLimited | InvalidPrompt | Unknown

  // ---------------------------------------------------------------------------
  // Markers looked for in a failure's message

  const KEY_MARKER := "API key not valid"
  const SAFETY_MARKER := "SAFETY"
  const QUOTA_MARKER := "RESOURCE_EXHAUSTED"
  const RATE_MARKER := "Rate limit"
  const RATE_EXCEEDED_MARKER := "Rate limit exceeded"
  const PROMPT_MARKER := "Invalid prompt"

  // ---------------------------------------------------------------------------
  // The catch block of the analysis

  const INVALID_KEY_MESSAGE := "Invalid API Key." + " Please check your configuration."
  const SAFETY_MESSAGE := "The image or request was blocked"
    + " due to safety settings. Please try a different image or adjust your query."
  const BUSY_MESSAGE := "The AI service is currently busy"
    + " or rate limits exceeded. Please try again later."
  const ANALYSIS_FAILED_PREFIX := "Failed to get cinematic suggestion from AI: "

  /** The analysis catch block's tests, in their order. */
  function ClassifyAnalysisFailure(f: Failure): (c: FailureCategory)
    ensures c != InvalidPrompt
    ensures c == InvalidApiKey <==> f.ErrorThrown? && Includes(f.message, KEY_MARKER)
  {
    if f.ErrorThrown? && Includes(f.message, KEY_MARKER) then InvalidApiKey
    else if HasStringMessage(f) && Includes(f.message, SAFETY_MARKER) then SafetyBlocked
    else if HasStringMessage(f) && (Includes(f.message, QUOTA_MARKER) || Includes(f.message, RATE_MARKER)) then RateLimited
    else Unknown
  }

  /**
   * The analysis block's tests in their order: each marker chooses its category as soon as
   * no earlier test has matched, whether the failure is an `Error` or another object with a
   * string message.
   */
  lemma AnalysisMarkersInOrder(f: Failure)
    requires HasStringMessage(f)
    ensures Includes(f.message, SAFETY_MARKER) && !(f.ErrorThrown? && Includes(f.message, KEY_MARKER))
            ==> ClassifyAnalysisFailure(f) == SafetyBlocked
    ensures Includes(f.message, QUOTA_MARKER) && !Includes(f.message, SAFETY_MARKER)
            && !(f.ErrorThrown? && Includes(f.message, KEY_MARKER))
            ==> ClassifyAnalysisFailure(f) == RateLimited
    ensures Includes(f.message, RATE_MARKER) && !Includes(f.message, SAFETY_MARKER)
            && !(f.ErrorThrown? && Includes(f.message, KEY_MARKER))
            ==> ClassifyAnalysisFailure(f) == RateLimited
    ensures !Includes(f.message, SAFETY_MARKER) && !Includes(f.message, QUOTA_MARKER)
            && !Includes(f.message, RATE_MARKER) && !(f.ErrorThrown? && Includes(f.message, KEY_MARKER))
            ==> ClassifyAnalysisFailure(f) == Unknown
  {
  }

  /** A key marker on an object that is not an `Error` is not a key failure: that test asks for an `Error`. */
  lemma KeyMarkerNeedsError(message: string, text: string)
    requires Includes(message, KEY_MARKER) && !Includes(message, SAFETY_MARKER)
    requires !Includes(message, QUOTA_MARKER) && !Includes(message, RATE_MARKER)
    ensures ClassifyAnalysisFailure(ErrorThrown(message)) == InvalidApiKey
    ensures ClassifyAnalysisFailure(MessageObjectThrown(message, text)) == Unknown
  {
  }

  /** A thrown value without a string message is never put in a fixed category. */
  lemma MessagelessFailureIsUnknown(text: string)
    ensures ClassifyAnalysisFailure(OtherThrown(text)) == Unknown
    ensures AnalysisFailureMessage(OtherThrown(text)) == ANALYSIS_FAILED_PREFIX + text
  {
  }

  /** The message of the `Error` the analysis catch block throws. */
  function AnalysisFailureMessage(f: Failure): string {
    match ClassifyAnalysisFailure(f)
    case InvalidApiKey => INVALID_KEY_MESSAGE
    case SafetyBlocked => SAFETY_MESSAGE
    case RateLimited => BUSY_MESSAGE
    case _ => ANALYSIS_FAILED_PREFIX + Describe(f)
  }

  /** Reads the category back from a message of the analysis. */
  function AnalysisMessageCategory(message: string): FailureCategory {
    if message == INVALID_KEY_MESSAGE then InvalidApiKey
    else if message == SAFETY_MESSAGE then SafetyBlocked
    else if message == BUSY_MESSAGE then RateLimited
    else Unknown
  }

  /**
   * Each category has its own message, and a message outside the fixed ones still carries
   * the original description after the prefix.
   */
  lemma AnalysisMessageIdentifiesFailure(f: Failure)
    ensures AnalysisMessageCategory(AnalysisFailureMessage(f)) == ClassifyAnalysisFailure(f)
    ensures ClassifyAnalysisFailure(f) == Unknown ==>
              ANALYSIS_FAILED_PREFIX <= AnalysisFailureMessage(f)
              && AnalysisFailureMessage(f)[|ANALYSIS_FAILED_PREFIX|..] == Describe(f)
  {
    var m := AnalysisFailureMessage(f);
    if ClassifyAnalysisFailure(f) == Unknown {
      assert ANALYSIS_FAILED_PREFIX[0] == 'F' && m[0] == 'F';
      assert INVALID_KEY_MESSAGE[0] == 'I' && SAFETY_MESSAGE[0] == 'T' && BUSY_MESSAGE[0] == 'T';
      assert m[|ANALYSIS_FAILED_PREFIX|..] == Describe(f);
    }
  }

  /** An `Error` whose message contains none of the markers passes through behind the prefix. */
  lemma UnmarkedErrorPassesThrough(message: string)
    requires !Includes(message, KEY_MARKER) && !Includes(message, SAFETY_MARKER)
    requires !Includes(message, QUOTA_MARKER) && !Includes(message, RATE_MARKER)
    ensures AnalysisFailureMessage(ErrorThrown(message)) == ANALYSIS_FAILED_PREFIX + message
  {
  }

  /** A quota failure reported as "RESOURCE_EXHAUSTED" reads as the busy message. */
  lemma ResourceExhaustedIsBusy(message: string)
    requires Includes(message, QUOTA_MARKER)
    requires !Includes(message, KEY_MARKER) && !Includes(message, SAFETY_MARKER)
    ensures AnalysisFailureMessage(ErrorThrown(message)) == BUSY_MESSAGE
  {
  }

  /** The message of the analysis when the parsed reply lacks its text. */
  const MISSING_ANALYSIS_TEXT := "AI response is missing required field: " + "analysisText."

  /**
   * An `Error` whose message lacks a capital P, S or R contains none of the markers, so the
   * analysis reports it behind the prefix.
   */
  lemma LetterlessErrorPassesThrough(m: string)
    requires 'P' !in m && 'S' !in m && 'R' !in m
    ensures AnalysisFailureMessage(ErrorThrown(m)) == ANALYSIS_FAILED_PREFIX + m
  {
    NotIncludedWithoutChar(m, KEY_MARKER, 'P');
    NotIncludedWithoutChar(m, SAFETY_MARKER, 'S');
    NotIncludedWithoutChar(m, QUOTA_MARKER, 'R');
    NotIncludedWithoutChar(m, RATE_MARKER, 'R');
  }

  /** The missing-field message has none of the letters the markers need. */
  lemma MissingFieldMessageLetters()
    ensures 'P' !in MISSING_ANALYSIS_TEXT && 'S' !in MISSING_ANALYSIS_TEXT && 'R' !in MISSING_ANALYSIS_TEXT
  {
    var opening, field := "AI response is missing required field: ", "analysisText.";
    assert MISSING_ANALYSIS_TEXT == opening + field;
    assert forall c :: c in "PSR" ==> c !in opening && c !in field;
  }

  // ---------------------------------------------------------------------------
  // The catch block of image generation

  const IMAGE_INVALID_KEY_MESSAGE := "Invalid API Key for image generation."
    + " Please check your configuration."
  const IMAGE_SAFETY_MESSAGE := "The image generation prompt was blocked"
    + " due to safety settings. Please try a different prompt."
  const IMAGE_RATE_MESSAGE := "Image generation rate limit exceeded."
    + " Please try again later."
  const IMAGE_INVALID_PROMPT_MESSAGE := "The provided prompt for image generation"
    + " was considered invalid by the AI. Try rephrasing."
  const IMAGE_FAILED_PREFIX := "Failed to generate image: "

  /** The image catch block's tests, in their order. */
  function ClassifyImageFailure(f: Failure): (c: FailureCategory)
    ensures c == InvalidApiKey <==> f.ErrorThrown? && Includes(f.message, KEY_MARKER)
    ensures c == InvalidPrompt ==> HasStringMessage(f) && Includes(f.message, PROMPT_MARKER)
  {
    if f.ErrorThrown? && Includes(f.message, KEY_MARKER) then InvalidApiKey
    else if HasStringMessage(f) && Includes(f.message, SAFETY_MARKER) then SafetyBlocked
    else if HasStringMessage(f) && Includes(f.message, RATE_EXCEEDED_MARKER) then RateLimited
    else if HasStringMessage(f) && Includes(f.message, PROMPT_MARKER) then InvalidPrompt
    else Unknown
  }

  /**
   * The image block's tests in their order: each marker chooses its category as soon as no
   * earlier test has matched, and a message with none of them is unknown.
   */
  lemma ImageMarkersInOrder(f: Failure)
    requires HasStringMessage(f)
    ensures Includes(f.message, SAFETY_MARKER) && !(f.ErrorThrown? && Includes(f.message, KEY_MARKER))
            ==> ClassifyImageFailure(f) == SafetyBlocked
    ensures Includes(f.message, RATE_EXCEEDED_MARKER) && !Includes(f.message, SAFETY_MARKER)
            && !(f.ErrorThrown? && Includes(f.message, KEY_MARKER))
            ==> ClassifyImageFailure(f) == RateLimited
    ensures Includes(f.message, PROMPT_MARKER) && !Includes(f.message, RATE_EXCEEDED_MARKER)
            && !Includes(f.message, SAFETY_MARKER) && !(f.ErrorThrown? && Includes(f.message, KEY_MARKER))
            ==> ClassifyImageFailure(f) == InvalidPrompt
    ensures !Includes(f.message, SAFETY_MARKER) && !Includes(f.message, RATE_EXCEEDED_MARKER)
            && !Includes(f.message, PROMPT_MARKER) && !(f.ErrorThrown? && Includes(f.message, KEY_MARKER))
            ==> ClassifyImageFailure(f) == Unknown
  {
  }

  /** A thrown value without a string message is never put in a fixed category by image generation either. */
  lemma MessagelessImageFailureIsUnknown(text: string)
    ensures ClassifyImageFailure(OtherThrown(text)) == Unknown
    ensures ImageFailureMessage(OtherThrown(text)) == IMAGE_FAILED_PREFIX + text
  {
  }

  /** The message of the `Error` the image catch block throws. */
  function ImageFailureMessage(f: Failure): string {
    match ClassifyImageFailure(f)
    case InvalidApiKey => IMAGE_INVALID_KEY_MESSAGE
    case SafetyBlocked => IMAGE_SAFETY_MESSAGE
    case RateLimited => IMAGE_RATE_MESSAGE
    case InvalidPrompt => IMAGE_INVALID_PROMPT_MESSAGE
    case Unknown => IMAGE_FAILED_PREFIX + Describe(f)
  }

  /** Reads the category back from a message of image generation. */
  function ImageMessageCategory(message: string): FailureCategory {
    if message == IMAGE_INVALID_KEY_MESSAGE then InvalidApiKey
    else if message == IMAGE_SAFETY_MESSAGE then SafetyBlocked
    else if message == IMAGE_RATE_MESSAGE then RateLimited
    else if message == IMAGE_INVALID_PROMPT_MESSAGE then InvalidPrompt
    else Unknown
  }

  /** The five outcomes of the image catch block are told apart by their messages. */
  lemma ImageMessageIdentifiesFailure(f: Failure)
    ensures ImageMessageCategory(ImageFailureMessage(f)) == ClassifyImageFailure(f)
    ensures ClassifyImageFailure(f) == Unknown ==>
              IMAGE_FAILED_PREFIX <= ImageFailureMessage(f)
              && ImageFailureMessage(f)[|IMAGE_FAILED_PREFIX|..] == Describe(f)
  {
    var m := ImageFailureMessage(f);
    assert IMAGE_INVALID_KEY_MESSAGE[1] == 'n' && IMAGE_RATE_MESSAGE[1] == 'm';
    assert IMAGE_SAFETY_MESSAGE[4] == 'i' && IMAGE_INVALID_PROMPT_MESSAGE[4] == 'p';
    if ClassifyImageFailure(f) == Unknown {
      assert IMAGE_FAILED_PREFIX[0] == 'F' && m[0] == 'F';
      assert IMAGE_INVALID_KEY_MESSAGE[0] == 'I' && IMAGE_SAFETY_MESSAGE[0] == 'T';
      assert IMAGE_RATE_MESSAGE[0] == 'I' && IMAGE_INVALID_PROMPT_MESSAGE[0] == 'T';
      assert m[|IMAGE_FAILED_PREFIX|..] == Describe(f);
    }
  }

  /** The message of image generation when the reply holds no image bytes. */
  const NO_IMAGE_MESSAGE := "AI did not return a valid image." + " No image data found."

  /**
   * An `Error` whose message lacks a capital P, S or R and a p contains none of the markers,
   * so image generation reports it behind the prefix.
   */
  lemma LetterlessImageErrorPassesThrough(m: string)
    requires 'P' !in m && 'S' !in m && 'R' !in m && 'p' !in m
    ensures ImageFailureMessage(ErrorThrown(m)) == IMAGE_FAILED_PREFIX + m
  {
    NotIncludedWithoutChar(m, KEY_MARKER, 'P');
    NotIncludedWithoutChar(m, SAFETY_MARKER, 'S');
    NotIncludedWithoutChar(m, RATE_EXCEEDED_MARKER, 'R');
    NotIncludedWithoutChar(m, PROMPT_MARKER, 'p');
  }

  /** The no-image message has none of the letters the markers need. */
  lemma NoImageMessageLetters()
    ensures 'P' !in NO_IMAGE_MESSAGE && 'S' !in NO_IMAGE_MESSAGE && 'R' !in NO_IMAGE_MESSAGE
    ensures 'p' !in NO_IMAGE_MESSAGE
  {
    var sentence, rest := "AI did not return a valid image.", " No image data found.";
    assert NO_IMAGE_MESSAGE == sentence + rest;
    assert forall c :: c in "PSRp" ==> c !in sentence && c !in rest;
  }

  // ---------------------------------------------------------------------------
  // The two catch blocks side by side

  /**
   * Whatever the image block recognises as a key, safety or rate failure, the analysis block
   * recognises the same way: its rate test looks for a shorter marker.
   */
  lemma ImageCategoriesAgreeWithAnalysis(f: Failure)
    requires ClassifyImageFailure(f) in {InvalidApiKey, SafetyBlocked, RateLimited}
    ensures ClassifyAnalysisFailure(f) == ClassifyImageFailure(f)
  {
    if ClassifyImageFailure(f) == RateLimited {
      assert RATE_MARKER <= RATE_EXCEEDED_MARKER;
      IncludesPartOf(f.message, RATE_MARKER, RATE_EXCEEDED_MARKER);
    }
  }

  /**
   * The converse fails: a failure whose only marker is "RESOURCE_EXHAUSTED" is busy for the
   * analysis and unknown for images.
   */
  lemma ResourceExhaustedOnlyCountsForAnalysis(f: Failure)
    requires HasStringMessage(f) && Includes(f.message, QUOTA_MARKER)
    requires !Includes(f.message, KEY_MARKER) && !Includes(f.message, SAFETY_MARKER)
    requires !Includes(f.message, RATE_MARKER) && !Includes(f.message, PROMPT_MARKER)
    ensures ClassifyAnalysisFailure(f) == RateLimited
    ensures ClassifyImageFailure(f) == Unknown
  {
    if Includes(f.message, RATE_EXCEEDED_MARKER) {
      IncludesPartOf(f.message, RATE_MARKER, RATE_EXCEEDED_MARKER);
    }
  }
}
