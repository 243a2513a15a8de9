# cam-shot Gemini service, modelled in Dafny

cam-shot asks Gemini to look at a photo. The reply says how to make the shot more cinematic:
a text, plus either a crop rectangle or a prompt for generating a new image. It can then ask
Imagen to generate that image. All of the decision logic lives in `services/geminiService.ts`.
This project models that logic and proves what it guarantees.

- `analyzeAndSuggestCinematicFrame`, in module `CinematicAnalysis`:
  - the temperature picked for an attempt;
  - the code fence stripped from the reply;
  - the required `analysisText`;
  - the rule that a crop box beats a concept prompt;
  - the bounds check that silently replaces an invalid box by `null`.

  The method `AnalyzeAndSuggestCinematicFrame` follows the source step by step. Two of its
  steps are methods of their own:
  - `StripFence` reassigns `jsonStr`;
  - `RepairSuggestion` overwrites `parsedData`'s fields in place.

  It is proved equal to the function `AnalysisOutcome`, and the properties are lemmas about
  that function.
- The two `catch` blocks, in module `ServiceFailures`. Each is a chain of substring tests that
  picks a fixed message, with a prefixed pass-through as the fallback.
- `generateImageFromPrompt`, in module `ImageGeneration`: its two guards, the data URL built
  from the first image's bytes, and the "no image data" failure.
- The string split in `fileToParts`, in module `FileParts`.
- The check `CroppedImageViewer` makes before cropping, in module `CroppedImageViewer`. Every
  box the service accepts passes it.

The JavaScript built-ins the code relies on are modelled in module `Js`:
- `trim` and the `\s` class;
- `\w`;
- `includes`, `indexOf` and `substring`, where `substring` clamps and swaps its indices;
- truthiness;
- the truncating `%`.

A parsed reply is a dynamically typed `JsValue`, because the `as AiCinematicSuggestion` cast
checks nothing. `ConformsToSuggestion` and `ToSuggestion` give the typed view from `types.ts`.

The remote calls and `JSON.parse` are parameters, not part of the model:
- `generateContent` and `generateImages` are functions from the request to the reply or the
  thrown failure;
- `parse` gives the parse outcome for a text;
- the `API_KEY` check is a boolean.

## Model

| member | source | states |
|---|---|---|
| Js.Trim | services/geminiService.ts:134 | the result has no whitespace at either end, sits inside the input with only whitespace around it, and is empty exactly when the input is all whitespace |
| Js.IndexOf | services/geminiService.ts:22-23 | -1 exactly when the character is absent, else a position holding it with none before |
| Js.Includes | services/geminiService.ts:174-221 | `includes`: a text includes a part that starts it or that its tail includes |
| Js.IncludesIffOccurs | services/geminiService.ts:174-221 | `includes` holds exactly when the part occurs at some offset of the text |
| Js.Truthy | services/geminiService.ts:143-166 | JavaScript truthiness: `undefined`, `null`, `false`, 0, and the empty string are falsy, everything else truthy |
| Js.Get | services/geminiService.ts:143-154 | a property read on a non-nullish value: the field of an object, `undefined` on any other value |
| Js.IsWhitespace | services/geminiService.ts:134-135 | the `\s` class and the set `trim` removes: the WhiteSpace and LineTerminator characters |
| Js.IsWordChar | services/geminiService.ts:135 | the `\w` class: ASCII letters, digits and underscore |
| Js.Substring | services/geminiService.ts:22-23 | in-range indices give the slice between them, reversed ones the slice between them swapped; a negative index counts as 0 and one past the end as the length, in either argument and with both out of range at once |
| Js.JsRemainder | services/geminiService.ts:120 | JavaScript's `%`: the remainder has the dividend's sign, its magnitude is the dividend's magnitude modulo the divisor, and it is smaller in magnitude than the divisor |
| CinematicAnalysis.Temperature | services/geminiService.ts:120 | attempts from 1 on get table entry (n-1) mod 5; below 1 the index is negative and reads undefined, except a -0 index, which reads 0.65; every temperature sent is one of the five |
| CinematicAnalysis.TemperatureRepeatsEveryFiveAttempts | services/geminiService.ts:120 | attempts n and n+5 use the same temperature |
| CinematicAnalysis.FirstAndSixthAttemptsShareTemperature | services/geminiService.ts:14 | attempts 1 and 6 both run at 0.65 |
| CinematicAnalysis.ResetAttemptCountSendsNoTemperature | services/geminiService.ts:120 | attempt 0 sends no temperature; attempt -4 reads the first entry |
| CinematicAnalysis.AnalysisRequest | services/geminiService.ts:115-132 | the request: model "gemini-2.5-flash-preview-04-17", the image part with its type and data, JSON response type, and the rotated temperature |
| CinematicAnalysis.MatchFence | services/geminiService.ts:135-136 | the fence expression matches exactly the texts that open and close with three backticks, and splits them as the greedy tag, greedy whitespace and lazy body do |
| CinematicAnalysis.MatchesFenceRegex | services/geminiService.ts:135 | what a match of the fence expression is: opening and closing backticks, a maximal run of word characters, a maximal run of whitespace, and the shortest body before trailing whitespace and the closing fence |
| CinematicAnalysis.FenceScan | services/geminiService.ts:135-136 | the positions found by scanning `\w`, then `\s`, and `\s` back from the closing fence are a match of the expression |
| CinematicAnalysis.StripFence | services/geminiService.ts:134-139 | the step-by-step stripping hands the parser exactly `ParserInput` of the reply |
| CinematicAnalysis.FenceMatchIsUnique | services/geminiService.ts:135 | the expression's split of a fenced text is unique |
| CinematicAnalysis.FenceBodyIsTrimmed | services/geminiService.ts:135-138 | the captured body has no whitespace at its ends, so the second `trim` is a no-op |
| CinematicAnalysis.ParserInput | services/geminiService.ts:134-139 | the text handed to `JSON.parse` has no whitespace at its ends |
| CinematicAnalysis.UnfencedTextIsOnlyTrimmed | services/geminiService.ts:134-139 | a reply that is not fenced after trimming is only trimmed |
| CinematicAnalysis.ParserGetsFenceBody | services/geminiService.ts:136-138 | a fenced reply with a non-empty body hands exactly that body to the parser |
| CinematicAnalysis.FenceAroundObjectText | services/geminiService.ts:135 | where the expression splits "```" + tag + "\n" + object text + "\n```" |
| CinematicAnalysis.ObjectTextReachesParserUnchanged | services/geminiService.ts:134-139 | an unfenced object text reaches the parser unchanged |
| CinematicAnalysis.FencedObjectTextParsesAlike | services/geminiService.ts:134-139 | a fenced object text reaches the parser exactly as the bare text does |
| CinematicAnalysis.FencedReplyAnalyzedAlike | services/geminiService.ts:134-141 | a fenced object reply and the bare reply settle the whole call the same way |
| CinematicAnalysis.NormalizedFields | services/geminiService.ts:147-163 | other fields untouched; the prompt becomes null exactly when box and prompt are both truthy; a truthy box is kept exactly when it is acceptable, else becomes null; afterwards at most one of the two is truthy, and a truthy box is acceptable |
| CinematicAnalysis.BoxOf | services/geminiService.ts:153-154 | a box has coordinates exactly when it is an object whose x, y, width and height are all numbers, and they are those numbers |
| CinematicAnalysis.BoxWithinImage | services/geminiService.ts:155-159 | positive width and height, x and y in [0, 1], width and height at most 1, far edges at most 1.001 |
| CinematicAnalysis.IsAcceptableBox | services/geminiService.ts:153-159 | a box passes the type test and the bounds test |
| CinematicAnalysis.RepairsInTurnNormalize | services/geminiService.ts:147-163 | the prompt repair followed by the box repair, in the source's order, gives `NormalizedFields` |
| CinematicAnalysis.YieldPromptToBox | services/geminiService.ts:147-150 | a truthy box beside a truthy prompt sets the prompt to null |
| CinematicAnalysis.DropInvalidBox | services/geminiService.ts:152-163 | a truthy box that fails the type or bounds test is set to null |
| CinematicAnalysis.RepairSuggestion | services/geminiService.ts:147-163 | the step-by-step overwrites of the parsed object leave it as `NormalizedFields` of the original |
| CinematicAnalysis.BothSuppliedWithInvalidBoxGivesNeither | services/geminiService.ts:147-163 | both fields supplied with an invalid box comes back with both null |
| CinematicAnalysis.Normalized | services/geminiService.ts:141-170 | the call returns exactly when the parse succeeded with a truthy `analysisText`; the result is `NormalizedFields` of the parsed object, keeps that text and satisfies the suggestion invariant; a missing or falsy text throws the missing-field error, a parse failure throws its own error, and a `null` or `undefined` parse throws the `TypeError` of reading `analysisText` |
| CinematicAnalysis.CannotReadAnalysisText | services/geminiService.ts:143 | the `TypeError` message of reading `analysisText` from a `null` or `undefined` parse |
| CinematicAnalysis.AnalyzeAndSuggestCinematicFrame | services/geminiService.ts:34-187 | the step-by-step method settles as `AnalysisOutcome` of the reply to its request |
| CinematicAnalysis.AnalysisOutcome | services/geminiService.ts:39-186 | the unset-key guard outside the `try`, then the `try` block's completion, with a thrown failure turned into the catch block's message |
| CinematicAnalysis.TryAnalysis | services/geminiService.ts:124-170 | the `try` block: a failed remote call throws its failure, a reply goes through fence stripping, parsing and normalisation |
| CinematicAnalysis.MissingAnalysisTextReported | services/geminiService.ts:143-185 | a parsed reply with a falsy `analysisText` fails with "Failed to get cinematic suggestion from AI: AI response is missing required field: analysisText." |
| CinematicAnalysis.MalformedReplyReported | services/geminiService.ts:141-185 | a reply `JSON.parse` rejects settles the whole call as the catch block's message for that parse error |
| CinematicAnalysis.NullReplyReported | services/geminiService.ts:141-185 | a reply that parses to `null` settles the whole call as the catch block's message for the `TypeError` of reading `analysisText` |
| CinematicAnalysis.MissingApiKeyIsNotWrapped | services/geminiService.ts:39 | with no key the call fails with the unwrapped key message whatever the model would answer |
| CinematicAnalysis.SuccessfulAnalysisIsConsistent | services/geminiService.ts:141-170 | every successful result has a truthy `analysisText` taken unchanged from the parsed reply, at most one of box and prompt truthy, and only an acceptable box |
| CinematicAnalysis.NormalizationKeepsDeclaredShape | types.ts:8-12 | a reply of the declared shape keeps that shape through the repairs |
| CinematicAnalysis.TypedSuggestionInvariant | types.ts:8-12 | in typed terms: the text is non-empty, and a box lies within the image with no concept prompt beside it but an empty one |
| CinematicAnalysis.ParsedObjectSettles | services/geminiService.ts:141-170 | a reply parsed into an object with a truthy `analysisText` makes the whole call return that object normalised, the converse of the consistency lemma |
| CinematicAnalysis.CropSuggestionKept | services/geminiService.ts:141-170 | any parsed object with a truthy `analysisText`, an acceptable box and no truthy concept prompt makes the whole call return that object unchanged |
| CinematicAnalysis.OverflowingBoxDropped | services/geminiService.ts:141-170 | any parsed object with a truthy `analysisText`, a truthy box that fails the type or bounds test and no truthy concept prompt makes the whole call succeed with the box replaced by null and nothing else changed |
| CinematicAnalysis.LonePromptKept | services/geminiService.ts:141-170 | any parsed object with a truthy `analysisText` and no truthy box, whatever its concept prompt, makes the whole call return that object unchanged |
| CinematicAnalysis.CropSuggestionExample | services/geminiService.ts:141-170 | the reply with box (0.1, 0.1, 0.8, 0.9) and a null prompt comes back unchanged |
| CinematicAnalysis.OverflowingBoxExample | services/geminiService.ts:141-170 | the reply with box (0.9, 0.9, 0.5, 0.5) and a null prompt comes back with the box set to null |
| ServiceFailures.ClassifyAnalysisFailure | services/geminiService.ts:174-184 | the invalid-key category is chosen exactly for an `Error` whose message contains "API key not valid"; the analysis never reports an invalid prompt |
| ServiceFailures.HasStringMessage | services/geminiService.ts:177 | the thrown value is an `Error` or an object whose `message` is a string |
| ServiceFailures.Describe | services/geminiService.ts:185 | the text after the prefix: the message of an `Error`, else `String(error)` |
| ServiceFailures.AnalysisMarkersInOrder | services/geminiService.ts:174-184 | for any failure with a string message: "SAFETY" gives safety once the key test fails; "RESOURCE_EXHAUSTED" or "Rate limit" give busy once key and safety fail; none of the markers gives the fallback |
| ServiceFailures.KeyMarkerNeedsError | services/geminiService.ts:174-177 | the key marker is a key failure on an `Error` but not on another object with the same message |
| ServiceFailures.MessagelessFailureIsUnknown | services/geminiService.ts:177-185 | a thrown value without a string message always falls through to the prefix plus `String(error)` |
| ServiceFailures.AnalysisFailureMessage | services/geminiService.ts:174-185 | the message the analysis catch block throws for each category |
| ServiceFailures.AnalysisMessageIdentifiesFailure | services/geminiService.ts:172-186 | each category of the analysis has its own message, and the fallback message is the prefix followed by the original description |
| ServiceFailures.UnmarkedErrorPassesThrough | services/geminiService.ts:185 | an `Error` with none of the markers comes back as the prefix plus its message |
| ServiceFailures.ResourceExhaustedIsBusy | services/geminiService.ts:181-182 | "RESOURCE_EXHAUSTED" without an earlier marker gives the busy message |
| ServiceFailures.LetterlessErrorPassesThrough | services/geminiService.ts:174-185 | a message lacking the capitals P, S and R can match no marker of the analysis and passes through behind the prefix |
| ServiceFailures.MissingFieldMessageLetters | services/geminiService.ts:144 | the missing-field message lacks those letters |
| ServiceFailures.ClassifyImageFailure | services/geminiService.ts:211-224 | invalid key exactly for an `Error` containing "API key not valid"; an invalid prompt only for a string message containing "Invalid prompt" |
| ServiceFailures.ImageMarkersInOrder | services/geminiService.ts:211-223 | for any failure with a string message: "SAFETY" gives safety once the key test fails; "Rate limit exceeded" gives the rate category once key and safety fail; "Invalid prompt" gives an invalid prompt once the three before fail; none of them gives the fallback |
| ServiceFailures.MessagelessImageFailureIsUnknown | services/geminiService.ts:214-225 | a thrown value without a string message falls through to the image prefix plus `String(error)` |
| ServiceFailures.ImageFailureMessage | services/geminiService.ts:211-225 | the message the image catch block throws for each category |
| ServiceFailures.ImageMessageIdentifiesFailure | services/geminiService.ts:209-226 | each category of image generation has its own message, and the fallback message is the prefix followed by the original description |
| ServiceFailures.LetterlessImageErrorPassesThrough | services/geminiService.ts:211-225 | a message lacking P, S, R and p can match no image marker and passes through behind the prefix |
| ServiceFailures.NoImageMessageLetters | services/geminiService.ts:207 | the no-image message lacks those letters |
| ServiceFailures.ImageCategoriesAgreeWithAnalysis | services/geminiService.ts:174-219 | whatever image generation reports as a key, safety or rate failure, the analysis reports the same way |
| ServiceFailures.ResourceExhaustedOnlyCountsForAnalysis | services/geminiService.ts:181-218 | a failure whose only marker is "RESOURCE_EXHAUSTED" is busy for the analysis but unknown for image generation |
| FileParts.SplitDataUrlAsWritten | services/geminiService.ts:22-28 | as written: a result has non-empty type and payload, and every rejection carries the parse-failure message |
| FileParts.SplitDataUrl | services/geminiService.ts:22-28 | as intended: every result has non-empty type and payload, and every rejection carries the parse-failure message |
| FileParts.AcceptedSplitPositions | services/geminiService.ts:22-23 | an accepted URL has its first ':' before its first ';' before its first ',', and the parts are cut between them |
| FileParts.SplitDataUrlRoundTrip | services/geminiService.ts:22-28 | a URL head ":" type ";" parameters "," payload, with no part holding a delimiter found before its own and type and payload non-empty, splits back into exactly that type and payload |
| FileParts.SplitDataUrlRecoversParts | services/geminiService.ts:22-28 | conversely, every accepted URL is put together from such separable parts around the type and payload the split returned, so the two lemmas characterise what the split accepts |
| FileParts.AcceptedSplitAgreesAsWritten | services/geminiService.ts:22-28 | on every URL the corrected split accepts, the split as written returns the same type and payload |
| FileParts.HeaderOnlyAcceptedAsWritten | services/geminiService.ts:22-25 | as written, "data:" is accepted with "data:" as both type and payload; as intended it is refused |
| ImageGeneration.FirstImageBytes | services/geminiService.ts:203-204 | bytes are found exactly when there is a non-empty list whose first image has non-empty bytes, and they are those bytes |
| ImageGeneration.ImagesRequestFor | services/geminiService.ts:194-201 | the request: model "imagen-3.0-generate-002", the prompt, one image, JPEG output |
| ImageGeneration.GenerateImageFromPrompt | services/geminiService.ts:190-227 | the step-by-step method settles as `ImageOutcome` of the reply to its request |
| ImageGeneration.ImageOutcome | services/geminiService.ts:191-226 | the key guard, the prompt guard, then the `try` block, with a thrown failure turned into the catch block's message |
| ImageGeneration.IsBlankPrompt | services/geminiService.ts:192 | a prompt is refused exactly when it is empty or made only of whitespace |
| ImageGeneration.SuccessfulImageIsJpegDataUrl | services/geminiService.ts:203-205 | a success had the key, a non-blank prompt and image bytes, and is "data:image/jpeg;base64," followed by those bytes |
| ImageGeneration.ImageBytesGiveDataUrl | services/geminiService.ts:203-205 | conversely, with the key set and a non-blank prompt, a first image with bytes makes the call return "data:image/jpeg;base64," followed by those bytes |
| ImageGeneration.BlankPromptRejected | services/geminiService.ts:192 | an empty or whitespace-only prompt is refused whatever the model would answer |
| ImageGeneration.GuardsComeFirst | services/geminiService.ts:191-192 | the key guard comes before the prompt guard, and neither message is wrapped |
| ImageGeneration.NoImageDataReported | services/geminiService.ts:203-225 | a reply without usable bytes fails with "Failed to generate image: AI did not return a valid image. No image data found." |
| ImageGeneration.EmptyImageListReported | services/geminiService.ts:203-207 | an empty list of images is such a reply |
| ImageGeneration.JpegDataUrlSplitsBack | services/geminiService.ts:205 | a consistency fact between the two data URL formats of the service (the source never feeds a generated image to the upload path): the JPEG data URL of a payload splits back into that payload and "image/jpeg" |
| ImageGeneration.GeneratedImageSplitsBack | services/geminiService.ts:205 | the same consistency fact for a generated image: its data URL, if it were uploaded, would split back into its bytes and the JPEG type |
| CroppedImageViewer.AcceptedBoxIsDrawnAsCrop | components/CroppedImageViewer.tsx:26-30 | every box within the service's bounds passes the viewer's check |
| CroppedImageViewer.DrawsCrop | components/CroppedImageViewer.tsx:26-30 | the viewer crops when a box is present, has positive width and height, non-negative x and y, and far edges at most 1.001 |
| CroppedImageViewer.SuggestedBoxIsDrawnAsCrop | components/CroppedImageViewer.tsx:26-30 | the truthy box of any object meeting the suggestion invariant is drawn as a crop, whatever the types of its other fields |
| CroppedImageViewer.ReturnedBoxIsDrawnAsCrop | components/CroppedImageViewer.tsx:26-30 | the truthy box of any successful analysis result, which App.tsx hands to the viewer, is drawn as a crop, never through the fallback |
| CroppedImageViewer.ViewerCheckIsLooser | components/CroppedImageViewer.tsx:26-30 | the viewer's check is strictly looser: it passes a box starting at x = 1.0005 that the service drops |

## Left out

- The Gemini and Imagen SDK calls (`GoogleGenAI`, `generateContent`, `generateImages`) are network I/O. They are function parameters from request to reply.
- `JSON.parse` is a parameter. No JSON grammar is modelled.
- The `API_KEY` environment variable is a boolean parameter.
- The `FileReader` in `fileToParts`, and its error path, are asynchronous I/O. Only the string split is modelled.
- The text of the analysis instruction (the prompt template) is constant text and is not modelled. The image part of the request and the temperature are.
- `console.*` logging has no effect on results and is not modelled.
- App.tsx is React state; it always passes attempt numbers from 1 upwards.
- The canvas drawing in `CroppedImageViewer` is pixel geometry. Only its guard is modelled.
- Numbers are exact reals. IEEE rounding of `x + width` is not modelled, and `NaN` cannot come out of `JSON.parse`. `JSON.parse` can produce ±Infinity (from a literal such as `1e400`), which a real cannot hold. Nothing is lost: the bounds tests at lines 156-158 reject an infinite coordinate, as they reject any value above 1 or below 0.
- Strings are sequences of Unicode characters, not UTF-16 code units.
- A property that is present but `undefined` is the same as an absent one. `JSON.parse` never produces such a property.
- The message of the `TypeError` raised when the parsed value is `null` or `undefined` follows the V8 engine's wording. Other engines word it differently.
- `response.text` is a string. An SDK reply without text, which would throw on `.trim()`, is not modelled.
- ImageGeneration.GenerateImageFromPrompt: the prompt is a string. App.tsx passes on any truthy `cinematicConceptPrompt`, and the `as` cast checks nothing, so a number or object prompt would throw an unwrapped `TypeError` at `prompt.trim()`. That path is not modelled.
- The default `attemptCount = 1` of `analyzeAndSuggestCinematicFrame` is not a separate entry point: omitting the argument is the call with attempt 1, and App.tsx always passes it.
- ImageGeneration.GenerateImageFromPrompt: the remote call is a function, so the model does not show that a rejected prompt makes no request. `BlankPromptRejected` and `GuardsComeFirst` show that the outcome does not depend on the reply.
- CinematicAnalysis.AnalyzeAndSuggestCinematicFrame: the `parsedData` object is a map value. An alias of the parsed object that the caller could see is not modelled, and no such alias exists in the source.

## Findings

| source | as written | input that shows it | evidently intended | confidence | as-written member | corrected member |
|---|---|---|---|---|---|---|
| services/geminiService.ts:22-27 | a missing ';' or ',' makes `indexOf` return -1; `substring` then clamps and swaps its indices, so both parts come out non-empty and the emptiness check passes | the data URL "data:" is accepted with type "data:" and payload "data:" | reject a URL without ':' before ';' before ',' (the "data:<type>;base64,<payload>" layout) | not executed | FileParts.HeaderOnlyAcceptedAsWritten | FileParts.SplitDataUrl |
