/** The record shapes the service declares for its results. */
module Types {
  import opened Wrappers

  /** A crop rectangle, each coordinate a fraction of the image's width or height. */
  datatype BoundingBox = BoundingBox(x: real, y: real, width: real, height: real)

  /** The advice one analysis returns: text, and either a crop or a concept prompt (or neither). */
  datatype AiCinematicSuggestion = AiCinematicSuggestion(
    analysisText: string,
    suggestedBoundingBox: Option<BoundingBox>,
    cinematicConceptPrompt: Option<string>)

  /** An uploaded image: its base64 payload without the data-URL header, and its MIME type. */
  datatype Base64File = Base64File(base64Data: string, mimeType: string)
}
