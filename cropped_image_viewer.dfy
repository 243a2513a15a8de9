/**
 * The check `CroppedImageViewer` makes before it crops: a box it does not trust makes it fall
 * back to drawing the whole image. Only the check is modelled, not the drawing.
 */
module CroppedImageViewer {
  import opened Wrappers
  import opened Js
  import opened Types
  import opened CinematicAnalysis

  /** The viewer crops to the box: there is one, it is not empty, and it stays within the tolerance. */
  predicate DrawsCrop(box: Option<BoundingBox>) {
    && box.Some?
    && !(|| box.value.width <= 0.0 || box.value.height <= 0.0
         || box.value.x < 0.0 || box.value.y < 0.0
         || box.value.x + box.value.width > 1.001
         || box.value.y + box.value.height > 1.001)
  }

  /** Every box the service accepts is one the viewer crops to. */
  lemma AcceptedBoxIsDrawnAsCrop(b: BoundingBox)
    requires BoxWithinImage(b)
    ensures DrawsCrop(Some(b))
  {
  }

  /**
   * So the box of any suggestion the analysis returned, whatever the types of its other
   * fields, never sends the viewer to its fallback.
   */
  lemma SuggestedBoxIsDrawnAsCrop(obj: JsObject)
    requires SuggestionInvariant(obj) && Truthy(Field(obj, BOX))
    ensures DrawsCrop(BoxOf(Field(obj, BOX)))
  {
    AcceptedBoxIsDrawnAsCrop(BoxOf(Field(obj, BOX)).value);
  }

  /** In particular for the result of a successful call. */
  lemma ReturnedBoxIsDrawnAsCrop(apiKeyConfigured: bool, text: string, parse: string -> ParseOutcome)
    requires AnalysisOutcome(apiKeyConfigured, Replied(text), parse).Ok?
    requires Truthy(Field(AnalysisOutcome(apiKeyConfigured, Replied(text), parse).value, BOX))
    ensures DrawsCrop(BoxOf(Field(AnalysisOutcome(apiKeyConfigured, Replied(text), parse).value, BOX)))
  {
    SuccessfulAnalysisIsConsistent(apiKeyConfigured, text, parse);
    SuggestedBoxIsDrawnAsCrop(AnalysisOutcome(apiKeyConfigured, Replied(text), parse).value);
  }

  /** The viewer's check is strictly looser: it lets through a box starting past the right edge. */
  lemma ViewerCheckIsLooser()
    ensures var b := BoundingBox(1.0005, 0.0, 0.0005, 0.5);
            DrawsCrop(Some(b)) && !BoxWithinImage(b)
  {
  }

}
