/**
 * `generateImageFromPrompt`: two guards, one request to the image model, the data URL built
 * from the first image's bytes, and the catch block of image generation.
 *
 * The remote model is the parameter `generateImages`, which gives the reply to a request.
 */
module ImageGeneration {
  import opened Wrappers
  import opened Js
  import opened Types
  import opened ServiceFailures
  import opened FileParts

  const IMAGE_MODEL := "imagen-3.0-generate-002"
  const IMAGE_MIME_TYPE := "image/jpeg"
  const IMAGE_KEY_MISSING := "API Key not configured for Gemini Service" + " (Imagen)."
  const EMPTY_PROMPT_MESSAGE := "Image generation prompt cannot be empty."
  const JPEG_DATA_URL_PREFIX := "data:image/jpeg;base64,"

  /** What is sent to the image model. */
  datatype ImagesRequest = ImagesRequest(model: string, prompt: string, numberOfImages: nat, outputMimeType: string)

  function ImagesRequestFor(prompt: string): ImagesRequest {
    ImagesRequest(IMAGE_MODEL, prompt, 1, IMAGE_MIME_TYPE)
  }

  /** An image of the reply; its bytes, base64 encoded, may be missing. */
  datatype ImageData = ImageData(imageBytes: Option<string>)
  datatype GeneratedImage = GeneratedImage(image: Option<ImageData>)

  /** The remote call either answers, possibly without a list of images, or throws. */
  datatype ImagesReply =
    | ImagesReturned(generatedImages: Option<seq<GeneratedImage>>)
    | ImagesCallFailed(failure: Failure)

  /** `generatedImages && generatedImages.length > 0 && generatedImages[0].image?.imageBytes`. */
  function FirstImageBytes(generatedImages: Option<seq<GeneratedImage>>): (bytes: Option<string>)
    ensures bytes.Some? <==>
              && generatedImages.Some? && |generatedImages.value| > 0
              && generatedImages.value[0].image.Some?
              && generatedImages.value[0].image.value.imageBytes.Some?
              && generatedImages.value[0].image.value.imageBytes.value != ""
    ensures bytes.Some? ==> bytes.value == generatedImages.value[0].image.value.imageBytes.value
  {
    match generatedImages
    case None => None
    case Some(images) =>
      if |images| == 0 then None
      else
        match images[0].image
        case None => None
        case Some(data) =>
          match data.imageBytes
          case Some(b) => if b != "" then Some(b) else None
          case None => None
  }

  /** The prompt fails the `!prompt || prompt.trim() === ""` test. */
  function IsBlankPrompt(prompt: string): (blank: bool)
    ensures blank <==> AllWhitespace(prompt)
  {
    Trim(prompt) == ""
  }

  /** How `generateImageFromPrompt` settles, given the model's reply to its request. */
  function ImageOutcome(apiKeyConfigured: bool, prompt: string, reply: ImagesReply): Result<string> {
    if !apiKeyConfigured then Err(IMAGE_KEY_MISSING)
    else if IsBlankPrompt(prompt) then Err(EMPTY_PROMPT_MESSAGE)
    else
      match reply
      case ImagesCallFailed(f) => Err(ImageFailureMessage(f))
      case ImagesReturned(images) =>
        match FirstImageBytes(images)
        case Some(bytes) => Ok(JPEG_DATA_URL_PREFIX + bytes)
        case None => Err(ImageFailureMessage(ErrorThrown(NO_IMAGE_MESSAGE)))
  }

  /** The image call: check the key and the prompt, ask the model, and package its first image. */
  method GenerateImageFromPrompt(apiKeyConfigured: bool, prompt: string, generateImages: ImagesRequest -> ImagesReply)
    returns (r: Result<string>)
    ensures r == ImageOutcome(apiKeyConfigured, prompt, generateImages(ImagesRequestFor(prompt)))
  {
    if !apiKeyConfigured {
      return Err(IMAGE_KEY_MISSING);
    }
    if prompt == "" || Trim(prompt) == "" {
      return Err(EMPTY_PROMPT_MESSAGE);
    }
    var thrown: Failure;
    match generateImages(ImagesRequestFor(prompt)) {
      case ImagesCallFailed(f) =>
        thrown := f;
      case ImagesReturned(images) =>
        var bytes := FirstImageBytes(images);
        if bytes.Some? {
          return Ok(JPEG_DATA_URL_PREFIX + bytes.value);
        }
        thrown := ErrorThrown(NO_IMAGE_MESSAGE);
    }
    return Err(ImageFailureMessage(thrown));
  }

  // ---------------------------------------------------------------------------
  // Properties

  /** A successful call had a usable prompt and returns the first image's bytes as a JPEG data URL. */
  lemma SuccessfulImageIsJpegDataUrl(apiKeyConfigured: bool, prompt: string, reply: ImagesReply)
    requires ImageOutcome(apiKeyConfigured, prompt, reply).Ok?
    ensures apiKeyConfigured && !IsBlankPrompt(prompt) && reply.ImagesReturned?
    ensures var url := ImageOutcome(apiKeyConfigured, prompt, reply).value;
            var bytes := FirstImageBytes(reply.generatedImages);
            && bytes.Some? && url == JPEG_DATA_URL_PREFIX + bytes.value
            && JPEG_DATA_URL_PREFIX <= url && |url| > |JPEG_DATA_URL_PREFIX|
  {
  }

  /** Conversely, with the key set and a usable prompt, a first image with bytes gives its JPEG data URL. */
  lemma ImageBytesGiveDataUrl(prompt: string, images: Option<seq<GeneratedImage>>)
    requires !IsBlankPrompt(prompt) && FirstImageBytes(images).Some?
    ensures ImageOutcome(true, prompt, ImagesReturned(images)) == Ok(JPEG_DATA_URL_PREFIX + FirstImageBytes(images).value)
  {
  }

  /** A prompt made only of whitespace is refused whatever the model would have answered. */
  lemma BlankPromptRejected(prompt: string, reply: ImagesReply)
    requires AllWhitespace(prompt)
    ensures ImageOutcome(true, prompt, reply) == Err(EMPTY_PROMPT_MESSAGE)
  {
  }

  /** The key is checked before the prompt, and neither guard's message is wrapped. */
  lemma GuardsComeFirst(prompt: string, reply: ImagesReply)
    ensures ImageOutcome(false, prompt, reply) == Err(IMAGE_KEY_MISSING)
    ensures IsBlankPrompt(prompt) ==> ImageOutcome(true, prompt, reply) == Err(EMPTY_PROMPT_MESSAGE)
    ensures !(IMAGE_FAILED_PREFIX <= IMAGE_KEY_MISSING) && !(IMAGE_FAILED_PREFIX <= EMPTY_PROMPT_MESSAGE)
  {
    assert IMAGE_FAILED_PREFIX[0] == 'F' && IMAGE_KEY_MISSING[0] == 'A' && EMPTY_PROMPT_MESSAGE[0] == 'I';
  }

  /**
   * A reply without usable bytes (no list, an empty list, no image, or empty bytes) is thrown
   * inside the `try` and so reaches the caller behind the catch block's prefix.
   */
  lemma NoImageDataReported(prompt: string, images: Option<seq<GeneratedImage>>)
    requires !IsBlankPrompt(prompt) && FirstImageBytes(images).None?
    ensures ImageOutcome(true, prompt, ImagesReturned(images)) == Err(IMAGE_FAILED_PREFIX + NO_IMAGE_MESSAGE)
  {
    NoImageMessageLetters();
    LetterlessImageErrorPassesThrough(NO_IMAGE_MESSAGE);
  }

  /** An empty list of images is one such reply. */
  lemma EmptyImageListReported(prompt: string)
    requires !IsBlankPrompt(prompt)
    ensures ImageOutcome(true, prompt, ImagesReturned(Some([]))) == Err(IMAGE_FAILED_PREFIX + NO_IMAGE_MESSAGE)
  {
    NoImageDataReported(prompt, Some([]));
  }

  /** A generated image's data URL is split by the upload path back into its bytes and JPEG type. */
  lemma GeneratedImageSplitsBack(apiKeyConfigured: bool, prompt: string, reply: ImagesReply)
    requires ImageOutcome(apiKeyConfigured, prompt, reply).Ok?
    ensures SplitDataUrl(ImageOutcome(apiKeyConfigured, prompt, reply).value)
            == Ok(Base64File(FirstImageBytes(reply.generatedImages).value, IMAGE_MIME_TYPE))
  {
    JpegDataUrlSplitsBack(FirstImageBytes(reply.generatedImages).value);
  }

  /** The JPEG data URL of any non-empty payload splits back into that payload and type. */
  lemma JpegDataUrlSplitsBack(bytes: string)
    requires bytes != ""
    ensures SplitDataUrl(JPEG_DATA_URL_PREFIX + bytes) == Ok(Base64File(bytes, IMAGE_MIME_TYPE))
  {
    var mimeType := IMAGE_MIME_TYPE;
    assert ';' !in mimeType && ',' !in mimeType;
    assert JPEG_DATA_URL_PREFIX + bytes == DataUrl("data", mimeType, "base64", bytes);
    SplitDataUrlRoundTrip("data", mimeType, "base64", bytes);
  }
}
