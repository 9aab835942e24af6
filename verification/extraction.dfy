/**
 * One call of `extract_receipt_data`: build the client, read and encode the image,
 * send the extraction prompt with the image attached, and recover a value from the
 * reply. Everything outside the program (environment, filesystem, the service, the
 * JSON library) is a field of `World`. The prompt is the same text for every image
 * (`Prompt.ExtractionPrompt`, the template around the fixed policy and schema), and
 * `World` fixes one reply per attached image: two requests with one image get the same
 * reply, although the service samples its answer.
 */
module Extraction {
  import opened Wrappers
  import opened JsonValue
  import opened Recovery

  /** What the modelled code sees of the outside world. */
  datatype World = World(
    // os.environ.get("GROQ_API_KEY"), after the optional .env loading at start-up
    envKey: Option<string>,
    // os.path.exists
    pathExists: string -> bool,
    // the names in a directory, in the order glob reports them
    listDir: string -> seq<string>,
    // whether Groq(api_key=...) returns a client for this key rather than raising
    clientBuilds: Option<string> -> bool,
    // encode_image: the base64 text of a file, or None when reading it raises
    encode: string -> Option<string>,
    // the reply text of the chat completion that sends the extraction prompt with this
    // image URL, or None when the call raises; one fixed reply per image URL
    complete: string -> Option<string>,
    // json.loads: a value, json.JSONDecodeError, or another exception
    parse: string -> Loaded)

  /** The end of one extraction: an exception escaped it, or it returned a value or None. */
  datatype Outcome = Raised | Returned(data: Option<Json>)

  /** `api_key or os.environ.get("GROQ_API_KEY")`: an explicit key unless it is missing or empty. */
  function ClientKey(apiKey: Option<string>, envKey: Option<string>): (key: Option<string>)
    ensures apiKey.Some? && apiKey.value != "" ==> key == apiKey
    ensures apiKey.None? || apiKey.value == "" ==> key == envKey
  {
    if apiKey.Some? && apiKey.value != "" then apiKey else envKey
  }

  const ImageUrlPrefix: string := "data:image/jpeg;base64,"

  /** The inline image reference: every image is tagged as JPEG. */
  function ImageUrl(base64Image: string): (url: string)
    ensures ImageUrlPrefix <= url && url[|ImageUrlPrefix|..] == base64Image
  {
    ImageUrlPrefix + base64Image
  }

  /** Distinct encoded images give distinct URLs, so a reply fixed per URL is a reply fixed per image. */
  lemma ImageUrlInjective(a: string, b: string)
    ensures ImageUrl(a) == ImageUrl(b) <==> a == b
  {
  }

  /** The reply to the one request made for an encoded image. */
  function ServiceReply(w: World, base64Image: string): Option<string> {
    w.complete(ImageUrl(base64Image))
  }

  /**
   * `extract_receipt_data(image_path, api_key)`. Building the client and encoding the
   * image happen before the `try`, so their failures escape; inside it a failed call,
   * a reply whose parse raises something other than a decoding error, a reply without
   * a brace span and a span that does not parse all become None.
   */
  function ExtractReceiptData(w: World, imagePath: string, apiKey: Option<string>): (r: Outcome)
    ensures r.Raised? <==> !w.clientBuilds(ClientKey(apiKey, w.envKey)) || w.encode(imagePath).None?
  {
    if !w.clientBuilds(ClientKey(apiKey, w.envKey)) then Raised
    else match w.encode(imagePath)
      case None => Raised
      case Some(image) =>
        match ServiceReply(w, image)
        case None => Returned(None)
        case Some(reply) => Returned(Recover(reply, w.parse))
  }

  /** The reply obtained for the image at a path, when it can be encoded. */
  function ImageReply(w: World, imagePath: string): Option<string> {
    match w.encode(imagePath)
    case None => None
    case Some(image) => ServiceReply(w, image)
  }

  /**
   * Once the client exists and the image is encoded, nothing escapes: a service failure,
   * a reply whose parse raises anything but a decoding error, a reply with neither a
   * parse nor a brace match, and a brace span that does not parse each give None, and a
   * value is returned only when the reply or one of its brace matches parses to it.
   */
  lemma ExtractFailuresBecomeNone(w: World, imagePath: string, apiKey: Option<string>, reply: string)
    requires w.clientBuilds(ClientKey(apiKey, w.envKey)) && w.encode(imagePath).Some?
    ensures ExtractReceiptData(w, imagePath, apiKey).Returned?
    ensures ImageReply(w, imagePath).None? ==> ExtractReceiptData(w, imagePath, apiKey) == Returned(None)
    ensures ImageReply(w, imagePath) == Some(reply) && w.parse(reply).Parsed? ==>
      ExtractReceiptData(w, imagePath, apiKey) == Returned(Some(w.parse(reply).value))
    ensures ImageReply(w, imagePath) == Some(reply) && w.parse(reply).OtherError? ==>
      ExtractReceiptData(w, imagePath, apiKey) == Returned(None)
    ensures ImageReply(w, imagePath) == Some(reply) && w.parse(reply).DecodeError? && (forall i, j :: !BraceMatch(reply, i, j)) ==>
      ExtractReceiptData(w, imagePath, apiKey) == Returned(None)
    ensures ImageReply(w, imagePath) == Some(reply) && w.parse(reply).DecodeError? && BraceSpan(reply).Some? && !w.parse(BraceSpan(reply).value).Parsed? ==>
      ExtractReceiptData(w, imagePath, apiKey) == Returned(None)
    ensures ImageReply(w, imagePath) == Some(reply) && ExtractReceiptData(w, imagePath, apiKey).data.Some? ==>
      w.parse(reply) == Parsed(ExtractReceiptData(w, imagePath, apiKey).data.value)
      || exists i, j :: BraceMatch(reply, i, j) && w.parse(reply[i..j]) == Parsed(ExtractReceiptData(w, imagePath, apiKey).data.value)
  {
    RecoverSpec(reply, w.parse);
  }
}
