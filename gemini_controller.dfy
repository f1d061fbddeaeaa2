/** The image-generation handler: validate the body, generate, and answer
    either the JSON result or, for `return=binary`, the single image as raw
    bytes; provider and key failures are answered with their own status. */
module GeminiController {
  import opened Wrappers
  import opened Api
  import Text
  import KeyManager
  import GeminiClient

  /** The request body; a number field that is not an integer, or a field of
      the wrong JSON type, is outside the model. */
  datatype ImageRequest = ImageRequest(
    prompt: string,
    width: Option<int>,
    height: Option<int>,
    style: Option<string>,
    n: Option<int>,
    returnMode: Option<string>,
    clientRequestId: Option<string>)

  predicate Positive(o: Option<int>) {
    o.None? || o.value > 0
  }

  predicate AtMost(o: Option<string>, n: nat) {
    o.None? || |o.value| <= n
  }

  /** `generateSchema.safeParse(...).success`. */
  function SchemaAccepts(req: ImageRequest): (accepted: bool)
    ensures accepted ==> 3 <= |req.prompt| <= 5000 && (req.n.None? || 1 <= req.n.value <= 10)
    ensures accepted ==>
      (Positive(req.width) && Positive(req.height)
       && AtMost(req.style, 100) && AtMost(req.clientRequestId, 100)
       && (req.returnMode.None? || req.returnMode.value in {"base64", "url", "binary"}))
  {
    3 <= |req.prompt| <= 5000
    && Positive(req.width) && Positive(req.height)
    && AtMost(req.style, 100)
    && (req.n.None? || 1 <= req.n.value <= 10)
    && (req.returnMode.None? || req.returnMode.value in {"base64", "url", "binary"})
    && AtMost(req.clientRequestId, 100)
  }

  /** The parsed count: one when the field is absent. */
  function Count(req: ImageRequest): (n: int)
    requires SchemaAccepts(req)
    ensures 1 <= n <= 10
    ensures req.n.Some? ==> n == req.n.value
  {
    if req.n.None? then 1 else req.n.value
  }

  /** `mimeToExt`. */
  function MimeToExt(mime: Option<string>): (ext: string)
    ensures ext in {"png", "jpg", "webp", "gif", "bin"}
    ensures ext == "png" <==> mime == Some("image/png")
    ensures ext == "jpg" <==> mime == Some("image/jpeg")
    ensures ext == "webp" <==> mime == Some("image/webp")
    ensures ext == "gif" <==> mime == Some("image/gif")
  {
    if !Text.Truthy(mime) then "bin"
    else if mime.value == "image/png" then "png"
    else if mime.value == "image/jpeg" then "jpg"
    else if mime.value == "image/webp" then "webp"
    else if mime.value == "image/gif" then "gif"
    else "bin"
  }

  /** `mapStatus` of this controller. */
  function MapStatus(kind: string): (status: int)
    ensures status == 503 <==> kind == PROVIDER_KEYS_EXHAUSTED
    ensures status == 502 <==> kind == GEMINI_ERROR
    ensures status in {503, 502, 500}
  {
    if kind == PROVIDER_KEYS_EXHAUSTED then 503
    else if kind == GEMINI_ERROR then 502
    else 500
  }

  datatype GeminiBody = Generated(info: GeminiClient.GenerateResult) | Envelope(e: ApiError) | Echo(thrown: Thrown)

  /** What the handler answers: JSON with a status, the raw image with its
      content type and file name (status 200), or nothing at all when the
      catch block itself fails. */
  datatype GeminiReply =
    | Json(status: int, body: GeminiBody)
    | Binary(contentType: string, filename: string, dataBase64: string)
    | Unanswered

  /** The `return=binary` decision table. */
  function BinaryReply(images: seq<GeminiClient.GeneratedImage>): (r: GeminiReply)
    ensures |images| == 0 ==> r == Json(500, Envelope(Fail("No image generated", INTERNAL_ERROR)))
    ensures |images| > 1 ==> r == Json(400, Envelope(Fail("binary return only supported with n=1", VALIDATION)))
    ensures |images| == 1 && !Text.Truthy(images[0].dataBase64) ==>
      r == Json(500, Envelope(Fail("Image data unavailable for binary return", INTERNAL_ERROR)))
    ensures r.Binary? <==> |images| == 1 && Text.Truthy(images[0].dataBase64)
    ensures r.Binary? ==>
      r.dataBase64 == images[0].dataBase64.value
      && r.filename == images[0].id + "." + MimeToExt(Some(images[0].mime))
      && r.contentType == (if images[0].mime != "" then images[0].mime else "application/octet-stream")
  {
    if |images| == 0 then Json(500, Envelope(Fail("No image generated", INTERNAL_ERROR)))
    else if |images| > 1 then Json(400, Envelope(Fail("binary return only supported with n=1", VALIDATION)))
    else
      var img := images[0];
      if !Text.Truthy(img.dataBase64) then
        Json(500, Envelope(Fail("Image data unavailable for binary return", INTERNAL_ERROR)))
      else
        Binary(Text.OrElse(Some(img.mime), "application/octet-stream"), img.id + "." + MimeToExt(Some(img.mime)),
               img.dataBase64.value)
  }

  /** The catch block: an envelope is answered as it is with its status;
      `success === false` without an `error` member makes reading its type
      throw; anything else is a 500 INTERNAL_ERROR. */
  function Catch(err: Thrown): (r: GeminiReply)
    ensures err.success == Some(false) && err.error.Some? ==> r == Json(MapStatus(err.error.value.kind), Echo(err))
    ensures err.success != Some(false) ==>
      r.Json? && r.status == 500 && r.body.Envelope? && r.body.e.error.kind == INTERNAL_ERROR
      && r.body.e.error.message == Text.OrElse(err.message, "Internal")
  {
    if err.success == Some(false) then
      if err.error.Some? then Json(MapStatus(err.error.value.kind), Echo(err)) else Unanswered
    else Json(500, Envelope(Fail(Text.OrElse(err.message, "Internal"), INTERNAL_ERROR)))
  }

  /** What one request answers and leaves in the key manager. */
  datatype Handled = Handled(reply: GeminiReply, states: seq<KeyManager.KeyState>, rrPointer: nat)

  /** `generateImageHandler` on the key-manager state (`s`, `ptr`); the zod
      error text is `schemaMessage`. */
  function Handle(req: ImageRequest, schemaMessage: string, s: seq<KeyManager.KeyState>, ptr: nat,
                  maxImages: int, now: int, call: GeminiClient.ProviderCall, clock: nat -> nat,
                  requestId: string, model: string, finishedAt: int): Handled
  {
    if !SchemaAccepts(req) then Handled(Json(400, Envelope(Fail(schemaMessage, VALIDATION))), s, ptr)
    else
      var g := GeminiClient.Generate(s, ptr, Some(Count(req)), maxImages, now, call, clock, requestId, model, finishedAt);
      match g.result
      case Failure(e) => Handled(Catch(Throw(e)), g.states, g.rrPointer)
      case Success(result) =>
        if req.returnMode == Some("binary") then Handled(BinaryReply(result.images), g.states, g.rrPointer)
        else Handled(Json(200, Generated(result)), g.states, g.rrPointer)
  }

  /** The handler itself, against the key manager object. */
  method GenerateImageHandler(km: KeyManager.Manager, req: ImageRequest, schemaMessage: string, maxImages: int,
                              now: int, call: GeminiClient.ProviderCall, clock: nat -> nat, requestId: string,
                              model: string, finishedAt: int)
    returns (reply: GeminiReply)
    requires km.Valid()
    modifies km, km.states
    ensures km.Valid() && km.states == old(km.states)
    ensures var h := Handle(req, schemaMessage, old(km.states[..]), old(km.rrPointer), maxImages, now, call,
                            clock, requestId, model, finishedAt);
      reply == h.reply && km.states[..] == h.states && km.rrPointer == h.rrPointer
  {
    if !SchemaAccepts(req) {
      return Json(400, Envelope(Fail(schemaMessage, VALIDATION)));
    }
    var r := GeminiClient.GenerateImages(km, Some(Count(req)), maxImages, now, call, clock, requestId, model, finishedAt);
    match r {
      case Failure(e) =>
        reply := Catch(Throw(e));
      case Success(result) =>
        if req.returnMode == Some("binary") {
          reply := BinaryReply(result.images);
        } else {
          reply := Json(200, Generated(result));
        }
    }
  }

  // ------------------------------------------------------------ properties

  /** A body the schema refuses is answered 400 VALIDATION and no key is
      touched. */
  lemma RefusalTouchesNoKey(req: ImageRequest, schemaMessage: string, s: seq<KeyManager.KeyState>, ptr: nat,
                            maxImages: int, now: int, call: GeminiClient.ProviderCall, clock: nat -> nat,
                            requestId: string, model: string, finishedAt: int)
    requires !SchemaAccepts(req)
    ensures var h := Handle(req, schemaMessage, s, ptr, maxImages, now, call, clock, requestId, model, finishedAt);
      h.states == s && h.rrPointer == ptr && h.reply == Json(400, Envelope(Fail(schemaMessage, VALIDATION)))
  {
  }

  /** The two kinds the client throws get their own statuses here: 503 for
      exhausted keys and 502 for a provider failure (the error handler would
      answer both with 500). */
  lemma ClientFailureStatuses(e: GeminiClient.ProviderError)
    ensures Catch(Throw(GeminiClient.KEYS_EXHAUSTED)) == Json(503, Echo(Throw(GeminiClient.KEYS_EXHAUSTED)))
    ensures Catch(Throw(GeminiClient.MapGeminiError(e))).Json?
    ensures Catch(Throw(GeminiClient.MapGeminiError(e))).status == 502
  {
  }

  /** Asking for two images as binary is refused with 400 only after the
      provider has been called: the key was handed out, stamped as used, the
      pointer moved past it and the success reported. */
  lemma BinaryWithTwoImagesRefusedAfterCall(req: ImageRequest, schemaMessage: string, s: seq<KeyManager.KeyState>,
                                            ptr: nat, maxImages: int, now: int, clock: nat -> nat, requestId: string,
                                            model: string, finishedAt: int)
    requires SchemaAccepts(req) && req.returnMode == Some("binary") && req.n == Some(2) && maxImages >= 2
    requires KeyManager.Pick(s, ptr, now).index.Some?
    ensures var p := KeyManager.Pick(s, ptr, now);
      var i := p.index.value;
      var h := Handle(req, schemaMessage, s, ptr, maxImages, now, GeminiClient.Returns, clock, requestId, model, finishedAt);
      h.reply == Json(400, Envelope(Fail("binary return only supported with n=1", VALIDATION)))
      && h.states == KeyManager.SuccessStep(p.states, p.states[i].key)
      && h.states[i].lastUsed == Some(now)
      && h.rrPointer == i + 1
  {
  }

  /** One image as binary: the placeholder PNG, typed `image/png` and named
      after its id with the `.png` extension. */
  lemma BinarySingleImage(req: ImageRequest, schemaMessage: string, s: seq<KeyManager.KeyState>,
                          ptr: nat, maxImages: int, now: int, clock: nat -> nat, requestId: string,
                          model: string, finishedAt: int)
    requires SchemaAccepts(req) && req.returnMode == Some("binary") && Count(req) == 1 && maxImages >= 1
    requires KeyManager.Pick(s, ptr, now).index.Some?
    ensures Handle(req, schemaMessage, s, ptr, maxImages, now, GeminiClient.Returns, clock, requestId, model, finishedAt).reply
         == Binary("image/png", Text.NatToString(clock(0)) + "_0" + ".png", GeminiClient.ONE_PIXEL_PNG)
  {
    var g := GeminiClient.Generate(s, ptr, Some(Count(req)), maxImages, now, GeminiClient.Returns, clock,
                                   requestId, model, finishedAt);
    assert g.result == Success(GeminiClient.GenerateResult(requestId, model, GeminiClient.Placeholder(clock, 1)));
    PlaceholderAsBinary(clock);
  }

  /** The single placeholder image, answered as binary. */
  lemma PlaceholderAsBinary(clock: nat -> nat)
    ensures BinaryReply(GeminiClient.Placeholder(clock, 1))
         == Binary("image/png", Text.NatToString(clock(0)) + "_0" + ".png", GeminiClient.ONE_PIXEL_PNG)
  {
    var images := GeminiClient.Placeholder(clock, 1);
    assert Text.NatToString(0) == "0";
    var img := images[0];
    assert img.id == Text.NatToString(clock(0)) + "_0";
    assert MimeToExt(Some(img.mime)) == "png";
  }
}
