/** The HTTP service in front of the analyzer: `POST /analyze`, which checks
    the upload, normalises the image to RGB, runs the analyzer and wraps the
    result in an envelope, and `GET /health`.

    The libraries the handler calls (reading the upload, PIL's `Image.open`,
    `convert`, `save` with the PNG writer followed by base64, the rendering
    of the envelope by `JSONResponse`, and the text of an `HTTPException`)
    are fields of a `Library` record, each either returning a value or
    raising. The analyzer is a function from the image to its result dict,
    or to the exception that escapes it. Besides the response, the handler reports the trace
    of the calls it made, so that what it does NOT do can be stated too. */
module Api {
  import opened PyStr
  import opened PyValues
  import GeminiAnalyzer

  /** A decoded picture; only its mode matters to the handler. */
  datatype Image = Image(mode: string, raster: seq<bv8>)

  /** The multipart upload: its declared content type (possibly missing) and
      what `await file.read()` gives. */
  datatype Upload = Upload(contentType: Option<string>, body: Attempt<seq<bv8>>)

  /** The library calls of the handler. `encodePng` is `image.save(buffer,
      format="PNG")` followed by `base64.b64encode(...).decode()`; `render`
      is the body `JSONResponse(content=...)` builds in its constructor,
      which raises for content that is not strict JSON (NaN, infinities,
      lone surrogates); `describeHttp` is `str()` of an `HTTPException`. */
  datatype Library = Library(
    openImage: seq<bv8> -> Attempt<Image>,
    convertRgb: Image -> Attempt<Image>,
    encodePng: Image -> Attempt<string>,
    render: Json -> Attempt<seq<bv8>>,
    describeHttp: (int, string) -> string)

  /** One call the handler makes outside its own code. */
  datatype Call =
    | ReadBody
    | OpenImage(data: seq<bv8>)
    | ConvertImage(source: Image)
    | AnalyzeImage(image: Image)
    | EncodeImage(image: Image)
    | RenderBody(body: Json)

  /** The exceptions that reach the handler's `except Exception`. */
  datatype Exc = HttpException(status: int, detail: string) | Error(message: string)

  /** How the body of the `try` ends. */
  datatype Outcome = Returned(body: Json) | Threw(exc: Exc)

  /** The image ready for analysis, or the exception that stopped the
      handler before the analyzer, with the calls made so far. */
  datatype Prepared = Ready(image: Image, calls: seq<Call>) | Stopped(exc: Exc, calls: seq<Call>)

  datatype Step = Step(outcome: Outcome, calls: seq<Call>)

  /** What the client receives. */
  datatype Response = Ok(body: Json) | HttpError(status: int, detail: string)

  datatype Handled = Handled(response: Response, calls: seq<Call>)

  const ImagePrefix: string := "image/"
  const NotImageDetail: string := "File must be an image"
  const Rgb: string := "RGB"
  const FailurePrefix: string := "Analysis failed: "
  /** `str()` of the `AttributeError` raised by `None.startswith`. */
  const NoContentTypeMessage: string := "'NoneType' object has no attribute 'startswith'"

  const EnvelopeKeys: set<string> := {"success", "image_base64", "analysis"}
  const HealthKeys: set<string> := {"status", "gemini_api_configured"}

  /** The gate of `/analyze`: a declared content type starting with "image/". */
  predicate IsImageType(contentType: Option<string>) {
    contentType.Some? && StartsWith(contentType.value, ImagePrefix)
  }

  /** Converts to RGB whenever conversion succeeds, as PIL's `convert('RGB')` does. */
  ghost predicate ConvertsToRgb(lib: Library) {
    forall im :: lib.convertRgb(im).Done? ==> lib.convertRgb(im).value.mode == Rgb
  }

  /** Number of analyzer calls in a trace. */
  function AnalyzerCalls(calls: seq<Call>): (n: nat)
    ensures n <= |calls|
  {
    if calls == [] then 0
    else (if calls[0].AnalyzeImage? then 1 else 0) + AnalyzerCalls(calls[1..])
  }

  /** The part of the `try` before the analyzer: the content-type gate, the
      read, the decode and the conversion to RGB when the mode is not
      already RGB. It never calls the analyzer or the encoder. */
  function Prepare(upload: Upload, lib: Library): (p: Prepared)
    ensures p.Ready? ==> IsImageType(upload.contentType) && upload.body.Done?
    ensures forall k :: 0 <= k < |p.calls| ==> !p.calls[k].AnalyzeImage? && !p.calls[k].EncodeImage?
  {
    match upload.contentType
    case None => Stopped(Error(NoContentTypeMessage), [])
    case Some(ct) =>
      if !StartsWith(ct, ImagePrefix) then Stopped(HttpException(400, NotImageDetail), [])
      else
        match upload.body
        case Raised(m) => Stopped(Error(m), [ReadBody])
        case Done(data) => Decode(data, lib)
  }

  /** The decode and the conversion to RGB when the mode is not already RGB. */
  function Decode(data: seq<bv8>, lib: Library): (p: Prepared)
    ensures forall k :: 0 <= k < |p.calls| ==> !p.calls[k].AnalyzeImage? && !p.calls[k].EncodeImage?
  {
    match lib.openImage(data)
    case Raised(m) => Stopped(Error(m), [ReadBody, OpenImage(data)])
    case Done(decoded) =>
      if decoded.mode == Rgb then Ready(decoded, [ReadBody, OpenImage(data)])
      else
        var calls := [ReadBody, OpenImage(data), ConvertImage(decoded)];
        match lib.convertRgb(decoded)
        case Raised(m) => Stopped(Error(m), calls)
        case Done(image) => Ready(image, calls)
  }

  /** The success envelope. */
  function Envelope(imageBase64: string, analysis: Json): (r: Json)
    ensures HasKeys(r, EnvelopeKeys)
    ensures r.fields["success"] == JBool(true)
    ensures r.fields["image_base64"] == JString(imageBase64)
    ensures r.fields["analysis"] == analysis
  {
    assert |"success"| == 7 && |"image_base64"| == 12 && |"analysis"| == 8;
    JObject(map["success" := JBool(true),
                "image_base64" := JString(imageBase64),
                "analysis" := analysis])
  }

  /** The whole body of the `try`: prepare, analyze, encode the image that
      was analyzed, and render the envelope. */
  function TryBody(upload: Upload, lib: Library, analyze: Image -> Attempt<Json>): (s: Step)
    ensures s.outcome.Returned? <==>
      (var p := Prepare(upload, lib);
       && p.Ready? && analyze(p.image).Done? && lib.encodePng(p.image).Done?
       && lib.render(Envelope(lib.encodePng(p.image).value, analyze(p.image).value)).Done?)
  {
    match Prepare(upload, lib)
    case Stopped(e, calls) => Step(Threw(e), calls)
    case Ready(image, calls) =>
      var analyzed := calls + [AnalyzeImage(image)];
      match analyze(image)
      case Raised(m) => Step(Threw(Error(m)), analyzed)
      case Done(result) =>
        var encoded := analyzed + [EncodeImage(image)];
        match lib.encodePng(image)
        case Raised(m) => Step(Threw(Error(m)), encoded)
        case Done(b64) =>
          var body := Envelope(b64, result);
          match lib.render(body)
          case Raised(m) => Step(Threw(Error(m)), encoded + [RenderBody(body)])
          case Done(_) => Step(Returned(body), encoded + [RenderBody(body)])
  }

  /** `str(e)` of an exception caught by the handler. */
  function ExcText(e: Exc, lib: Library): string {
    match e
    case HttpException(status, detail) => lib.describeHttp(status, detail)
    case Error(m) => m
  }

  /** `POST /analyze`: every exception of the `try`, the 400 of the gate
      included, becomes a 500 whose detail starts "Analysis failed: ". */
  function AnalyzeEndpoint(upload: Upload, lib: Library, analyze: Image -> Attempt<Json>): (h: Handled)
    ensures h.response.HttpError? ==>
      h.response.status == 500 && StartsWith(h.response.detail, FailurePrefix)
    ensures h.response.Ok? ==>
      HasKeys(h.response.body, EnvelopeKeys) && h.response.body.fields["success"] == JBool(true)
    ensures h.calls == TryBody(upload, lib, analyze).calls
  {
    var s := TryBody(upload, lib, analyze);
    match s.outcome
    case Returned(body) => Handled(Ok(body), s.calls)
    case Threw(e) =>
      var detail := FailurePrefix + ExcText(e, lib);
      assert detail[..|FailurePrefix|] == FailurePrefix;
      Handled(HttpError(500, detail), s.calls)
  }

  // ---------------------------------------------------------------------
  // Properties of /analyze

  /** A non-image upload is refused before the body is read, decoded or
      analyzed; the refusal arrives as a 500 wrapping the 400. */
  lemma NonImageStopsAtGate(upload: Upload, lib: Library, analyze: Image -> Attempt<Json>)
    requires upload.contentType.Some? && !IsImageType(upload.contentType)
    ensures AnalyzeEndpoint(upload, lib, analyze).calls == []
    ensures AnalyzeEndpoint(upload, lib, analyze).response
      == HttpError(500, FailurePrefix + lib.describeHttp(400, NotImageDetail))
  {
  }

  /** An upload without a content type fails on `None.startswith`, also
      before any call. */
  lemma MissingContentType(upload: Upload, lib: Library, analyze: Image -> Attempt<Json>)
    requires upload.contentType.None?
    ensures AnalyzeEndpoint(upload, lib, analyze)
      == Handled(HttpError(500, FailurePrefix + NoContentTypeMessage), [])
  {
  }

  /** A body that cannot be decoded becomes a 500 quoting the decoder's
      message, before the analyzer runs. */
  lemma DecodeFailure(upload: Upload, lib: Library, analyze: Image -> Attempt<Json>, message: string)
    requires IsImageType(upload.contentType) && upload.body.Done?
    requires lib.openImage(upload.body.value) == Raised(message)
    ensures AnalyzeEndpoint(upload, lib, analyze)
      == Handled(HttpError(500, FailurePrefix + message), [ReadBody, OpenImage(upload.body.value)])
  {
  }

  /** A body that cannot be read becomes a 500 quoting the reader's message. */
  lemma ReadFailure(upload: Upload, lib: Library, analyze: Image -> Attempt<Json>, message: string)
    requires IsImageType(upload.contentType) && upload.body == Raised(message)
    ensures AnalyzeEndpoint(upload, lib, analyze)
      == Handled(HttpError(500, FailurePrefix + message), [ReadBody])
  {
  }

  /** A failing conversion to RGB becomes a 500 quoting its message, before
      the analyzer runs. */
  lemma ConvertFailure(upload: Upload, lib: Library, analyze: Image -> Attempt<Json>,
                       decoded: Image, message: string)
    requires IsImageType(upload.contentType) && upload.body.Done?
    requires lib.openImage(upload.body.value) == Done(decoded) && decoded.mode != Rgb
    requires lib.convertRgb(decoded) == Raised(message)
    ensures AnalyzeEndpoint(upload, lib, analyze)
      == Handled(HttpError(500, FailurePrefix + message),
                 [ReadBody, OpenImage(upload.body.value), ConvertImage(decoded)])
  {
  }

  /** An exception escaping the analyzer becomes a 500 quoting its message;
      nothing is encoded. */
  lemma AnalyzerRaised(upload: Upload, lib: Library, analyze: Image -> Attempt<Json>, message: string)
    requires Prepare(upload, lib).Ready?
    requires analyze(Prepare(upload, lib).image) == Raised(message)
    ensures AnalyzeEndpoint(upload, lib, analyze)
      == Handled(HttpError(500, FailurePrefix + message),
                 Prepare(upload, lib).calls + [AnalyzeImage(Prepare(upload, lib).image)])
  {
  }

  /** A failing encoder becomes a 500 quoting its message, and the analysis
      already made is discarded. */
  lemma EncodeFailure(upload: Upload, lib: Library, analyze: Image -> Attempt<Json>, message: string)
    requires Prepare(upload, lib).Ready? && analyze(Prepare(upload, lib).image).Done?
    requires lib.encodePng(Prepare(upload, lib).image) == Raised(message)
    ensures AnalyzeEndpoint(upload, lib, analyze).response == HttpError(500, FailurePrefix + message)
    ensures AnalyzeImage(Prepare(upload, lib).image) in AnalyzeEndpoint(upload, lib, analyze).calls
  {
  }

  /** An upload that gets through decoding, analysis, encoding and rendering
      is answered with the envelope of the encoded image and the analysis. */
  lemma SuccessPath(upload: Upload, lib: Library, analyze: Image -> Attempt<Json>,
                    result: Json, b64: string)
    requires Prepare(upload, lib).Ready?
    requires analyze(Prepare(upload, lib).image) == Done(result)
    requires lib.encodePng(Prepare(upload, lib).image) == Done(b64)
    requires lib.render(Envelope(b64, result)).Done?
    ensures AnalyzeEndpoint(upload, lib, analyze).response == Ok(Envelope(b64, result))
  {
  }

  /** An envelope that `JSONResponse` cannot render, such as one whose
      analysis holds a NaN, becomes a 500 quoting the renderer's message. */
  lemma RenderFailure(upload: Upload, lib: Library, analyze: Image -> Attempt<Json>, message: string)
    requires Prepare(upload, lib).Ready? && analyze(Prepare(upload, lib).image).Done?
    requires lib.encodePng(Prepare(upload, lib).image).Done?
    requires lib.render(Envelope(lib.encodePng(Prepare(upload, lib).image).value,
                                 analyze(Prepare(upload, lib).image).value)) == Raised(message)
    ensures AnalyzeEndpoint(upload, lib, analyze).response == HttpError(500, FailurePrefix + message)
  {
  }

  /** The image is converted exactly when its decoded mode is not RGB. */
  lemma ConvertedExactlyWhenNotRgb(upload: Upload, lib: Library, analyze: Image -> Attempt<Json>, decoded: Image)
    requires IsImageType(upload.contentType) && upload.body.Done?
    requires lib.openImage(upload.body.value) == Done(decoded)
    ensures ConvertImage(decoded) in AnalyzeEndpoint(upload, lib, analyze).calls <==> decoded.mode != Rgb
    ensures decoded.mode == Rgb ==> AnalyzeImage(decoded) in AnalyzeEndpoint(upload, lib, analyze).calls
    ensures decoded.mode != Rgb && lib.convertRgb(decoded).Done? ==>
      AnalyzeImage(lib.convertRgb(decoded).value) in AnalyzeEndpoint(upload, lib, analyze).calls
  {
  }

  /** With a converter that yields RGB, every image the analyzer and the
      encoder see has mode RGB. */
  lemma AnalyzedImagesAreRgb(upload: Upload, lib: Library, analyze: Image -> Attempt<Json>)
    requires ConvertsToRgb(lib)
    ensures var calls := AnalyzeEndpoint(upload, lib, analyze).calls;
      forall k :: 0 <= k < |calls| && (calls[k].AnalyzeImage? || calls[k].EncodeImage?) ==>
        calls[k].image.mode == Rgb
  {
  }

  lemma {:induction false} AnalyzerCallsAppend(x: seq<Call>, y: seq<Call>)
    ensures AnalyzerCalls(x + y) == AnalyzerCalls(x) + AnalyzerCalls(y)
  {
    if x == [] {
      assert x + y == y;
    } else {
      assert (x + y)[1..] == x[1..] + y;
      AnalyzerCallsAppend(x[1..], y);
    }
  }

  lemma {:induction false} NoAnalyzerCalls(calls: seq<Call>)
    requires forall k :: 0 <= k < |calls| ==> !calls[k].AnalyzeImage?
    ensures AnalyzerCalls(calls) == 0
  {
    if calls != [] {
      assert forall k :: 0 <= k < |calls[1..]| ==> calls[1..][k] == calls[k + 1];
      NoAnalyzerCalls(calls[1..]);
    }
  }

  /** The analyzer runs at most once per request: exactly once when the
      image was prepared, so in particular on success. */
  lemma AnalyzerCalledAtMostOnce(upload: Upload, lib: Library, analyze: Image -> Attempt<Json>)
    ensures AnalyzerCalls(AnalyzeEndpoint(upload, lib, analyze).calls)
      == if Prepare(upload, lib).Ready? then 1 else 0
    ensures AnalyzeEndpoint(upload, lib, analyze).response.Ok? ==>
      AnalyzerCalls(AnalyzeEndpoint(upload, lib, analyze).calls) == 1
  {
    var p := Prepare(upload, lib);
    NoAnalyzerCalls(p.calls);
    if p.Ready? {
      var calls := AnalyzeEndpoint(upload, lib, analyze).calls;
      var head := p.calls + [AnalyzeImage(p.image)];
      var rest := calls[|head|..];
      assert calls == head + rest;
      assert |rest| <= 2 && forall k :: 0 <= k < |rest| ==> !rest[k].AnalyzeImage?;
      NoAnalyzerCalls(rest);
      AnalyzerCallsAppend(p.calls, [AnalyzeImage(p.image)]);
      AnalyzerCallsAppend(head, rest);
    }
  }

  /** A successful response encodes the very image that was analyzed, the
      converted one rather than the upload, carries the analyzer's result
      unchanged, and is the envelope that was rendered. */
  lemma SuccessCarriesAnalyzedImage(upload: Upload, lib: Library, analyze: Image -> Attempt<Json>)
    requires AnalyzeEndpoint(upload, lib, analyze).response.Ok?
    ensures var h := AnalyzeEndpoint(upload, lib, analyze);
      && |h.calls| >= 3 && h.calls[|h.calls| - 2].EncodeImage?
      && var image := h.calls[|h.calls| - 2].image;
      && h.calls[|h.calls| - 3] == AnalyzeImage(image)
      && h.calls[|h.calls| - 1] == RenderBody(h.response.body)
      && lib.encodePng(image).Done? && analyze(image).Done?
      && h.response.body.fields["image_base64"] == JString(lib.encodePng(image).value)
      && h.response.body.fields["analysis"] == analyze(image).value
  {
  }

  /** `analyze_mri` turns an ordinary failed model call into an error dict
      instead of raising, so the endpoint still answers with `success: True`
      and the error dict as the analysis. */
  lemma FailedModelCallStillSucceeds(upload: Upload, lib: Library, basePrompt: string,
                                     generate: Image -> string -> GeminiAnalyzer.Reply,
                                     parse: string -> GeminiAnalyzer.ParseResult)
    requires Prepare(upload, lib).Ready?
    requires lib.encodePng(Prepare(upload, lib).image).Done?
    requires generate(Prepare(upload, lib).image)(basePrompt).CallFailed?
    requires lib.render(Envelope(lib.encodePng(Prepare(upload, lib).image).value,
      GeminiAnalyzer.AnalyzeMri(basePrompt, generate(Prepare(upload, lib).image), parse).value)).Done?
    ensures var h := AnalyzeEndpoint(upload, lib, im => GeminiAnalyzer.AnalyzeMri(basePrompt, generate(im), parse));
      && h.response.Ok?
      && h.response.body.fields["success"] == JBool(true)
      && HasKeys(h.response.body.fields["analysis"], GeminiAnalyzer.FailureKeys)
  {
  }

  /** A failed model call of `JSONDecodeError` type escapes `analyze_mri`
      and ends as a 500 quoting the exception that escaped. */
  lemma DecodeTypedModelFailureIs500(upload: Upload, lib: Library, basePrompt: string,
                                     generate: Image -> string -> GeminiAnalyzer.Reply,
                                     parse: string -> GeminiAnalyzer.ParseResult)
    requires Prepare(upload, lib).Ready?
    requires generate(Prepare(upload, lib).image)(basePrompt).DecodeTypedFailure?
    ensures AnalyzeEndpoint(upload, lib, im => GeminiAnalyzer.AnalyzeMri(basePrompt, generate(im), parse)).response
      == HttpError(500, FailurePrefix + generate(Prepare(upload, lib).image)(basePrompt).escaped)
  {
  }

  // ---------------------------------------------------------------------
  // GET /health

  /** `health_check`: reports whether the API key variable is set and
      non-empty, without touching the analyzer. */
  function HealthCheck(env: map<string, string>): (r: Json)
    ensures HasKeys(r, HealthKeys)
    ensures r.fields["status"] == JString("healthy")
    ensures r.fields["gemini_api_configured"]
      == JBool(GeminiAnalyzer.ApiKeyVar in env && env[GeminiAnalyzer.ApiKeyVar] != "")
  {
    assert |"status"| == 6 && |"gemini_api_configured"| == 21;
    var configured := GeminiAnalyzer.ApiKeyVar in env && env[GeminiAnalyzer.ApiKeyVar] != "";
    JObject(map["status" := JString("healthy"), "gemini_api_configured" := JBool(configured)])
  }

  /** The health flag is true exactly when the analyzer can be constructed
      from the same environment. */
  lemma HealthMatchesAnalyzerStartup(env: map<string, string>)
    ensures HealthCheck(env).fields["gemini_api_configured"]
      == JBool(GeminiAnalyzer.NewAnalyzer(env).Done?)
  {
  }
}
