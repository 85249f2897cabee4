# MRI Analysis XAI: a Dafny model of the analysis backend

The backend is a small FastAPI service. It accepts an uploaded cardiac MRI
image and sends it to a hosted Gemini model, together with a fixed prompt
that asks for a JSON assessment. It strips the markdown code fences from
the model's reply, parses the remainder as JSON, and returns the result to
the browser inside an envelope, alongside a base64 PNG of the image.

This project models three parts of it:

- `GeminiMRIAnalyzer`, in `gemini_analyzer.dfy`:
  - the constructor's API-key check;
  - the reply cleaning (strip, then drop "```json", then "```", then a
    trailing "```", then strip again);
  - the prompt extension with a patient history;
  - the mapping, in each of the two analysis methods, from "call the model,
    clean, parse" to a result dict.
- The `/analyze` and `/health` endpoints of `main.py`, in `api.dfy`.
- The Python values and string operations these parts rely on, in
  `pystr.dfy` and `pyvalues.dfy`. `PyStr.Strip` is Python's `str.strip()`,
  written as CPython's two index scans over the `str.isspace` character set.

Everything here is a pure function, as the source is once its library calls
are treated as inputs:

- the model call is a function `generate` from the prompt to a `Reply`
  (the reply text, or the message of the exception, with exceptions of
  `json.JSONDecodeError` type told apart);
- `json.loads` is a function `parse` to a `ParseResult`;
- the fixed prompt text is a parameter `basePrompt`;
- the environment is a `map<string, string>`;
- the image libraries are the fields of `Api.Library`.

`Api.AnalyzeEndpoint` returns the HTTP response together with the trace of
library and analyzer calls it made. This lets the model state what the
handler does not do. For example, a non-image upload is refused before the
body is read.

Three behaviours of the code are easy to mistake:

- A non-image upload does not get a 400. The `HTTPException(400)` raised at
  `backend/main.py:36` is inside the `try` of line 33, so the
  `except Exception` of line 60 turns it into a 500 whose detail starts with
  "Analysis failed: ".
- The image encoded into `image_base64` is the converted RGB image, not the
  original upload.
- `analyze_mri` does not catch every failure of the model call. Its
  `except json.JSONDecodeError` handler (`backend/gemini_analyzer.py:109-115`)
  is chosen by the exception's type and reads `response.text`. If the call
  or the `.text` read itself raises an exception of that type, the handler
  raises again, and the request ends as a 500.

The code also has no request pacing, no filling-in of missing result
fields, and no sorting of errors into rate-limit, quota or JSON classes.

## Model

| member | source | states |
|---|---|---|
| GeminiAnalyzer.NewAnalyzer | backend/gemini_analyzer.py:10-17 | construction succeeds exactly when GEMINI_API_KEY is set and non-empty; the model is gemini-2.0-flash-exp; otherwise ValueError with the fixed message |
| GeminiAnalyzer.Clean | backend/gemini_analyzer.py:92-102 | the cleaned text has whitespace at neither edge and is never longer than the reply |
| GeminiAnalyzer.CleanJsonFenced | backend/gemini_analyzer.py:92-102 | whitespace + "```json" + body + "```" + whitespace cleans to strip(body) whenever body does not start with "```" |
| GeminiAnalyzer.CleanBareFenced | backend/gemini_analyzer.py:92-102 | whitespace + "```" + body + "```" + whitespace cleans to strip(body) whenever body does not start with "json" |
| GeminiAnalyzer.CleanKeepsUpperCaseTag | backend/gemini_analyzer.py:95-100 | the "```json" match is case-sensitive: a "```JSON" reply keeps its "JSON" tag at the head of the cleaned text |
| GeminiAnalyzer.CleanUnfenced | backend/gemini_analyzer.py:92-102 | a stripped reply that neither starts nor ends with "```" is cleaned by strip alone |
| GeminiAnalyzer.FencingIsTransparent | backend/gemini_analyzer.py:92-102 | wrapping an unfenced text in a "```json" block, each fence on its own line, does not change what it cleans to |
| GeminiAnalyzer.FenceCuts | backend/gemini_analyzer.py:95-100 | the three fence steps keep one contiguous slice, cutting at most 10 characters from the front and 3 from the back |
| GeminiAnalyzer.CleanIsSlice | backend/gemini_analyzer.py:92-102 | the cleaned text is a contiguous slice of the reply; besides whitespace, at most 10 characters are removed before it and at most 3 after it |
| GeminiAnalyzer.HistoryPrompt | backend/gemini_analyzer.py:133-136 | a missing or empty history leaves the prompt unchanged; otherwise the base prompt is a strict prefix and the appended part contains the history text |
| GeminiAnalyzer.FailureDict | backend/gemini_analyzer.py:116-120 | the generic failure dict has exactly the keys error and details, holding the message and the fixed details text |
| GeminiAnalyzer.ParseFailureDict | backend/gemini_analyzer.py:109-115 | the parse-failure dict has exactly the keys error, raw_response and parse_error, with their values |
| GeminiAnalyzer.AnalyzeMri | backend/gemini_analyzer.py:75-120 | a successful parse of the cleaned reply is returned unchanged; a parse failure gives the three-key dict carrying the uncleaned reply text; an ordinary failed model call gives the two-key dict; a failed call of JSONDecodeError type raises the exception its handler throws |
| GeminiAnalyzer.AnalyzeWithHistory | backend/gemini_analyzer.py:122-159 | uses the history prompt and the same cleaning; a successful parse is returned unchanged; every failure, parse failures and JSONDecodeError-typed call failures included, gives the two-key dict with the "with history" details |
| GeminiAnalyzer.MethodsAgreeWithoutHistory | backend/gemini_analyzer.py:92-120 | without a history both methods send the same prompt; given the same reply to it, both parse the same cleaned text, so they agree on a successful parse; on a parse failure one gives three keys and the other two |
| GeminiAnalyzer.DecodeTypedFailureEscapesOnlyAnalyzeMri | backend/gemini_analyzer.py:109-120 | a failed model call of JSONDecodeError type raises out of analyze_mri but gives the two-key dict in analyze_with_history |
| PyStr.Strip | backend/gemini_analyzer.py:92 | Python's strip(): the result has whitespace at neither edge |
| PyStr.StripOf | backend/gemini_analyzer.py:102 | strip recovers any text without edge whitespace from between two whitespace runs |
| PyStr.StripIdempotent | backend/gemini_analyzer.py:102 | stripping twice is stripping once |
| PyStr.StripPadded | backend/gemini_analyzer.py:92 | surrounding whitespace does not change what strip returns |
| Api.Prepare | backend/main.py:35-44 | only an image content type with a readable body gets as far as analysis; this stage never calls the analyzer or the encoder |
| Api.Envelope | backend/main.py:54-58 | the envelope has exactly the keys success, image_base64 and analysis, with success true |
| Api.TryBody | backend/main.py:34-58 | the try body returns normally exactly when preparation succeeds, the analyzer returns, the analyzed image encodes and JSONResponse renders the envelope |
| Api.AnalyzeEndpoint | backend/main.py:28-61 | every error response has status 500 and a detail starting "Analysis failed: "; every success is an envelope with success true |
| Api.NonImageStopsAtGate | backend/main.py:33-36 | a content type not starting with "image/" makes no library or analyzer call and yields 500 with "Analysis failed: " plus the text of the 400 |
| Api.MissingContentType | backend/main.py:35 | an upload without a content type fails on None.startswith, giving 500 and making no call |
| Api.ReadFailure | backend/main.py:39-61 | a body that cannot be read gives 500 with "Analysis failed: " plus the reader's message, after only the read |
| Api.ConvertFailure | backend/main.py:43-61 | a failing RGB conversion gives 500 with "Analysis failed: " plus its message, before the analyzer runs |
| Api.AnalyzerRaised | backend/main.py:47-61 | an exception escaping the analyzer gives 500 with "Analysis failed: " plus its message, and nothing is encoded |
| Api.SuccessPath | backend/main.py:47-58 | an upload that gets through decoding, analysis, encoding and rendering is answered Ok with the envelope of the encoded image and the analyzer's result |
| Api.RenderFailure | backend/main.py:54-61 | an envelope JSONResponse cannot render (a NaN or an infinity in the analysis) gives 500 with "Analysis failed: " plus the renderer's message |
| Api.DecodeFailure | backend/main.py:39-40 | an undecodable body gives 500 with "Analysis failed: " plus the decoder's message, before the analyzer runs |
| Api.EncodeFailure | backend/main.py:47-61 | an encoder failure gives 500 with "Analysis failed: " plus its message, after the analyzer has run |
| Api.ConvertedExactlyWhenNotRgb | backend/main.py:43-47 | the image is converted exactly when its decoded mode is not RGB; the image analyzed is then the result of the conversion, and an RGB image is analyzed as decoded |
| Api.AnalyzedImagesAreRgb | backend/main.py:43-52 | with a converter that yields RGB, every image analyzed or encoded has mode RGB |
| Api.AnalyzerCalledAtMostOnce | backend/main.py:35-47 | the analyzer runs exactly once when the image was prepared and never otherwise, so exactly once on success |
| Api.SuccessCarriesAnalyzedImage | backend/main.py:47-58 | on success the last calls analyze and encode the same image and render the returned envelope; image_base64 is that encoding and analysis is the analyzer's result unchanged |
| Api.FailedModelCallStillSucceeds | backend/main.py:47-58 | an ordinary failed model call still gives success true, with the two-key error dict as the analysis |
| Api.DecodeTypedModelFailureIs500 | backend/main.py:47-61 | a failed model call of JSONDecodeError type gives 500 with "Analysis failed: " plus the message of the exception that escaped analyze_mri |
| Api.HealthCheck | backend/main.py:63-71 | status is healthy, and gemini_api_configured is true exactly when GEMINI_API_KEY is set and non-empty |
| Api.HealthMatchesAnalyzerStartup | backend/main.py:66-71 | the health flag is true exactly when the analyzer can be constructed from the same environment |

## Left out

- The Gemini client (`genai.configure`, `GenerativeModel`, `generate_content`): a network call to a foreign library, represented by the `generate` parameter.
- The hosted model may answer the same prompt differently on two calls: `generate` fixes one reply per prompt, so lemmas relating two calls speak of a shared reply.
- `json.loads`: a library parser, represented by the `parse` parameter. Its grammar and its error messages are not modelled.
- A `json.loads` failure other than `JSONDecodeError`, such as `RecursionError` on deep nesting: not modelled. In `analyze_mri` it would take the two-key branch.
- The literal text of `create_prompt()`: a fixed constant, kept as the parameter `basePrompt`.
- Pillow (`Image.open`, `convert`, `save`), base64 and the rendering inside `JSONResponse`: library code, represented by the fields of `Api.Library`. `Api.ConvertsToRgb` states, as an assumption, that conversion yields RGB.
- Api.NonImageStopsAtGate: states only the "Analysis failed: " prefix plus an uninterpreted `str()` of the `HTTPException`, because that text comes from Starlette's `__str__`.
- FastAPI routing, CORS, the `UploadFile` machinery, `uvicorn`, `load_dotenv` and `os.getenv`: framework plumbing. The environment is a map, and the uploaded body is given as the outcome of `file.read()`.
- The root endpoint `/`: it returns a fixed message.
- The `unhealthy` branch of `health_check`: nothing in its `try` can raise an `Exception`.
- The module-level `analyzer = GeminiMRIAnalyzer()` of `backend/main.py:22`: it runs at startup, so a missing key stops the app before `/health` can answer. The model keeps only the agreement between the constructor's check and the health flag.
- The text of the exception that escapes `analyze_mri`'s `JSONDecodeError` handler (`UnboundLocalError`, worded differently across Python versions, or the repeated `.text` error): an input, `Reply.escaped`.
- Key order inside the dicts: Dafny maps are unordered.
- Concurrency between requests: there is no shared state to model.
