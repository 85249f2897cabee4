/** The analysis client, `GeminiMRIAnalyzer`: it sends a fixed prompt and an
    image to the hosted model, strips markdown fences from the reply, parses
    the rest as JSON, and turns every failure into a small error dict.

    The model call and the JSON parser are inputs: `generate` maps the prompt
    to the model's reply (the image is fixed for one call) and `parse` stands
    for `json.loads`. */
module GeminiAnalyzer {
  import opened PyStr
  import opened PyValues

  /** The environment variable holding the API key. */
  const ApiKeyVar: string := "GEMINI_API_KEY"
  const ModelName: string := "gemini-2.0-flash-exp"
  const MissingKeyMessage: string := "GEMINI_API_KEY not found in environment variables"

  /** What the constructor keeps: the handle of the configured model. */
  datatype Analyzer = Analyzer(modelName: string)

  /** The constructor: it refuses to start without a non-empty API key. */
  function NewAnalyzer(env: map<string, string>): (r: Attempt<Analyzer>)
    ensures r.Done? <==> ApiKeyVar in env && env[ApiKeyVar] != ""
    ensures r.Done? ==> r.value.modelName == ModelName
    ensures r.Raised? ==> r.message == MissingKeyMessage
  {
    if ApiKeyVar in env && env[ApiKeyVar] != "" then Done(Analyzer(ModelName))
    else Raised(MissingKeyMessage)
  }

  // ---------------------------------------------------------------------
  // Cleaning the reply text

  const Fence: string := "```"
  const JsonFence: string := Fence + "json"

  /** Python's `t[7:]` after `t.startswith("```json")`. */
  function DropJsonFence(t: string): string {
    if StartsWith(t, JsonFence) then t[7..] else t
  }

  /** Python's `t[3:]` after `t.startswith("```")`. */
  function DropOpenFence(t: string): string {
    if StartsWith(t, Fence) then t[3..] else t
  }

  /** Python's `t[:-3]` after `t.endswith("```")`. */
  function DropCloseFence(t: string): string {
    if EndsWith(t, Fence) then t[..|t| - 3] else t
  }

  /** The cleaning both analysis methods apply to `response.text`: strip, drop
      a leading "```json", then (independently) a leading "```", then a
      trailing "```", and strip again. */
  function Clean(reply: string): (r: string)
    ensures NoEdgeSpace(r)
    ensures |r| <= |reply|
  {
    Strip(DropCloseFence(DropOpenFence(DropJsonFence(Strip(reply)))))
  }

  /** Clean, step by step. */
  lemma CleanSteps(reply: string, t0: string, t1: string, t2: string, t3: string)
    requires Strip(reply) == t0 && DropJsonFence(t0) == t1
    requires DropOpenFence(t1) == t2 && DropCloseFence(t2) == t3
    ensures Clean(reply) == Strip(t3)
  {
  }

  lemma DropOpenFenceOf(x: string)
    ensures DropOpenFence(Fence + x) == x
  {
  }

  lemma DropCloseFenceOf(x: string)
    ensures DropCloseFence(x + Fence) == x
  {
  }

  /** A fence followed by text not starting with "json" is not a "```json" fence. */
  lemma NotJsonFence(body: string)
    requires !StartsWith(body, "json")
    ensures DropJsonFence(Fence + (body + Fence)) == Fence + (body + Fence)
  {
    StartsWithCancel(Fence, body + Fence, "json");
    if |body| >= 4 {
      StartsWithExtend(body, Fence, "json");
    } else {
      MismatchAt(body + Fence, "json", |body|);
    }
  }

  /** After "```json" is gone, a body that does not open with a fence keeps
      its closing fence until the last step, which removes it. */
  lemma FenceAfterJsonTag(body: string)
    requires !StartsWith(body, Fence)
    ensures DropCloseFence(DropOpenFence(body + Fence)) == body
  {
    var t1 := body + Fence;
    if StartsWith(t1, Fence) {
      // Only possible for a body of fewer than three backticks.
      assert |body| < 3 by {
        if |body| >= 3 {
          StartsWithExtend(body, Fence, Fence);
        }
      }
      assert forall k | 0 <= k < |t1| :: t1[k] == '`' by {
        forall k | 0 <= k < |t1| ensures t1[k] == '`' {
          if k < 3 {
            assert t1[k] == t1[..3][k];
          } else {
            assert t1[k] == Fence[k - |body|];
          }
        }
      }
      assert t1[3..] == body by {
        forall k | 0 <= k < |body| ensures t1[3..][k] == body[k] {
          assert body[k] == t1[k];
        }
      }
    } else {
      DropCloseFenceOf(body);
    }
  }

  /** A reply wrapped in a "```json" fence, with any whitespace around it,
      cleans to the stripped body, provided the body does not itself open
      with a second fence. */
  lemma CleanJsonFenced(front: string, body: string, back: string)
    requires AllSpace(front) && AllSpace(back)
    requires !StartsWith(body, Fence)
    ensures Clean(front + JsonFence + body + Fence + back) == Strip(body)
  {
    var t1 := body + Fence;
    var t := JsonFence + t1;
    assert front + JsonFence + body + Fence + back == front + t + back;
    StripOf(front, t, back);
    assert DropJsonFence(t) == t1 by {
      assert t[..|JsonFence|] == JsonFence;
    }
    FenceAfterJsonTag(body);
    CleanSteps(front + t + back, t, t1, DropOpenFence(t1), body);
  }

  /** A reply wrapped in a bare "```" fence cleans to the stripped body when
      the body does not start with "json". */
  lemma CleanBareFenced(front: string, body: string, back: string)
    requires AllSpace(front) && AllSpace(back)
    requires !StartsWith(body, "json")
    ensures Clean(front + Fence + body + Fence + back) == Strip(body)
  {
    var t2 := body + Fence;
    var t := Fence + t2;
    assert front + Fence + body + Fence + back == front + t + back;
    StripOf(front, t, back);
    NotJsonFence(body);
    DropOpenFenceOf(t2);
    DropCloseFenceOf(body);
    CleanSteps(front + t + back, t, t, t2, body);
  }

  /** The "```json" match is case-sensitive: a "```JSON" tag is kept. */
  lemma CleanKeepsUpperCaseTag(front: string, body: string, back: string)
    requires AllSpace(front) && AllSpace(back)
    ensures Clean(front + Fence + "JSON" + body + Fence + back) == Strip("JSON" + body)
    ensures StartsWith(Clean(front + Fence + "JSON" + body + Fence + back), "JSON")
  {
    var s := "JSON" + body;
    assert front + Fence + "JSON" + body + Fence + back == front + Fence + s + Fence + back;
    assert StartsWith(s, "JSON") && s[0] == 'J';
    MismatchAt(s, "json", 0);
    CleanBareFenced(front, s, back);
    StripKeepsHead(s, "JSON");
  }

  /** When the stripped reply has no fence at either end, cleaning is only
      `strip`. */
  lemma CleanUnfenced(reply: string)
    requires !StartsWith(Strip(reply), Fence) && !EndsWith(Strip(reply), Fence)
    ensures Clean(reply) == Strip(reply)
  {
    var t := Strip(reply);
    assert !StartsWith(t, JsonFence) by {
      if |t| >= 7 {
        assert t[..7][..3] == t[..3];
      }
    }
    StripIdempotent(reply);
  }

  /** The wrapping the prompt's "Return ONLY valid JSON" request usually
      produces. */
  function FenceAsJson(body: string): string {
    JsonFence + "\n" + body + "\n" + Fence
  }

  /** Fencing a reply does not change what is parsed: a fenced reply cleans to
      exactly what the unfenced reply cleans to. */
  lemma FencingIsTransparent(body: string)
    requires !StartsWith(Strip(body), Fence) && !EndsWith(Strip(body), Fence)
    ensures Clean(FenceAsJson(body)) == Clean(body)
  {
    var padded := "\n" + body + "\n";
    assert FenceAsJson(body) == [] + JsonFence + padded + Fence + [];
    assert !StartsWith(padded, Fence) by {
      assert padded[0] == '\n';
    }
    CleanJsonFenced([], padded, []);
    StripPadded("\n", body, "\n");
    CleanUnfenced(body);
  }

  /** The three fence checks cut at most ten characters from the front and
      at most three from the back. */
  lemma FenceCuts(t: string) returns (lo: nat, hi: nat)
    ensures lo <= hi <= |t| && lo <= 10 && |t| - hi <= 3
    ensures DropCloseFence(DropOpenFence(DropJsonFence(t))) == t[lo..hi]
  {
    var a := if StartsWith(t, JsonFence) then 7 else 0;
    var t1 := DropJsonFence(t);
    assert t1 == t[a..];
    var b := if StartsWith(t1, Fence) then 3 else 0;
    var t2 := DropOpenFence(t1);
    assert t2 == t[a + b..];
    var e := if EndsWith(t2, Fence) then 3 else 0;
    lo, hi := a + b, |t| - e;
    assert DropCloseFence(t2) == t[lo..hi];
  }

  /** The cleaned text is one contiguous piece of the reply; besides
      whitespace, at most ten characters go from the front ("```json" and
      "```") and at most three from the back. */
  lemma CleanIsSlice(reply: string)
    ensures exists i, j ::
      && 0 <= i <= j <= |reply| && Clean(reply) == reply[i..j]
      && NonSpaceCount(reply[..i]) <= 10 && NonSpaceCount(reply[j..]) <= 3
  {
    var o0, e0 := StripStart(reply), StripEnd(reply);
    var t0 := reply[o0..e0];
    var a, b := FenceCuts(t0);
    var t3 := t0[a..b];
    var o1, e1 := StripStart(t3), StripEnd(t3);
    var r := t3[o1..e1];
    assert Clean(reply) == r;
    var i, j := NestedCut(reply, o0, e0, t0, a, b, t3, o1, e1, r);
  }

  /** The arithmetic of CleanIsSlice: a stripped slice, cut by the fences,
      stripped again. */
  lemma NestedCut(reply: string, o0: nat, e0: nat, t0: string, a: nat, b: nat,
                  t3: string, o1: nat, e1: nat, r: string) returns (i: nat, j: nat)
    requires o0 <= e0 <= |reply| && t0 == reply[o0..e0]
    requires SpaceBetween(reply, 0, o0) && SpaceBetween(reply, e0, |reply|)
    requires a <= b <= |t0| && a <= 10 && |t0| - b <= 3 && t3 == t0[a..b]
    requires o1 <= e1 <= |t3| && r == t3[o1..e1]
    requires SpaceBetween(t3, 0, o1) && SpaceBetween(t3, e1, |t3|)
    ensures i <= j <= |reply| && r == reply[i..j]
    ensures NonSpaceCount(reply[..i]) <= 10 && NonSpaceCount(reply[j..]) <= 3
  {
    i, j := o0 + a + o1, o0 + a + e1;
    SliceOfSlice(reply, o0, e0, t0, a, b);
    SliceOfSlice(reply, o0 + a, o0 + b, t3, o1, e1);
    assert SpaceBetween(reply, o0 + a, i) && SpaceBetween(reply, j, o0 + b) by {
      assert forall k | o0 + a <= k < o0 + b :: reply[k] == t3[k - o0 - a];
    }
    CountAcrossGap(reply, 0, o0, o0 + a, i);
    CountAcrossGap(reply, j, o0 + b, e0, |reply|);
    assert reply[0..i] == reply[..i] && reply[j..|reply|] == reply[j..];
  }

  // ---------------------------------------------------------------------
  // Prompts

  /** Python truthiness of the optional history string. */
  predicate Truthy(history: Option<string>) {
    history.Some? && history.value != ""
  }

  const HistoryIntro: string := "\n\nPatient History: "
  const HistoryOutro: string := "\n\nConsider this history in your analysis."

  /** The prompt `analyze_with_history` sends, built from `create_prompt()`:
      unchanged without a history, otherwise extended by a note that quotes
      the history. */
  function HistoryPrompt(basePrompt: string, history: Option<string>): (p: string)
    ensures !Truthy(history) ==> p == basePrompt
    ensures Truthy(history) ==>
      |basePrompt| < |p| && p[..|basePrompt|] == basePrompt
      && Contains(p[|basePrompt|..], history.value)
  {
    if Truthy(history) then
      var note := HistoryIntro + history.value + HistoryOutro;
      assert (basePrompt + note)[|basePrompt|..] == note;
      assert OccursAt(note, |HistoryIntro|, history.value);
      basePrompt + note
    else basePrompt
  }

  // ---------------------------------------------------------------------
  // Calling the model and shaping the result

  /** What `generate_content(...).text` gives: the reply text, or the
      exception raised by the call or by reading `.text`, with its `str(e)`.
      An exception whose type is `json.JSONDecodeError` or a subclass of it
      is told apart, because `analyze_mri` hands it to its `JSONDecodeError`
      handler, which reads `response.text` and so raises again: an
      `UnboundLocalError` when the call itself raised, the `.text` error
      when reading the text did. `escaped` is `str()` of that second
      exception, which leaves `analyze_mri`. */
  datatype Reply =
    | Text(text: string)
    | CallFailed(message: string)
    | DecodeTypedFailure(message: string, escaped: string)

  /** What `json.loads` gives: a value, or a `JSONDecodeError` with its
      message. */
  datatype ParseResult = Parsed(value: Json) | Malformed(message: string)

  const ParseFailedError: string := "Failed to parse JSON response"
  const AnalyzeFailedDetails: string := "Failed to analyze MRI image"
  const HistoryFailedDetails: string := "Failed to analyze MRI image with history"

  const ParseFailureKeys: set<string> := {"error", "raw_response", "parse_error"}
  const FailureKeys: set<string> := {"error", "details"}

  /** The `{"error": ..., "details": ...}` dict of the generic handlers. */
  function FailureDict(error: string, details: string): (r: Json)
    ensures HasKeys(r, FailureKeys)
    ensures r.fields["error"] == JString(error) && r.fields["details"] == JString(details)
  {
    assert |"error"| == 5 && |"details"| == 7;
    JObject(map["error" := JString(error), "details" := JString(details)])
  }

  /** The `JSONDecodeError` dict of `analyze_mri`. */
  function ParseFailureDict(raw: string, parseError: string): (r: Json)
    ensures HasKeys(r, ParseFailureKeys)
    ensures r.fields["error"] == JString(ParseFailedError)
    ensures r.fields["raw_response"] == JString(raw)
    ensures r.fields["parse_error"] == JString(parseError)
  {
    assert |"error"| == 5 && |"raw_response"| == 12 && |"parse_error"| == 11;
    JObject(map["error" := JString(ParseFailedError),
                "raw_response" := JString(raw),
                "parse_error" := JString(parseError)])
  }

  /** `analyze_mri`: the parsed reply, or a dict describing the failure.
      A parse failure keeps the uncleaned reply text. A model-call failure
      of `JSONDecodeError` type is the one case that raises. */
  function AnalyzeMri(basePrompt: string, generate: string -> Reply,
                      parse: string -> ParseResult): (r: Attempt<Json>)
    ensures generate(basePrompt).CallFailed? ==>
      && r.Done? && HasKeys(r.value, FailureKeys)
      && r.value.fields["error"] == JString(generate(basePrompt).message)
      && r.value.fields["details"] == JString(AnalyzeFailedDetails)
    ensures generate(basePrompt).DecodeTypedFailure? ==>
      r == Raised(generate(basePrompt).escaped)
    ensures generate(basePrompt).Text? ==>
      var raw := generate(basePrompt).text;
      match parse(Clean(raw))
      case Parsed(v) => r == Done(v)
      case Malformed(m) =>
        && r.Done? && HasKeys(r.value, ParseFailureKeys)
        && r.value.fields["error"] == JString(ParseFailedError)
        && r.value.fields["raw_response"] == JString(raw)
        && r.value.fields["parse_error"] == JString(m)
  {
    match generate(basePrompt)
    case CallFailed(m) => Done(FailureDict(m, AnalyzeFailedDetails))
    case DecodeTypedFailure(_, escaped) => Raised(escaped)
    case Text(raw) =>
      match parse(Clean(raw))
      case Parsed(v) => Done(v)
      case Malformed(m) => Done(ParseFailureDict(raw, m))
  }

  /** `analyze_with_history`: the parsed reply, or, for every failure
      including a parse failure, the two-key dict. It never raises. */
  function AnalyzeWithHistory(basePrompt: string, history: Option<string>,
                              generate: string -> Reply,
                              parse: string -> ParseResult): (r: Json)
    ensures var reply := generate(HistoryPrompt(basePrompt, history));
      !reply.Text? ==>
        HasKeys(r, FailureKeys) && r.fields["error"] == JString(reply.message)
        && r.fields["details"] == JString(HistoryFailedDetails)
    ensures var reply := generate(HistoryPrompt(basePrompt, history));
      reply.Text? ==>
        match parse(Clean(reply.text))
        case Parsed(v) => r == v
        case Malformed(m) =>
          HasKeys(r, FailureKeys) && r.fields["error"] == JString(m)
          && r.fields["details"] == JString(HistoryFailedDetails)
  {
    match generate(HistoryPrompt(basePrompt, history))
    case CallFailed(m) => FailureDict(m, HistoryFailedDetails)
    case DecodeTypedFailure(m, _) => FailureDict(m, HistoryFailedDetails)
    case Text(raw) =>
      match parse(Clean(raw))
      case Parsed(v) => v
      case Malformed(m) => FailureDict(m, HistoryFailedDetails)
  }

  /** Without a history both methods send the same prompt; given the same
      reply to it, they parse the same cleaned text, so they agree whenever
      parsing succeeds; on a parse failure they disagree in shape. */
  lemma MethodsAgreeWithoutHistory(basePrompt: string, history: Option<string>,
                                   generate: string -> Reply, parse: string -> ParseResult)
    requires !Truthy(history) && generate(basePrompt).Text?
    ensures parse(Clean(generate(basePrompt).text)).Parsed? ==>
      AnalyzeMri(basePrompt, generate, parse) == Done(AnalyzeWithHistory(basePrompt, history, generate, parse))
    ensures parse(Clean(generate(basePrompt).text)).Malformed? ==>
      AnalyzeMri(basePrompt, generate, parse).Done?
      && HasKeys(AnalyzeMri(basePrompt, generate, parse).value, ParseFailureKeys)
      && HasKeys(AnalyzeWithHistory(basePrompt, history, generate, parse), FailureKeys)
  {
  }

  /** A model-call failure of `JSONDecodeError` type escapes `analyze_mri`,
      while `analyze_with_history` turns it into its two-key dict. */
  lemma DecodeTypedFailureEscapesOnlyAnalyzeMri(basePrompt: string, history: Option<string>,
                                                generate: string -> Reply, parse: string -> ParseResult)
    requires !Truthy(history) && generate(basePrompt).DecodeTypedFailure?
    ensures AnalyzeMri(basePrompt, generate, parse) == Raised(generate(basePrompt).escaped)
    ensures HasKeys(AnalyzeWithHistory(basePrompt, history, generate, parse), FailureKeys)
    ensures AnalyzeWithHistory(basePrompt, history, generate, parse).fields["error"]
      == JString(generate(basePrompt).message)
  {
  }
}
