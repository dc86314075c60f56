/**
 * The prompt-analysis client `analyzeMoviePrompt`: it checks its arguments,
 * then asks a fixed list of endpoints in turn, classifies each reply, returns
 * the first analysis that passes every check and otherwise reports the error
 * of the last endpoint. The network is an oracle `fetch` from the request URL
 * to the reply, and `JSON.parse` an oracle `parse` from text to an optional
 * object.
 */
module GeminiService {
  import opened Wrappers
  import opened Text

  /** The endpoints, in the order they are tried. */
  const ApiEndpoints: seq<string> := [
    "https://generativelanguage.googleapis.com/v1beta/models/gemini-1.5-pro:generateContent",
    "https://generativelanguage.googleapis.com/v1/models/gemini-pro:generateContent",
    "https://generativelanguage.googleapis.com/v1beta/models/gemini-pro:generateContent"
  ]

  const MissingApiKey := "Missing API key"
  const EmptyPrompt := "Please enter a movie description"
  const UnexpectedFormat := "Unexpected API response format"
  const NoJsonFound := "Could not find valid JSON in response"
  const JsonParseFailed := "Failed to parse JSON from response"
  const MissingSearchQuery := "Missing required 'searchQuery' field in response"
  const ConnectFailed := "Failed to connect to Gemini API"

  /** What `JSON.parse` yields for the brace span: the fields the application reads. */
  datatype ParsedObject = ParsedObject(
    genres: Option<seq<string>>, era: Option<string>, mood: Option<string>,
    keywords: Option<seq<string>>, searchQuery: Option<string>)

  /** The `data` of a successful analysis, whose `searchQuery` is a string. */
  datatype Analysis = Analysis(
    genres: Option<seq<string>>, era: Option<string>, mood: Option<string>,
    keywords: Option<seq<string>>, searchQuery: string)

  /** `GeminiResponse`: `{success: true, data}` or `{success: false, error}`. */
  datatype GeminiResponse = Success(data: Analysis) | Failure(error: string)

  /** A value thrown or stored in `lastError`: an `Error` with its message, or anything else. */
  datatype Thrown = ErrorInstance(message: string) | OtherValue

  /**
   * One request's reply: an exception from `fetch` or `json()`; a non-ok
   * status with the body's `error.message`, if any; or an ok body with
   * `candidates[0].content.parts[0].text`, if present.
   */
  datatype Reply = Threw(thrown: Thrown) | NotOk(status: nat, errorMessage: Option<string>) | Ok(generatedText: Option<string>)

  /** How one endpoint ended: with an analysis, or with the value stored in `lastError`. */
  datatype Attempt = Passed(data: Analysis) | Failed(error: Thrown)

  /** The URL requested: the endpoint with the key as its query string. */
  function RequestUrl(apiUrl: string, apiKey: string): string {
    apiUrl + "?key=" + apiKey
  }

  /**
   * The match of `/(\{[\s\S]*\})/`: from the first `{` to the last `}`, when
   * that `}` comes after that `{`.
   */
  function JsonSpan(text: string): Option<string> {
    var p, q := FirstIndexOf(text, '{'), LastIndexOf(text, '}');
    if p < q then Some(text[p..q + 1]) else None
  }

  /** The regular expression matches exactly when some `}` follows some `{`. */
  lemma JsonSpanFoundIff(text: string)
    ensures JsonSpan(text).Some? <==> exists p, q :: 0 <= p < q < |text| && text[p] == '{' && text[q] == '}'
  {
    var p0, q0 := FirstIndexOf(text, '{'), LastIndexOf(text, '}');
    if p0 < q0 {
      assert text[p0] == '{' && text[q0] == '}';
    }
    if exists p, q :: 0 <= p < q < |text| && text[p] == '{' && text[q] == '}' {
      var p, q :| 0 <= p < q < |text| && text[p] == '{' && text[q] == '}';
      assert p0 <= p;
      assert q <= q0;
    }
  }

  /** A match starts with the first `{` of the text and ends with its last `}`. */
  lemma JsonSpanShape(text: string)
    requires JsonSpan(text).Some?
    ensures var span, p, q := JsonSpan(text).value, FirstIndexOf(text, '{'), LastIndexOf(text, '}');
      |span| >= 2 && span[0] == '{' && span[|span| - 1] == '}' &&
      '{' !in text[..p] && '}' !in text[q + 1..] && text == text[..p] + span + text[q + 1..]
  {
    var p, q := FirstIndexOf(text, '{'), LastIndexOf(text, '}');
    assert text == text[..p] + text[p..q + 1] + text[q + 1..];
  }

  /** The error message of `new Error(errorData.error?.message || `API error: ${status}`)`. */
  function StatusMessage(status: nat, errorMessage: Option<string>): string {
    if errorMessage.Some? && errorMessage.value != [] then errorMessage.value else "API error: " + NatToString(status)
  }

  function ToAnalysis(obj: ParsedObject): Analysis
    requires obj.searchQuery.Some?
  {
    Analysis(obj.genres, obj.era, obj.mood, obj.keywords, obj.searchQuery.value)
  }

  /** The reply carries non-empty generated text. */
  predicate HasText(reply: Reply) {
    reply.Ok? && reply.generatedText.Some? && reply.generatedText.value != []
  }

  /** The reply's text holds a brace span. */
  predicate HasSpan(reply: Reply) {
    HasText(reply) && JsonSpan(reply.generatedText.value).Some?
  }

  /** What `JSON.parse` makes of the brace span. */
  function ParsedSpan(reply: Reply, parse: string -> Option<ParsedObject>): Option<ParsedObject>
    requires HasSpan(reply)
  {
    parse(JsonSpan(reply.generatedText.value).value)
  }

  /**
   * The checks one endpoint's reply goes through, in order. It passes exactly
   * when the reply is ok with non-empty text whose brace span parses to an
   * object with a non-empty `searchQuery`, and then the analysis is that
   * object; each failing check stores its own value in `lastError`.
   */
  function Classify(reply: Reply, parse: string -> Option<ParsedObject>): (a: Attempt)
    ensures a.Passed? ==>
      HasSpan(reply) &&
      ParsedSpan(reply, parse) == Some(ParsedObject(a.data.genres, a.data.era, a.data.mood, a.data.keywords, Some(a.data.searchQuery))) &&
      a.data.searchQuery != []
    ensures (HasSpan(reply) && ParsedSpan(reply, parse).Some? &&
             ParsedSpan(reply, parse).value.searchQuery.Some? && ParsedSpan(reply, parse).value.searchQuery.value != []) ==>
      a == Passed(ToAnalysis(ParsedSpan(reply, parse).value))
    ensures reply.Threw? ==> a == Failed(reply.thrown)
    ensures reply.NotOk? ==> a == Failed(ErrorInstance(StatusMessage(reply.status, reply.errorMessage))) && a.error.message != []
    ensures reply.Ok? && !HasText(reply) ==> a == Failed(ErrorInstance(UnexpectedFormat))
    ensures HasText(reply) && !HasSpan(reply) ==> a == Failed(ErrorInstance(NoJsonFound))
    ensures HasSpan(reply) && ParsedSpan(reply, parse).None? ==> a == Failed(ErrorInstance(JsonParseFailed))
    ensures (HasSpan(reply) && ParsedSpan(reply, parse).Some? &&
             (ParsedSpan(reply, parse).value.searchQuery.None? || ParsedSpan(reply, parse).value.searchQuery.value == [])) ==>
      a == Failed(ErrorInstance(MissingSearchQuery))
  {
    match reply
    case Threw(e) => Failed(e)
    case NotOk(status, message) => Failed(ErrorInstance(StatusMessage(status, message)))
    case Ok(text) =>
      if text.None? || text.value == [] then Failed(ErrorInstance(UnexpectedFormat))
      else match JsonSpan(text.value)
        case None => Failed(ErrorInstance(NoJsonFound))
        case Some(span) =>
          match parse(span)
          case None => Failed(ErrorInstance(JsonParseFailed))
          case Some(obj) =>
            if obj.searchQuery.None? || obj.searchQuery.value == [] then Failed(ErrorInstance(MissingSearchQuery))
            else Passed(ToAnalysis(obj))
  }

  /** How the endpoint at index `k` ends. */
  function Outcome(k: nat, apiKey: string, fetch: string -> Reply, parse: string -> Option<ParsedObject>): Attempt
    requires k < |ApiEndpoints|
  {
    Classify(fetch(RequestUrl(ApiEndpoints[k], apiKey)), parse)
  }

  /** The first endpoint index at or after `i` that passes, or `|ApiEndpoints|`. */
  function FirstPass(i: nat, apiKey: string, fetch: string -> Reply, parse: string -> Option<ParsedObject>): (k: nat)
    requires i <= |ApiEndpoints|
    ensures i <= k <= |ApiEndpoints|
    ensures k < |ApiEndpoints| ==> Outcome(k, apiKey, fetch, parse).Passed?
    ensures forall j :: i <= j < k ==> Outcome(j, apiKey, fetch, parse).Failed?
    decreases |ApiEndpoints| - i
  {
    if i == |ApiEndpoints| || Outcome(i, apiKey, fetch, parse).Passed? then i else FirstPass(i + 1, apiKey, fetch, parse)
  }

  /** The error reported once every endpoint has failed. */
  function FinalMessage(lastError: Option<Thrown>): string {
    match lastError
    case Some(ErrorInstance(message)) => message
    case _ => ConnectFailed
  }

  /** The argument checks pass. */
  predicate ArgumentsPresent(prompt: string, apiKey: string) {
    apiKey != [] && !(prompt == [] || Trim(prompt) == [])
  }

  /**
   * What `analyzeMoviePrompt(prompt, apiKey)` resolves to: the argument errors
   * first, then the analysis of the first endpoint that passes, else the error
   * of the last endpoint.
   */
  function Analyze(prompt: string, apiKey: string, fetch: string -> Reply, parse: string -> Option<ParsedObject>): GeminiResponse {
    if apiKey == [] then Failure(MissingApiKey)
    else if prompt == [] || Trim(prompt) == [] then Failure(EmptyPrompt)
    else
      var k := FirstPass(0, apiKey, fetch, parse);
      if k < |ApiEndpoints| then Success(Outcome(k, apiKey, fetch, parse).data)
      else Failure(FinalMessage(Some(Outcome(|ApiEndpoints| - 1, apiKey, fetch, parse).error)))
  }

  /** The endpoints `analyzeMoviePrompt` sends a request to, in order. */
  function Attempted(prompt: string, apiKey: string, fetch: string -> Reply, parse: string -> Option<ParsedObject>): seq<string> {
    if !ArgumentsPresent(prompt, apiKey) then []
    else
      var k := FirstPass(0, apiKey, fetch, parse);
      if k < |ApiEndpoints| then ApiEndpoints[..k + 1] else ApiEndpoints
  }

  /** `analyzeMoviePrompt(prompt, apiKey)`, with the endpoints it requested. */
  method AnalyzeMoviePrompt(prompt: string, apiKey: string, fetch: string -> Reply, parse: string -> Option<ParsedObject>)
    returns (r: GeminiResponse, attempted: seq<string>)
    ensures r == Analyze(prompt, apiKey, fetch, parse)
    ensures attempted == Attempted(prompt, apiKey, fetch, parse)
  {
    attempted := [];
    if apiKey == [] {
      return Failure(MissingApiKey), attempted;
    }
    if prompt == [] || Trim(prompt) == [] {
      return Failure(EmptyPrompt), attempted;
    }
    var lastError: Option<Thrown> := None;
    for k := 0 to |ApiEndpoints|
      invariant attempted == ApiEndpoints[..k]
      invariant forall j :: 0 <= j < k ==> Outcome(j, apiKey, fetch, parse).Failed?
      invariant k > 0 ==> lastError == Some(Outcome(k - 1, apiKey, fetch, parse).error)
    {
      var apiUrl := ApiEndpoints[k];
      attempted := attempted + [apiUrl];
      var reply := fetch(RequestUrl(apiUrl, apiKey));
      assert Outcome(k, apiKey, fetch, parse) == Classify(reply, parse);
      if reply.Threw? {
        lastError := Some(reply.thrown);
        continue;
      }
      if reply.NotOk? {
        lastError := Some(ErrorInstance(StatusMessage(reply.status, reply.errorMessage)));
        continue;
      }
      if reply.generatedText.None? || reply.generatedText.value == [] {
        lastError := Some(ErrorInstance(UnexpectedFormat));
        continue;
      }
      var jsonMatch := JsonSpan(reply.generatedText.value);
      if jsonMatch.Some? {
        var parsedData := parse(jsonMatch.value);
        if parsedData.None? {
          lastError := Some(ErrorInstance(JsonParseFailed));
          continue;
        }
        if parsedData.value.searchQuery.None? || parsedData.value.searchQuery.value == [] {
          lastError := Some(ErrorInstance(MissingSearchQuery));
          continue;
        }
        FirstPassAt(k, apiKey, fetch, parse);
        return Success(ToAnalysis(parsedData.value)), attempted;
      } else {
        lastError := Some(ErrorInstance(NoJsonFound));
        continue;
      }
    }
    NoPass(apiKey, fetch, parse);
    r := Failure(FinalMessage(lastError));
  }

  /** An endpoint that passes after only failing ones is the first to pass. */
  lemma FirstPassAt(k: nat, apiKey: string, fetch: string -> Reply, parse: string -> Option<ParsedObject>)
    requires k < |ApiEndpoints| && forall j :: 0 <= j < k ==> Outcome(j, apiKey, fetch, parse).Failed?
    requires Outcome(k, apiKey, fetch, parse).Passed?
    ensures FirstPass(0, apiKey, fetch, parse) == k
  {
  }

  /** When every endpoint fails, none passes. */
  lemma NoPass(apiKey: string, fetch: string -> Reply, parse: string -> Option<ParsedObject>)
    requires forall j :: 0 <= j < |ApiEndpoints| ==> Outcome(j, apiKey, fetch, parse).Failed?
    ensures FirstPass(0, apiKey, fetch, parse) == |ApiEndpoints|
  {
  }

  /** The key is checked before the prompt, and neither failing check sends a request. */
  lemma ArgumentChecks(prompt: string, apiKey: string, fetch: string -> Reply, parse: string -> Option<ParsedObject>)
    ensures apiKey == [] ==> Analyze(prompt, apiKey, fetch, parse) == Failure(MissingApiKey)
    ensures apiKey != [] && IsBlank(prompt) ==> Analyze(prompt, apiKey, fetch, parse) == Failure(EmptyPrompt)
    ensures Attempted(prompt, apiKey, fetch, parse) == [] <==> apiKey == [] || IsBlank(prompt)
  {
    TrimEmptyIffBlank(prompt);
  }

  /** At most one request per endpoint, in the listed order. */
  lemma AttemptsFollowEndpointOrder(prompt: string, apiKey: string, fetch: string -> Reply, parse: string -> Option<ParsedObject>)
    ensures var attempted := Attempted(prompt, apiKey, fetch, parse);
      |attempted| <= 3 && attempted == ApiEndpoints[..|attempted|]
  {
  }

  /**
   * Success comes from the last endpoint requested, which passed every check
   * after all earlier ones failed, and carries a non-empty `searchQuery`.
   */
  lemma SuccessIsFirstPass(prompt: string, apiKey: string, fetch: string -> Reply, parse: string -> Option<ParsedObject>)
    requires Analyze(prompt, apiKey, fetch, parse).Success?
    ensures var attempted := Attempted(prompt, apiKey, fetch, parse);
      var k := |attempted| - 1;
      0 <= k < |ApiEndpoints| &&
      Outcome(k, apiKey, fetch, parse) == Passed(Analyze(prompt, apiKey, fetch, parse).data) &&
      (forall j :: 0 <= j < k ==> Outcome(j, apiKey, fetch, parse).Failed?)
    ensures Analyze(prompt, apiKey, fetch, parse).data.searchQuery != []
  {
  }

  /**
   * A failure after valid arguments means every endpoint was requested and
   * failed, and the error reported is that of the last one.
   */
  lemma FailureReportsLastError(prompt: string, apiKey: string, fetch: string -> Reply, parse: string -> Option<ParsedObject>)
    requires ArgumentsPresent(prompt, apiKey)
    requires Analyze(prompt, apiKey, fetch, parse).Failure?
    ensures Attempted(prompt, apiKey, fetch, parse) == ApiEndpoints
    ensures forall j :: 0 <= j < |ApiEndpoints| ==> Outcome(j, apiKey, fetch, parse).Failed?
    ensures Analyze(prompt, apiKey, fetch, parse).error ==
      match Outcome(2, apiKey, fetch, parse).error
      case ErrorInstance(message) => message
      case OtherValue => ConnectFailed
  {
  }

  /**
   * After valid arguments, a failure reports what went wrong with the last
   * endpoint: for instance "Could not find valid JSON in response" when its
   * text holds no brace span.
   */
  lemma FailureNamesLastCheck(prompt: string, apiKey: string, fetch: string -> Reply, parse: string -> Option<ParsedObject>)
    requires ArgumentsPresent(prompt, apiKey)
    requires Analyze(prompt, apiKey, fetch, parse).Failure?
    ensures var reply, error := fetch(RequestUrl(ApiEndpoints[2], apiKey)), Analyze(prompt, apiKey, fetch, parse).error;
      (reply.Threw? ==> error == if reply.thrown.ErrorInstance? then reply.thrown.message else ConnectFailed) &&
      (reply.NotOk? ==> error == StatusMessage(reply.status, reply.errorMessage)) &&
      (reply.Ok? && !HasText(reply) ==> error == UnexpectedFormat) &&
      (HasText(reply) && !HasSpan(reply) ==> error == NoJsonFound) &&
      (HasSpan(reply) && ParsedSpan(reply, parse).None? ==> error == JsonParseFailed) &&
      (HasSpan(reply) && ParsedSpan(reply, parse).Some? ==> error == MissingSearchQuery)
  {
    FailureReportsLastError(prompt, apiKey, fetch, parse);
  }

  /** A non-ok status is reported with the body's message, or with the status number when there is none. */
  lemma StatusMessageReadsBack(status: nat, errorMessage: Option<string>)
    ensures errorMessage.Some? && errorMessage.value != [] ==> StatusMessage(status, errorMessage) == errorMessage.value
    ensures !(errorMessage.Some? && errorMessage.value != []) ==>
      var m := StatusMessage(status, errorMessage);
      |m| > 11 && m[..11] == "API error: " && DecimalValue(m[11..]) == status
  {
    var m := StatusMessage(status, errorMessage);
    if !(errorMessage.Some? && errorMessage.value != []) {
      assert m[11..] == NatToString(status);
      NatToStringRoundTrip(status);
    }
  }
}
