/**
 * `TencentTranslationManager`: one signed POST per attempt, classification
 * of the response, the bounded retry loop, and the two public entry points
 * `translate` and `translateAndFormat`.
 *
 * The clock and the network are parameters: `clock(i)` is the Unix time read
 * at attempt `i`, and `network(i, request)` is what attempt `i` receives for
 * `request`. A response body is represented by what the JSON decoder makes
 * of it under the success schema and under the error schema.
 */
module TranslationClient {
  import opened Wrappers
  import opened Encoding
  import opened JsonBody
  import opened Calendar
  import opened ConfigManager
  import opened Tc3Signer

  const MaxRetries: nat := 3
  const MaxTextLength: nat := 2000
  const DefaultSourceLang: string := "en"
  const DefaultTargetLang: string := "zh"
  const FailurePrefix: string := "Translation (Tencent): Failed to translate '"

  // ---------------------------------------------------------------------
  // Errors and responses
  // ---------------------------------------------------------------------

  datatype TranslationError =
    | CredentialsNotConfigured
    | TextTooLong
    | InvalidResponse
    | HttpError(statusCode: int)
    | ApiError(code: string, message: string)
    | RequestFailed

  /** What one attempt can throw: a `TranslationError`, or an error of the URL session itself. */
  datatype Error = Translation(error: TranslationError) | Transport

  /** `{"Response":{"TargetText":…,"Source":…,"Target":…,"RequestId":…}}` */
  datatype TranslationData = TranslationData(targetText: string, source: string, target: string, requestId: string)

  /**
   * `{"Response":{"error":{"code":…,"message":…}}}`: the error schema
   * declares a key mapping only for "Response", so its inner keys are the
   * lower-case property names.
   */
  datatype ErrorDetail = ErrorDetail(code: string, message: string)

  /** A response body, by the outcome of decoding it as each of the two schemas. */
  datatype Body = Body(asSuccess: Option<TranslationData>, asError: Option<ErrorDetail>)

  datatype Response =
    | TransportFailure               // the session threw
    | NonHttpResponse(body: Body)     // the response is not an HTTPURLResponse
    | HttpResponse(statusCode: int, body: Body)

  datatype Request = Request(url: string, httpMethod: string, headers: map<string, string>, body: seq<byte>)

  /** `errorDescription` of each case. */
  function ErrorDescription(e: TranslationError): (s: string)
    ensures e.HttpError? ==> |s| > 12 && s[..12] == "HTTP error: "
  {
    match e
    case CredentialsNotConfigured => "Tencent Cloud credentials not configured"
    case TextTooLong => "Text exceeds maximum length of 2000 characters"
    case InvalidResponse => "Invalid response from server"
    case HttpError(statusCode) => "HTTP error: " + IntToDecimal(statusCode)
    case ApiError(code, message) => "API error [" + code + "]: " + message
    case RequestFailed => "Translation request failed after retries"
  }

  /** The status code reads back from an HTTP error's description. */
  lemma HttpErrorDescriptionReadsBack(statusCode: int)
    ensures var s := ErrorDescription(HttpError(statusCode))[12..];
      |s| >= 1 && (s[0] == '-' ==> AllDigits(s[1..])) && (s[0] != '-' ==> AllDigits(s))
      && ParseInt(s) == statusCode
  {
    assert ErrorDescription(HttpError(statusCode))[12..] == IntToDecimal(statusCode);
    ParseIntToDecimal(statusCode);
  }

  /** `isRetryableError`: only a `httpError` with a status of at least 500, or exactly 429. */
  predicate IsRetryable(e: Error) {
    && e.Translation?
    && e.error.HttpError?
    && (e.error.statusCode >= 500 || e.error.statusCode == 429)
  }

  /** An attempt's outcome that the retry loop retries. */
  predicate RetryableFailure(o: Result<string, Error>) {
    o.Failure? && IsRetryable(o.error)
  }

  // ---------------------------------------------------------------------
  // One attempt
  // ---------------------------------------------------------------------

  /** The request `performSingleTranslation` sends when the clock reads `timestamp`. */
  function BuildRequest(p: Primitives, creds: Credentials, text: string, source: string, target: string,
                        timestamp: nat): (req: Request)
    ensures req.url == "https://tmt.tencentcloudapi.com" && req.httpMethod == "POST"
    ensures req.headers.Keys == HeaderNames
  {
    var parameters := Parameters(text, source, target);
    assert "https://" + Endpoint == "https://tmt.tencentcloudapi.com";
    Request("https://" + Endpoint, "POST",
            GenerateTc3Signature(p, creds, timestamp, parameters),
            RequestBody(p, parameters))
  }

  /** The request of attempt `i`: signed with `creds` at the clock's reading for that attempt. */
  function SignedAttempts(p: Primitives, creds: Credentials, text: string, source: string, target: string,
                          clock: nat -> nat): (signed: nat -> Request)
    ensures forall i: nat :: signed(i) == BuildRequest(p, creds, text, source, target, clock(i))
  {
    (i: nat) => BuildRequest(p, creds, text, source, target, clock(i))
  }

  /**
   * Two requests built from the same input at clock readings `t` and `u`:
   * the same endpoint, method, header names and body; the timestamp header
   * reads back as the reading, and it tells different readings apart.
   */
  lemma RequestsAtTwoReadings(p: Primitives, creds: Credentials, text: string, source: string, target: string,
                              t: nat, u: nat)
    ensures var a := BuildRequest(p, creds, text, source, target, t);
      var b := BuildRequest(p, creds, text, source, target, u);
      && a.url == b.url && a.httpMethod == b.httpMethod && a.body == b.body
      && "X-TC-Timestamp" in a.headers && "X-TC-Timestamp" in b.headers
      && a.headers["X-TC-Timestamp"] == NatToDecimal(t)
      && ParseNat(a.headers["X-TC-Timestamp"]) == t
      && (t != u ==> a.headers["X-TC-Timestamp"] != b.headers["X-TC-Timestamp"])
  {
    var parameters := Parameters(text, source, target);
    SignedHeaders(p, creds, t, parameters);
    SignedHeaders(p, creds, u, parameters);
  }

  /**
   * Every attempt is re-signed: all attempts POST the same body to the same
   * endpoint with the seven signed headers, attempt `i` carries a timestamp
   * header that reads back as the clock's reading `clock(i)`, attempts made
   * at the same reading are identical, and attempts made at different
   * readings carry different timestamps.
   */
  lemma AttemptsAreReSigned(p: Primitives, creds: Credentials, text: string, source: string, target: string,
                            clock: nat -> nat, i: nat, j: nat)
    ensures var a := SignedAttempts(p, creds, text, source, target, clock)(i);
      var b := SignedAttempts(p, creds, text, source, target, clock)(j);
      && a.url == b.url == "https://tmt.tencentcloudapi.com"
      && a.httpMethod == b.httpMethod == "POST"
      && a.headers.Keys == b.headers.Keys == HeaderNames
      && a.body == b.body
      && "X-TC-Timestamp" in a.headers && "X-TC-Timestamp" in b.headers
      && a.headers["X-TC-Timestamp"] == NatToDecimal(clock(i))
      && ParseNat(a.headers["X-TC-Timestamp"]) == clock(i)
      && (clock(i) == clock(j) ==> a == b)
      && (clock(i) != clock(j) ==> a.headers["X-TC-Timestamp"] != b.headers["X-TC-Timestamp"])
  {
    RequestsAtTwoReadings(p, creds, text, source, target, clock(i), clock(j));
  }

  /**
   * The body that is sent is the one that was signed: the Authorization
   * header carries the signature of the canonical request over exactly the
   * bytes of the request body, which are the UTF-8 encoding of the four
   * parameters with keys ascending.
   */
  lemma BodySentIsBodySigned(p: Primitives, creds: Credentials, text: string, source: string, target: string,
                             timestamp: nat)
    ensures var req := BuildRequest(p, creds, text, source, target, timestamp);
      var date := DateString(timestamp);
      && req.headers["Authorization"] == Authorization(creds.secretId, date,
           Signature(p, creds.secretKey, date, StringToSign(p, timestamp, date, CanonicalRequest(p, req.body))))
      && req.body == Utf8(
           "{" +
           ("\"ProjectId\":0" + "," +
           ("\"Source\":" + Quoted(p.jsonEscape(source)) + "," +
           ("\"SourceText\":" + Quoted(p.jsonEscape(text)) + "," +
           ("\"Target\":" + Quoted(p.jsonEscape(target)))))) +
           "}")
  {
    SignedHeaders(p, creds, timestamp, Parameters(text, source, target));
    RequestBodyText(p, text, source, target);
  }

  /**
   * The classification in `performSingleTranslation`: only a status of
   * exactly 200 whose body decodes as the success schema succeeds, with that
   * body's TargetText.
   */
  function Classify(response: Response): (o: Result<string, Error>)
    ensures o.Success? <==>
      response.HttpResponse? && response.statusCode == 200 && response.body.asSuccess.Some?
    ensures o.Success? ==> o.value == response.body.asSuccess.value.targetText
  {
    match response
    case TransportFailure => Failure(Transport)
    case NonHttpResponse(_) => Failure(Translation(InvalidResponse))
    case HttpResponse(statusCode, body) =>
      if statusCode != 200 then Failure(Translation(HttpError(statusCode)))
      else if body.asSuccess.Some? then Success(body.asSuccess.value.targetText)
      else if body.asError.Some? then
        Failure(Translation(ApiError(body.asError.value.code, body.asError.value.message)))
      else Failure(Translation(InvalidResponse))
  }

  /** Only a 200 response's body is looked at: any other status is an HTTP error carrying that status. */
  lemma ClassifyStatusFirst(statusCode: int, b1: Body, b2: Body)
    requires statusCode != 200
    ensures Classify(HttpResponse(statusCode, b1)) == Classify(HttpResponse(statusCode, b2))
              == Failure(Translation(HttpError(statusCode)))
  {
  }

  /**
   * An API error is reported exactly for a 200 body that does not decode as
   * the success schema but does decode as the error schema; a body matching
   * both is a success.
   */
  lemma ClassifyApiError(response: Response, code: string, message: string)
    ensures Classify(response) == Failure(Translation(ApiError(code, message))) <==>
      && response.HttpResponse? && response.statusCode == 200
      && response.body.asSuccess.None? && response.body.asError == Some(ErrorDetail(code, message))
  {
  }

  /** An invalid response is a non-HTTP response, or a 200 body that matches neither schema. */
  lemma ClassifyInvalidResponse(response: Response)
    ensures Classify(response) == Failure(Translation(InvalidResponse)) <==>
      || response.NonHttpResponse?
      || (&& response.HttpResponse? && response.statusCode == 200
          && response.body.asSuccess.None? && response.body.asError.None?)
  {
  }

  /**
   * An attempt's outcome is worth retrying exactly when the server answered
   * with a status of at least 500 or with 429; a 200, any other 4xx, a
   * non-HTTP response and a transport failure are all final.
   */
  lemma ClassifyRetryable(response: Response)
    ensures RetryableFailure(Classify(response)) <==>
      response.HttpResponse? && (response.statusCode >= 500 || response.statusCode == 429)
  {
  }

  /** The three errors raised outside an attempt are never the outcome of one. */
  lemma ClassifyNeverPrecondition(response: Response)
    ensures Classify(response) != Failure(Translation(CredentialsNotConfigured))
    ensures Classify(response) != Failure(Translation(TextTooLong))
    ensures Classify(response) != Failure(Translation(RequestFailed))
  {
  }

  // ---------------------------------------------------------------------
  // Retry loop
  // ---------------------------------------------------------------------

  /** 2^n */
  function Pow2(n: nat): (r: nat)
    ensures r >= 1
  {
    if n == 0 then 1 else 2 * Pow2(n - 1)
  }

  /**
   * `performTranslation`: up to three attempts; attempt `i` sends
   * `signed(i)`, the request signed afresh with the clock's reading at that
   * attempt. A retryable failure before the last attempt sleeps (1 second,
   * then 2) and tries again; any other outcome, and the third attempt's, is
   * final. `sent` is the requests in order and `delays` the sleeps in
   * seconds.
   */
  method PerformTranslation(signed: nat -> Request, network: (nat, Request) -> Response)
    returns (outcome: Result<string, Error>, sent: seq<Request>, delays: seq<nat>)
    ensures 1 <= |sent| <= MaxRetries
    ensures forall i {:trigger signed(i)} :: 0 <= i < |sent| ==> sent[i] == signed(i)
    ensures forall i :: 0 <= i < |sent| - 1 ==> RetryableFailure(Classify(network(i, sent[i])))
    ensures outcome == Classify(network(|sent| - 1, sent[|sent| - 1]))
    ensures RetryableFailure(outcome) ==> |sent| == MaxRetries
    ensures outcome != Failure(Translation(RequestFailed))
    ensures |delays| == |sent| - 1
    ensures forall i :: 0 <= i < |delays| ==> delays[i] == Pow2(i)
  {
    sent := [];
    delays := [];
    var delay: nat := 1;
    for attempt := 0 to MaxRetries
      invariant attempt < MaxRetries
      invariant |sent| == attempt && |delays| == attempt
      invariant forall i :: 0 <= i < attempt ==> sent[i] == signed(i)
      invariant forall i :: 0 <= i < attempt ==> RetryableFailure(Classify(network(i, sent[i])))
      invariant forall i :: 0 <= i < attempt ==> delays[i] == Pow2(i)
      invariant delay == Pow2(attempt)
    {
      var request := signed(attempt);
      sent := sent + [request];
      var result := Classify(network(attempt, request));
      if result.Success? {
        return result, sent, delays;
      }
      if attempt < MaxRetries - 1 && IsRetryable(result.error) {
        delays := delays + [delay];
        delay := delay * 2;
        continue;
      }
      ClassifyNeverPrecondition(network(attempt, request));
      return result, sent, delays;
    }
    assert false;
  }

  // ---------------------------------------------------------------------
  // Entry points
  // ---------------------------------------------------------------------

  /**
   * `translate`: nothing is signed or sent when the stored secret id or key
   * is empty or the text is longer than 2000 characters (2000 itself is
   * accepted); otherwise the translation if the retry loop succeeds, and
   * `None` on any failure. Attempt `i` is signed with the stored credentials
   * and the clock's reading `clock(i)`.
   */
  method Translate(store: ConfigStore, p: Primitives, text: string, source: string, target: string,
                   clock: nat -> nat, network: (nat, Request) -> Response)
    returns (translation: Option<string>, sent: seq<Request>)
    ensures !IsConfigured(store.Snapshot()) || |text| > MaxTextLength ==> translation == None && sent == []
    ensures IsConfigured(store.Snapshot()) && |text| <= MaxTextLength ==>
      && 1 <= |sent| <= MaxRetries
      && (forall i {:trigger SignedAttempts(p, store.Snapshot(), text, source, target, clock)(i)} ::
            0 <= i < |sent| ==> sent[i] == SignedAttempts(p, store.Snapshot(), text, source, target, clock)(i))
      && (forall i :: 0 <= i < |sent| - 1 ==> RetryableFailure(Classify(network(i, sent[i]))))
      && (RetryableFailure(Classify(network(|sent| - 1, sent[|sent| - 1]))) ==> |sent| == MaxRetries)
      && translation == Classify(network(|sent| - 1, sent[|sent| - 1])).ToOption()
  {
    var creds := store.Snapshot();
    if !(creds.secretId != "" && creds.secretKey != "") {
      return None, [];
    }
    if !(|text| <= MaxTextLength) {
      return None, [];
    }
    var outcome, requests, _ :=
      PerformTranslation(SignedAttempts(p, creds, text, source, target, clock), network);
    return outcome.ToOption(), requests;
  }

  /** The placeholder shown when a translation fails. */
  function FailureMessage(text: string): (s: string)
    ensures |s| == |FailurePrefix| + |text| + 1
    ensures s[..|FailurePrefix|] == FailurePrefix
    ensures s[|FailurePrefix|..|FailurePrefix| + |text|] == text
    ensures s[|s| - 1] == '\''
  {
    FailurePrefix + text + "'"
  }

  /** `translateAndFormat`: the translation verbatim, or a placeholder that quotes the input verbatim. */
  method TranslateAndFormat(store: ConfigStore, p: Primitives, text: string, source: string, target: string,
                            clock: nat -> nat, network: (nat, Request) -> Response)
    returns (display: string, sent: seq<Request>)
    ensures !IsConfigured(store.Snapshot()) || |text| > MaxTextLength ==>
      display == FailureMessage(text) && sent == []
    ensures IsConfigured(store.Snapshot()) && |text| <= MaxTextLength ==>
      && 1 <= |sent| <= MaxRetries
      && (forall i {:trigger SignedAttempts(p, store.Snapshot(), text, source, target, clock)(i)} ::
            0 <= i < |sent| ==> sent[i] == SignedAttempts(p, store.Snapshot(), text, source, target, clock)(i))
      && (forall i :: 0 <= i < |sent| - 1 ==> RetryableFailure(Classify(network(i, sent[i]))))
      && (RetryableFailure(Classify(network(|sent| - 1, sent[|sent| - 1]))) ==> |sent| == MaxRetries)
      && var o := Classify(network(|sent| - 1, sent[|sent| - 1]));
         display == (if o.Success? then o.value else FailureMessage(text))
  {
    var translation;
    translation, sent := Translate(store, p, text, source, target, clock, network);
    if translation.Some? {
      display := translation.value;
    } else {
      display := FailureMessage(text);
    }
  }

  // ---------------------------------------------------------------------
  // Scenarios
  // ---------------------------------------------------------------------

  /** A server that always answers 503: three attempts, sleeps of 1 and 2 seconds, then that 503. */
  method AlwaysUnavailable(signed: nat -> Request)
    returns (outcome: Result<string, Error>, attempts: nat, delays: seq<nat>)
    ensures attempts == 3 && delays == [1, 2]
    ensures outcome == Failure(Translation(HttpError(503)))
  {
    var sent;
    outcome, sent, delays :=
      PerformTranslation(signed, (i: nat, r: Request) => HttpResponse(503, Body(None, None)));
    attempts := |sent|;
    assert delays[0] == Pow2(0) && delays[1] == Pow2(1);
  }

  /** Empty stored credentials: no translation and nothing sent, whatever the network would say. */
  method UnconfiguredSendsNothing(store: ConfigStore, p: Primitives, clock: nat -> nat,
                                  network: (nat, Request) -> Response)
    returns (translation: Option<string>, attempts: nat)
    requires store.SecretId() == "" || store.SecretKey() == ""
    ensures translation == None && attempts == 0
  {
    var sent;
    translation, sent := Translate(store, p, "hello", DefaultSourceLang, DefaultTargetLang, clock, network);
    attempts := |sent|;
  }

  /** A success body on the first attempt: its TargetText, after exactly one request. */
  method FirstAttemptSucceeds(store: ConfigStore, p: Primitives, text: string, clock: nat -> nat)
    returns (translation: Option<string>, attempts: nat)
    requires IsConfigured(store.Snapshot()) && |text| <= MaxTextLength
    ensures translation == Some("\U{4F60}\U{597D}") && attempts == 1
  {
    var data := TranslationData("\U{4F60}\U{597D}", "en", "zh", "r1");
    var response := HttpResponse(200, Body(Some(data), None));
    var network := (i: nat, r: Request) => response;
    var sent;
    translation, sent := Translate(store, p, text, DefaultSourceLang, DefaultTargetLang, clock, network);
    assert Classify(response) == Success(data.targetText);
    assert network(0, sent[0]) == response;
    attempts := |sent|;
  }

  /** A 200 carrying an API error: no translation, and no retry. */
  method ApiErrorIsFinal(store: ConfigStore, p: Primitives, text: string, clock: nat -> nat)
    returns (translation: Option<string>, attempts: nat)
    requires IsConfigured(store.Snapshot()) && |text| <= MaxTextLength
    ensures translation == None && attempts == 1
  {
    var detail := ErrorDetail("AuthFailure.SignatureFailure", "bad sig");
    var response := HttpResponse(200, Body(None, Some(detail)));
    var network := (i: nat, r: Request) => response;
    var sent;
    translation, sent := Translate(store, p, text, DefaultSourceLang, DefaultTargetLang, clock, network);
    assert Classify(response) == Failure(Translation(ApiError(detail.code, detail.message)));
    assert network(0, sent[0]) == response;
    attempts := |sent|;
  }

  /** A text one character over the limit is refused before anything is signed. */
  method OverLongTextSendsNothing(store: ConfigStore, p: Primitives, text: string, clock: nat -> nat,
                                  network: (nat, Request) -> Response)
    returns (translation: Option<string>, attempts: nat)
    requires |text| == MaxTextLength + 1
    ensures translation == None && attempts == 0
  {
    var sent;
    translation, sent := Translate(store, p, text, DefaultSourceLang, DefaultTargetLang, clock, network);
    attempts := |sent|;
  }

  /** A text of exactly the limit is sent when credentials are configured. */
  method LimitLengthTextIsSent(store: ConfigStore, p: Primitives, text: string, clock: nat -> nat,
                               network: (nat, Request) -> Response)
    returns (translation: Option<string>, attempts: nat)
    requires IsConfigured(store.Snapshot()) && |text| == MaxTextLength
    ensures attempts >= 1
  {
    var sent;
    translation, sent := Translate(store, p, text, DefaultSourceLang, DefaultTargetLang, clock, network);
    attempts := |sent|;
  }

  /** When every attempt fails the displayed text quotes the input verbatim. */
  method FailureQuotesInput(store: ConfigStore, p: Primitives, text: string, clock: nat -> nat)
    returns (display: string)
    ensures |display| == |FailurePrefix| + |text| + 1
    ensures display[|FailurePrefix|..|FailurePrefix| + |text|] == text
  {
    var sent;
    display, sent := TranslateAndFormat(store, p, text, DefaultSourceLang, DefaultTargetLang, clock,
                                        (i: nat, r: Request) => HttpResponse(400, Body(None, None)));
  }
}
