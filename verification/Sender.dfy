/** The outbound half of the protocol: the HTTP POST that hands an exported
    model to the external tool, and the reduction of the transport's outcome
    to a success flag and an error message. The HTTP transport itself is not
    modelled: whether the request could be started, and what completed, are
    inputs. */
module Sender {
  import opened Wrappers
  import opened Json
  import opened Messages
  import Text
  import Settings

  /** The fixed name the bridge identifies itself with. */
  const SourceName := "METATAILOR Bridge for Unreal"

  const UrlPrefix := "http://127.0.0.1:"
  const UrlSuffix := "/importavatar"

  datatype HttpPost = HttpPost(verb: string, url: string, headers: seq<(string, string)>, body: JValue)

  function ImportAvatarUrl(port: int): string {
    UrlPrefix + Text.IntToString(port) + UrlSuffix
  }

  /** Reads the port back out of an import URL on the loopback address. */
  function ParseImportAvatarUrl(url: string): Option<nat> {
    if |url| < |UrlPrefix| + |UrlSuffix| then None
    else if url[..|UrlPrefix|] != UrlPrefix || url[|url| - |UrlSuffix|..] != UrlSuffix then None
    else
      var digits := url[|UrlPrefix|..|url| - |UrlSuffix|];
      if |digits| > 0 && forall i :: 0 <= i < |digits| ==> Text.IsDigit(digits[i])
      then Some(Text.ParseDigits(digits))
      else None
  }

  /** `SendExportedModel`, up to handing the request to the transport: a POST
      of the JSON request object, whose source name is always the bridge's
      own, to `/importavatar` on the configured port of the loopback address. */
  function SendExportedModel(exportedPath: string, settings: Option<Settings.BridgeSettings>): (post: HttpPost)
    ensures post.verb == "POST"
    ensures post.headers == [("Content-Type", "application/json")]
    ensures RequestFromJson(post.body) == Some(ImportAvatarRequest(exportedPath, "METATAILOR Bridge for Unreal"))
    ensures Settings.GetMetaTailorPort(settings) >= 0 ==>
      ParseImportAvatarUrl(post.url) == Some(Settings.GetMetaTailorPort(settings))
  {
    var request := ImportAvatarRequest(exportedPath, SourceName);
    var port := Settings.GetMetaTailorPort(settings);
    RequestRoundTrip(request);
    UrlRoundTrip(port);
    HttpPost("POST", ImportAvatarUrl(port), [("Content-Type", "application/json")], ToJson(request))
  }

  /** The URL built for a port names exactly that port. */
  lemma UrlRoundTrip(port: int)
    ensures port >= 0 ==> ParseImportAvatarUrl(ImportAvatarUrl(port)) == Some(port)
  {
    if port < 0 { return; }
    var url := ImportAvatarUrl(port);
    var digits := Text.NatToString(port);
    assert url[..|UrlPrefix|] == UrlPrefix;
    assert url[|url| - |UrlSuffix|..] == UrlSuffix;
    assert url[|UrlPrefix|..|url| - |UrlSuffix|] == digits;
    Text.ParseNatToString(port);
  }

  // ---------------------------------------------------------------------------
  // Completion

  datatype HttpResponse = HttpResponse(code: int, content: string)

  /** What the transport reports on completion: its own success flag and the
      response, which may be missing. */
  datatype HttpCompletion = HttpCompletion(wasSuccessful: bool, response: Option<HttpResponse>)

  datatype SendReport = SendReport(success: bool, message: string)

  /** `EHttpResponseCodes::IsOk`: 200 (OK) up to 206 (Partial Content). */
  predicate IsOk(code: int) {
    200 <= code <= 206
  }

  const StartFailedMessage := "Failed to start HTTP request."
  const NoResponseMessage := "HTTP Request Failed or No Response."

  /** `HandleSendModelResponse`. */
  function HandleSendModelResponse(completion: HttpCompletion): (r: SendReport)
    ensures r.success <==> completion.wasSuccessful && completion.response.Some? && IsOk(completion.response.value.code)
    ensures r.success ==> r.message == ""
  {
    if !completion.wasSuccessful || completion.response.None? then SendReport(false, NoResponseMessage)
    else if IsOk(completion.response.value.code) then SendReport(true, "")
    else
      var response := completion.response.value;
      SendReport(false, "HTTP Error " + Text.IntToString(response.code) + ": " + response.content)
  }

  /** The whole send: `started` is the result of `ProcessRequest`; when it is
      false the caller is told at once, and the completion bound before the
      call is assumed not to fire. */
  function SendOutcome(started: bool, completion: HttpCompletion): (r: SendReport)
    ensures !started ==> r == SendReport(false, "Failed to start HTTP request.")
    ensures r.success <==> started && completion.wasSuccessful && completion.response.Some? && IsOk(completion.response.value.code)
    ensures r.success ==> r.message == ""
  {
    if !started then SendReport(false, StartFailedMessage) else HandleSendModelResponse(completion)
  }

  /** The failure taxonomy of the outbound sender. */
  datatype SendFailure =
    | TransportStartFailure
    | NoResponse
    | HttpStatusFailure(code: int, content: string)

  function Describe(failure: SendFailure): string {
    match failure
    case TransportStartFailure => StartFailedMessage
    case NoResponse => NoResponseMessage
    case HttpStatusFailure(code, content) => "HTTP Error " + Text.IntToString(code) + ": " + content
  }

  /** Which failure, if any, a send ends in. */
  function Classify(started: bool, completion: HttpCompletion): Option<SendFailure> {
    if !started then Some(TransportStartFailure)
    else if !completion.wasSuccessful || completion.response.None? then Some(NoResponse)
    else if IsOk(completion.response.value.code) then None
    else Some(HttpStatusFailure(completion.response.value.code, completion.response.value.content))
  }

  /** The reported outcome is the classification: success exactly when there
      is no failure, and otherwise the failure's description. */
  lemma SendOutcomeIsClassified(started: bool, completion: HttpCompletion)
    ensures SendOutcome(started, completion).success <==> Classify(started, completion).None?
    ensures Classify(started, completion).Some? ==>
      SendOutcome(started, completion).message == Describe(Classify(started, completion).value)
  {
  }

  /** The message alone tells the kind of failure, and is never the empty
      message of a success. */
  lemma DescribeDistinguishesKinds(a: SendFailure, b: SendFailure)
    ensures Describe(a) != ""
    ensures Describe(a) == Describe(b) ==>
      (a.TransportStartFailure? <==> b.TransportStartFailure?) && (a.NoResponse? <==> b.NoResponse?)
  {
    var da, db := Describe(a), Describe(b);
    assert da[5] == (if a.TransportStartFailure? then 'd' else if a.NoResponse? then 'R' else 'E');
    assert db[5] == (if b.TransportStartFailure? then 'd' else if b.NoResponse? then 'R' else 'E');
  }
}
