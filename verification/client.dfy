/** The front end's HTTP client (frontend/src/api.ts): how a response
    becomes a value or a thrown `Error`, and how the audiobook request is
    put on the wire. The network is a parameter: each call is given the
    exchange that happened. */
module Client {
  import opened Js
  import Server

  const RequestFailed: string := "Request failed"
  const PreviewRequestFailed: string := "Preview request failed"

  /** The `detail` member of a parsed error body, as `typeof data?.detail`
      sees it (a `null` body has no detail). */
  datatype Detail = NoDetail | StringDetail(text: string) | OtherDetail

  /** What `response.json()` makes of an error response. */
  datatype ErrorBody = Unparseable | JsonBody(detail: Detail)

  /** A response: `ok`, with its decoded payload, or not. */
  datatype Response<+T> = OkResponse(payload: T) | ErrorResponse(status: nat, body: ErrorBody)

  /** One call: the response, or `fetch` itself rejecting. */
  datatype Exchange<+T> = Answered(response: Response<T>) | FetchRejected(reason: Thrown)

  /** How an `await` ends: with a value or with a thrown value. */
  datatype Settled<+T> = Resolved(value: T) | Rejected(reason: Thrown)

  /** The message of the `Error` a failed response turns into: the body's
      string `detail` when there is one, otherwise the fallback. A body
      that does not parse is ignored. */
  function ErrorMessage(body: ErrorBody, fallback: string): (m: string)
    ensures body.JsonBody? && body.detail.StringDetail? ==> m == body.detail.text
    ensures !(body.JsonBody? && body.detail.StringDetail?) ==> m == fallback
  {
    match body
    case JsonBody(StringDetail(text)) => text
    case _ => fallback
  }

  /** `handleResponse`. */
  function HandleResponse<T>(r: Response<T>): (s: Settled<T>)
    ensures r.OkResponse? <==> s.Resolved?
    ensures r.OkResponse? ==> s.value == r.payload
    ensures r.ErrorResponse? ==> s == Rejected(ErrorObject(ErrorMessage(r.body, RequestFailed)))
  {
    match r
    case OkResponse(v) => Resolved(v)
    case ErrorResponse(_, body) => Rejected(ErrorObject(ErrorMessage(body, RequestFailed)))
  }

  /** `generateOutline`, `regenerateOutline`, `generateChapters` and
      `generateAudiobook`: fetch, then `handleResponse`. */
  function Call<T>(e: Exchange<T>): (s: Settled<T>)
    ensures e.FetchRejected? ==> s == Rejected(e.reason)
    ensures e.Answered? ==> s == HandleResponse(e.response)
  {
    match e
    case FetchRejected(t) => Rejected(t)
    case Answered(r) => HandleResponse(r)
  }

  /** `generateVoicePreview`: the same steps with its own fallback message;
      the payload is the audio blob. */
  function PreviewCall<T>(e: Exchange<T>): (s: Settled<T>)
    ensures e.FetchRejected? ==> s == Rejected(e.reason)
    ensures e.Answered? && e.response.OkResponse? ==> s == Resolved(e.response.payload)
    ensures e.Answered? && e.response.ErrorResponse? ==>
      s == Rejected(ErrorObject(ErrorMessage(e.response.body, PreviewRequestFailed)))
  {
    match e
    case FetchRejected(t) => Rejected(t)
    case Answered(OkResponse(v)) => Resolved(v)
    case Answered(ErrorResponse(_, body)) => Rejected(ErrorObject(ErrorMessage(body, PreviewRequestFailed)))
  }

  /** How the server's reply travels: a failure is sent with its status
      and a JSON body `{"detail": ...}`. */
  function Transmit<T>(reply: Server.Reply<T>): Response<T> {
    match reply
    case Success(v) => OkResponse(v)
    case Failure(status, detail) => ErrorResponse(status, JsonBody(StringDetail(detail)))
  }

  /** The server's reply reaches the caller unchanged: its value, or an
      `Error` whose message is exactly the server's detail, never a
      fallback. */
  lemma ReplyReachesCaller<T>(reply: Server.Reply<T>)
    ensures reply.Success? ==> Call(Answered(Transmit(reply))) == Resolved(reply.value)
    ensures reply.Success? ==> PreviewCall(Answered(Transmit(reply))) == Resolved(reply.value)
    ensures reply.Failure? ==> Call(Answered(Transmit(reply))) == Rejected(ErrorObject(reply.detail))
    ensures reply.Failure? ==> PreviewCall(Answered(Transmit(reply))) == Rejected(ErrorObject(reply.detail))
  {
  }

  /** The two fallbacks differ, so a caller can tell from the message which
      call failed without a usable detail. */
  lemma FallbacksDistinguishCalls(body: ErrorBody)
    requires !(body.JsonBody? && body.detail.StringDetail?)
    ensures ErrorMessage(body, RequestFailed) != ErrorMessage(body, PreviewRequestFailed)
  {
    assert RequestFailed[0] != PreviewRequestFailed[0];
  }

  // ---------------------------------------------------------------------
  // The audiobook request on the wire
  // ---------------------------------------------------------------------

  /** The front end's `AudiobookRequest`; `instructions` is optional. */
  datatype AudiobookPayload = AudiobookPayload(
    title: string, outline: string, chapters: seq<string>, voice: string,
    speed: real, includeOutline: bool, instructions: Option<string>)

  /** The JSON object `generateAudiobook` sends. A member is `None` when it
      is missing from the JSON text (`JSON.stringify` drops `undefined`). */
  datatype AudiobookBody = AudiobookBody(
    title: string, outline: string, chapters: seq<string>, voice: string,
    speed: real, include_outline: Option<bool>, instructions: Option<string>)

  /** The body built in `generateAudiobook`: every field copied, the flag
      renamed to `include_outline`. */
  function ToBody(p: AudiobookPayload): (b: AudiobookBody)
    ensures b.include_outline == Some(p.includeOutline)
  {
    AudiobookBody(p.title, p.outline, p.chapters, p.voice, p.speed, Some(p.includeOutline), p.instructions)
  }

  /** How the server reads such a body: a missing `include_outline` means
      true, a missing `instructions` means none. */
  function ServerReads(b: AudiobookBody): (r: Server.AudiobookRequest)
    ensures b.include_outline.None? ==> r.includeOutline
  {
    Server.AudiobookRequest(b.title, b.outline, b.chapters, b.voice, b.speed,
                            b.include_outline.GetOr(true), b.instructions)
  }

  /** Reading a body back into the front end's shape, where that is
      possible. */
  function FromBody(b: AudiobookBody): Option<AudiobookPayload> {
    match b.include_outline
    case None => None
    case Some(flag) => Some(AudiobookPayload(b.title, b.outline, b.chapters, b.voice, b.speed, flag, b.instructions))
  }

  /** Nothing is lost on the way out. */
  lemma BodyRoundTrip(p: AudiobookPayload)
    ensures FromBody(ToBody(p)) == Some(p)
  {
  }

  /** The server sees exactly what the front end asked for; in particular
      its default for `include_outline` never applies to this client. */
  lemma ServerSeesPayload(p: AudiobookPayload)
    ensures ServerReads(ToBody(p)) == Server.AudiobookRequest(
      p.title, p.outline, p.chapters, p.voice, p.speed, p.includeOutline, p.instructions)
  {
  }
}
