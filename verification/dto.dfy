/** The transfer objects shared by the backend's layers: the inbound signature
    request, the provider's record of a request, the uniform response
    envelope with its two factories, and the download envelope. */
module Dto {
  import opened JavaLang

  /** A `LocalDateTime`, as seconds on one fixed clock. */
  type Timestamp = int

  /** Where a signature is drawn: a 1-based page and an "x1,y1,x2,y2" box. */
  datatype SignPosition = SignPosition(page: Option<int>, position: Option<string>)

  /** Delivered to the provider and never interpreted locally. */
  datatype Callback = Callback(field: Option<string>, url: Option<string>, headers: map<string, string>)

  /** A person who must sign the document. Elements of its list of sign positions may be null. */
  datatype Member = Member(
    firstname: Option<string>,
    lastname: Option<string>,
    email: Option<string>,
    phone: Option<string>,
    signs: Option<seq<Option<SignPosition>>>)

  /** The inbound signature request. Elements of its members list may be null, as JSON `[null]` reads. */
  datatype FirmaRequest = FirmaRequest(
    title: Option<string>,
    description: Option<string>,
    ui: Option<string>,
    filename: Option<string>,
    content: Option<string>,
    members: Option<seq<Option<Member>>>,
    callback: Option<Callback>)

  /** The provider's lifecycle states. */
  datatype FirmaStatus =
    | Created
    | Started
    | Finished
    | Refused
    | Expired
    | RequestFailed
    | FileValidationFailed
    | Error

  /** A member's contact fields with a free-text signing status. */
  datatype MemberStatus = MemberStatus(
    firstname: Option<string>,
    lastname: Option<string>,
    email: Option<string>,
    phone: Option<string>,
    status: string,
    createdAt: Timestamp,
    updatedAt: Timestamp,
    signLink: string)

  /** The provider's record of one signature request. */
  datatype FirmaResponse = FirmaResponse(
    id: string,
    filename: Option<string>,
    title: Option<string>,
    description: Option<string>,
    members: seq<MemberStatus>,
    status: FirmaStatus,
    downloadLink: Option<string>,
    callbackStatus: Option<string>)

  /** The uniform envelope of every response but the download. */
  datatype ApiResponse<+T> = ApiResponse(
    data: Option<T>,
    success: bool,
    message: Option<string>,
    error: Option<string>)

  /** The envelope of a download: the base64 document or an error. */
  datatype DownloadResponse = DownloadResponse(
    content: Option<string>,
    success: bool,
    message: Option<string>,
    error: Option<string>)

  /** One entry of the mock provider's synthetic audit trail. */
  datatype AuditEvent = AuditEvent(timestamp: Timestamp, event: string)

  datatype AuditTrail = AuditTrail(
    requestId: string,
    filename: string,
    createdAt: Timestamp,
    completedAt: Timestamp,
    events: seq<AuditEvent>,
    mockData: bool)

  /** The audit payload: the mock's synthetic trail, or the provider's JSON passed through untouched. */
  datatype AuditPayload = MockTrail(trail: AuditTrail) | ProviderPayload(json: string)

  /** A successful envelope carries no error; a failed one carries an error and nothing else. */
  predicate IsSuccessEnvelope<T>(r: ApiResponse<T>) {
    r.success && r.error.None?
  }

  predicate IsErrorEnvelope<T>(r: ApiResponse<T>) {
    !r.success && r.data.None? && r.message.None? && r.error.Some?
  }

  /** `ApiResponse.success(data, message)`. */
  function SuccessResponse<T>(data: Option<T>, message: Option<string>): (r: ApiResponse<T>)
    ensures IsSuccessEnvelope(r) && !IsErrorEnvelope(r)
    ensures r.data == data && r.message == message
  {
    ApiResponse(data, true, message, None)
  }

  /** `ApiResponse.error(error)`. */
  function ErrorResponse<T>(error: string): (r: ApiResponse<T>)
    ensures IsErrorEnvelope(r) && !IsSuccessEnvelope(r)
    ensures r.error == Some(error)
  {
    ApiResponse(None, false, None, Some(error))
  }

  /** The factories build exactly the envelopes of their shape: an envelope is a failure just when
      it is `error` of its own error text, and a success just when it is `success` of its own data
      and message. */
  lemma EnvelopeFactoriesExact<T>(r: ApiResponse<T>)
    ensures IsErrorEnvelope(r) <==> r.error.Some? && r == ErrorResponse(r.error.value)
    ensures IsSuccessEnvelope(r) <==> r == SuccessResponse(r.data, r.message)
  {
  }

  /** A download envelope built with only `success(false)` and `error(e)`. */
  function DownloadError(error: string): (r: DownloadResponse)
    ensures !r.success && r.content.None? && r.message.None? && r.error == Some(error)
  {
    DownloadResponse(None, false, None, Some(error))
  }
}
