/** The HTTP controller: each route answers with the service's envelope as its
    body, unchanged, and a status chosen by the envelope's success flag alone. */
module Controller {
  import opened JavaLang
  import opened Dto

  datatype HttpResponse<+T> = HttpResponse(status: int, body: T)

  const Ok := 200
  const CreatedStatus := 201
  const BadRequest := 400
  const NotFoundStatus := 404
  const InternalServerError := 500

  datatype Route = CreateRoute | ListRoute | GetRoute | DownloadRoute | AuditRoute

  /** The status a route answers with on success and on failure. */
  function StatusFor(route: Route, success: bool): int {
    match route
    case CreateRoute => if success then CreatedStatus else BadRequest
    case ListRoute => if success then Ok else InternalServerError
    case _ => if success then Ok else NotFoundStatus
  }

  /** Success always answers 2xx and failure never does; failures are client errors except on the
      list route, where they are server errors. */
  lemma StatusClasses(route: Route, success: bool)
    ensures 200 <= StatusFor(route, success) < 300 <==> success
    ensures !success && route != ListRoute ==> 400 <= StatusFor(route, success) < 500
    ensures !success && route == ListRoute ==> StatusFor(route, success) == 500
  {
  }

  /** `POST /firma`: 201 on success, 400 otherwise. */
  function CreateSignatureRequest(resp: ApiResponse<FirmaResponse>): (r: HttpResponse<ApiResponse<FirmaResponse>>)
    ensures r.body == resp
    ensures r.status == 201 <==> resp.success
    ensures r.status == 400 <==> !resp.success
  {
    HttpResponse(StatusFor(CreateRoute, resp.success), resp)
  }

  /** `GET /firma`: 200 on success, 500 otherwise. */
  function GetAllSignatureRequests(resp: ApiResponse<seq<FirmaResponse>>): (r: HttpResponse<ApiResponse<seq<FirmaResponse>>>)
    ensures r.body == resp
    ensures r.status == 200 <==> resp.success
    ensures r.status == 500 <==> !resp.success
  {
    HttpResponse(StatusFor(ListRoute, resp.success), resp)
  }

  /** `GET /firma/{id}`: 200 on success, 404 otherwise. */
  function GetSignatureRequestById(resp: ApiResponse<FirmaResponse>): (r: HttpResponse<ApiResponse<FirmaResponse>>)
    ensures r.body == resp
    ensures r.status == 200 <==> resp.success
    ensures r.status == 404 <==> !resp.success
  {
    HttpResponse(StatusFor(GetRoute, resp.success), resp)
  }

  /** `GET /firma/{id}/download`: 200 on success, 404 otherwise. */
  function DownloadSignedDocument(resp: DownloadResponse): (r: HttpResponse<DownloadResponse>)
    ensures r.body == resp
    ensures r.status == 200 <==> resp.success
    ensures r.status == 404 <==> !resp.success
  {
    HttpResponse(StatusFor(DownloadRoute, resp.success), resp)
  }

  /** `GET /firma/{id}/audit`: 200 on success, 404 otherwise. */
  function GetAuditTrail(resp: ApiResponse<AuditPayload>): (r: HttpResponse<ApiResponse<AuditPayload>>)
    ensures r.body == resp
    ensures r.status == 200 <==> resp.success
    ensures r.status == 404 <==> !resp.success
  {
    HttpResponse(StatusFor(AuditRoute, resp.success), resp)
  }

  /** `GET /firma/health`: always 200, with the running notice as data and "OK" as message,
      in the argument order of `ApiResponse.success(data, message)`. */
  function HealthCheck(): (r: HttpResponse<ApiResponse<string>>)
    ensures r.status == 200
    ensures IsSuccessEnvelope(r.body)
    ensures r.body.data == Some("Firma service is running") && r.body.message == Some("OK")
  {
    HttpResponse(Ok, SuccessResponse(Some("Firma service is running"), Some("OK")))
  }
}
