/** The client of the real signature provider: pre-send normalisation of a
    request, the authentication headers, the endpoint URLs, and the mapping
    of every failed exchange to an error envelope. The HTTP exchange itself
    (serialisation, transport, parsing) is the parameter `send`. */
module RealClient {
  import opened JavaLang
  import opened Dto
  import opened Config
  import opened NullSites

  datatype HttpMethod = Get | Post

  /** What the client hands to the transport. */
  datatype HttpRequest = HttpRequest(
    verb: HttpMethod,
    url: string,
    headers: seq<(string, string)>,
    body: Option<FirmaRequest>)

  /** How an exchange ended: a parsed body, or a failure with its message. */
  datatype Exchange<+B> = Ok(body: B) | Err(message: Option<string>)

  /** The box the client writes over the first sign position of the first member. */
  const FixedSignPosition := "10,15,45,35"

  const CreateError := "Failed to create signature request: "
  const ListError := "Failed to fetch signature requests: "
  const GetError := "Failed to fetch signature request: "
  const DownloadFailed := "Failed to download signed document: "
  const AuditError := "Failed to fetch audit trail: "

  // ---------------------------------------------------------------------
  // Headers and URLs.

  /** `createAuthHeaders()`: a JSON content type and a Bearer token. */
  function AuthHeaders(c: OpenApiConfig): (h: seq<(string, string)>)
    ensures |h| == 2
    ensures h[0] == ("Content-Type", "application/json")
    ensures h[1].0 == "Authorization" && |h[1].1| >= 7 && h[1].1[..7] == "Bearer " && h[1].1[7..] == Str(c.apiKey)
  {
    [("Content-Type", "application/json"), ("Authorization", "Bearer " + Str(c.apiKey))]
  }

  function Base(c: OpenApiConfig): string {
    Str(ActiveBaseUrl(c))
  }

  function CreateUrl(c: OpenApiConfig): string {
    Base(c) + "/firma_elettronica/base"
  }

  function ListUrl(c: OpenApiConfig): string {
    Base(c) + "/firma_elettronica"
  }

  function RequestUrl(c: OpenApiConfig, id: string): string {
    ListUrl(c) + "/" + id
  }

  function DownloadUrl(c: OpenApiConfig, id: string): string {
    RequestUrl(c, id) + "/download"
  }

  function AuditUrl(c: OpenApiConfig, id: string): string {
    RequestUrl(c, id) + "/audit"
  }

  /** Every endpoint is the active base URL followed by a fixed path; the id sits right after
      "/firma_elettronica/" and can be read back from the URL of a request. */
  lemma UrlsShape(c: OpenApiConfig, id: string)
    ensures var b := Base(c);
      && CreateUrl(c) == b + "/firma_elettronica/base"
      && ListUrl(c) == b + "/firma_elettronica"
      && RequestUrl(c, id) == b + "/firma_elettronica/" + id
      && DownloadUrl(c, id) == b + "/firma_elettronica/" + id + "/download"
      && AuditUrl(c, id) == b + "/firma_elettronica/" + id + "/audit"
    ensures RequestUrl(c, id)[|Base(c)| + 19..] == id
    ensures RequestUrl(c, id) <= DownloadUrl(c, id) && RequestUrl(c, id) <= AuditUrl(c, id)
  {
    var b := Base(c);
    assert ListUrl(c) + "/" + id == b + "/firma_elettronica/" + id;
    assert DownloadUrl(c, id) == RequestUrl(c, id) + "/download";
    assert AuditUrl(c, id) == RequestUrl(c, id) + "/audit";
  }

  /** Two different ids never share a request URL. */
  lemma RequestUrlInjective(c: OpenApiConfig, id: string, id': string)
    requires RequestUrl(c, id) == RequestUrl(c, id')
    ensures id == id'
  {
    UrlsShape(c, id);
    UrlsShape(c, id');
  }

  // ---------------------------------------------------------------------
  // Pre-send normalisation of a create request.

  /** The first member is present and its signs list is not null: `get(0).getSigns()` succeeds. */
  predicate HasFirstSigns(r: FirmaRequest) {
    && r.members.Some? && |r.members.value| > 0
    && r.members.value[0].Some? && r.members.value[0].value.signs.Some?
  }

  /** `get(0).getSigns().get(0)` yields a sign position whose box can be set. */
  predicate HasFirstSign(r: FirmaRequest) {
    HasFirstSigns(r) && |r.members.value[0].value.signs.value| > 0 && r.members.value[0].value.signs.value[0].Some?
  }

  /** One of the two `get(0)` calls of the overwrite meets an empty list. */
  predicate EmptyAtGet(r: FirmaRequest) {
    || (r.members.Some? && |r.members.value| == 0)
    || (HasFirstSigns(r) && |r.members.value[0].value.signs.value| == 0)
  }

  /** The request with its first member's first sign position given the box `position`. */
  function WithFirstPosition(r: FirmaRequest, position: string): FirmaRequest
    requires HasFirstSign(r)
  {
    var m := r.members.value[0].value;
    var sp := m.signs.value[0].value;
    var m' := m.(signs := Some([Some(sp.(position := Some(position)))] + m.signs.value[1..]));
    r.(members := Some([Some(m')] + r.members.value[1..]))
  }

  /** What the client does to the request before serialising it, all outside the try block. The
      overwrite of the first sign position comes first and dereferences the members list, its first
      member, that member's signs and their first element. The null-or-empty checks that follow only
      log, but the loop over the members reads each member's signs, so a null member anywhere throws.
      Each null dereference throws with the message `jvm` gives its site. */
  function Normalize(r: FirmaRequest, jvm: NullMessages): (n: Call<FirmaRequest>)
    ensures n.Throws? <==> !HasFirstSign(r) || !NoNulls(r.members.value)
    ensures EmptyAtGet(r) ==> n == Throws(EmptyListGetException)
    ensures n.Throws? && !EmptyAtGet(r) ==> n.exception.kind == NullPointer
    ensures r.members.None? ==> n == Throws(NullDereference(jvm, RealMembersGet))
    ensures r.members.Some? && |r.members.value| > 0 && r.members.value[0].None? ==>
      n == Throws(NullDereference(jvm, RealFirstMemberSigns))
    ensures r.members.Some? && |r.members.value| > 0 && r.members.value[0].Some? && r.members.value[0].value.signs.None? ==>
      n == Throws(NullDereference(jvm, RealSignsGet))
    ensures HasFirstSigns(r) && |r.members.value[0].value.signs.value| > 0 && r.members.value[0].value.signs.value[0].None? ==>
      n == Throws(NullDereference(jvm, RealSetPosition))
    ensures HasFirstSign(r) && !NoNulls(r.members.value) ==> n == Throws(NullDereference(jvm, RealMemberSigns))
    ensures n.Returns? ==>
      var out := n.value;
      var first := r.members.value[0].value;
      && out.members.Some? && |out.members.value| == |r.members.value|
      && out.members.value[0].Some? && out.members.value[0].value.signs.Some?
      && |out.members.value[0].value.signs.value| == |first.signs.value|
      && out.members.value[0].value.signs.value[0] == Some(first.signs.value[0].value.(position := Some(FixedSignPosition)))
      && out.members.value[0].value.signs.value[1..] == first.signs.value[1..]
      && out.members.value[0].value.(signs := None) == first.(signs := None)
      && out.members.value[1..] == r.members.value[1..]
      && out.title == Some(r.title.GetOr(""))
      && out.description == Some(r.description.GetOr(""))
      && out.ui == Some(r.ui.GetOr(""))
      && out.filename == r.filename && out.content == r.content && out.callback == r.callback
  {
    if r.members.None? then Throws(NullDereference(jvm, RealMembersGet))
    else if |r.members.value| == 0 then Throws(EmptyListGetException)
    else if r.members.value[0].None? then Throws(NullDereference(jvm, RealFirstMemberSigns))
    else if r.members.value[0].value.signs.None? then Throws(NullDereference(jvm, RealSignsGet))
    else if |r.members.value[0].value.signs.value| == 0 then Throws(EmptyListGetException)
    else if r.members.value[0].value.signs.value[0].None? then Throws(NullDereference(jvm, RealSetPosition))
    else if !NoNulls(r.members.value) then Throws(NullDereference(jvm, RealMemberSigns))
    else
      var w := WithFirstPosition(r, FixedSignPosition);
      Returns(w.(title := Some(r.title.GetOr("")),
                 description := Some(r.description.GetOr("")),
                 ui := Some(r.ui.GetOr(""))))
  }

  /** Normalising a normalised request changes nothing. */
  lemma NormalizeIdempotent(r: FirmaRequest, jvm: NullMessages)
    requires Normalize(r, jvm).Returns?
    ensures Normalize(Normalize(r, jvm).value, jvm) == Normalize(r, jvm)
  {
    var n := Normalize(r, jvm).value;
    var m := n.members.value[0].value;
    assert m.signs.value == [m.signs.value[0]] + m.signs.value[1..];
    assert n.members.value == [n.members.value[0]] + n.members.value[1..];
    assert NoNulls(n.members.value) by {
      assert forall i :: 1 <= i < |n.members.value| ==> n.members.value[i] == r.members.value[i];
    }
  }

  /** The checks that only log never stop the request: whatever the content, and whether or not
      later members have signs, it is sent; only a null later member throws. */
  lemma NormalizeIgnoresLoggedChecks(r: FirmaRequest, content: Option<string>, later: seq<Option<Member>>, jvm: NullMessages)
    requires HasFirstSign(r)
    ensures Normalize(r.(content := content), jvm).Returns? <==> Normalize(r, jvm).Returns?
    ensures Normalize(r.(members := Some([r.members.value[0]] + later)), jvm).Returns? <==> NoNulls(later)
  {
    var ms := [r.members.value[0]] + later;
    assert forall i :: 1 <= i < |ms| ==> ms[i] == later[i - 1];
    if NoNulls(later) {
      assert NoNulls(ms);
    } else {
      var i :| 0 <= i < |later| && later[i].None?;
      assert ms[i + 1].None?;
    }
  }

  // ---------------------------------------------------------------------
  // The five operations.

  /** The body of a completed exchange, or an error envelope whose text is `prefix` followed by the
      failure's message. */
  function Received<T>(x: Exchange<ApiResponse<T>>, prefix: string): (r: ApiResponse<T>)
    ensures x.Ok? ==> r == x.body
    ensures x.Err? ==> IsErrorEnvelope(r) && r.error == Some(prefix + Str(x.message))
  {
    match x
    case Ok(b) => b
    case Err(m) => ErrorResponse(prefix + Str(m))
  }

  /** `createFirmaRequest`: normalise outside the try block, then POST the request. */
  function CreateFirmaRequest(c: OpenApiConfig, r: FirmaRequest, send: HttpRequest -> Exchange<ApiResponse<FirmaResponse>>,
                              jvm: NullMessages)
    : (out: Call<ApiResponse<FirmaResponse>>)
    ensures out.Throws? <==> !HasFirstSign(r) || !NoNulls(r.members.value)
    ensures out.Throws? ==> out.exception == Normalize(r, jvm).exception
    ensures Normalize(r, jvm).Returns? ==>
      var sent := HttpRequest(Post, CreateUrl(c), AuthHeaders(c), Some(Normalize(r, jvm).value));
      && (send(sent).Ok? ==> out == Returns(send(sent).body))
      && (send(sent).Err? ==>
            out.Returns? && IsErrorEnvelope(out.value) && out.value.error == Some(CreateError + Str(send(sent).message)))
  {
    match Normalize(r, jvm)
    case Throws(e) => Throws(e)
    case Returns(n) =>
      Returns(Received(send(HttpRequest(Post, CreateUrl(c), AuthHeaders(c), Some(n))), CreateError))
  }

  /** `getAllFirmaRequests`: GET the list; a failed exchange becomes an error envelope. */
  function GetAllFirmaRequests(c: OpenApiConfig, send: HttpRequest -> Exchange<ApiResponse<seq<FirmaResponse>>>)
    : (out: ApiResponse<seq<FirmaResponse>>)
    ensures var sent := HttpRequest(Get, ListUrl(c), AuthHeaders(c), None);
      && (send(sent).Ok? ==> out == send(sent).body)
      && (send(sent).Err? ==> IsErrorEnvelope(out) && out.error == Some(ListError + Str(send(sent).message)))
  {
    Received(send(HttpRequest(Get, ListUrl(c), AuthHeaders(c), None)), ListError)
  }

  /** `getFirmaRequestById`. */
  function GetFirmaRequestById(c: OpenApiConfig, id: string, send: HttpRequest -> Exchange<ApiResponse<FirmaResponse>>)
    : (out: ApiResponse<FirmaResponse>)
    ensures var sent := HttpRequest(Get, RequestUrl(c, id), AuthHeaders(c), None);
      && (send(sent).Ok? ==> out == send(sent).body)
      && (send(sent).Err? ==> IsErrorEnvelope(out) && out.error == Some(GetError + Str(send(sent).message)))
  {
    Received(send(HttpRequest(Get, RequestUrl(c, id), AuthHeaders(c), None)), GetError)
  }

  /** `downloadSignedDocument`: a failed exchange becomes a failed download envelope. */
  function DownloadSignedDocument(c: OpenApiConfig, id: string, send: HttpRequest -> Exchange<DownloadResponse>)
    : (out: DownloadResponse)
    ensures var sent := HttpRequest(Get, DownloadUrl(c, id), AuthHeaders(c), None);
      && (send(sent).Ok? ==> out == send(sent).body)
      && (send(sent).Err? ==> !out.success && out.content.None? && out.error == Some(DownloadFailed + Str(send(sent).message)))
  {
    match send(HttpRequest(Get, DownloadUrl(c, id), AuthHeaders(c), None))
    case Ok(b) => b
    case Err(m) => DownloadError(DownloadFailed + Str(m))
  }

  /** `getAuditTrail`: the provider's payload is passed through unread. */
  function GetAuditTrail(c: OpenApiConfig, id: string, send: HttpRequest -> Exchange<ApiResponse<AuditPayload>>)
    : (out: ApiResponse<AuditPayload>)
    ensures var sent := HttpRequest(Get, AuditUrl(c, id), AuthHeaders(c), None);
      && (send(sent).Ok? ==> out == send(sent).body)
      && (send(sent).Err? ==> IsErrorEnvelope(out) && out.error == Some(AuditError + Str(send(sent).message)))
  {
    Received(send(HttpRequest(Get, AuditUrl(c, id), AuthHeaders(c), None)), AuditError)
  }
}
