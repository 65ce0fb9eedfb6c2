/** The application service: ordered precondition checks before any client
    call, and the conversion of every exception the client throws into a
    failure envelope. The client is a parameter: a function from the client's
    state and the call's argument to the call's outcome and the new state, so
    that the same service runs over the mock store (state = the store) or the
    real provider (state = unit). */
module Service {
  import opened JavaLang
  import opened Dto
  import opened NullSites

  const ContentRequired := "PDF content is required"
  const MemberRequired := "At least one member is required"
  const SignRequired := "Each member must have at least one signature position"
  const IdRequired := "Request ID is required"

  const CreateFailed := "Failed to create signature request: "
  const ListFailed := "Failed to fetch signature requests: "
  const GetFailed := "Failed to fetch signature request: "
  const DownloadFailed := "Failed to download signed document: "
  const AuditFailed := "Failed to fetch audit trail: "

  predicate HasContent(r: FirmaRequest) {
    r.content.Some? && |r.content.value| > 0
  }

  predicate HasSigns(m: Member) {
    m.signs.Some? && |m.signs.value| > 0
  }

  /** A member the service's loop steps over: present, with at least one sign position. */
  predicate Passes(m: Option<Member>) {
    m.Some? && HasSigns(m.value)
  }

  /** The request passes every check of the service, in no particular order. */
  predicate Acceptable(r: FirmaRequest) {
    && HasContent(r)
    && r.members.Some? && |r.members.value| > 0
    && forall i :: 0 <= i < |r.members.value| ==> Passes(r.members.value[i])
  }

  /** Index `i` is where the loop over the members stops: every member before it passes, it does not. */
  predicate StopsAt(ms: seq<Option<Member>>, i: int) {
    && 0 <= i < |ms| && !Passes(ms[i])
    && forall j :: 0 <= j < i ==> Passes(ms[j])
  }

  /** The loop over the members, in list order: a null member throws when its signs are read, a
      member without signs ends the loop with the signs message, and passing all of them yields no
      message. */
  function CheckMembers(ms: seq<Option<Member>>, jvm: NullMessages): (e: Call<Option<string>>)
    ensures e == Returns(None) <==> forall i :: 0 <= i < |ms| ==> Passes(ms[i])
    ensures e.Throws? ==> e.exception == NullDereference(jvm, ServiceMemberSigns)
    ensures e.Returns? && e.value.Some? ==> e.value.value == SignRequired
    ensures forall i :: StopsAt(ms, i) ==> (e.Throws? <==> ms[i].None?)
    decreases |ms|
  {
    if |ms| == 0 then Returns(None)
    else if ms[0].None? then
      assert StopsAt(ms, 0);
      Throws(NullDereference(jvm, ServiceMemberSigns))
    else if !HasSigns(ms[0].value) then
      assert StopsAt(ms, 0);
      Returns(Some(SignRequired))
    else
      var rest := CheckMembers(ms[1..], jvm);
      assert forall i :: 1 <= i < |ms| ==> ms[i] == ms[1..][i - 1];
      assert forall i :: StopsAt(ms, i) ==> StopsAt(ms[1..], i - 1);
      rest
  }

  /** When some member fails, the loop has a first one to stop at. */
  lemma {:induction false} StopExists(ms: seq<Option<Member>>)
    requires exists i :: 0 <= i < |ms| && !Passes(ms[i])
    ensures exists i :: StopsAt(ms, i)
    decreases |ms|
  {
    if Passes(ms[0]) {
      var k :| 0 <= k < |ms| && !Passes(ms[k]);
      assert ms[1..][k - 1] == ms[k];
      StopExists(ms[1..]);
      var i :| StopsAt(ms[1..], i);
      assert forall j :: 1 <= j <= i + 1 ==> ms[j] == ms[1..][j - 1];
      assert StopsAt(ms, i + 1);
    } else {
      assert StopsAt(ms, 0);
    }
  }

  /** The loop stops at the first failing member: a null member ahead of a member without signs
      throws, and one behind it is never reached. */
  lemma MemberLoopOrder(m: Member, jvm: NullMessages)
    requires !HasSigns(m)
    ensures CheckMembers([None, Some(m)], jvm) == Throws(NullDereference(jvm, ServiceMemberSigns))
    ensures CheckMembers([Some(m), None], jvm) == Returns(Some(SignRequired))
  {
    assert StopsAt([None, Some(m)], 0);
    assert StopsAt([Some(m), None], 0);
  }

  /** An exception thrown by the client becomes an error envelope: `prefix` and its message. */
  function Caught<T>(c: Call<ApiResponse<T>>, prefix: string): (r: ApiResponse<T>)
    ensures c.Returns? ==> r == c.value
    ensures c.Throws? ==> IsErrorEnvelope(r) && r.error == Some(prefix + Str(c.exception.message))
  {
    match c
    case Returns(v) => v
    case Throws(e) => ErrorResponse(prefix + Str(e.message))
  }

  function CaughtDownload(c: Call<DownloadResponse>): (r: DownloadResponse)
    ensures c.Returns? ==> r == c.value
    ensures c.Throws? ==>
      && !r.success && r.content.None? && r.message.None?
      && r.error == Some(DownloadFailed + Str(c.exception.message))
  {
    match c
    case Returns(v) => v
    case Throws(e) => DownloadError(DownloadFailed + Str(e.message))
  }

  /** `createSignatureRequest`. The log line reads the members list's size before any check,
      so a null list throws out of the service; after that the first failing check wins and the
      client is not called. The loop over the members runs outside the try block, so a null member
      reached before any member without signs throws out of the service too. Otherwise the client's
      answer, or its exception caught. `jvm` gives the messages of the two null dereferences. */
  function CreateSignatureRequest<S>(r: FirmaRequest, s: S, client: (S, FirmaRequest) -> (Call<ApiResponse<FirmaResponse>>, S),
                                     jvm: NullMessages)
    : (out: (Call<ApiResponse<FirmaResponse>>, S))
    ensures out.0.Throws? ==>
      && out.1 == s
      && out.0.exception in {NullDereference(jvm, ServiceMembersSize), NullDereference(jvm, ServiceMemberSigns)}
    ensures r.members.None? ==> out == (Throws(NullDereference(jvm, ServiceMembersSize)), s)
    ensures r.members.Some? && !HasContent(r) ==> out == (Returns(ErrorResponse(ContentRequired)), s)
    ensures r.members.Some? && HasContent(r) && |r.members.value| == 0 ==>
      out == (Returns(ErrorResponse(MemberRequired)), s)
    ensures r.members.Some? && HasContent(r) && |r.members.value| > 0 ==>
      forall i :: StopsAt(r.members.value, i) ==>
        out == (if r.members.value[i].None? then Throws(NullDereference(jvm, ServiceMemberSigns))
                else Returns(ErrorResponse(SignRequired)), s)
    ensures Acceptable(r) ==>
      && out.1 == client(s, r).1
      && (client(s, r).0.Returns? ==> out.0 == client(s, r).0)
      && (client(s, r).0.Throws? ==>
            && out.0.Returns? && IsErrorEnvelope(out.0.value)
            && out.0.value.error == Some(CreateFailed + Str(client(s, r).0.exception.message)))
  {
    if r.members.None? then (Throws(NullDereference(jvm, ServiceMembersSize)), s)
    else if !HasContent(r) then (Returns(ErrorResponse(ContentRequired)), s)
    else if |r.members.value| == 0 then (Returns(ErrorResponse(MemberRequired)), s)
    else match CheckMembers(r.members.value, jvm)
      case Throws(e) => (Throws(e), s)
      case Returns(Some(e)) => (Returns(ErrorResponse(e)), s)
      case Returns(None) =>
        var (c, s') := client(s, r);
        (Returns(Caught(c, CreateFailed)), s')
  }

  /** `getAllSignatureRequests`: the client's answer, or its exception as a failure envelope. */
  function GetAllSignatureRequests<S>(s: S, client: S -> (Call<ApiResponse<seq<FirmaResponse>>>, S))
    : (out: (ApiResponse<seq<FirmaResponse>>, S))
    ensures out.1 == client(s).1
    ensures client(s).0.Returns? ==> out.0 == client(s).0.value
    ensures client(s).0.Throws? ==> IsErrorEnvelope(out.0) && out.0.error == Some(ListFailed + Str(client(s).0.exception.message))
  {
    var (c, s') := client(s);
    (Caught(c, ListFailed), s')
  }

  /** `id == null || id.trim().isEmpty()`. */
  predicate IsBlankId(id: Option<string>) {
    id.None? || Trim(id.value) == []
  }

  lemma IsBlankIdIff(id: Option<string>)
    ensures IsBlankId(id) <==> id.None? || AllTrimmed(id.value)
  {
    if id.Some? {
      TrimEmptyIff(id.value);
    }
  }

  /** `getSignatureRequestById`: a blank id is refused before the client; any other id is
      forwarded exactly as given, untrimmed. */
  function GetSignatureRequestById<S>(id: Option<string>, s: S, client: (S, string) -> (Call<ApiResponse<FirmaResponse>>, S))
    : (out: (ApiResponse<FirmaResponse>, S))
    ensures IsBlankId(id) ==> out == (ErrorResponse(IdRequired), s)
    ensures !IsBlankId(id) ==>
      && out.1 == client(s, id.value).1
      && (client(s, id.value).0.Returns? ==> out.0 == client(s, id.value).0.value)
      && (client(s, id.value).0.Throws? ==>
            IsErrorEnvelope(out.0) && out.0.error == Some(GetFailed + Str(client(s, id.value).0.exception.message)))
  {
    if IsBlankId(id) then (ErrorResponse(IdRequired), s)
    else
      var (c, s') := client(s, id.value);
      (Caught(c, GetFailed), s')
  }

  /** `downloadSignedDocument`. */
  function DownloadSignedDocument<S>(id: Option<string>, s: S, client: (S, string) -> (Call<DownloadResponse>, S))
    : (out: (DownloadResponse, S))
    ensures IsBlankId(id) ==> out == (DownloadError(IdRequired), s)
    ensures !IsBlankId(id) ==>
      && out.1 == client(s, id.value).1
      && (client(s, id.value).0.Returns? ==> out.0 == client(s, id.value).0.value)
      && (client(s, id.value).0.Throws? ==>
            && !out.0.success && out.0.content.None? && out.0.message.None?
            && out.0.error == Some(DownloadFailed + Str(client(s, id.value).0.exception.message)))
  {
    if IsBlankId(id) then (DownloadError(IdRequired), s)
    else
      var (c, s') := client(s, id.value);
      (CaughtDownload(c), s')
  }

  /** `getAuditTrail`. */
  function GetAuditTrail<S>(id: Option<string>, s: S, client: (S, string) -> (Call<ApiResponse<AuditPayload>>, S))
    : (out: (ApiResponse<AuditPayload>, S))
    ensures IsBlankId(id) ==> out == (ErrorResponse(IdRequired), s)
    ensures !IsBlankId(id) ==>
      && out.1 == client(s, id.value).1
      && (client(s, id.value).0.Returns? ==> out.0 == client(s, id.value).0.value)
      && (client(s, id.value).0.Throws? ==>
            IsErrorEnvelope(out.0) && out.0.error == Some(AuditFailed + Str(client(s, id.value).0.exception.message)))
  {
    if IsBlankId(id) then (ErrorResponse(IdRequired), s)
    else
      var (c, s') := client(s, id.value);
      (Caught(c, AuditFailed), s')
  }

  /** The checks run in a fixed order: missing content is reported even when members are missing
      too, and missing members even when nothing else is wrong. */
  lemma CheckPrecedence<S>(r: FirmaRequest, s: S, client: (S, FirmaRequest) -> (Call<ApiResponse<FirmaResponse>>, S),
                           jvm: NullMessages)
    requires r.members == Some([]) && r.content.None?
    ensures CreateSignatureRequest(r, s, client, jvm).0 == Returns(ErrorResponse(ContentRequired))
    ensures CreateSignatureRequest(r.(content := Some("JVBE")), s, client, jvm).0 == Returns(ErrorResponse(MemberRequired))
  {
  }

  /** An id of spaces and tabs is blank; one with any visible character is not, and reaches the
      client with its padding intact. */
  lemma BlankIdExamples<S>(s: S, client: (S, string) -> (Call<ApiResponse<FirmaResponse>>, S))
    ensures GetSignatureRequestById(Some(" \t "), s, client) == (ErrorResponse(IdRequired), s)
    ensures GetSignatureRequestById(Some(" abc "), s, client).1 == client(s, " abc ").1
  {
    IsBlankIdIff(Some(" \t "));
    IsBlankIdIff(Some(" abc "));
    assert !IsTrimmed(" abc "[1]);
  }
}
