/** The layers wired together as the running application wires them: the
    validator on the inbound request, the controller, the service, and either
    the mock store or the real provider's client behind it. A request the
    validator refuses never reaches the controller; an exception nothing
    catches becomes a server error. */
module Application {
  import opened JavaLang
  import opened Dto
  import opened RequestValidation
  import opened NullSites
  import Service
  import Controller
  import MockClient
  import MockLifecycle
  import RealClient
  import Config

  /** How the HTTP layer answers: with the controller's response, with a 400 listing the violated
      constraints before the controller runs, or with a 500 for an exception nothing caught. */
  datatype Outcome<+T> =
    | Answered(response: Controller.HttpResponse<T>)
    | Invalid(violations: set<Violation>)
    | Uncaught(exception: JavaException)

  function Status<T>(o: Outcome<T>): int {
    match o
    case Answered(resp) => resp.status
    case Invalid(_) => Controller.BadRequest
    case Uncaught(_) => Controller.InternalServerError
  }

  // ---------------------------------------------------------------------
  // The mock store behind the service. The id, the signing tokens and the
  // clock of the call are inputs.

  function MockCreate(requestId: string, signToken: nat -> string, now: Timestamp, jvm: NullMessages)
    : (MockClient.Store, FirmaRequest) -> (Call<ApiResponse<FirmaResponse>>, MockClient.Store)
  {
    (db: MockClient.Store, r: FirmaRequest) => MockClient.CreateFirmaRequest(db, r, requestId, signToken, now, jvm)
  }

  function MockGet(now: Timestamp): (MockClient.Store, string) -> (Call<ApiResponse<FirmaResponse>>, MockClient.Store) {
    (db: MockClient.Store, id: string) =>
      var (resp, db') := MockClient.GetFirmaRequestById(db, id, now);
      (Returns(resp), db')
  }

  function MockDownload(now: Timestamp): (MockClient.Store, string) -> (Call<DownloadResponse>, MockClient.Store) {
    (db: MockClient.Store, id: string) =>
      var (resp, db') := MockClient.DownloadSignedDocument(db, id, now);
      (Returns(resp), db')
  }

  function MockAudit(now: Timestamp): (MockClient.Store, string) -> (Call<ApiResponse<AuditPayload>>, MockClient.Store) {
    (db: MockClient.Store, id: string) => (MockClient.GetAuditTrail(db, id, now), db)
  }

  /** A request the validator accepts passes the service's own checks exactly when none of its
      members is null: the validator skips null members, and the service's loop throws on the first
      one, since every member ahead of it has signs. A request without null members also has the
      first signs list the real client reads. */
  lemma ValidRequestAcceptable(r: FirmaRequest, jvm: NullMessages)
    requires ValidRequest(r)
    ensures Service.Acceptable(r) <==> NoNulls(r.members.value)
    ensures !NoNulls(r.members.value) ==>
      Service.CheckMembers(r.members.value, jvm) == Throws(NullDereference(jvm, ServiceMemberSigns))
    ensures NoNulls(r.members.value) ==>
      RealClient.HasFirstSigns(r) && |r.members.value[0].value.signs.value| > 0
  {
    var ms := r.members.value;
    if NoNulls(ms) {
      forall i | 0 <= i < |ms|
        ensures Service.Passes(ms[i])
      {
        assert ValidMember(ms[i].value);
      }
      assert ValidMember(ms[0].value);
    } else {
      Service.StopExists(ms);
      var i :| Service.StopsAt(ms, i);
    }
  }

  /** `POST /firma` over the mock store. A valid request holding a null member passes the validator
      and throws in the service's loop, outside its try block: a server error, with nothing stored. */
  function PostFirma(db: MockClient.Store, r: FirmaRequest, requestId: string, signToken: nat -> string, now: Timestamp,
                     jvm: NullMessages)
    : (out: (Outcome<ApiResponse<FirmaResponse>>, MockClient.Store))
    ensures !ValidRequest(r) ==> out == (Invalid(Violations(r)), db) && Violations(r) != {}
    ensures ValidRequest(r) && !NoNulls(r.members.value) ==>
      out == (Uncaught(NullDereference(jvm, ServiceMemberSigns)), db) && Status(out.0) == Controller.InternalServerError
    ensures ValidRequest(r) && NoNulls(r.members.value) ==>
      && out.0.Answered? && Status(out.0) == Controller.CreatedStatus
      && out.1.Keys == db.Keys + {requestId}
      && (forall k :: k in db && k != requestId ==> out.1[k] == db[k])
      && var env := out.0.response.body;
        && IsSuccessEnvelope(env) && env.message == Some(MockClient.CreatedMessage)
        && env.data == Some(out.1[requestId])
        && out.1[requestId].status == Created
        && |out.1[requestId].members| == |r.members.value|
    ensures ValidRequest(r) && NoNulls(r.members.value) ==>
      var (c, db') := MockClient.CreateFirmaRequest(db, r, requestId, signToken, now, jvm);
      out == (Answered(Controller.HttpResponse(Controller.CreatedStatus, c.value)), db')
  {
    if !ValidRequest(r) then
      ValidIffNoViolations(r);
      (Invalid(Violations(r)), db)
    else
      ValidRequestAcceptable(r, jvm);
      var (c, db') := Service.CreateSignatureRequest(r, db, MockCreate(requestId, signToken, now, jvm), jvm);
      match c
      case Throws(e) => (Uncaught(e), db')
      case Returns(env) => (Answered(Controller.CreateSignatureRequest(env)), db')
  }

  /** `GET /firma/{id}` over the mock store: never an exception; 404 for a blank or unknown id. */
  function GetFirma(db: MockClient.Store, id: Option<string>, now: Timestamp)
    : (out: (Outcome<ApiResponse<FirmaResponse>>, MockClient.Store))
    ensures out.0.Answered?
    ensures Service.IsBlankId(id) ==>
      out == (Answered(Controller.HttpResponse(Controller.NotFoundStatus, ErrorResponse(Service.IdRequired))), db)
    ensures !Service.IsBlankId(id) && id.value !in db ==>
      out == (Answered(Controller.HttpResponse(Controller.NotFoundStatus, ErrorResponse(MockClient.NotFound(id.value)))), db)
    ensures !Service.IsBlankId(id) && id.value in db ==>
      && Status(out.0) == Controller.Ok
      && out.0.response.body.data.Some?
      && out.1 == db[id.value := out.0.response.body.data.value]
      && (out.0.response.body, out.1) == MockClient.GetFirmaRequestById(db, id.value, now)
  {
    var (env, db') := Service.GetSignatureRequestById(id, db, MockGet(now));
    assert !Service.IsBlankId(id) ==>
      var got := MockClient.GetFirmaRequestById(db, id.value, now);
      MockGet(now)(db, id.value) == (Returns(got.0), got.1);
    (Answered(Controller.GetSignatureRequestById(env)), db')
  }

  /** `GET /firma/{id}/download` over the mock store: the fixed document exactly when the id is held. */
  function DownloadFirma(db: MockClient.Store, id: Option<string>, now: Timestamp)
    : (out: (Outcome<DownloadResponse>, MockClient.Store))
    ensures out.0.Answered?
    ensures Status(out.0) == Controller.Ok <==> !Service.IsBlankId(id) && id.value in db
    ensures Status(out.0) == Controller.Ok ==> out.0.response.body.content == Some(MockClient.MockPdfBase64)
    ensures Status(out.0) != Controller.Ok ==> out.1 == db && Status(out.0) == Controller.NotFoundStatus
  {
    var (resp, db') := Service.DownloadSignedDocument(id, db, MockDownload(now));
    (Answered(Controller.DownloadSignedDocument(resp)), db')
  }

  /** `GET /firma/{id}/audit` over the mock store: only reads it. A record without a filename makes
      the mock throw a null pointer exception, which the service reports with the text "null". */
  function AuditFirma(db: MockClient.Store, id: Option<string>, now: Timestamp)
    : (out: (Outcome<ApiResponse<AuditPayload>>, MockClient.Store))
    ensures out.0.Answered? && out.1 == db
    ensures Status(out.0) == Controller.Ok <==> !Service.IsBlankId(id) && id.value in db && db[id.value].filename.Some?
    ensures !Service.IsBlankId(id) && id.value in db && db[id.value].filename.None? ==>
      && Status(out.0) == Controller.NotFoundStatus
      && out.0.response.body.error == Some("Failed to fetch audit trail: null")
  {
    var (env, db') := Service.GetAuditTrail(id, db, MockAudit(now));
    assert Service.AuditFailed + Str(RequireNonNullException.message) == "Failed to fetch audit trail: null";
    (Answered(Controller.GetAuditTrail(env)), db')
  }

  /** `GET /firma` over the mock store: status 200 with every stored record, each exactly once when
      the store is consistent. */
  method ListFirma(db: MockClient.Store) returns (out: Outcome<ApiResponse<seq<FirmaResponse>>>)
    ensures out.Answered? && Status(out) == Controller.Ok
    ensures out.response.body.data.Some? && |out.response.body.data.value| == |db|
    ensures forall k :: k in db ==> db[k] in out.response.body.data.value
    ensures MockLifecycle.Consistent(db) ==>
      var rs := out.response.body.data.value;
      forall i, j :: 0 <= i < j < |rs| ==> rs[i] != rs[j]
  {
    var resp := MockClient.GetAllFirmaRequests(db);
    var (env, _) := Service.GetAllSignatureRequests(db, (s: MockClient.Store) => (Returns(resp), s));
    out := Answered(Controller.GetAllSignatureRequests(env));
  }

  // ---------------------------------------------------------------------
  // Properties of the whole stack over the mock store.

  const ScenarioMember := Member(Some("Mario"), Some("Rossi"), Some("mario.rossi@example.com"),
                                 Some("+39123456789"), Some([Some(SignPosition(Some(1), Some("10,15,45,35")))]))
  const ScenarioRequest := FirmaRequest(Some("Contract"), None, None, Some("doc.pdf"), Some("JVBERi0xLjQK"),
                                        Some([Some(ScenarioMember)]), None)

  /** A request for "doc.pdf" with one member, Mario Rossi with an Italian number, and one sign
      position on page 1 is valid. */
  lemma ScenarioValid()
    ensures ValidRequest(ScenarioRequest)
  {
    var m := ScenarioMember;
    assert !IsTrimmed(m.firstname.value[0]);
    assert !IsTrimmed(m.lastname.value[0]);
    assert !IsTrimmed(m.email.value[0]);
    assert !IsTrimmed(m.phone.value[0]);
    assert !IsTrimmed(ScenarioRequest.content.value[0]);
    PhoneExampleValid();
    assert ValidMember(m);
  }

  /** That request end to end: 201, a successful envelope, a created record holding one pending
      member with the submitted phone. */
  lemma ScenarioCreated(db: MockClient.Store, requestId: string, signToken: nat -> string, now: Timestamp, jvm: NullMessages)
    ensures var (o, db') := PostFirma(db, ScenarioRequest, requestId, signToken, now, jvm);
      && Status(o) == 201
      && o.Answered? && o.response.body.success
      && var rec := o.response.body.data.value;
        && rec.id == requestId
        && rec.filename == Some("doc.pdf")
        && rec.status == Created
        && |rec.members| == 1
        && rec.members[0].status == "pending"
        && rec.members[0].phone == Some("+39123456789")
  {
    ScenarioValid();
    var (o, db') := PostFirma(db, ScenarioRequest, requestId, signToken, now, jvm);
    var rec := MockClient.CreateFirmaRequest(db, ScenarioRequest, requestId, signToken, now, jvm).1[requestId];
    assert db'[requestId] == rec;
    assert MockClient.IsPendingFor(rec.members[0], ScenarioMember, signToken(0), now);
  }

  /** The same request with its member replaced by null passes the validator, and the service's loop
      throws on it: 500, with nothing stored. */
  lemma NullMemberIsServerError(db: MockClient.Store, requestId: string, signToken: nat -> string, now: Timestamp,
                                jvm: NullMessages)
    ensures var r := ScenarioRequest.(members := Some([None]));
      && ValidRequest(r)
      && PostFirma(db, r, requestId, signToken, now, jvm) == (Uncaught(NullDereference(jvm, ServiceMemberSigns)), db)
  {
    var r := ScenarioRequest.(members := Some([None]));
    assert !IsTrimmed(r.content.value[0]);
    NullMembersAccepted(r);
    assert r.members.value[0].None?;
  }

  /** An empty members list is refused before anything is stored: by the validator, and by the
      service's own check when the request gets that far, with a message about members. */
  lemma EmptyMembersStoreNothing(db: MockClient.Store, r: FirmaRequest, requestId: string, signToken: nat -> string, now: Timestamp,
                                 jvm: NullMessages)
    requires r.members == Some([])
    ensures var (o, db') := PostFirma(db, r, requestId, signToken, now, jvm);
      && db' == db && Status(o) == 400
      && o.Invalid? && Violation("members", "At least one member is required") in o.violations
    ensures Service.HasContent(r) ==>
      Service.CreateSignatureRequest(r, db, MockCreate(requestId, signToken, now, jvm), jvm)
        == (Returns(ErrorResponse(Service.MemberRequired)), db)
  {
    assert !NotEmpty(r.members);
  }

  /** A phone without the international prefix passes every check of the service; only the
      validator stops it. */
  lemma PhoneOnlyCheckedByValidator(db: MockClient.Store, requestId: string, signToken: nat -> string, now: Timestamp,
                                    jvm: NullMessages)
    ensures var r := ScenarioRequest.(members := Some([Some(ScenarioMember.(phone := Some("39123456789")))]));
      && Service.Acceptable(r)
      && PostFirma(db, r, requestId, signToken, now, jvm) == (Invalid(Violations(r)), db)
      && Violation("members[0].phone", PhoneMalformed.message) in Violations(r)
  {
    var m := ScenarioMember.(phone := Some("39123456789"));
    var r := ScenarioRequest.(members := Some([Some(m)]));
    assert !PhoneConstraint(m.phone);
    assert MemberPath(0) == "members[0].";
    BrokenPhoneReported(m, MemberPath(0));
    var v := Violation(MemberPath(0) + "phone", PhoneMalformed.message);
    assert MemberPath(0) + "phone" == "members[0].phone";
    assert v in MemberViolations([Some(m)][0].value, MemberPath(0));
    assert v in MembersViolations([Some(m)]);
    assert Service.Passes([Some(m)][0]);
  }

  /** A record stored without a filename cannot be audited: the mock's exception surfaces as a 404
      whose message ends in "null". */
  lemma NullFilenameAudit(db: MockClient.Store, id: string, now: Timestamp)
    requires id in db && db[id].filename.None? && !AllTrimmed(id)
    ensures var (o, db') := AuditFirma(db, Some(id), now);
      Status(o) == 404 && o.response.body.error == Some(Service.AuditFailed + "null") && db' == db
  {
    Service.IsBlankIdIff(Some(id));
  }

  /** Create, then read through the whole stack: 201 with the record created, then 200 with it
      started and its first member signed. A null member instead makes the create a 500 that
      stores nothing. */
  lemma PostThenGet(db: MockClient.Store, r: FirmaRequest, requestId: string, signToken: nat -> string, t0: Timestamp, t1: Timestamp,
                    jvm: NullMessages)
    requires ValidRequest(r) && !AllTrimmed(requestId)
    ensures !NoNulls(r.members.value) ==>
      var (created, db1) := PostFirma(db, r, requestId, signToken, t0, jvm);
      Status(created) == 500 && db1 == db
    ensures NoNulls(r.members.value) ==>
      var (created, db1) := PostFirma(db, r, requestId, signToken, t0, jvm);
      var (got, db2) := GetFirma(db1, Some(requestId), t1);
      && Status(created) == 201 && Status(got) == 200
      && var rec := got.response.body.data.value;
        && rec.status == Started
        && rec.members[0].status == MockClient.Signed
        && db2 == db1[requestId := rec]
  {
    Service.IsBlankIdIff(Some(requestId));
    ValidRequestAcceptable(r, jvm);
    MockLifecycle.CreateThenPoll(db, r, requestId, signToken, t0, t1, t1, jvm);
  }

  /** Every route keeps the mock store consistent: each record under its own id and in a state the
      simulated lifecycle can reach. */
  lemma RoutesPreserveConsistent(db: MockClient.Store, r: FirmaRequest, requestId: string, signToken: nat -> string,
                                 id: Option<string>, now: Timestamp, jvm: NullMessages)
    requires MockLifecycle.Consistent(db)
    ensures MockLifecycle.Consistent(PostFirma(db, r, requestId, signToken, now, jvm).1)
    ensures MockLifecycle.Consistent(GetFirma(db, id, now).1)
    ensures MockLifecycle.Consistent(DownloadFirma(db, id, now).1)
    ensures MockLifecycle.Consistent(AuditFirma(db, id, now).1)
  {
    if ValidRequest(r) {
      ValidRequestAcceptable(r, jvm);
      MockLifecycle.CreatePreservesConsistent(db, r, requestId, signToken, now, jvm);
    }
    if !Service.IsBlankId(id) {
      MockLifecycle.GetPreservesConsistent(db, id.value, now);
      MockLifecycle.DownloadPreservesConsistent(db, id.value, now);
    }
  }

  // ---------------------------------------------------------------------
  // The real provider behind the service.

  function RealCreate(c: Config.OpenApiConfig, send: RealClient.HttpRequest -> RealClient.Exchange<ApiResponse<FirmaResponse>>,
                      jvm: NullMessages)
    : ((), FirmaRequest) -> (Call<ApiResponse<FirmaResponse>>, ())
  {
    (u: (), r: FirmaRequest) => (RealClient.CreateFirmaRequest(c, r, send, jvm), u)
  }

  /** The service's checks shield the real client from all but one of its dereferences: every
      request the service forwards has non-null members with signs, so the client throws only when
      the first member's first sign position is null, and the service turns that into an error
      envelope whose text is its prefix followed by the JVM's message for that dereference;
      otherwise it returns the client's answer unchanged. */
  lemma ServiceShieldsRealClient(c: Config.OpenApiConfig, r: FirmaRequest,
                                 send: RealClient.HttpRequest -> RealClient.Exchange<ApiResponse<FirmaResponse>>,
                                 jvm: NullMessages)
    ensures Service.Acceptable(r) ==>
      var first := r.members.value[0].value.signs.value[0];
      var out := Service.CreateSignatureRequest(r, (), RealCreate(c, send, jvm), jvm).0;
      && (RealClient.CreateFirmaRequest(c, r, send, jvm).Throws? <==> first.None?)
      && (first.None? ==> out == Returns(ErrorResponse(Service.CreateFailed + Str(jvm(RealSetPosition)))))
      && (first.Some? ==> out == RealClient.CreateFirmaRequest(c, r, send, jvm))
  {
    if Service.Acceptable(r) {
      assert Service.Passes(r.members.value[0]);
      assert NoNulls(r.members.value) by {
        forall i | 0 <= i < |r.members.value|
          ensures r.members.value[i].Some?
        {
          assert Service.Passes(r.members.value[i]);
        }
      }
    }
  }

  /** `POST /firma` over the real provider. An invalid request is refused by the validator; a null
      member is a server error from the service's loop; a null first sign position makes the client
      throw, which the service reports as 400 with the JVM's message for it; otherwise the request is sent normalised to the create
      URL and the status follows the provider's envelope, or is 400 when the exchange failed. */
  function PostFirmaReal(c: Config.OpenApiConfig, r: FirmaRequest,
                         send: RealClient.HttpRequest -> RealClient.Exchange<ApiResponse<FirmaResponse>>,
                         jvm: NullMessages)
    : (out: Outcome<ApiResponse<FirmaResponse>>)
    ensures !ValidRequest(r) ==> out == Invalid(Violations(r))
    ensures ValidRequest(r) && !NoNulls(r.members.value) ==> out == Uncaught(NullDereference(jvm, ServiceMemberSigns))
    ensures ValidRequest(r) && NoNulls(r.members.value) && r.members.value[0].value.signs.value[0].None? ==>
      && out.Answered? && Status(out) == 400
      && out.response.body == ErrorResponse(RealClient.CreateError + Str(jvm(RealSetPosition)))
    ensures ValidRequest(r) && NoNulls(r.members.value) && r.members.value[0].value.signs.value[0].Some? ==>
      var sent := RealClient.HttpRequest(RealClient.Post, RealClient.CreateUrl(c), RealClient.AuthHeaders(c),
                                         Some(RealClient.Normalize(r, jvm).value));
      && RealClient.Normalize(r, jvm).Returns?
      && out.Answered?
      && (send(sent).Ok? ==> out.response.body == send(sent).body)
      && (send(sent).Err? ==>
            Status(out) == 400 && out.response.body.error == Some(RealClient.CreateError + Str(send(sent).message)))
  {
    if !ValidRequest(r) then Invalid(Violations(r))
    else
      ValidRequestAcceptable(r, jvm);
      ServiceShieldsRealClient(c, r, send, jvm);
      match Service.CreateSignatureRequest(r, (), RealCreate(c, send, jvm), jvm).0
      case Throws(e) => Uncaught(e)
      case Returns(env) => Answered(Controller.CreateSignatureRequest(env))
  }
}
