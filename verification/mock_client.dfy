/** The in-memory stand-in for the provider: a map from request id to record,
    with the status progression simulated on read and completed on download.
    The store is an explicit value; every operation returns its new state.
    Fresh ids, the per-member signing tokens and the clock are inputs. */
module MockClient {
  import opened JavaLang
  import opened Dto
  import opened NullSites

  /** The mock's database: request id to record. */
  type Store = map<string, FirmaResponse>

  const SignLinkPrefix := "https://mock.firmadigitale.com/sign/"
  const DownloadLinkPrefix := "https://mock.firmadigitale.com/download/"
  const Pending := "pending"
  const Signed := "signed"

  const CreatedMessage := "Signature request created successfully (MOCK)"
  const RetrievedMessage := "Request retrieved (MOCK)"
  const DownloadedMessage := "Document downloaded successfully (MOCK)"
  const AuditMessage := "Audit trail retrieved (MOCK)"

  /** The fixed one-page document every download returns, base64-encoded and never decoded here;
      written as its 76-character lines. */
  const MockPdfLine0 := "JVBERi0xLjQKJeLjz9MKMSAwIG9iago8PAovVHlwZSAvQ2F0YWxvZwovUGFnZXMgMiAwIFIKPj4K"
  const MockPdfLine1 := "ZW5kb2JqCjIgMCBvYmoKPDwKL1R5cGUgL1BhZ2VzCi9LaWRzIFszIDAgUl0KL0NvdW50IDEKL01l"
  const MockPdfLine2 := "ZGlhQm94IFswIDAgNTk1IDg0Ml0KPj4KZW5kb2JqCjMgMCBvYmoKPDwKL1R5cGUgL1BhZ2UKL1Bh"
  const MockPdfLine3 := "cmVudCAyIDAgUgovUmVzb3VyY2VzIDw8Ci9Gb250IDw8Ci9GMSA0IDAgUgo+Pgo+PgovQ29udGVu"
  const MockPdfLine4 := "dHMgNSAwIFIKPj4KZW5kb2JqCjQgMCBvYmoKPDwKL1R5cGUgL0ZvbnQKL1N1YnR5cGUgL1R5cGUx"
  const MockPdfLine5 := "Ci9CYXNlRm9udCAvVGltZXMtUm9tYW4KPj4KZW5kb2JqCjUgMCBvYmoKPDwKL0xlbmd0aCA0NAo+"
  const MockPdfLine6 := "PgpzdHJlYW0KQlQKL0YxIDEyIFRmCjEwMCA3MDAgVGQKKE1PQ0sgU0lHTkVEIERPQ1VNRU5UKSBU"
  const MockPdfLine7 := "agpFVAplbmRzdHJlYW0KZW5kb2JqCnhyZWYKMCA2CjAwMDAwMDAwMDAgNjU1MzUgZiAKMDAwMDAw"
  const MockPdfLine8 := "MDAxNSAwMDAwMCBuIAowMDAwMDAwMDY0IDAwMDAwIG4gCjAwMDAwMDAxMzMgMDAwMDAgbiAKMDAw"
  const MockPdfLine9 := "MDAwMDI0NyAwMDAwMCBuIAowMDAwMDAwMzM2IDAwMDAwIG4gCnRyYWlsZXIKPDwKL1NpemUgNgov"
  const MockPdfLine10 := "Um9vdCAxIDAgUgo+PgpzdGFydHhyZWYKNDI5CiUlRU9G"
  const MockPdfBase64 :=
    MockPdfLine0 + MockPdfLine1 + MockPdfLine2 + MockPdfLine3 + MockPdfLine4 + MockPdfLine5
    + MockPdfLine6 + MockPdfLine7 + MockPdfLine8 + MockPdfLine9 + MockPdfLine10

  function NotFound(id: string): string {
    "Request not found with ID: " + id
  }

  function ListMessage(n: nat): string {
    "Retrieved " + NatToString(n) + " requests (MOCK)"
  }

  // ---------------------------------------------------------------------
  // Create.

  /** `s` is the status the mock records for member `m` when the request is created. */
  predicate IsPendingFor(s: MemberStatus, m: Member, token: string, now: Timestamp) {
    && s.firstname == m.firstname
    && s.lastname == m.lastname
    && s.email == m.email
    && s.phone == m.phone
    && s.status == Pending
    && s.createdAt == now
    && s.updatedAt == now
    && s.signLink == SignLinkPrefix + token
  }

  /** The loop over the members: one pending status per member, in order, where `signToken(start + i)`
      is the token drawn for member i; reading the fields of a null member throws. */
  function PendingStatuses(ms: seq<Option<Member>>, signToken: nat -> string, start: nat, now: Timestamp, jvm: NullMessages)
    : (r: Call<seq<MemberStatus>>)
    ensures r.Throws? <==> !NoNulls(ms)
    ensures r.Throws? ==> r.exception == NullDereference(jvm, MockMemberFields)
    ensures r.Returns? ==>
      && |r.value| == |ms|
      && forall i :: 0 <= i < |ms| ==> IsPendingFor(r.value[i], ms[i].value, signToken(start + i), now)
    decreases |ms|
  {
    if |ms| == 0 then Returns([])
    else if ms[0].None? then Throws(NullDereference(jvm, MockMemberFields))
    else
      var m := ms[0].value;
      var rest := PendingStatuses(ms[1..], signToken, start + 1, now, jvm);
      assert forall i :: 1 <= i < |ms| ==> ms[i] == ms[1..][i - 1];
      match rest
      case Throws(e) =>
        var i :| 0 <= i < |ms[1..]| && ms[1..][i].None?;
        assert ms[i + 1].None?;
        Throws(e)
      case Returns(statuses) =>
        Returns([MemberStatus(m.firstname, m.lastname, m.email, m.phone, Pending, now, now, SignLinkPrefix + signToken(start))]
                + statuses)
  }

  /** `createFirmaRequest`: store a new record under `requestId`. Iterating a null members list, or
      reading a null member, throws before anything is stored. */
  function CreateFirmaRequest(db: Store, r: FirmaRequest, requestId: string, signToken: nat -> string, now: Timestamp,
                              jvm: NullMessages)
    : (out: (Call<ApiResponse<FirmaResponse>>, Store))
    ensures r.members.None? || !NoNulls(r.members.value) <==> out.0.Throws?
    ensures out.0.Throws? ==>
      out == (Throws(NullDereference(jvm, if r.members.None? then MockMembersLoop else MockMemberFields)), db)
    ensures out.0.Returns? ==>
      && out.1.Keys == db.Keys + {requestId}
      && (forall k :: k in db && k != requestId ==> out.1[k] == db[k])
      && (requestId !in db ==> |out.1| == |db| + 1)
      && out.0 == Returns(SuccessResponse(Some(out.1[requestId]), Some(CreatedMessage)))
    ensures out.0.Returns? ==>
      var rec := out.1[requestId];
      && rec.id == requestId
      && rec.filename == r.filename && rec.title == r.title && rec.description == r.description
      && rec.status == Created
      && rec.downloadLink.None? && rec.callbackStatus.None?
      && |rec.members| == |r.members.value|
      && forall i :: 0 <= i < |rec.members| ==> IsPendingFor(rec.members[i], r.members.value[i].value, signToken(i), now)
  {
    if r.members.None? then (Throws(NullDereference(jvm, MockMembersLoop)), db)
    else match PendingStatuses(r.members.value, signToken, 0, now, jvm)
      case Throws(e) => (Throws(e), db)
      case Returns(statuses) =>
        var rec := FirmaResponse(requestId, r.filename, r.title, r.description, statuses, Created, None, None);
        (Returns(SuccessResponse(Some(rec), Some(CreatedMessage))), db[requestId := rec])
  }

  // ---------------------------------------------------------------------
  // List.

  /** Every record is stored under its own id, as every record the mock creates is. */
  predicate KeyedById(db: Store) {
    forall k :: k in db ==> db[k].id == k
  }

  /** `getAllFirmaRequests`: the stored records in the store's (unspecified) iteration order. When
      every record is stored under its own id, each appears exactly once. */
  method GetAllFirmaRequests(db: Store) returns (out: ApiResponse<seq<FirmaResponse>>)
    ensures IsSuccessEnvelope(out) && out.data.Some?
    ensures |out.data.value| == |db|
    ensures forall i :: 0 <= i < |out.data.value| ==> out.data.value[i] in db.Values
    ensures forall k :: k in db ==> db[k] in out.data.value
    ensures KeyedById(db) ==> forall i, j :: 0 <= i < j < |out.data.value| ==> out.data.value[i] != out.data.value[j]
    ensures out.message == Some(ListMessage(|db|))
  {
    var pending := db.Keys;
    var records: seq<FirmaResponse> := [];
    while pending != {}
      invariant pending <= db.Keys
      invariant |records| + |pending| == |db.Keys|
      invariant forall i :: 0 <= i < |records| ==> records[i] in db.Values
      invariant forall k :: k in db.Keys - pending ==> db[k] in records
      invariant KeyedById(db) ==> forall i :: 0 <= i < |records| ==> records[i].id in db.Keys - pending
      invariant KeyedById(db) ==> forall i, j :: 0 <= i < j < |records| ==> records[i].id != records[j].id
      decreases |pending|
    {
      var k :| k in pending;
      records := records + [db[k]];
      pending := pending - {k};
    }
    assert |db.Keys| == |db|;
    out := SuccessResponse(Some(records), Some(ListMessage(|records|)));
  }

  // ---------------------------------------------------------------------
  // Get, with the simulated progression.

  /** `getFirmaRequestById`: the first read of a created record starts it and signs its first member. */
  function GetFirmaRequestById(db: Store, id: string, now: Timestamp): (out: (ApiResponse<FirmaResponse>, Store))
    ensures id !in db ==> out == (ErrorResponse(NotFound(id)), db)
    ensures id in db ==>
      && IsSuccessEnvelope(out.0) && out.0.message == Some(RetrievedMessage)
      && out.0.data.Some? && out.1 == db[id := out.0.data.value]
    ensures id in db && db[id].status == Created ==>
      var before := db[id];
      var after := out.0.data.value;
      && after.status == Started
      && |after.members| == |before.members|
      && (|before.members| > 0 ==> after.members[0] == before.members[0].(status := Signed, updatedAt := now))
      && (forall i :: 1 <= i < |after.members| ==> after.members[i] == before.members[i])
      && after.(status := before.status, members := before.members) == before
    ensures id in db && db[id].status != Created ==> out == (SuccessResponse(Some(db[id]), Some(RetrievedMessage)), db)
  {
    if id !in db then (ErrorResponse(NotFound(id)), db)
    else
      var rec := db[id];
      assert db[id := rec] == db;
      var rec' :=
        if rec.status != Created then rec
        else if |rec.members| == 0 then rec.(status := Started)
        else rec.(status := Started,
                  members := [rec.members[0].(status := Signed, updatedAt := now)] + rec.members[1..]);
      (SuccessResponse(Some(rec'), Some(RetrievedMessage)), db[id := rec'])
  }

  // ---------------------------------------------------------------------
  // Download and audit.

  function SignAll(ms: seq<MemberStatus>, now: Timestamp): (r: seq<MemberStatus>)
    ensures |r| == |ms|
    ensures forall i :: 0 <= i < |ms| ==> r[i] == ms[i].(status := Signed, updatedAt := now)
  {
    seq(|ms|, i requires 0 <= i < |ms| => ms[i].(status := Signed, updatedAt := now))
  }

  /** `downloadSignedDocument`: from any status, finish the record, link it and sign every member;
      the content returned is the fixed document, whatever was uploaded. */
  function DownloadSignedDocument(db: Store, id: string, now: Timestamp): (out: (DownloadResponse, Store))
    ensures id !in db ==> out == (DownloadError(NotFound(id)), db)
    ensures id in db ==>
      && out.0 == DownloadResponse(Some(MockPdfBase64), true, Some(DownloadedMessage), None)
      && id in out.1 && out.1 == db[id := out.1[id]]
    ensures id in db ==>
      var before := db[id];
      var after := out.1[id];
      && after.status == Finished
      && after.downloadLink == Some(DownloadLinkPrefix + id)
      && |after.members| == |before.members|
      && (forall i :: 0 <= i < |after.members| ==>
            after.members[i].status == Signed && after.members[i].updatedAt == now
            && after.members[i].(status := before.members[i].status, updatedAt := before.members[i].updatedAt) == before.members[i])
      && after.(status := before.status, downloadLink := before.downloadLink, members := before.members) == before
  {
    if id !in db then (DownloadError(NotFound(id)), db)
    else
      var rec := db[id];
      var rec' := rec.(status := Finished,
                       downloadLink := Some(DownloadLinkPrefix + id),
                       members := SignAll(rec.members, now));
      (DownloadResponse(Some(MockPdfBase64), true, Some(DownloadedMessage), None), db[id := rec'])
  }

  const HourSeconds := 3600
  const HalfHourSeconds := 1800

  /** `getAuditTrail`: a synthetic three-event trail. `Map.of` rejects null values, so a record
      whose filename is null makes the call throw. The store is only read. */
  function GetAuditTrail(db: Store, id: string, now: Timestamp): (out: Call<ApiResponse<AuditPayload>>)
    ensures id !in db ==> out == Returns(ErrorResponse(NotFound(id)))
    ensures id in db && db[id].filename.None? ==> out == Throws(RequireNonNullException)
    ensures id in db && db[id].filename.Some? ==>
      && out.Returns? && IsSuccessEnvelope(out.value) && out.value.message == Some(AuditMessage)
      && out.value.data.Some? && out.value.data.value.MockTrail?
      && var t := out.value.data.value.trail;
        && t.requestId == id
        && t.filename == db[id].filename.value
        && |t.events| == 3
        && t.mockData
        && t.createdAt < t.completedAt
        && t.events[0].timestamp < t.events[1].timestamp < t.events[2].timestamp
  {
    if id !in db then Returns(ErrorResponse(NotFound(id)))
    else match db[id].filename
      case None => Throws(RequireNonNullException)
      case Some(f) =>
        var events := [AuditEvent(now - HourSeconds, "Request created"),
                       AuditEvent(now - HalfHourSeconds, "Email sent to signers"),
                       AuditEvent(now, "Document signed by all members")];
        Returns(SuccessResponse(Some(MockTrail(AuditTrail(id, f, now - HourSeconds, now, events, true))), Some(AuditMessage)))
  }
}
