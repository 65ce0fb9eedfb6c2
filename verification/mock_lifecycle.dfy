/** The lifecycle the mock store simulates: which records it can hold, and how
    create, read and download move a record along created -> started -> finished. */
module MockLifecycle {
  import opened JavaLang
  import opened Dto
  import opened NullSites
  import opened MockClient

  predicate AllHaveStatus(ms: seq<MemberStatus>, status: string) {
    forall i :: 0 <= i < |ms| ==> ms[i].status == status
  }

  /** A record the mock can hold: every member pending until the first read, the first member
      signed after it, every member signed and the download link set once downloaded. */
  predicate Reachable(rec: FirmaResponse) {
    match rec.status
    case Created => rec.downloadLink.None? && AllHaveStatus(rec.members, Pending)
    case Started =>
      && rec.downloadLink.None?
      && (|rec.members| > 0 ==> rec.members[0].status == Signed)
      && (forall i :: 1 <= i < |rec.members| ==> rec.members[i].status == Pending)
    case Finished => rec.downloadLink == Some(DownloadLinkPrefix + rec.id) && AllHaveStatus(rec.members, Signed)
    case _ => false
  }

  /** Every record is stored under its own id and is reachable. */
  predicate Consistent(db: Store) {
    forall k :: k in db ==> db[k].id == k && Reachable(db[k])
  }

  lemma CreatePreservesConsistent(db: Store, r: FirmaRequest, requestId: string, signToken: nat -> string, now: Timestamp,
                                   jvm: NullMessages)
    requires Consistent(db)
    ensures Consistent(CreateFirmaRequest(db, r, requestId, signToken, now, jvm).1)
  {
    var out := CreateFirmaRequest(db, r, requestId, signToken, now, jvm);
    if out.0.Returns? {
      var db' := out.1;
      var rec := db'[requestId];
      assert Reachable(rec) by {
        assert forall i :: 0 <= i < |rec.members| ==> rec.members[i].status == Pending by {
          forall i | 0 <= i < |rec.members|
            ensures rec.members[i].status == Pending
          {
            assert IsPendingFor(rec.members[i], r.members.value[i].value, signToken(i), now);
          }
        }
      }
      forall k | k in db'
        ensures db'[k].id == k && Reachable(db'[k])
      {
        if k != requestId {
          assert db'[k] == db[k];
        }
      }
    }
  }

  lemma GetPreservesConsistent(db: Store, id: string, now: Timestamp)
    requires Consistent(db)
    ensures Consistent(GetFirmaRequestById(db, id, now).1)
  {
    var db' := GetFirmaRequestById(db, id, now).1;
    forall k | k in db'
      ensures db'[k].id == k && Reachable(db'[k])
    {
      if k == id && db[id].status == Created {
        var before := db[id];
        var after := db'[id];
        assert after.(status := before.status, members := before.members) == before;
        forall i | 1 <= i < |after.members|
          ensures after.members[i].status == Pending
        {
          assert after.members[i] == before.members[i];
        }
      }
    }
  }

  lemma DownloadPreservesConsistent(db: Store, id: string, now: Timestamp)
    requires Consistent(db)
    ensures Consistent(DownloadSignedDocument(db, id, now).1)
  {
    var db' := DownloadSignedDocument(db, id, now).1;
    if id in db {
      var after := db'[id];
      assert after.(status := db[id].status, downloadLink := db[id].downloadLink, members := db[id].members) == db[id];
      assert after.id == id;
    }
  }

  /** In a consistent store a read never leaves a record created: it is started or finished after it. */
  lemma GetLeavesNoCreated(db: Store, id: string, now: Timestamp)
    requires Consistent(db) && id in db
    ensures var rec := GetFirmaRequestById(db, id, now).0.data.value;
      rec.status == Started || rec.status == Finished
  {
  }

  /** A second read returns the same record as the first and changes nothing. */
  lemma GetTwice(db: Store, id: string, t1: Timestamp, t2: Timestamp)
    ensures var (first, db1) := GetFirmaRequestById(db, id, t1);
      var (second, db2) := GetFirmaRequestById(db1, id, t2);
      second == first && db2 == db1
  {
    if id in db {
      var (first, db1) := GetFirmaRequestById(db, id, t1);
      assert db1[id] == first.data.value;
      assert first.data.value.status != Created;
    }
  }

  /** A read after a download finds the record finished and leaves the store as the download left it. */
  lemma GetAfterDownload(db: Store, id: string, t1: Timestamp, t2: Timestamp)
    requires id in db
    ensures var db1 := DownloadSignedDocument(db, id, t1).1;
      var (got, db2) := GetFirmaRequestById(db1, id, t2);
      && db2 == db1
      && got.data == Some(db1[id])
      && got.data.value.status == Finished
  {
  }

  /** Create, then read twice: created, then started with the first member signed, then unchanged.
      A null member stops the creation with nothing stored. */
  lemma CreateThenPoll(db: Store, r: FirmaRequest, requestId: string, signToken: nat -> string, t0: Timestamp, t1: Timestamp, t2: Timestamp,
                        jvm: NullMessages)
    requires r.members.Some? && |r.members.value| > 0
    ensures var (created, db1) := CreateFirmaRequest(db, r, requestId, signToken, t0, jvm);
      && (created.Throws? <==> !NoNulls(r.members.value))
      && (created.Throws? ==> db1 == db)
    ensures var (created, db1) := CreateFirmaRequest(db, r, requestId, signToken, t0, jvm);
      var (first, db2) := GetFirmaRequestById(db1, requestId, t1);
      var (second, db3) := GetFirmaRequestById(db2, requestId, t2);
      created.Returns? ==>
        && created.value.data.value.status == Created
        && first.data.value.status == Started
        && first.data.value.members[0].status == Signed
        && (forall i :: 1 <= i < |first.data.value.members| ==> first.data.value.members[i].status == Pending)
        && second == first && db3 == db2
  {
    var (created, db1) := CreateFirmaRequest(db, r, requestId, signToken, t0, jvm);
    if created.Returns? {
      var rec := db1[requestId];
      assert IsPendingFor(rec.members[0], r.members.value[0].value, signToken(0), t0);
      var (first, db2) := GetFirmaRequestById(db1, requestId, t1);
      forall i | 1 <= i < |first.data.value.members|
        ensures first.data.value.members[i].status == Pending
      {
        assert first.data.value.members[i] == rec.members[i];
        assert IsPendingFor(rec.members[i], r.members.value[i].value, signToken(i), t0);
      }
      GetTwice(db1, requestId, t1, t2);
    }
  }

  /** An id the store does not hold fails read, download and audit alike, each with the id in the
      message, and none of them changes the store. */
  lemma UnknownIdRejected(db: Store, id: string, now: Timestamp)
    requires id !in db
    ensures var e := NotFound(id);
      && e[|e| - |id|..] == id
      && GetFirmaRequestById(db, id, now) == (ErrorResponse(e), db)
      && DownloadSignedDocument(db, id, now) == (DownloadError(e), db)
      && GetAuditTrail(db, id, now) == Returns(ErrorResponse(e))
  {
  }
}
