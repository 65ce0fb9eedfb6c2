/** The frontend store: the state `{requests, currentRequest, loading, error}`
    and its updates. Each asynchronous action is split at its `await`: `Begin`
    is what the action sets before the call, and the action's `...Done`
    function is the update applied, to whatever the state is by then, once the
    call has settled. The call's outcome is an input. */
module FirmaStore {
  import opened JavaLang
  import opened Dto

  datatype State = State(
    requests: seq<FirmaResponse>,
    currentRequest: Option<FirmaResponse>,
    loading: bool,
    error: Option<string>)

  const Initial := State([], None, false, None)

  /** An envelope as the frontend declares it: `data` is always present in the declaration; for a
      single record the store still tests it, so there it is instantiated with a nullable record. */
  datatype Reply<+T> = Reply(data: T, success: bool, message: Option<string>, error: Option<string>)

  datatype DownloadReply = DownloadReply(content: Option<string>, success: bool, message: Option<string>, error: Option<string>)

  /** How an awaited call settled: with a value, or by throwing an error with a message. */
  datatype Settled<+T> = Fulfilled(value: T) | Rejected(message: Option<string>)

  /** A document handed to the browser for saving. */
  datatype Saved = Saved(content: string, filename: string)

  const Unexpected := "An unexpected error occurred"
  const CreateFailed := "Failed to create signature request"
  const FetchAllFailed := "Failed to fetch signature requests"
  const FetchFailed := "Failed to fetch signature request"
  const DownloadFailed := "Failed to download document"

  /** `s || fallback` for a string that may be undefined: the empty string is falsy as well. */
  function OrElse(s: Option<string>, fallback: string): (r: string)
    ensures s.Some? && s.value != "" ==> r == s.value
    ensures s.None? || s.value == "" ==> r == fallback
  {
    if s.Some? && s.value != "" then s.value else fallback
  }

  /** The update every action applies before its call: `set({ loading: true, error: null })`. */
  function Begin(s: State): (r: State)
    ensures r.loading && r.error.None?
    ensures r.requests == s.requests && r.currentRequest == s.currentRequest
  {
    s.(loading := true, error := None)
  }

  /** The update of a failed completion: an error message and loading off, nothing else. */
  function Failed(s: State, message: string): (r: State)
    ensures !r.loading && r.error == Some(message)
    ensures r.requests == s.requests && r.currentRequest == s.currentRequest
  {
    s.(error := Some(message), loading := false)
  }

  /** `createRequest` after its call: a success with a record puts the record first in the list and
      makes it current, and returns it; anything else records an error and returns null. */
  function CreateRequestDone(s: State, o: Settled<Reply<Option<FirmaResponse>>>): (r: (State, Option<FirmaResponse>))
    ensures !r.0.loading
    ensures o.Fulfilled? && o.value.success && o.value.data.Some? ==>
      var d := o.value.data.value;
      && r.1 == Some(d)
      && r.0.requests == [d] + s.requests
      && r.0.currentRequest == Some(d)
      && r.0.error == s.error
    ensures o.Fulfilled? && !(o.value.success && o.value.data.Some?) ==>
      r == (Failed(s, OrElse(o.value.error, CreateFailed)), None)
    ensures o.Rejected? ==> r == (Failed(s, OrElse(o.message, Unexpected)), None)
  {
    match o
    case Rejected(m) => (Failed(s, OrElse(m, Unexpected)), None)
    case Fulfilled(resp) =>
      if resp.success && resp.data.Some? then
        var d := resp.data.value;
        (s.(requests := [d] + s.requests, currentRequest := Some(d), loading := false), Some(d))
      else
        (Failed(s, OrElse(resp.error, CreateFailed)), None)
  }

  /** `fetchAllRequests` after its call: a success replaces the whole list. */
  function FetchAllRequestsDone(s: State, o: Settled<Reply<seq<FirmaResponse>>>): (r: State)
    ensures !r.loading
    ensures r.currentRequest == s.currentRequest
    ensures o.Fulfilled? && o.value.success ==> r.requests == o.value.data && r.error == s.error
    ensures o.Fulfilled? && !o.value.success ==> r == Failed(s, OrElse(o.value.error, FetchAllFailed))
    ensures o.Rejected? ==> r == Failed(s, OrElse(o.message, Unexpected))
  {
    match o
    case Rejected(m) => Failed(s, OrElse(m, Unexpected))
    case Fulfilled(resp) =>
      if resp.success then s.(requests := resp.data, loading := false)
      else Failed(s, OrElse(resp.error, FetchAllFailed))
  }

  /** `requests.map(req => req.id === id ? update : req)`. */
  function ReplaceById(requests: seq<FirmaResponse>, id: string, update: FirmaResponse): (r: seq<FirmaResponse>)
    ensures |r| == |requests|
    ensures forall i :: 0 <= i < |r| ==> r[i] == if requests[i].id == id then update else requests[i]
  {
    seq(|requests|, i requires 0 <= i < |requests| => if requests[i].id == id then update else requests[i])
  }

  /** Replacing an id that is not in the list changes nothing: nothing is ever inserted. */
  lemma ReplaceAbsentId(requests: seq<FirmaResponse>, id: string, update: FirmaResponse)
    requires forall i :: 0 <= i < |requests| ==> requests[i].id != id
    ensures ReplaceById(requests, id, update) == requests
  {
  }

  /** Replacing twice with the same record is replacing once, even when the record's own id differs
      from the one matched: after the first pass every entry with that id is the record. */
  lemma ReplaceIdempotent(requests: seq<FirmaResponse>, id: string, update: FirmaResponse)
    ensures ReplaceById(ReplaceById(requests, id, update), id, update) == ReplaceById(requests, id, update)
  {
  }

  /** `fetchRequestById` after its call: a success with a record makes it current and replaces every
      list entry whose id is the requested id (not the record's own id). */
  function FetchRequestByIdDone(s: State, id: string, o: Settled<Reply<Option<FirmaResponse>>>): (r: State)
    ensures !r.loading
    ensures o.Fulfilled? && o.value.success && o.value.data.Some? ==>
      && r.currentRequest == o.value.data
      && r.requests == ReplaceById(s.requests, id, o.value.data.value)
      && r.error == s.error
    ensures o.Fulfilled? && !(o.value.success && o.value.data.Some?) ==>
      r == Failed(s, OrElse(o.value.error, FetchFailed))
    ensures o.Rejected? ==> r == Failed(s, OrElse(o.message, Unexpected))
  {
    match o
    case Rejected(m) => Failed(s, OrElse(m, Unexpected))
    case Fulfilled(resp) =>
      if resp.success && resp.data.Some? then
        var s1 := s.(currentRequest := resp.data, loading := false);
        s1.(requests := ReplaceById(s1.requests, id, resp.data.value))
      else
        Failed(s, OrElse(resp.error, FetchFailed))
  }

  /** `downloadDocument` after its call: the document is saved only when the reply succeeded with
      non-empty content; otherwise an error is recorded. The list and current request never change. */
  function DownloadDocumentDone(s: State, filename: string, o: Settled<DownloadReply>): (r: (State, Option<Saved>))
    ensures !r.0.loading
    ensures r.0.requests == s.requests && r.0.currentRequest == s.currentRequest
    ensures r.1.Some? <==> o.Fulfilled? && o.value.success && o.value.content.Some? && o.value.content.value != ""
    ensures r.1.Some? ==> r.1.value == Saved(o.value.content.value, filename) && r.0.error == s.error
    ensures r.1.None? && o.Fulfilled? ==> r.0.error == Some(OrElse(o.value.error, DownloadFailed))
    ensures o.Rejected? ==> r.0.error == Some(OrElse(o.message, Unexpected))
  {
    match o
    case Rejected(m) => (Failed(s, OrElse(m, Unexpected)), None)
    case Fulfilled(resp) =>
      if resp.success && resp.content.Some? && resp.content.value != "" then
        (s.(loading := false), Some(Saved(resp.content.value, filename)))
      else
        (Failed(s, OrElse(resp.error, DownloadFailed)), None)
  }

  /** `clearError`: only the error changes. */
  function ClearError(s: State): (r: State)
    ensures r.error.None?
    ensures r.(error := s.error) == s
  {
    s.(error := None)
  }

  /** `setCurrentRequest`: only the current request changes. */
  function SetCurrentRequest(s: State, request: Option<FirmaResponse>): (r: State)
    ensures r.currentRequest == request
    ensures r.(currentRequest := s.currentRequest) == s
  {
    s.(currentRequest := request)
  }

  /** A whole `createRequest` run without interleaving: the error cleared by `Begin` stays cleared on
      success; on failure the list and current request are those before the action. */
  lemma CreateRequestRun(s: State, o: Settled<Reply<Option<FirmaResponse>>>)
    ensures var (s', ret) := CreateRequestDone(Begin(s), o);
      && !s'.loading
      && (ret.Some? ==> s'.error.None? && s'.requests == [ret.value] + s.requests && |s'.requests| == |s.requests| + 1)
      && (ret.None? ==> s'.error.Some? && s'.requests == s.requests && s'.currentRequest == s.currentRequest)
  {
  }

  /** A reply that says success but carries an empty document is reported as a failure with the
      default message when it has no error text. */
  lemma EmptyDownloadIsFailure(s: State, filename: string)
    ensures DownloadDocumentDone(s, filename, Fulfilled(DownloadReply(Some(""), true, None, None)))
      == (Failed(s, DownloadFailed), None)
  {
  }
}
