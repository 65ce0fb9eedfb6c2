# Firma: a model of the electronic-signature proxy

This project is a Dafny model of a small backend that proxies electronic-signature requests to an external provider, together with the frontend store that drives it. It also proves properties of that model.

- **Validator.** Bean-validation constraints run on the inbound `FirmaRequest`: not-blank strings, non-empty lists, and the international phone pattern `^\+[1-9]\d{1,14}$`.
- **Controller.** It maps each envelope's success flag to an HTTP status: 201/400 for create, 200/500 for the list, and 200/404 for read, download and audit. The health route always answers 200.
- **Service.** It runs the ordered checks: content, then members, then the signs of every member. The loop over the members runs outside the service's try block, so a null member reached before any member without signs throws out of the service. It refuses blank identifiers. Every exception a client throws becomes an error envelope whose text is a fixed prefix plus the exception's message. Java renders a null message as `null`.
- **Two interchangeable clients:**
  - The **real client** normalises a request before sending it. It overwrites the first sign position of the first member with `10,15,45,35` and replaces null title, description and ui with empty strings. It builds the Bearer headers and the endpoint URLs from the active base URL, and turns every failed exchange into an error envelope.
  - The **mock client** is an in-memory store. Each record starts `created`. The first read moves it to `started` and signs its first member. A download moves it to `finished`, signs every member and sets the download link. The audit trail is a synthetic three-event trail.
- **Configuration.** `production` is matched case-insensitively and selects the production base URL; any other environment selects the sandbox URL.
- **Envelope factories.** `ApiResponse.success` and `ApiResponse.error`.
- **Frontend store.** Each action has a `loading`/`error` bracket. On success, create puts the record first in the list, fetch-all replaces the list, and fetch-by-id replaces matching entries. A download is saved only when the reply is a success with non-empty content. `||` falls back to the default message when the text is missing or empty.

How Java is represented:

- A Java `null` is `Option.None`. This includes the elements of the members and sign-position lists, since JSON `[null]` reads as a list holding null.
- A Java call that may throw is a `Call<T>`: either `Returns(value)` or `Throws(exception)`.
- An exception the JVM raises at a null dereference carries a message chosen by the JVM: with helpful null-pointer messages it describes the failed dereference, and without them it is null. The model names each such site of a create request (`NullSites.NullSite`) and takes the message of every site as a parameter `jvm`. An empty list's `get(0)` throws an index error whose message is `Index 0 out of bounds for length 0`. `Objects.requireNonNull`, reached through `Map.of`, throws a null pointer without a message.
- The service takes its client as a function from the client's state and the argument to the outcome and the next state. The same service therefore runs over the mock store (the state is the `Store` map) and over the real client (the state is `()`).
- The HTTP exchange of the real client is a parameter `send: HttpRequest -> Exchange<B>`. Its result is either the parsed body or a failure with its message.
- Things the source draws from the environment are inputs: the new UUIDs, the per-member signing tokens and the clock.

The `Application` module wires these layers together as the running backend does:

- The validator comes first. A refused request answers 400 with its violations and never reaches the controller.
- Next come the controller, the service, and the mock or the real client.
- An exception that escapes the service answers 500.

The module proves end-to-end facts:

- a request for `doc.pdf` with one member (phone `+39123456789`) and one sign position on page 1 answers 201 with one pending member;
- the same request with its member replaced by null passes the validator, which skips null members, and answers 500;
- an empty member list stores nothing;
- every route keeps the mock store consistent with its lifecycle;
- the service's checks shield the real client's normalisation from every dereference but one: a null first sign position, which the service reports as 400: the create prefix followed by the JVM's message for that dereference.

Modules and files: `JavaLang` (java_lang.dfy), `NullSites` (null_sites.dfy), `Dto` (dto.dfy), `RequestValidation` (request_validation.dfy), `Config` (config.dfy), `RealClient` (real_client.dfy), `MockClient` (mock_client.dfy), `MockLifecycle` (mock_lifecycle.dfy), `Service` (service.dfy), `Controller` (controller.dfy), `FirmaStore` (firma_store.dfy), `Application` (application.dfy).

## Model

| member | source | states |
|---|---|---|
| JavaLang.TrimStart | backend/src/main/java/com/openapi/firma/service/FirmaService.java:68 | `trim` drops a leading run of characters at most U+0020: the result is a suffix of the input, all removed characters are trimmable, and the result does not start with one |
| JavaLang.TrimEnd | backend/src/main/java/com/openapi/firma/service/FirmaService.java:68 | the trailing half of `trim`: a prefix of the input, everything removed trimmable, and no trimmable last character left |
| JavaLang.TrimEmptyIff | backend/src/main/java/com/openapi/firma/service/FirmaService.java:68 | `id.trim().isEmpty()` holds exactly when every character of the id is at most U+0020 |
| JavaLang.TrimIsInfix | backend/src/main/java/com/openapi/firma/service/FirmaService.java:68 | the trimmed id is a contiguous part of the id whose first and last characters are visible |
| JavaLang.ParseNatToString | backend/src/main/java/com/openapi/firma/dto/FirmaRequest.java:27 | the decimal rendering of the milliseconds is non-empty, all digits, has no leading zero, and parses back to the number |
| JavaLang.NatToStringInjective | backend/src/main/java/com/openapi/firma/dto/FirmaRequest.java:27 | different numbers render differently |
| Dto.SuccessResponse | backend/src/main/java/com/openapi/firma/dto/ApiResponse.java:18-24 | `success(data, message)` is a successful envelope with no error, carrying exactly the given data and message |
| Dto.ErrorResponse | backend/src/main/java/com/openapi/firma/dto/ApiResponse.java:26-31 | `error(e)` is a failed envelope with no data and no message, carrying exactly the error `e` |
| Dto.EnvelopeFactoriesExact | backend/src/main/java/com/openapi/firma/dto/ApiResponse.java:18-31 | every envelope of the failure shape is what `error` builds from its own text, and every envelope of the success shape is what `success` builds from its own data and message |
| Dto.DownloadError | backend/src/main/java/com/openapi/firma/service/FirmaService.java:87-90 | a download envelope built only from `success(false)` and `error(e)`: no content, no message, error `e` |
| RequestValidation.NotBlankIff | backend/src/main/java/com/openapi/firma/dto/FirmaRequest.java:29-30 | `@NotBlank` (non-null, some character above U+0020) agrees with the validator's reading: non-null and non-empty after `trim` |
| RequestValidation.DigitsBetweenIff | backend/src/main/java/com/openapi/firma/dto/FirmaRequest.java:55 | the regex fragment `\d{min,max}` matches a whole string exactly when it is all digits and its length is between min and max |
| RequestValidation.PhonePatternIff | backend/src/main/java/com/openapi/firma/dto/FirmaRequest.java:55 | a phone matches `^\+[1-9]\d{1,14}$` exactly when it has 3 to 16 characters, starts with '+', then a digit 1-9, then only digits |
| RequestValidation.PhoneExampleValid | frontend/src/components/FirmaRequestForm.tsx:127 | `+39123456789`, the request form's placeholder, matches the backend's phone pattern |
| RequestValidation.PhoneShortest | backend/src/main/java/com/openapi/firma/dto/FirmaRequest.java:55 | two digits after '+' are the minimum: `+12` is valid and `+3` is not |
| RequestValidation.PhoneLongest | backend/src/main/java/com/openapi/firma/dto/FirmaRequest.java:55 | fifteen digits after '+' are accepted |
| RequestValidation.PhoneTooLong | backend/src/main/java/com/openapi/firma/dto/FirmaRequest.java:55 | sixteen digits after '+' are refused |
| RequestValidation.PhoneRejections | backend/src/main/java/com/openapi/firma/dto/FirmaRequest.java:55 | a zero after '+', a missing '+' and an inner space are each refused |
| RequestValidation.MemberViolations | backend/src/main/java/com/openapi/firma/dto/FirmaRequest.java:44-61 | a member has no violation exactly when all its constraints hold: not-blank firstname, lastname, email and phone, the phone pattern, and non-empty signs |
| RequestValidation.MembersViolationsEmptyIff | backend/src/main/java/com/openapi/firma/dto/FirmaRequest.java:32-34 | the cascade through `@Valid`, which reports each present member's violations under `members[i].` and skips null members, reports nothing exactly when every present member is valid |
| RequestValidation.NullMembersAccepted | backend/src/main/java/com/openapi/firma/dto/FirmaRequest.java:32-34 | a members list holding only nulls satisfies `@NotEmpty` and `@Valid`: only the content can be reported |
| RequestValidation.ValidIffNoViolations | backend/src/main/java/com/openapi/firma/dto/FirmaRequest.java:29-61 | the validator reports no violation exactly when the request satisfies every declared constraint |
| RequestValidation.BrokenPhoneReported | backend/src/main/java/com/openapi/firma/dto/FirmaRequest.java:54-56 | a blank phone is reported as "Phone is required" and a malformed one with the prefix message, both under the member's own property path followed by `phone` |
| RequestValidation.BlankPhoneViolations | backend/src/main/java/com/openapi/firma/dto/FirmaRequest.java:54-56 | a phone of one space breaks both phone constraints at once |
| RequestValidation.NullPhoneViolations | backend/src/main/java/com/openapi/firma/dto/FirmaRequest.java:54-56 | a null phone breaks only `@NotBlank`; `@Pattern` accepts null |
| RequestValidation.DefaultFilenameShape | backend/src/main/java/com/openapi/firma/dto/FirmaRequest.java:26-27 | the default filename is `fes_`, the decimal milliseconds, `.pdf`, and the milliseconds can be read back from it |
| RequestValidation.DefaultFilenameInjective | backend/src/main/java/com/openapi/firma/dto/FirmaRequest.java:26-27 | requests built at different milliseconds get different default filenames |
| Config.ActiveBaseUrl | backend/src/main/java/com/openapi/firma/config/OpenApiConfig.java:34-39 | the production base URL when the environment equals "production" ignoring case, the sandbox URL otherwise (including a null environment) |
| Config.CharMatchesLetter | backend/src/main/java/com/openapi/firma/config/OpenApiConfig.java:35 | a character matches a lower-case ASCII letter ignoring case exactly when it is that letter, its capital, one of the two Turkish i's for 'i', the long s for 's', or the Kelvin sign for 'k' |
| Config.IsProductionIff | backend/src/main/java/com/openapi/firma/config/OpenApiConfig.java:35 | the environment selects production exactly when it has ten characters, each spelling the matching letter of "production" |
| Config.EnvironmentExamples | backend/src/main/java/com/openapi/firma/config/OpenApiConfig.java:34-39 | `PRODUCTION`, `Production` and a dotless-i spelling select production; null, `prod` and a padded ` production` select the sandbox |
| Config.ActiveBaseUrlIndependent | backend/src/main/java/com/openapi/firma/config/OpenApiConfig.java:34-39 | the choice ignores the API key and rate limit and is always one of the two configured URLs |
| RealClient.AuthHeaders | backend/src/main/java/com/openapi/firma/client/OpenApiFirmaClient.java:75-85 | exactly two headers: a JSON content type, and `Authorization` holding `Bearer ` followed by the API key (`null` when unset) |
| RealClient.UrlsShape | backend/src/main/java/com/openapi/firma/client/OpenApiFirmaClient.java:115-255 | every endpoint is the active base URL plus its fixed path; the id follows `/firma_elettronica/`, and the request URL prefixes the download and audit URLs |
| RealClient.RequestUrlInjective | backend/src/main/java/com/openapi/firma/client/OpenApiFirmaClient.java:200 | two ids never share a request URL |
| RealClient.Normalize | backend/src/main/java/com/openapi/firma/client/OpenApiFirmaClient.java:90-112 | throws exactly when the first member's first sign position cannot be reached or is null, or when any member is null, since the logging loop reads every member's signs. An empty members or first signs list throws the index error of `get(0)`, with its message. Every other case is a null pointer carrying the JVM's message for the site that failed: the null members list, the null first member, its null signs list, the null first sign position, or a null later member. When it returns, it changes only the first position's box to `10,15,45,35`, keeps its page and everything else, and turns null title, description and ui into "" |
| RealClient.NormalizeIdempotent | backend/src/main/java/com/openapi/firma/client/OpenApiFirmaClient.java:92-98 | normalising an already normalised request changes nothing |
| RealClient.NormalizeIgnoresLoggedChecks | backend/src/main/java/com/openapi/firma/client/OpenApiFirmaClient.java:100-112 | the pre-send content, members and signs checks only log: the content never decides whether the request is sent, and later members without signs never stop it; only a null later member does |
| RealClient.Received | backend/src/main/java/com/openapi/firma/client/OpenApiFirmaClient.java:184-188 | a completed exchange yields its body; a failed one yields an error envelope with the prefix and the failure's message |
| RealClient.CreateFirmaRequest | backend/src/main/java/com/openapi/firma/client/OpenApiFirmaClient.java:90-163 | throws exactly when the first sign position is unreachable or null or a member is null, since normalisation runs outside the try block. Otherwise it POSTs the normalised request with the auth headers to the create URL and returns the body, or an error envelope with the failure's message |
| RealClient.GetAllFirmaRequests | backend/src/main/java/com/openapi/firma/client/OpenApiFirmaClient.java:168-189 | GET on the list URL with the auth headers; the body, or an error envelope with the list prefix |
| RealClient.GetFirmaRequestById | backend/src/main/java/com/openapi/firma/client/OpenApiFirmaClient.java:194-215 | GET on the request URL of the id; the body, or an error envelope with the fetch prefix |
| RealClient.DownloadSignedDocument | backend/src/main/java/com/openapi/firma/client/OpenApiFirmaClient.java:220-244 | GET on the download URL; the body, or a failed download envelope without content |
| RealClient.GetAuditTrail | backend/src/main/java/com/openapi/firma/client/OpenApiFirmaClient.java:249-270 | GET on the audit URL; the provider's payload, or an error envelope with the audit prefix |
| MockClient.PendingStatuses | backend/src/main/java/com/openapi/firma/client/MockOpenApiFirmaClient.java:40-56 | throws exactly when a member is null. Otherwise one status per member, in order: the member's names, email and phone, `pending`, both timestamps the creation time, and a sign link built from that member's token |
| MockClient.CreateFirmaRequest | backend/src/main/java/com/openapi/firma/client/MockOpenApiFirmaClient.java:34-79 | a null members list or a null member throws and stores nothing. Otherwise it stores a `created` record under the new id, with the request's filename, title and description, no download link and one pending status per member. It leaves every other key alone, grows the store by one for a fresh id, and returns the stored record |
| MockClient.GetAllFirmaRequests | backend/src/main/java/com/openapi/firma/client/MockOpenApiFirmaClient.java:82-92 | a successful envelope listing as many records as the store holds, each a stored record and every stored record present, with the count in the message; when every record is stored under its own id, no record appears twice |
| MockClient.GetFirmaRequestById | backend/src/main/java/com/openapi/firma/client/MockOpenApiFirmaClient.java:95-123 | an unknown id fails with the id in the message and changes nothing. A `created` record becomes `started` with its first member `signed` at the read time and everything else kept. Any other record is returned unchanged with the store untouched |
| MockClient.SignAll | backend/src/main/java/com/openapi/firma/client/MockOpenApiFirmaClient.java:143-146 | every member becomes `signed` at the given time and keeps everything else |
| MockClient.DownloadSignedDocument | backend/src/main/java/com/openapi/firma/client/MockOpenApiFirmaClient.java:126-156 | an unknown id fails and changes nothing. Otherwise, whatever the status: `finished`, download link `…/download/<id>`, every member signed, nothing else changed, and the fixed mock document returned |
| MockClient.GetAuditTrail | backend/src/main/java/com/openapi/firma/client/MockOpenApiFirmaClient.java:159-190 | an unknown id fails; a record without a filename throws, because `Map.of` refuses null. Otherwise a trail for that id and filename with three events in increasing time, created before completed, marked as mock data |
| MockLifecycle.CreatePreservesConsistent | backend/src/main/java/com/openapi/firma/client/MockOpenApiFirmaClient.java:59-70 | creating keeps every record under its own id and in a reachable lifecycle state |
| MockLifecycle.GetPreservesConsistent | backend/src/main/java/com/openapi/firma/client/MockOpenApiFirmaClient.java:107-116 | the simulated progression on read keeps the store consistent |
| MockLifecycle.DownloadPreservesConsistent | backend/src/main/java/com/openapi/firma/client/MockOpenApiFirmaClient.java:138-146 | finishing on download keeps the store consistent |
| MockLifecycle.GetLeavesNoCreated | backend/src/main/java/com/openapi/firma/client/MockOpenApiFirmaClient.java:108-116 | in a consistent store, a record returned by a read is never `created` |
| MockLifecycle.GetTwice | backend/src/main/java/com/openapi/firma/client/MockOpenApiFirmaClient.java:95-123 | reading is idempotent after the first read: a second read returns the same record and changes nothing |
| MockLifecycle.GetAfterDownload | backend/src/main/java/com/openapi/firma/client/MockOpenApiFirmaClient.java:95-146 | after a download a read finds the record `finished` and leaves the store as it was |
| MockLifecycle.CreateThenPoll | backend/src/main/java/com/openapi/firma/client/MockOpenApiFirmaClient.java:34-123 | create then read twice: `created`, then `started` with only the first member signed, then the same answer again; a null member makes the create throw with nothing stored |
| MockLifecycle.UnknownIdRejected | backend/src/main/java/com/openapi/firma/client/MockOpenApiFirmaClient.java:95-169 | an id the store lacks fails read, download and audit with `Request not found with ID: <id>` and changes nothing |
| Service.CheckMembers | backend/src/main/java/com/openapi/firma/service/FirmaService.java:34-38 | the member loop stops at the first member that is null or has a null or empty signs list: it throws a null pointer exactly when that member is null, with the JVM's message for the loop's dereference, and otherwise reports the signs message; with no such member it passes |
| Service.StopExists | backend/src/main/java/com/openapi/firma/service/FirmaService.java:34-38 | when some member fails, the loop has a first member to stop at |
| Service.MemberLoopOrder | backend/src/main/java/com/openapi/firma/service/FirmaService.java:34-38 | a null member ahead of a member without signs throws; one behind it is never reached |
| Service.Caught | backend/src/main/java/com/openapi/firma/service/FirmaService.java:40-45 | a returned envelope passes through; a thrown exception becomes an error envelope with the prefix and the message, `null` for none |
| Service.CaughtDownload | backend/src/main/java/com/openapi/firma/service/FirmaService.java:93-101 | the same for downloads: a failed download envelope with no content or message, only the download prefix and the exception's message |
| Service.CreateSignatureRequest | backend/src/main/java/com/openapi/firma/service/FirmaService.java:21-46 | throws a null pointer with the JVM's message for the size read when the members list is null, because it is read before any check. Otherwise it reports content, then empty members, then the member loop's outcome: a null pointer thrown out of the service when the first failing member is null, the signs message when it lacks signs, without calling the client. An acceptable request gets the client's answer, or the client's exception caught as an error envelope with the create prefix |
| Service.GetAllSignatureRequests | backend/src/main/java/com/openapi/firma/service/FirmaService.java:51-60 | the client's answer, or its exception as an error envelope with the list prefix |
| Service.IsBlankIdIff | backend/src/main/java/com/openapi/firma/service/FirmaService.java:68 | an id is refused exactly when it is null or consists only of characters at most U+0020 |
| Service.GetSignatureRequestById | backend/src/main/java/com/openapi/firma/service/FirmaService.java:65-78 | a blank id fails with "Request ID is required" without calling the client; any other id reaches the client untrimmed, and its exception is caught |
| Service.DownloadSignedDocument | backend/src/main/java/com/openapi/firma/service/FirmaService.java:83-102 | the same guard and catch for downloads, as a failed download envelope with no content or message |
| Service.GetAuditTrail | backend/src/main/java/com/openapi/firma/service/FirmaService.java:107-120 | the same guard and catch for audit trails |
| Service.CheckPrecedence | backend/src/main/java/com/openapi/firma/service/FirmaService.java:25-31 | missing content is reported ahead of an empty member list, and the member list is reported once content is present |
| Service.BlankIdExamples | backend/src/main/java/com/openapi/firma/service/FirmaService.java:68-73 | spaces and a tab are a blank id; ` abc ` reaches the client with its padding |
| Controller.StatusClasses | backend/src/main/java/com/openapi/firma/controller/FirmaController.java:27-110 | a route answers 2xx exactly on success; failures are 4xx except on the list route, where they are 500 |
| Controller.CreateSignatureRequest | backend/src/main/java/com/openapi/firma/controller/FirmaController.java:27-40 | the service's envelope as body, 201 exactly on success and 400 exactly on failure |
| Controller.GetAllSignatureRequests | backend/src/main/java/com/openapi/firma/controller/FirmaController.java:45-56 | the envelope as body, 200 on success and 500 on failure |
| Controller.GetSignatureRequestById | backend/src/main/java/com/openapi/firma/controller/FirmaController.java:61-74 | the envelope as body, 200 on success and 404 on failure |
| Controller.DownloadSignedDocument | backend/src/main/java/com/openapi/firma/controller/FirmaController.java:79-92 | the download envelope as body, 200 on success and 404 on failure |
| Controller.GetAuditTrail | backend/src/main/java/com/openapi/firma/controller/FirmaController.java:97-110 | the envelope as body, 200 on success and 404 on failure |
| Controller.HealthCheck | backend/src/main/java/com/openapi/firma/controller/FirmaController.java:115-120 | always 200 with a successful envelope whose data is the running notice and whose message is "OK" |
| FirmaStore.OrElse | frontend/src/store/firmaStore.ts:43 | the JavaScript `or` of a message and its default: the message when present and non-empty, the default otherwise |
| FirmaStore.Begin | frontend/src/store/firmaStore.ts:30 | starting an action sets loading, clears the error and keeps the list and current request |
| FirmaStore.Failed | frontend/src/store/firmaStore.ts:42-45 | a failed completion records the message, clears loading and keeps the list and current request |
| FirmaStore.CreateRequestDone | frontend/src/store/firmaStore.ts:29-55 | a successful reply with a record puts it first in the list, makes it current and returns it. A reply without success or data records its error or the default. A thrown error records its message or the generic text and returns null |
| FirmaStore.FetchAllRequestsDone | frontend/src/store/firmaStore.ts:58-80 | success replaces the whole list with the reply's data; failure records an error and keeps the list |
| FirmaStore.ReplaceById | frontend/src/store/firmaStore.ts:96-98 | the list keeps its length; each entry with the requested id becomes the new record, every other entry is unchanged |
| FirmaStore.ReplaceAbsentId | frontend/src/store/firmaStore.ts:94-99 | a fetched record whose id is not in the list is not inserted: the list is unchanged |
| FirmaStore.ReplaceIdempotent | frontend/src/store/firmaStore.ts:94-99 | replacing twice with the same record is replacing once, whatever the record's own id |
| FirmaStore.FetchRequestByIdDone | frontend/src/store/firmaStore.ts:83-112 | success with a record makes it current and replaces list entries matching the requested id; anything else records an error |
| FirmaStore.DownloadDocumentDone | frontend/src/store/firmaStore.ts:115-135 | the document is saved, under the given filename, exactly when the reply succeeded with non-empty content; otherwise an error is recorded. The list and current request never change |
| FirmaStore.ClearError | frontend/src/store/firmaStore.ts:138 | only the error changes, to none |
| FirmaStore.SetCurrentRequest | frontend/src/store/firmaStore.ts:141-142 | only the current request changes, to the given one |
| FirmaStore.CreateRequestRun | frontend/src/store/firmaStore.ts:29-55 | a whole create action: on success the list grows by exactly the new record and no error is left; on failure an error is set and the list and current request are as before |
| FirmaStore.EmptyDownloadIsFailure | frontend/src/store/firmaStore.ts:120-128 | a "successful" reply with empty content is a failure with the default download message |
| Application.ValidRequestAcceptable | backend/src/main/java/com/openapi/firma/service/FirmaService.java:25-38 | a request the validator accepts passes all the service's checks exactly when no member is null; with a null member the service's loop throws, because every member ahead of it has signs. Without null members the first member's signs list is non-empty |
| Application.PostFirma | backend/src/main/java/com/openapi/firma/controller/FirmaController.java:27-40 | over the mock store: an invalid request answers 400 with its non-empty violations and stores nothing; a valid one holding a null member answers 500 with the exception of the service's loop and stores nothing; any other valid one answers 201 with the newly stored `created` record, other records untouched |
| Application.GetFirma | backend/src/main/java/com/openapi/firma/controller/FirmaController.java:61-74 | over the mock store: never an exception; a blank id or an unknown id answers 404 with its message and changes nothing; a held id answers 200 and stores the returned record |
| Application.DownloadFirma | backend/src/main/java/com/openapi/firma/controller/FirmaController.java:79-92 | over the mock store: 200 with the fixed document exactly when the id is non-blank and held; otherwise 404 and nothing changes |
| Application.AuditFirma | backend/src/main/java/com/openapi/firma/controller/FirmaController.java:97-110 | over the mock store: the store is only read; 200 exactly for a held id whose record has a filename; a record without one answers 404 with "Failed to fetch audit trail: null" |
| Application.ListFirma | backend/src/main/java/com/openapi/firma/controller/FirmaController.java:45-56 | over the mock store: always 200, listing as many records as stored and every stored record, each once when the store is consistent |
| Application.ScenarioValid | backend/src/main/java/com/openapi/firma/dto/FirmaRequest.java:29-60 | a request for `doc.pdf` with one fully filled member and one sign position satisfies every declared constraint |
| Application.ScenarioCreated | backend/src/main/java/com/openapi/firma/client/MockOpenApiFirmaClient.java:34-79 | that request answers 201 with a successful envelope: a `created` record for `doc.pdf` with one `pending` member holding the submitted phone |
| Application.EmptyMembersStoreNothing | backend/src/main/java/com/openapi/firma/service/FirmaService.java:29-31 | an empty member list stores nothing: the validator answers 400 with the members violation, and the service alone answers "At least one member is required" with the store unchanged |
| Application.NullMemberIsServerError | backend/src/main/java/com/openapi/firma/service/FirmaService.java:34-35 | the same request with its member replaced by null passes the validator and answers 500, storing nothing |
| Application.PhoneOnlyCheckedByValidator | backend/src/main/java/com/openapi/firma/dto/FirmaRequest.java:54-56 | a phone without '+' passes every service check and is stopped only by the validator, under `members[0].phone` |
| Application.NullFilenameAudit | backend/src/main/java/com/openapi/firma/client/MockOpenApiFirmaClient.java:172-174 | auditing a stored record without a filename answers 404 with the audit prefix followed by `null` |
| Application.PostThenGet | backend/src/main/java/com/openapi/firma/client/MockOpenApiFirmaClient.java:107-116 | through the whole stack, create answers 201 and the first read answers 200 with the record `started` and its first member `signed`; with a null member the create answers 500 and stores nothing |
| Application.RoutesPreserveConsistent | backend/src/main/java/com/openapi/firma/client/MockOpenApiFirmaClient.java:34-190 | every route (create, read, download, audit) keeps the mock store consistent, whatever the input |
| Application.ServiceShieldsRealClient | backend/src/main/java/com/openapi/firma/client/OpenApiFirmaClient.java:92 | for a request the service accepts, the real client throws exactly when the first member's first sign position is null; the service then answers the create prefix followed by the JVM's message for that dereference, and otherwise exactly the client's answer |
| Application.PostFirmaReal | backend/src/main/java/com/openapi/firma/controller/FirmaController.java:27-40 | over the real client: an invalid request answers 400 with its violations. A valid one with a null member answers 500; one whose first sign position is null answers 400 with the create prefix followed by the JVM's message for that dereference. Any other valid one is sent normalised; the answer is the provider's body, or 400 with the create prefix and the failure's message |

## Left out

- JSON serialisation, `RestTemplate`, its message converters and the Jackson configuration are left out. The exchange is the parameter `send`, and a serialisation failure is one more `Err`. The provider's response being null is not modelled; `send` always yields a body or a failure.
- Logging is left out. This includes the content-truncation diagnostics of the real client's create. None of it affects a result.
- UUIDs, the per-member sign-link tokens and the clock are inputs. One call reads the clock once, although the source reads it afresh for each timestamp. Timestamps are plain integers in seconds, not `LocalDateTime` strings.
- Concurrency is left out: the concurrent map of the mock and any interleaving of requests. Each operation is applied atomically to the store it is given.
- Aliasing is not modelled. The mock hands out its stored record objects, so a caller that mutated a returned record would change the store. Here records are values.
- The mock's fixed document is carried as its literal base64 text and is never decoded.
- The bean-validation framework is represented by the set of violated constraints. Spring's 400 error body for a refused request is not modelled.
- The text of the JVM's helpful null-pointer messages is not modelled: each site's message is the parameter `jvm`, so every property holds whatever the JVM says there, including null.
- A null id handed directly to a client is left out; the service refuses it first. Null nested configuration objects (`sandbox` or `production` themselves) are left out too; their URLs may each be null.
- The `callback` object of a response record and the free-form `headers` of a callback are not modelled as Java objects. Callback headers are a map of strings, and the response record has no callback field.
- `JavaLang.EqualsIgnoreCase` models only the case mappings that reach an ASCII letter: those of the ASCII letters themselves, the two Turkish i's, the long s and the Kelvin sign. It is only ever compared against "production", and no other character can match an ASCII letter. Case mappings between two non-ASCII characters are left out.
- `RateLimit` is bound from configuration but read by no operation, so it only appears as data.
- The frontend HTTP client (`api.ts`), the browser download helper and the UI components are left out. The store takes each call's settled outcome as an input. The list reply's `data` is typed as always present, as the frontend declares it.
- The store functions apply each completion to whatever state it is given. Which interleavings of concurrent actions the browser produces is not modelled.
- MockClient.GetAllFirmaRequests: states that no record appears twice only for a store that keys every record by its own id, as every store the mock builds does. For an arbitrary map, two keys may hold equal records, and only length and membership are stated.
