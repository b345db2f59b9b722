# secret-server: one-time secrets, modelled in Dafny

A client posts a text with a view limit and a lifetime in minutes. The
service stores it under a random 10-character hash. Later, `GET` requests
on that hash show the text and spend one view each. Once no views remain,
the answer is "not found". The model covers four things:

- the secret lifecycle in `handler.go`: create, and consume with
  decrement and expiry recomputation;
- decoding and validation of the create form in `request.go`;
- the path cursor in `path.go` and the routing chain built on it;
- the error classification in `error.go`.

Modules follow the source: `Model` (the `Secret` record, the hash, the
clock readings), `KeyValue` (the store), `Errors`, `Paths`, `Request`,
`App` (`Call`, `Next` and the top of request serving), `Lifecycle`
(create and consume) and `Handler` (routing and end-to-end lemmas).
`Wrappers` holds `Option` and `Result`.

Representation choices:

- Timestamps and durations are integers in nanoseconds, and one minute
  is 60,000,000,000.
- The store is a map from key to an `Entry`: the decoded record and the
  expiry duration of its last write. A failed read is a miss.
- The random hash, the clock readings and the store are parameters of a
  request (`App.Env`).
- Create reads the clock twice, `first <= second`: `createdAt` is the
  first reading and `expiresAt` is the second reading plus the lifetime.
- Consume reads the clock once, modelled as the first reading.
- The form values of a request are plain strings; a missing field reads
  as "".

The path cursor is an immutable value and `Next`, `Current` and
`Increment` are functions of it. So `Next` and `Current` cannot change
the cursor, and repeated calls give the same answer. The three typed
errors and every other error share a `message` field, which their
`Error()` text returns.

Behaviours of the code worth knowing (the model follows the code):

- A decoding or validation failure is answered 500, not 400.
  `BadRequest` returns the error unchanged, and a plain error falls into
  the default branch of the classification. Nothing ever builds an
  `ErrorBadRequest`.
- The expiry duration written back on a read is not clamped at zero. It
  is negative once the deadline has passed.
- A read does not compare the clock with `expiresAt`. Expiry is left to
  the store's key expiry.
- An exhausted record is not deleted. It is refused because its count is
  zero.
- Only a count of exactly zero is refused. A negative stored count would
  be decremented again.
- A create whose hash is already in use overwrites the stored record.

## Model

| member | source | states |
|---|---|---|
| `KeyValue.Get` | src/secret/handler/handler.go:80-83 | a read finds the stored record exactly when the key is present; any failure is a miss |
| `KeyValue.Set` | src/secret/handler/handler.go:62-64 | a write stores the record with its expiry under the key, adds only that key and leaves every other key as it was |
| `Errors.AppError.Error` | src/secret/app/error.go:58-80 | each error type's text is its `Message` field |
| `Errors.Classify` | src/secret/app/error.go:10-24 | bad request is 400 and not-found is 404, each in both directions; the internal-error type and every other error are 500; the body's message is always the error's text; an untyped error is wrapped as an internal-error body |
| `Errors.NotFound` | src/secret/app/error.go:27-34 | builds a not-found error with message "not found" whose internal note names the URL path, classified 404 |
| `Errors.InternalServerError` | src/secret/app/error.go:37-44 | builds an internal error with message "internal server error" whose internal note is the wrapped error's text, classified 500 |
| `Errors.BadRequest` | src/secret/app/error.go:47-50 | the returned error is answered exactly like its argument and has the same text |
| `Errors.BadRequestOfPlainIsInternal` | src/secret/app/error.go:47-50 | a plain error passed through `BadRequest` is answered 500, with its own text as the body message |
| `Paths.Split` | src/secret/app/path.go:21 | splitting on '/' yields one piece more than there are separators, and no piece contains a separator |
| `Paths.SplitJoin` | src/secret/app/path.go:21 | joining the split pieces with '/' restores the path |
| `Paths.JoinSplit` | src/secret/app/path.go:21 | splitting the join of separator-free pieces restores the pieces |
| `Paths.SplitJoinThen` | src/secret/app/path.go:21 | the split of a join of separator-free pieces, followed by a separator and any tail, is those pieces followed by the tail's split |
| `Paths.NewPath` | src/secret/app/path.go:18-24 | the cursor holds the URL and its '/'-split segments, which join back to the URL, at index 0 |
| `Paths.NewPathOfJoin` | src/secret/app/path.go:18-24 | a URL built from separator-free segments gives a cursor over exactly those segments |
| `Paths.Next` | src/secret/app/path.go:32-38 | the segment after the current index, or "" when there is none; a non-empty answer implies the segment exists |
| `Paths.Current` | src/secret/app/path.go:41-46 | the segment at the current index, or "" past the end |
| `Paths.Increment` | src/secret/app/path.go:49-51 | the index grows by exactly one; the URL and the segments are unchanged |
| `Paths.IncrementThenCurrentIsNext` | src/secret/app/path.go:32-51 | after advancing, the current segment is what `Next` returned before; `Next` is "" exactly when the next segment is missing or empty |
| `Request.ParseDecimal` | src/secret/handler/request/request.go:19-26 | integer parsing succeeds exactly on an optional sign followed by one or more digits. The value is the digits' positional value, negated after a '-' |
| `Request.ParseUnusualForms` | src/secret/handler/request/request.go:19-26 | a leading '+', leading zeros and "-0" are accepted: "+5" gives 5, "007" gives 7, "-0" gives 0 |
| `Request.ParseFormatRoundTrip` | src/secret/handler/request/request.go:19-26 | parsing the decimal rendering of any integer gives that integer back |
| `Request.NewAddSecret` | src/secret/handler/request/request.go:17-29 | succeeds exactly when both numeric fields are well-formed; the view count is checked first and its error is reported first; on success the text is copied verbatim, the view count is the parsed integer, and the lifetime is the parsed minutes times one minute |
| `Request.NewAddSecretOfFormatted` | src/secret/handler/request/request.go:17-29 | fields rendered from integers decode back to those integers, with the lifetime scaled to nanoseconds |
| `Request.Validate` | src/secret/handler/request/request.go:32-40 | accepts exactly a non-empty text with at least one view and any lifetime; an empty text is reported as "empty secret" before the view count is looked at |
| `Lifecycle.CreateSecret` | src/secret/handler/handler.go:40-69 | succeeds exactly when decoding and validation pass. A failure leaves the store as it was. It carries the first error found: the view count's syntax error, then the lifetime's, then "empty secret", then "ExpireAfterViews not valid". On success the record has the given hash and text, views equal to the requested count, `createdAt` = first reading and `expiresAt` = second reading + lifetime. It is written under its own hash with the lifetime as expiry; no other key changes |
| `Lifecycle.CreatedNeverExpires` | src/secret/handler/handler.go:54-60 | a created record carries the no-lifetime marker (equal creation and expiry times) exactly when the readings are the lifetime apart; never for a positive lifetime; for a zero lifetime only when both readings agree |
| `Lifecycle.RewriteTtl` | src/secret/handler/handler.go:93-96 | a record without a lifetime is written back with expiry duration 0. Otherwise the expiry ends exactly at the record's deadline, and it is negative exactly when that deadline has passed |
| `Lifecycle.ConsumeSecret` | src/secret/handler/handler.go:78-102 | succeeds exactly when the key is present with a non-zero count; otherwise the answer is not-found and the store is unchanged. On success the count drops by exactly one and hash, text and both timestamps are kept. The same record is written back under the same key with the recomputed expiry. No key is added or removed, other keys are untouched and no count grows |
| `Lifecycle.CountsDown` | src/secret/handler/handler.go:89-97 | a record with m >= 0 views answers the next m reads with counts m-1 down to 0 and nothing else changed; every later read is not-found |
| `Lifecycle.Exhaustion` | src/secret/handler/handler.go:53-97 | a secret created with N views, read N+1 times in a row, is shown N times with its hash and text and counts N-1 down to 0; the last read is not-found |
| `Lifecycle.ConsumeKeepsDeadline` | src/secret/handler/handler.go:93-97 | after a create with a positive lifetime, a read succeeds and the expiry it writes back ends at the deadline fixed at creation |
| `App.SuccessReply` | src/secret/app/app.go:113-116 | a delivered secret is answered with status 200 and the secret as body |
| `App.NewCtx` | src/secret/app/app.go:102-110 | the context holds the request and a cursor at index 0 over the URL path's segments |
| `App.ErrorReply` | src/secret/app/error.go:10-24 | an error reply has the classified status and a body whose message is the error's text |
| `App.Call` | src/secret/app/app.go:140-146 | the caller always sees a sent reply; a handler error is answered by its classification, with the store the handler left |
| `App.Next` | src/secret/app/app.go:149-152 | the handler runs on the cursor advanced by one. Its reply is passed on, or its error is answered by its classification, with the store it left; the caller always sees a sent reply |
| `App.Serve` | src/secret/app/app.go:83-86 | the reply is the default handler's own, or the classification of the error it returned; the store is the one it left |
| `Handler.Default` | src/secret/handler/handler.go:15-20 | a path whose next segment is not "v1" gets not-found with the store untouched. Otherwise the "v1" handler runs one segment further on; its reply is passed on, or its error is answered by its classification, with the store it left |
| `Handler.V1` | src/secret/handler/handler.go:22-28 | a next segment other than "secret" gets not-found with the store untouched. Otherwise the "secret" handler runs one segment further on; its reply is passed on, or its error is answered by its classification, with the store it left |
| `Handler.SecretRoute` | src/secret/handler/handler.go:30-38 | POST when the segment after "secret" is empty or missing runs create in place. GET when that segment is non-empty runs the read one segment on. Either way, the handler's reply is passed on, or its error is answered by its classification, with the store it left. Anything else gets not-found with the store untouched |
| `Handler.AddSecret` | src/secret/handler/handler.go:40-69 | create runs on the form fields with the request's hash and clock readings; the secret is answered 200 and an error is returned as it is |
| `Handler.GetSecretByHash` | src/secret/handler/handler.go:72-102 | a non-empty segment after the hash gets not-found with the store untouched. Otherwise the hash is read at the first clock reading; the secret is answered 200 and an error is returned as it is |
| `Handler.Answer` | src/secret/handler/handler.go:65-68 | a created or read secret is sent with status 200, and an error is handed back unchanged, with the store the operation left |
| `Handler.Dispatch` | src/secret/handler/handler.go:15-76 | serving any request equals one of three cases, chosen by its verb and path. POST when the segment after "secret" is empty or missing creates. GET reads the segment after "secret" when that segment is non-empty and the segment after it is empty or missing. Anything else gets 404 with the store untouched. The reference route `RouteOf` is read directly off the '/'-split path |
| `Handler.PostCreates` | src/secret/handler/handler.go:30-33 | POST to "/v1/secret" and to "/v1/secret/" is routed to create |
| `Handler.GetConsumes` | src/secret/handler/handler.go:34-36 | GET of "/v1/secret/h" is routed to reading h, and no other verb reaches it |
| `Handler.GetIgnoresLaterSegments` | src/secret/handler/handler.go:72-76 | only the segment right after the hash is checked: GET "/v1/secret/h//rest" still reads h, whatever rest holds |
| `Handler.PostIgnoresLaterSegments` | src/secret/handler/handler.go:30-33 | only the segment right after "secret" is checked: POST "/v1/secret//rest" creates, whatever rest holds |
| `Handler.GetEmptySegmentUnrouted` | src/secret/handler/handler.go:30-37 | GET "/v1/secret/" names no secret: its route is `Unrouted`, which `Dispatch` answers with 404 |
| `Handler.ServeGetConsumes` | src/secret/handler/handler.go:72-102 | serving GET "/v1/secret/h" reads h and sends what the read answers, leaving the store the read left |
| `Handler.EmptySecretIsInternalError` | src/secret/handler/handler.go:45-52 | a create with empty text, a well-formed view count and a well-formed lifetime is answered 500 with message "empty secret", and the store is unchanged |

## Left out

- The HTTP server and response encoding are not modelled. This covers
  request timing, the per-route counters and summaries, and JSON or XML
  encoding in `Respond`. A reply is its status and the value in its body.
- Logging is not modelled. It has no effect on any answer.
- Form parsing is taken as given. The `ParseForm` failure branch
  (handler.go:41-44) is not reached: the form values are inputs.
  `Errors.InternalServerError` models the error that branch builds.
- A record that fails to decode (handler.go:85-88) is not modelled. The
  store holds decoded records, and the JSON codec is not visible.
- Store writes never fail here. A failed write in create or consume
  (handler.go:62-67, 97-101) would return a plain error, answered 500.
- The store records each write's expiry duration but never expires keys.
  How the backend treats a zero or negative duration belongs to the
  client library, which is not part of this model.
- The random generator and the clock are inputs: a 10-character hash
  and clock readings.
- Concurrent reads of one hash are not modelled. Two racing reads can
  both see the same count. Only sequential behaviour is modelled.
- `Request.ParseDecimal`: the range limits of the machine integer
  parser, and overflow of the duration multiplication and time
  arithmetic, are not modelled. The model uses unbounded integers.
- `Request.SyntaxError`: the parser's error text quotes the input
  without escaping special characters.
- `Path.URL`, `Path.String` and the context's route name are accessors
  or feed only metrics, so they are not modelled.
