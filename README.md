# go-alexa request authentication, modelled in Dafny

This project models the core of `go-alexa`, a Go library for writing Alexa
skills. That core is the middleware that authenticates a skill request before
the skill sees it:

- the allow-list check on the `SignatureCertChainUrl` header;
- the ordered certificate and signature pipeline `ValidateAmazonRequest`, with
  the development-mode bypass that a non-empty `_dev` query parameter switches on;
- the envelope accessors, with the timestamp freshness check and the
  application-ID check;
- the response builder;
- `HandlerFuncWithNext`, which maps each failure to an HTTP status and calls
  the next handler only on success.

Modules follow the source files:

| module | file | form |
|---|---|---|
| `Amazon` | amazon.go | `VerifyCertURL` as a predicate. `ValidateAmazonRequest` as a method on an `HttpRequest` object, proved equal to the spec function `Validate`. The `foundName` loop as the method `FindRequiredName`. |
| `Request` | request.go | Datatypes for the envelope. Functions for the accessors. A parser, a formatter and Unix-seconds arithmetic for the timestamp layout `2006-01-02T15:04:05Z`. |
| `Response` | response.go | Datatypes for the body parts. A class `EchoResponse` whose builder methods update the receiver and return it. |
| `Skill` | skill.go | A class `Skill` with the constructor `New`. `HandlerFuncWithNext` as a method proved equal to the spec function `Handle`. |
| `Http`, `Json`, `Wrappers` | — | The request object the middleware reads and writes (query, headers, body stream, request-scoped storage), a JSON value type for `interface{}`, and Option/Result. |

Some parts of the pipeline are outside the library: the certificate download,
PEM decoding, X.509 parsing, base64, SHA-1, RSA PKCS#1 v1.5 verification and
JSON decoding. The pipeline receives them as functions (`Amazon.Env`,
`Skill.Decoder`), so every property below holds whatever those collaborators
do, except where a lemma names an assumption about them (`PemOfEmptyIsNone`). The wall clock is also a parameter:

- `Amazon.Clock` holds the two `time.Now().Unix()` readings of the validity
  check;
- `nowNanos` is the reading `time.Since` takes.

A request can end in one of three ways:

- validation returns nil (`Passed`);
- validation returns an error (`Rejected`);
- validation panics (`Panicked`).

A panic in validation comes from dereferencing a nil PEM block or certificate
in development mode, or from the `*rsa.PublicKey` type assertion on a key of
another kind. That assertion panics in both modes, after the body has been
read and put back. The handler can also panic after validation: a body that
is the JSON literal `null` decodes without error into a nil `*EchoRequest`,
which the freshness check then dereferences (skill.go:45-53). The decoder
therefore has three results (`Skill.Decoded`): an envelope, a null envelope,
or an error. The handler turns each verdict into a `Skill.Outcome`:

- `Replied(status, text, logged)` for an error response;
- `Forwarded(envelope)` for a call of `next` after the envelope is stored;
- `Aborted(crash)` for a panic, in validation (`InValidation`) or on the nil
  envelope (`NilEnvelope`).

Points where the code differs from what its comments and messages suggest
(the model follows the code):

- The comment at amazon.go:61 speaks of the certificate's "alternate names",
  but the loop reads its subject distinguished name (`cert.Subject.Names`),
  not its subject alternative names. It matches an attribute of any type.
- A malformed base64 signature is not an error of its own: the decode error
  is ignored, and whatever bytes were decoded before it are verified.
- The message at skill.go:13 says a request is too old when it is over 150
  seconds old, but the test is strict: a request exactly 150 seconds old
  fails, and one 149 seconds old passes. There is no lower bound, so a timestamp in the future
  always passes.
- In development mode the certificate URL is still fetched, even when it is
  untrusted. A failed decode or parse then panics instead of being ignored.
  A failed fetch yields no bytes, so it panics too whenever PEM decoding finds
  no block in empty input (`Amazon.DevModeFailedFetchPanics`).
- The validity window is tested against two separate clock readings.
  `ExpiryIsTheClosedWindow` states the check when both readings are the same
  instant.

`GetSessionID`, `GetUserID`, `GetRequestType` and `AllSlots` are modelled as
field reads (`Request.GetSessionID` and the others). Their meaning is their
body, so they carry no contract of their own. `VerifyCertURL`,
`VerifyTimestamp`, `VerifyAppID`, `Validate` and `Handle` are predicates and
functions with no contract of their own either. Each has a row below that
names the lemmas stating what it means.

## Model

| member | source | states |
|---|---|---|
| Amazon.VerifyCertURL | amazon.go:109-119 | The URL allow-list: the required suffix, then one of the two trusted prefixes. Its meaning is stated by `CertUrlAcceptedIff`, `AcceptedCertUrlOrigin`, `PlainHttpCertUrlRejected`, `CanonicalCertUrlAccepted` and `OtherObjectInBucketRejected`. |
| Amazon.CertUrlAcceptedIff | amazon.go:109-119 | A URL is accepted exactly when it can be written as anything followed by `/echo.api/echo-api-cert.pem`, and also as one of the two trusted bucket prefixes followed by anything. |
| Amazon.AcceptedCertUrlOrigin | amazon.go:114-116 | Every accepted URL starts with `https://s3.amazonaws.com`, immediately followed by `/` or by `:443/`. |
| Amazon.PlainHttpCertUrlRejected | amazon.go:114-116 | No `http://` URL is accepted. |
| Amazon.CanonicalCertUrlAccepted | amazon.go:110-118 | `https://s3.amazonaws.com/echo.api/echo-api-cert.pem` is accepted because the trusted prefix and the required suffix overlap. |
| Amazon.OtherObjectInBucketRejected | amazon.go:110-112 | Another object in the trusted bucket is refused by the suffix test. |
| Amazon.ReadCert | amazon.go:95-107 | The fetch succeeds exactly when the download and the read both succeed, and it yields the downloaded bytes. Otherwise it gives a fetch error. |
| Amazon.FindRequiredName | amazon.go:62-67 | The loop's flag is set exactly when some subject attribute has the string value `echo-api.amazon.com`. |
| Amazon.ExpiryIsTheClosedWindow | amazon.go:56 | With one instant for both readings, the certificate is valid exactly when `notBefore <= now <= notAfter`. Both ends count as valid. |
| Amazon.Validate | amazon.go:28-93 | The verdict of the check sequence, in the source's order, with the development-mode bypass and the panics. `ValidateAmazonRequest` is proved equal to it. The `Amazon` lemmas below state what it accepts and, stage by stage, which error it returns or where it panics. |
| Amazon.ValidateAmazonRequest | amazon.go:28-93 | The verdict equals `Validate` on the request as it arrived. Once the body has been read, it is replaced by a readable copy of exactly the bytes that were hashed; otherwise it is left alone. Query, headers and storage are unchanged. |
| Amazon.PassedIffAllChecks | amazon.go:28-92 | Outside development mode, nil is returned exactly when every check passes: URL, fetch, PEM, parse, window, name, body read and RSA signature over the SHA-1 digest of the body. |
| Amazon.UntrustedUrlRejectedBeforeFetch | amazon.go:33-39 | Outside development mode, an untrusted URL gives `ErrInvalidCertURL`. The verdict is the same whatever the fetcher and decoders do, so nothing is fetched. |
| Amazon.ExpiredCertRejectedBeforeSignature | amazon.go:56-59 | Outside development mode, an expired certificate gives `ErrAmazonCertExpired`. The verdict does not depend on the body, the signature header or the verifier. |
| Amazon.NamelessCertRejectedBeforeSignature | amazon.go:69-71 | Outside development mode, a certificate in its window that lacks the required name gives `ErrAmazonCertInvalid`. The body is never consulted. |
| Amazon.DevModeReturnsOnlyBodyReadErrors | amazon.go:80-83 | In development mode, the only error returned is a failed body read. |
| Amazon.DevModeSuppressesTrustFailures | amazon.go:30-92 | In development mode, a request passes whatever its URL, window, name and signature. It needs only a fetch that yields a certificate that decodes, parses and has an RSA key, and a body that reads. |
| Amazon.DevModeFailedFetchPanics | amazon.go:39-50 | In development mode, a failed fetch is not ignored: its nil contents go to PEM decoding, and when that finds no block in empty input, validation panics on the nil block. |
| Amazon.BodyReadErrorNeverPasses | amazon.go:78-85 | A body that fails to read is never accepted and never replaced, in either mode. The verdict is its read error, or else an earlier stage decided and the verdict is the one a readable body would have had. |
| Amazon.FetchFailureReturned | amazon.go:39-42 | Outside development mode, a failed fetch of a trusted URL returns the fetch's own error ("Could not download …" / "Could not read …"). |
| Amazon.PemFailureReturned | amazon.go:45-50 | Once the URL and fetch stages pass, contents holding no PEM block give `ErrDecodingCert` outside development mode and a nil-block panic in it. |
| Amazon.ParseFailureReturned | amazon.go:50-56 | Once the earlier stages pass, a block that does not parse returns the parser's error outside development mode, and panics on the nil certificate in it. |
| Amazon.BodyReadErrorReturned | amazon.go:78-83 | Once the certificate stages pass (in development mode: the certificate parses), a body read error is returned as the verdict, in either mode. |
| Amazon.NonRsaKeyPanicsInBothModes | amazon.go:74-87 | Once the certificate stages pass and the body reads, a key that is not RSA panics at the type assertion, in either mode. |
| Amazon.SignatureFailureReturned | amazon.go:87-90 | Outside development mode, once every earlier stage passes, a signature that does not verify gives `ErrSignatureMismatch`. |
| Request.VerifyTimestamp | request.go:48-54 | Freshness: the timestamp parses and its age on the clock is below the bound. Its meaning is stated by `MalformedTimestampRejected`, `TimestampBoundInSeconds` and `FutureTimestampAccepted`. |
| Request.ParseTimestamp | request.go:49-52 | A timestamp is accepted only when it has the exact layout and names a real instant: month 1–12, day within the month (leap years included), hour below 24, minute and second below 60. |
| Request.ParseFormatRoundTrip | request.go:49 | Every instant the layout can express is formatted and parsed back to itself. |
| Request.FormatParseRoundTrip | request.go:49 | Every accepted string is the layout of the instant it parses to. So each instant has exactly one accepted spelling. |
| Request.MalformedTimestampRejected | request.go:49-52 | A timestamp that does not parse fails the freshness check, whatever the bound and the clock. |
| Request.TimestampBoundInSeconds | request.go:53 | On a clock of whole seconds plus a fraction, the check passes exactly when the timestamp parses and `now - ts < seconds`. The bound is strict. |
| Request.FutureTimestampAccepted | request.go:53 | Any non-negative bound accepts a timestamp later than the clock. |
| Request.MarchYearLength | request.go:53 | The day count used for Unix seconds gives a year running from 1 March 366 days exactly when the next year is a Gregorian leap year. |
| Request.NextDayIsOneDayLater | request.go:53 | For every valid date, the next calendar day (across month ends, year ends and 29 February) is exactly one day later in the count `UnixSeconds` uses. |
| Request.EpochIsSecondZero | request.go:53 | 1970-01-01T00:00:00Z is Unix second 0. |
| Request.LeapDayExample | request.go:49 | 2016-02-29T12:00:00Z is a valid instant and Unix second 1456747200. |
| Request.NoLeapDayIn2015 | request.go:49 | 29 February 2015 is not an instant the parser accepts. |
| Request.VerifyAppID | request.go:57-59 | The application check: exact string equality with the envelope's identifier. Its meaning is stated by `AppIDMatchIsExact`. |
| Request.AppIDMatchIsExact | request.go:57-59 | Exactly one identifier passes the application check: the one the envelope declares. |
| Request.GetSessionID | request.go:61-63 | The session identifier of the envelope, as a field read. |
| Request.GetUserID | request.go:65-67 | The user identifier of the envelope, as a field read. |
| Request.GetRequestType | request.go:69-71 | The request type of the envelope, as a field read; `GetIntentName` is stated in terms of it. |
| Request.GetIntentName | request.go:73-78 | For an `IntentRequest` the result is the intent's name. Otherwise it is the request type. |
| Request.GetSlotValue | request.go:80-86 | No error exactly when the slot is in `AllSlots`, with that slot's value. Otherwise the result is `""` with the error "Slot name not found.". |
| Request.AllSlots | request.go:88-90 | The intent's slot map, as a field read; `GetSlotValue` and `SlotLookupAgreesWithAllSlots` are stated in terms of it. |
| Request.SlotLookupAgreesWithAllSlots | request.go:80-90 | Every slot value that `AllSlots` lists is returned by a lookup of some listed key. |
| Response.EchoResponse.NewResponse | response.go:35-44 | The version is "1.0" and the session ends. Speech, card, reprompt and attributes are all unset. |
| Response.EchoResponse.OutputSpeech | response.go:46-53 | Sets the speech to PlainText with the given text. Nothing else in the response changes, and the same receiver is returned. |
| Response.EchoResponse.Card | response.go:55-63 | Sets the card to a Simple card with the given title and content. Nothing else changes, and the same receiver is returned. |
| Response.EchoResponse.Reprompt | response.go:65-74 | Sets the reprompt's speech to PlainText with the given text. Nothing else changes, and the same receiver is returned. |
| Response.EchoResponse.EndSession | response.go:76-80 | Sets only `shouldEndSession`, and returns the same receiver. |
| Response.UpdatesTouchOnePart | response.go:46-80 | Each update sets its own part and leaves the other three parts of the body as they were. |
| Response.LastCallWins | response.go:46-80 | Applying an update twice equals applying the second call once, so repeating a call is idempotent. |
| Response.UpdatesOfDifferentPartsCommute | response.go:46-80 | Updates to different parts give the same body in either order. |
| Response.BuildGreeting | examples/helloworld.go:35-37 | A chain of `NewResponse`, `OutputSpeech` and `Card` builds one response holding exactly that speech and card, with the session ending. |
| Skill.Skill.New | skill.go:26-30 | The skill holds the given application identifier. |
| Skill.Handle | skill.go:34-68 | The outcome of a request: validation, decoding, freshness outside development mode, the application check, then `next`. `HandlerFuncWithNext` is proved equal to it; the `Skill` lemmas below state what it answers. |
| Skill.Skill.HandlerFuncWithNext | skill.go:34-68 | The outcome equals `Handle` on the request as it arrived. The envelope is stored under `echoRequest` exactly when the next handler is called. Once validation has passed, the body is what the decoder left of validation's copy (`Drain`); otherwise it is as validation leaves it. |
| Http.Drain | skill.go:46 | What a reader leaves of a body stream after pulling `n` bytes: exactly the last `length - n` bytes, or none when it pulled them all, with the stream's end unchanged. |
| Skill.UnauthorizedIffValidationRejects | skill.go:38-42 | A validation error, and only a validation error, answers 401 "Not Authorized" with the error logged. |
| Skill.ErrorStatusIs401Or500 | skill.go:34-68 | Every error response has status 401 or 500. |
| Skill.DecodeFailureStopsBeforeEnvelopeChecks | skill.go:45-50 | A body that does not decode answers 500 with the decoder's error. The result depends on neither the clock nor the application identifier. |
| Skill.ValidationPanicAborts | skill.go:38 | A panic inside `ValidateAmazonRequest` ends the handling with that panic; nothing is decoded, answered or forwarded. |
| Skill.NullBodyPanics | skill.go:45-56 | A body that decodes to a nil envelope (JSON `null`) passes decoding and then panics at the freshness check, in either mode. |
| Skill.FreshnessCheckedOutsideDevMode | skill.go:53-56 | Outside development mode, a stale envelope answers 500 "request too old". In development mode the clock plays no part. |
| Skill.FreshnessBoundary | skill.go:53 | With the 150-second bound, a request 149 seconds old passes and one exactly 150 seconds old fails. |
| Skill.AppIDNeverBypassed | skill.go:59-62 | In either mode, a forwarded envelope names the skill's application. An envelope naming another application is never forwarded. |
| Skill.AppIDMismatchAnswers500 | skill.go:59-62 | After validation, decoding and (outside development mode) freshness pass, an envelope naming another application answers 500 "Bad Request" with `ErrInvalidAppID` logged. |
| Skill.ForwardedOnlyAfterEveryStage | skill.go:65-67 | `next` is reached only when validation passed and the envelope decoded from the received bytes. The application must match, and outside development mode the envelope must be fresh and every authentication check must have passed. |
| Skill.ForwardedIffEveryStage | skill.go:38-67 | The envelope `e` is stored and passed to `next` exactly when validation passed, the body decoded to `e`, `e` is fresh or development mode is on, and `e` names the skill's application. |

## Left out

- Certificate download, PEM decoding (RFC 7468), X.509 parsing (RFC 5280), base64 (section 4 of RFC 4648), SHA-1 and RSASSA-PKCS1-v1_5 verification (section 8.2 of RFC 8017) are foreign library calls. They are parameters of the model (`Amazon.Env`), not definitions.
- The base64 decode error at amazon.go:75 is dropped by the source, so the model has no error for it.
- JSON decoding of the body is the `Skill.Decoder` parameter, and `ToJSON` (response.go:82-89) is not modelled. The struct tags are not modelled either. That includes the `ppson` tag on `Version` and the `json:"string"` tags on the user ID and the attributes map.
- HTTP plumbing: `http.Error`, `log.Println`, `GetEchoRequest` and what `next` itself does are not modelled. The outcome value records the status, the client text and the logged line, or the call of `next`.
- What the server does with a panic is not modelled (`Aborted` / `Panicked` record only that one happened).
- Headers and query parameters are maps from a canonical name to the first value. Header name canonicalisation and repeated values are not modelled.
- Skill.Skill.HandlerFuncWithNext: how many bytes `json.Decoder` pulls from the body through its read-ahead buffer is reported by the `Skill.Decoder` parameter (`Decoding.pulled`), not computed, since it depends on the buffer sizes of `encoding/json`.
- Body streams: the model does not record how much of a failing stream was consumed. On a read error the body field is left as it was, since the source does not reassign it there.
- Request.ParseTimestamp: accepts only the exact 20-character form. Go's `time.Parse` also takes a one-digit hour and a fractional-seconds field after the seconds.
- Request.VerifyTimestamp: does not model the 64-bit nanosecond overflow of `time.Duration(seconds)*time.Second` or saturation in `time.Since`. Integers are unbounded.
- Go's distinction between a nil map and an empty map is not kept (`Slots`, `SessionAttributes`).
- The example program's route wiring (examples/helloworld.go) is not part of this model.
- Concurrency: each request is handled on its own, and the model has no shared state.
