/** The skill middleware (skill.go): authenticate the request, decode its
    envelope, check freshness and the application identifier, store the
    envelope for the request and pass control to the next handler. */
module Skill {
  import opened Wrappers
  import opened Http
  import opened Request
  import opened Amazon

  const FreshnessSeconds := 150
  const StatusUnauthorized := 401
  const StatusInternalServerError := 500
  const ErrRequestExpired := "request too old to continue (>150s)"
  const ErrInvalidAppID := "request does not match app ID"
  const EchoRequestKey := "echoRequest"

  /** Why handling panicked: inside validation, or on the nil envelope that
      a body of JSON `null` decodes to, at its first use by the freshness
      check. */
  datatype Crash = InValidation(cause: Panic) | NilEnvelope

  /** What handling a request comes to: an error response (status, the text
      written to the client, the line logged), a call of the next handler
      with the stored envelope, or a panic. */
  datatype Outcome =
    | Replied(status: int, text: string, logged: string)
    | Forwarded(request: EchoRequest)
    | Aborted(crash: Crash)

  /** What decoding a body into `*EchoRequest` gives: an envelope, a nil
      pointer without error (the body is JSON `null`), or an error message. */
  datatype Decoded = Envelope(request: EchoRequest) | NullEnvelope | DecodeError(message: string)

  /** A run of `json.NewDecoder(r.Body).Decode`: what it decoded, and how many
      bytes it pulled out of the body stream. The decoder reads ahead through
      its own buffer, so it may pull more than the JSON value it decodes. */
  datatype Decoding = Decoding(result: Decoded, pulled: nat)

  type Decoder = Bytes -> Decoding

  /** What the middleware decides. Decoding reads the body that validation
      put back, which holds the bytes the request arrived with. */
  function Handle(appID: string, view: RequestView, env: Env, decode: Decoder,
                  clock: Clock, nowNanos: int): Outcome
  {
    match Validate(view, env, clock)
    case Rejected(f) => Replied(StatusUnauthorized, "Not Authorized", f.Message())
    case Panicked(cause) => Aborted(InValidation(cause))
    case Passed =>
      match decode(view.body.data).result
      case DecodeError(m) => Replied(StatusInternalServerError, "Bad Request", m)
      case NullEnvelope => Aborted(NilEnvelope)
      case Envelope(echoReq) =>
        if !VerifyTimestamp(echoReq, FreshnessSeconds, nowNanos) && !DevMode(view) then
          Replied(StatusInternalServerError, "Bad Request", ErrRequestExpired)
        else if !VerifyAppID(echoReq, appID) then
          Replied(StatusInternalServerError, "Bad Request", ErrInvalidAppID)
        else
          Forwarded(echoReq)
  }

  class Skill {
    var appID: string

    /** `New`: a skill for the given application identifier. */
    constructor New(appID: string)
      ensures this.appID == appID
    {
      this.appID := appID;
    }

    /** `HandlerFuncWithNext`: the next handler runs only when the outcome is
        `Forwarded`, and by then the envelope is stored for the request. Once
        validation has passed, the decoder reads the copy of the body that
        validation put back, and what it pulls out is gone for later readers. */
    method HandlerFuncWithNext(r: HttpRequest, env: Env, decode: Decoder, clock: Clock, nowNanos: int)
      returns (outcome: Outcome)
      modifies r
      ensures outcome == Handle(appID, old(r.View()), env, decode, clock, nowNanos)
      ensures r.context == if outcome.Forwarded? then old(r.context)[EchoRequestKey := outcome.request]
                           else old(r.context)
      ensures var v := Validate(old(r.View()), env, clock);
              r.body == if v.Passed? then Drain(Body(old(r.body).data, None), decode(old(r.body).data).pulled)
                        else if BodyReExposed(v) then Body(old(r.body).data, None)
                        else old(r.body)
      ensures r.query == old(r.query) && r.header == old(r.header)
    {
      var validation := ValidateAmazonRequest(r, env, clock);
      if validation.Rejected? {
        return Replied(StatusUnauthorized, "Not Authorized", validation.failure.Message());
      }
      if validation.Panicked? {
        return Aborted(InValidation(validation.cause));
      }

      var decoding := decode(r.body.data);
      r.body := Drain(r.body, decoding.pulled);
      var decoded := decoding.result;
      if decoded.DecodeError? {
        return Replied(StatusInternalServerError, "Bad Request", decoded.message);
      }
      if decoded.NullEnvelope? {
        return Aborted(NilEnvelope);
      }
      var echoReq := decoded.request;

      if !VerifyTimestamp(echoReq, FreshnessSeconds, nowNanos) && Get(r.query, DevFlag) == "" {
        return Replied(StatusInternalServerError, "Bad Request", ErrRequestExpired);
      }

      if !VerifyAppID(echoReq, appID) {
        return Replied(StatusInternalServerError, "Bad Request", ErrInvalidAppID);
      }

      r.context := r.context[EchoRequestKey := echoReq];
      return Forwarded(echoReq);
    }
  }

  // ---------------------------------------------------------------------------
  // Properties of the middleware
  // ---------------------------------------------------------------------------

  /** An authentication failure answers 401 with the failure logged, and only
      an authentication failure answers 401. */
  lemma UnauthorizedIffValidationRejects(appID: string, view: RequestView, env: Env, decode: Decoder,
                                         clock: Clock, nowNanos: int)
    ensures var o := Handle(appID, view, env, decode, clock, nowNanos);
      (o.Replied? && o.status == StatusUnauthorized) <==> Validate(view, env, clock).Rejected?
    ensures Validate(view, env, clock).Rejected? ==>
      Handle(appID, view, env, decode, clock, nowNanos)
        == Replied(StatusUnauthorized, "Not Authorized", Validate(view, env, clock).failure.Message())
  {
  }

  /** Every error response is 401 or 500. */
  lemma ErrorStatusIs401Or500(appID: string, view: RequestView, env: Env, decode: Decoder,
                              clock: Clock, nowNanos: int)
    ensures var o := Handle(appID, view, env, decode, clock, nowNanos);
      o.Replied? ==> o.status == StatusUnauthorized || o.status == StatusInternalServerError
  {
  }

  /** A body that does not decode answers 500 before the freshness or
      application checks run: the outcome depends on neither the clock nor
      the configured identifier. */
  lemma DecodeFailureStopsBeforeEnvelopeChecks(appID: string, otherAppID: string, view: RequestView,
                                               env: Env, decode: Decoder, clock: Clock,
                                               nowNanos: int, otherNanos: int)
    requires Validate(view, env, clock) == Passed
    requires decode(view.body.data).result.DecodeError?
    ensures Handle(appID, view, env, decode, clock, nowNanos)
         == Handle(otherAppID, view, env, decode, clock, otherNanos)
         == Replied(StatusInternalServerError, "Bad Request", decode(view.body.data).result.message)
  {
  }

  /** A body of JSON `null` passes decoding as a nil envelope, which the
      freshness check dereferences: the handler panics in either mode, before
      the application check and before the next handler. */
  lemma NullBodyPanics(appID: string, view: RequestView, env: Env, decode: Decoder,
                       clock: Clock, nowNanos: int)
    requires Validate(view, env, clock) == Passed
    requires decode(view.body.data).result == NullEnvelope
    ensures Handle(appID, view, env, decode, clock, nowNanos) == Aborted(NilEnvelope)
  {
  }

  /** Outside development mode a request 150 seconds old or older is refused
      with 500, whatever its application identifier; in development mode the
      clock plays no part. */
  lemma FreshnessCheckedOutsideDevMode(appID: string, view: RequestView, env: Env, decode: Decoder,
                                       clock: Clock, nowNanos: int, otherNanos: int)
    ensures DevMode(view) ==>
      Handle(appID, view, env, decode, clock, nowNanos) == Handle(appID, view, env, decode, clock, otherNanos)
    ensures !DevMode(view) && Validate(view, env, clock) == Passed && decode(view.body.data).result.Envelope?
            && !VerifyTimestamp(decode(view.body.data).result.request, FreshnessSeconds, nowNanos) ==>
      Handle(appID, view, env, decode, clock, nowNanos)
        == Replied(StatusInternalServerError, "Bad Request", ErrRequestExpired)
  {
  }

  /** The freshness boundary, on a whole-second clock: a request 149 seconds
      old passes and one exactly 150 seconds old fails. */
  lemma FreshnessBoundary(echoReq: EchoRequest, nowSeconds: int)
    requires ParseTimestamp(echoReq.request.timestamp).Some?
    ensures var sent := UnixSeconds(ParseTimestamp(echoReq.request.timestamp).value);
      && (nowSeconds == sent + 149 ==> VerifyTimestamp(echoReq, FreshnessSeconds, nowSeconds * 1_000_000_000))
      && (nowSeconds == sent + 150 ==> !VerifyTimestamp(echoReq, FreshnessSeconds, nowSeconds * 1_000_000_000))
  {
    TimestampBoundInSeconds(echoReq, FreshnessSeconds, nowSeconds, 0);
  }

  /** The application check is never bypassed: whatever the mode, a forwarded
      envelope names the skill's application, and one naming another
      application is never forwarded. */
  lemma AppIDNeverBypassed(appID: string, view: RequestView, env: Env, decode: Decoder,
                           clock: Clock, nowNanos: int)
    ensures var o := Handle(appID, view, env, decode, clock, nowNanos);
      o.Forwarded? ==> o.request.session.application.applicationID == appID
    ensures Validate(view, env, clock) == Passed && decode(view.body.data).result.Envelope?
            && !VerifyAppID(decode(view.body.data).result.request, appID) ==>
      !Handle(appID, view, env, decode, clock, nowNanos).Forwarded?
  {
  }

  /** The next handler is reached only when every stage passed, and it gets
      the envelope decoded from exactly the bytes whose signature was
      checked. Outside development mode that means every authentication
      check passed and the request is fresh. */
  lemma ForwardedOnlyAfterEveryStage(appID: string, view: RequestView, env: Env, decode: Decoder,
                                     clock: Clock, nowNanos: int)
    requires Handle(appID, view, env, decode, clock, nowNanos).Forwarded?
    ensures var e := Handle(appID, view, env, decode, clock, nowNanos).request;
      && Validate(view, env, clock) == Passed
      && decode(view.body.data).result == Envelope(e)
      && VerifyAppID(e, appID)
      && (DevMode(view) || VerifyTimestamp(e, FreshnessSeconds, nowNanos))
    ensures !DevMode(view) ==> AllChecksPass(view, env, clock)
  {
    if !DevMode(view) {
      PassedIffAllChecks(view, env, clock);
    }
  }

  /** A panic in validation ends the handling with that panic: nothing is
      decoded, answered or forwarded. */
  lemma ValidationPanicAborts(appID: string, view: RequestView, env: Env, decode: Decoder,
                              clock: Clock, nowNanos: int)
    requires Validate(view, env, clock).Panicked?
    ensures Handle(appID, view, env, decode, clock, nowNanos)
         == Aborted(InValidation(Validate(view, env, clock).cause))
  {
  }

  /** A request whose envelope names another application, once validation,
      decoding and (outside development mode) freshness have passed, answers
      500 with `ErrInvalidAppID`. */
  lemma AppIDMismatchAnswers500(appID: string, view: RequestView, env: Env, decode: Decoder,
                                clock: Clock, nowNanos: int)
    requires Validate(view, env, clock) == Passed
    requires decode(view.body.data).result.Envelope?
    requires DevMode(view) || VerifyTimestamp(decode(view.body.data).result.request, FreshnessSeconds, nowNanos)
    requires !VerifyAppID(decode(view.body.data).result.request, appID)
    ensures Handle(appID, view, env, decode, clock, nowNanos)
         == Replied(StatusInternalServerError, "Bad Request", ErrInvalidAppID)
  {
  }

  /** The next handler gets the envelope `e` exactly when validation passed,
      the body decoded to `e`, the envelope is fresh or development mode is
      on, and it names the skill's application: a request passing every stage
      is always forwarded. */
  lemma ForwardedIffEveryStage(appID: string, view: RequestView, env: Env, decode: Decoder,
                               clock: Clock, nowNanos: int, e: EchoRequest)
    ensures Handle(appID, view, env, decode, clock, nowNanos) == Forwarded(e)
        <==> && Validate(view, env, clock) == Passed
             && decode(view.body.data).result == Envelope(e)
             && (DevMode(view) || VerifyTimestamp(e, FreshnessSeconds, nowNanos))
             && VerifyAppID(e, appID)
  {
  }
}
