/** The request authentication checks of amazon.go: the certificate URL
    allow-list and the ordered validation pipeline with its development-mode
    bypass. Fetching, PEM, X.509, base64, SHA-1 and RSA are collaborators the
    pipeline is given as functions (`Env`). */
module Amazon {
  import opened Wrappers
  import opened Http

  const CertSuffix := "/echo.api/echo-api-cert.pem"
  const TrustedPrefix := "https://s3.amazonaws.com/echo.api/"
  const TrustedPrefixWithPort := "https://s3.amazonaws.com:443/echo.api/"
  const TrustedOrigin := "https://s3.amazonaws.com"
  const RequiredName := "echo-api.amazon.com"

  const DevFlag := "_dev"
  const CertURLHeader := "SignatureCertChainUrl"
  const SignatureHeader := "Signature"

  /** The errors `ValidateAmazonRequest` returns. The fetch, parse and body
      errors carry the message of the error they pass on. */
  datatype Failure =
    | InvalidCertURL
    | FetchFailed(reason: string)
    | DecodingCert
    | ParseFailed(reason: string)
    | CertExpired
    | CertInvalid
    | BodyReadFailed(reason: string)
    | SignatureMismatch
  {
    /** `err.Error()`. */
    function Message(): string
    {
      match this
      case InvalidCertURL => "invalid certificate URL"
      case FetchFailed(m) => m
      case DecodingCert => "cannot parse certificate PEM"
      case ParseFailed(m) => m
      case CertExpired => "Amazon certificate expired"
      case CertInvalid => "Amazon certificate invalid"
      case BodyReadFailed(m) => m
      case SignatureMismatch => "signature match failed"
    }
  }

  /** The run-time panics the pipeline can raise: a nil PEM block or a nil
      certificate dereferenced in development mode, and the `*rsa.PublicKey`
      type assertion on a key of another kind. */
  datatype Panic = NilPemBlock | NilCertificate | NonRsaKey

  /** What `ValidateAmazonRequest` does: return nil, return an error, or panic. */
  datatype Validation = Passed | Rejected(failure: Failure) | Panicked(cause: Panic)

  datatype RsaPublicKey = RsaPublicKey(modulus: nat, exponent: nat)

  datatype PublicKey = Rsa(key: RsaPublicKey) | OtherKey

  /** The value of a distinguished-name attribute; only string values can
      equal the required name. */
  datatype AttributeValue = Text(s: string) | NonText

  datatype Attribute = Attribute(oid: seq<nat>, value: AttributeValue)

  /** The parts of a parsed X.509 certificate the checks read. Times are Unix
      seconds; `subjectNames` is the subject distinguished name, attribute by
      attribute. */
  datatype Certificate = Certificate(
    notBefore: int,
    notAfter: int,
    subjectNames: seq<Attribute>,
    publicKey: PublicKey)

  /** The result of `http.Get` followed by reading the response body. */
  datatype Fetch = DownloadFailed | ReadFailed | Downloaded(contents: Bytes)

  /** The collaborators of the pipeline: the network, the decoders and the
      cryptography. `pemDecode` gives the bytes of the first PEM block;
      `base64Decode` gives the decoded bytes with its error dropped, as the
      source drops it. */
  datatype Env = Env(
    fetch: string -> Fetch,
    pemDecode: Bytes -> Option<Bytes>,
    parseCertificate: Bytes -> Result<Certificate, string>,
    base64Decode: string -> Bytes,
    sha1: Bytes -> Bytes,
    verifyPKCS1v15: (RsaPublicKey, Bytes, Bytes) -> bool)

  /** The two wall-clock readings, in Unix seconds, that the validity-window
      check takes one after the other. */
  datatype Clock = Clock(first: int, second: int)

  // ---------------------------------------------------------------------------
  // The certificate URL
  // ---------------------------------------------------------------------------

  predicate HasPrefix(s: string, prefix: string)
  {
    |prefix| <= |s| && s[..|prefix|] == prefix
  }

  predicate HasSuffix(s: string, suffix: string)
  {
    |suffix| <= |s| && s[|s| - |suffix|..] == suffix
  }

  /** The certificate URL ends with the certificate's path and starts with one
      of the two trusted bucket prefixes. */
  predicate VerifyCertURL(path: string)
  {
    if !HasSuffix(path, CertSuffix) then false
    else if !HasPrefix(path, TrustedPrefix) && !HasPrefix(path, TrustedPrefixWithPort) then false
    else true
  }

  lemma HasPrefixIffConcat(s: string, prefix: string)
    ensures HasPrefix(s, prefix) <==> exists rest :: prefix + rest == s
  {
    if HasPrefix(s, prefix) {
      assert prefix + s[|prefix|..] == s;
    }
    if exists rest :: prefix + rest == s {
      var rest :| prefix + rest == s;
      assert s[..|prefix|] == prefix;
    }
  }

  lemma HasSuffixIffConcat(s: string, suffix: string)
    ensures HasSuffix(s, suffix) <==> exists head :: head + suffix == s
  {
    if HasSuffix(s, suffix) {
      assert s[..|s| - |suffix|] + suffix == s;
    }
    if exists head :: head + suffix == s {
      var head :| head + suffix == s;
      assert s[|s| - |suffix|..] == suffix;
    }
  }

  /** The URL check, stated by how an accepted URL is built: one of the two
      trusted prefixes followed by anything, and anything followed by the
      certificate's path. */
  lemma CertUrlAcceptedIff(path: string)
    ensures VerifyCertURL(path) <==>
      (exists head :: head + CertSuffix == path)
      && ((exists rest :: TrustedPrefix + rest == path) || (exists rest :: TrustedPrefixWithPort + rest == path))
  {
    HasSuffixIffConcat(path, CertSuffix);
    HasPrefixIffConcat(path, TrustedPrefix);
    HasPrefixIffConcat(path, TrustedPrefixWithPort);
  }

  /** Every accepted URL is an https URL of the host s3.amazonaws.com, on the
      default port or on the explicit port 443. */
  lemma AcceptedCertUrlOrigin(path: string)
    requires VerifyCertURL(path)
    ensures |path| > |TrustedOrigin| + 4 && path[..|TrustedOrigin|] == TrustedOrigin
    ensures path[|TrustedOrigin|] == '/' || path[|TrustedOrigin|..|TrustedOrigin| + 5] == ":443/"
  {
    if HasPrefix(path, TrustedPrefix) {
      assert path[..|TrustedOrigin|] == TrustedPrefix[..|TrustedOrigin|];
      assert path[|TrustedOrigin|] == TrustedPrefix[|TrustedOrigin|];
    } else {
      var p := path[..|TrustedPrefixWithPort|];
      assert p == TrustedPrefixWithPort;
      assert path[..|TrustedOrigin|] == p[..|TrustedOrigin|];
      assert path[|TrustedOrigin|..|TrustedOrigin| + 5] == p[|TrustedOrigin|..|TrustedOrigin| + 5];
      assert TrustedPrefixWithPort[|TrustedOrigin|..|TrustedOrigin| + 5] == ":443/";
    }
  }

  /** A plain-http URL is never accepted, whatever follows the scheme. */
  lemma PlainHttpCertUrlRejected(path: string)
    requires HasPrefix(path, "http://")
    ensures !VerifyCertURL(path)
  {
    assert path[4] == "http://"[4];
    if |TrustedPrefix| <= |path| {
      assert path[..|TrustedPrefix|][4] != TrustedPrefix[4];
    }
    if |TrustedPrefixWithPort| <= |path| {
      assert path[..|TrustedPrefixWithPort|][4] != TrustedPrefixWithPort[4];
    }
  }

  /** The certificate's canonical URL is accepted although it holds the
      segment `/echo.api/` once: the trusted prefix and the path overlap. */
  lemma CanonicalCertUrlAccepted()
    ensures VerifyCertURL(TrustedOrigin + "/echo.api/echo-api-cert.pem")
  {
    var url := TrustedOrigin + "/echo.api/echo-api-cert.pem";
    assert url == TrustedPrefix + "echo-api-cert.pem";
    assert url == "https://s3.amazonaws.com" + CertSuffix;
  }

  /** A certificate elsewhere in the trusted bucket is refused. */
  lemma OtherObjectInBucketRejected()
    ensures !VerifyCertURL(TrustedPrefix + "other-cert.pem")
  {
    var url := TrustedPrefix + "other-cert.pem";
    assert url[|url| - |CertSuffix|..][|CertSuffix| - 1] != CertSuffix[|CertSuffix| - 1] ||
           url[|url| - |CertSuffix|..][0] != CertSuffix[0];
  }

  // ---------------------------------------------------------------------------
  // The certificate checks
  // ---------------------------------------------------------------------------

  /** `readCert`: the downloaded certificate, or one of its two fetch errors. */
  function ReadCert(env: Env, certURL: string): (r: Result<Bytes, Failure>)
    ensures r.Success? <==> env.fetch(certURL).Downloaded?
    ensures r.Success? ==> r.value == env.fetch(certURL).contents
    ensures r.Failure? ==> r.error.FetchFailed?
  {
    match env.fetch(certURL)
    case DownloadFailed => Failure(FetchFailed("Could not download Amazon cert file."))
    case ReadFailed => Failure(FetchFailed("Could not read Amazon cert file."))
    case Downloaded(contents) => Success(contents)
  }

  /** The validity-window test, with the clock read once for each end. */
  predicate Expired(cert: Certificate, clock: Clock)
  {
    clock.first < cert.notBefore || clock.second > cert.notAfter
  }

  /** Some attribute of the subject name has the string value of the
      required name, whatever the attribute's type. */
  predicate HasRequiredName(names: seq<Attribute>)
  {
    exists i | 0 <= i < |names| :: names[i].value == Text(RequiredName)
  }

  /** The loop over the subject's attributes that sets `foundName`. */
  method FindRequiredName(names: seq<Attribute>) returns (foundName: bool)
    ensures foundName <==> HasRequiredName(names)
  {
    foundName := false;
    var i := 0;
    while i < |names|
      invariant 0 <= i <= |names|
      invariant foundName <==> exists j | 0 <= j < i :: names[j].value == Text(RequiredName)
    {
      if names[i].value == Text(RequiredName) {
        foundName := true;
      }
      i := i + 1;
    }
  }

  /** With both readings at one instant, the certificate is expired exactly
      when the instant lies outside [notBefore, notAfter]; both ends are valid. */
  lemma ExpiryIsTheClosedWindow(cert: Certificate, now: int)
    ensures !Expired(cert, Clock(now, now)) <==> cert.notBefore <= now <= cert.notAfter
  {
  }

  // ---------------------------------------------------------------------------
  // The pipeline
  // ---------------------------------------------------------------------------

  predicate DevMode(view: RequestView)
  {
    Get(view.query, DevFlag) != ""
  }

  /** Whether the pipeline got as far as replacing the body by its copy. */
  predicate BodyReExposed(v: Validation)
  {
    v.Passed? || v == Rejected(SignatureMismatch) || v == Panicked(NonRsaKey)
  }

  /** The bytes handed to PEM decoding: the fetched file, or nil when the
      fetch failed (`readCert` returns nil with its error). */
  function CertContents(view: RequestView, env: Env): Bytes
  {
    var fetched := ReadCert(env, Get(view.header, CertURLHeader));
    if fetched.Success? then fetched.value else []
  }

  /** What validation decides for a request. Each check fails the request
      unless development mode is on; a missing PEM block or certificate then
      panics at its first use, a failed body read is returned in both modes,
      and a non-RSA key panics in both modes once the body has been read. */
  function Validate(view: RequestView, env: Env, clock: Clock): Validation
  {
    var dev := DevMode(view);
    var certURL := Get(view.header, CertURLHeader);
    if !VerifyCertURL(certURL) && !dev then Rejected(InvalidCertURL)
    else
      var fetched := ReadCert(env, certURL);
      if fetched.Failure? && !dev then Rejected(fetched.error)
      else
        match env.pemDecode(CertContents(view, env))
        case None => if dev then Panicked(NilPemBlock) else Rejected(DecodingCert)
        case Some(block) =>
          match env.parseCertificate(block)
          case Failure(e) => if dev then Panicked(NilCertificate) else Rejected(ParseFailed(e))
          case Success(cert) =>
            if Expired(cert, clock) && !dev then Rejected(CertExpired)
            else if !HasRequiredName(cert.subjectNames) && !dev then Rejected(CertInvalid)
            else if view.body.readError.Some? then Rejected(BodyReadFailed(view.body.readError.value))
            else if !cert.publicKey.Rsa? then Panicked(NonRsaKey)
            else
              var signature := env.base64Decode(Get(view.header, SignatureHeader));
              var digest := env.sha1(view.body.data);
              if !env.verifyPKCS1v15(cert.publicKey.key, digest, signature) && !dev then Rejected(SignatureMismatch)
              else Passed
  }

  /** `ValidateAmazonRequest`: runs the checks in order and, once it has read
      the body, puts back a body holding exactly the bytes it hashed. */
  method ValidateAmazonRequest(r: HttpRequest, env: Env, clock: Clock) returns (v: Validation)
    modifies r
    ensures v == Validate(old(r.View()), env, clock)
    ensures r.body == if BodyReExposed(v) then Body(old(r.body).data, None) else old(r.body)
    ensures r.query == old(r.query) && r.header == old(r.header) && r.context == old(r.context)
  {
    var devMode := Get(r.query, DevFlag) != "";

    var certURL := Get(r.header, CertURLHeader);
    if !VerifyCertURL(certURL) && !devMode {
      return Rejected(InvalidCertURL);
    }

    var fetched := ReadCert(env, certURL);
    if fetched.Failure? && !devMode {
      return Rejected(fetched.error);
    }
    var certContents := if fetched.Success? then fetched.value else [];

    var block := env.pemDecode(certContents);
    if block.None? && !devMode {
      return Rejected(DecodingCert);
    }
    if block.None? {
      return Panicked(NilPemBlock);
    }

    var parsed := env.parseCertificate(block.value);
    if parsed.Failure? && !devMode {
      return Rejected(ParseFailed(parsed.error));
    }
    if parsed.Failure? {
      return Panicked(NilCertificate);
    }
    var cert := parsed.value;

    var certExpired := clock.first < cert.notBefore || clock.second > cert.notAfter;
    if certExpired && !devMode {
      return Rejected(CertExpired);
    }

    var foundName := FindRequiredName(cert.subjectNames);
    if !foundName && !devMode {
      return Rejected(CertInvalid);
    }

    var publicKey := cert.publicKey;
    var encryptedSig := env.base64Decode(Get(r.header, SignatureHeader));

    // One pass over the body feeds the hash and the copy alike.
    var hashed := r.body.data;
    var bodyBuf := r.body.data;
    if r.body.readError.Some? {
      return Rejected(BodyReadFailed(r.body.readError.value));
    }

    r.body := Body(bodyBuf, None);

    if !publicKey.Rsa? {
      return Panicked(NonRsaKey);
    }
    var ok := env.verifyPKCS1v15(publicKey.key, env.sha1(hashed), encryptedSig);
    if !ok && !devMode {
      return Rejected(SignatureMismatch);
    }
    return Passed;
  }

  // ---------------------------------------------------------------------------
  // Properties of the pipeline
  // ---------------------------------------------------------------------------

  /** Every check passes: the URL is trusted, the certificate downloads,
      decodes, parses, is within its window and names the required host, the
      body reads to its end, and the signature over the body's SHA-1 digest
      verifies under the certificate's RSA key. */
  predicate AllChecksPass(view: RequestView, env: Env, clock: Clock)
  {
    var certURL := Get(view.header, CertURLHeader);
    && VerifyCertURL(certURL)
    && env.fetch(certURL).Downloaded?
    && env.pemDecode(env.fetch(certURL).contents).Some?
    && env.parseCertificate(env.pemDecode(env.fetch(certURL).contents).value).Success?
    && var cert := env.parseCertificate(env.pemDecode(env.fetch(certURL).contents).value).value;
       && !Expired(cert, clock)
       && HasRequiredName(cert.subjectNames)
       && view.body.readError.None?
       && cert.publicKey.Rsa?
       && env.verifyPKCS1v15(cert.publicKey.key, env.sha1(view.body.data),
                             env.base64Decode(Get(view.header, SignatureHeader)))
  }

  /** Outside development mode, a nil result means every check passed, and
      every check passing gives a nil result. */
  lemma PassedIffAllChecks(view: RequestView, env: Env, clock: Clock)
    requires !DevMode(view)
    ensures Validate(view, env, clock) == Passed <==> AllChecksPass(view, env, clock)
  {
  }

  /** Outside development mode an untrusted URL is rejected before anything
      is fetched: the verdict is the same whatever the collaborators do. */
  lemma UntrustedUrlRejectedBeforeFetch(view: RequestView, env: Env, other: Env, clock: Clock)
    requires !DevMode(view) && !VerifyCertURL(Get(view.header, CertURLHeader))
    ensures Validate(view, env, clock) == Validate(view, other, clock) == Rejected(InvalidCertURL)
  {
  }

  /** Outside development mode an expired certificate is rejected before the
      body is read or the signature checked: the verdict does not depend on
      the body, the signature header or the verifier. */
  lemma ExpiredCertRejectedBeforeSignature(view: RequestView, env: Env, clock: Clock,
                                           body: Body, signature: string,
                                           verify: (RsaPublicKey, Bytes, Bytes) -> bool)
    requires !DevMode(view)
    requires VerifyCertURL(Get(view.header, CertURLHeader))
    requires env.fetch(Get(view.header, CertURLHeader)).Downloaded?
    requires env.pemDecode(env.fetch(Get(view.header, CertURLHeader)).contents).Some?
    requires env.parseCertificate(env.pemDecode(env.fetch(Get(view.header, CertURLHeader)).contents).value).Success?
    requires Expired(env.parseCertificate(env.pemDecode(env.fetch(Get(view.header, CertURLHeader)).contents).value).value, clock)
    ensures Validate(view, env, clock) == Rejected(CertExpired)
    ensures Validate(view.(body := body, header := view.header[SignatureHeader := signature]),
                     env.(verifyPKCS1v15 := verify), clock) == Rejected(CertExpired)
  {
    var view' := view.(body := body, header := view.header[SignatureHeader := signature]);
    assert Get(view'.header, CertURLHeader) == Get(view.header, CertURLHeader);
    assert DevMode(view') == DevMode(view);
  }

  /** Outside development mode a certificate that does not name the required
      host is rejected before the body is read or the signature checked. */
  lemma NamelessCertRejectedBeforeSignature(view: RequestView, env: Env, clock: Clock, body: Body)
    requires !DevMode(view)
    requires VerifyCertURL(Get(view.header, CertURLHeader))
    requires env.fetch(Get(view.header, CertURLHeader)).Downloaded?
    requires env.pemDecode(env.fetch(Get(view.header, CertURLHeader)).contents).Some?
    requires env.parseCertificate(env.pemDecode(env.fetch(Get(view.header, CertURLHeader)).contents).value).Success?
    requires var cert := env.parseCertificate(env.pemDecode(env.fetch(Get(view.header, CertURLHeader)).contents).value).value;
      !Expired(cert, clock) && !HasRequiredName(cert.subjectNames)
    ensures Validate(view, env, clock) == Rejected(CertInvalid)
    ensures Validate(view.(body := body), env, clock) == Rejected(CertInvalid)
  {
  }

  /** In development mode the only error returned is a failed body read. */
  lemma DevModeReturnsOnlyBodyReadErrors(view: RequestView, env: Env, clock: Clock)
    requires DevMode(view)
    ensures Validate(view, env, clock).Rejected? ==> Validate(view, env, clock).failure.BodyReadFailed?
  {
  }

  /** In development mode every trust failure is ignored: once the
      certificate decodes and parses, its key is RSA and the body reads, the
      request passes whatever its URL, window, name and signature. */
  lemma DevModeSuppressesTrustFailures(view: RequestView, env: Env, clock: Clock)
    requires DevMode(view)
    requires var fetched := ReadCert(env, Get(view.header, CertURLHeader));
      var contents := if fetched.Success? then fetched.value else [];
      && env.pemDecode(contents).Some?
      && env.parseCertificate(env.pemDecode(contents).value).Success?
      && env.parseCertificate(env.pemDecode(contents).value).value.publicKey.Rsa?
    requires view.body.readError.None?
    ensures Validate(view, env, clock) == Passed
  {
  }

  /** The PEM decoder finds no block in empty input, as `pem.Decode(nil)`
      returns a nil block. */
  predicate PemOfEmptyIsNone(env: Env)
  {
    env.pemDecode([]) == None
  }

  /** In development mode a failed certificate fetch is not ignored: `readCert`
      hands back nil contents, which hold no PEM block, and the nil block is
      then dereferenced. */
  lemma DevModeFailedFetchPanics(view: RequestView, env: Env, clock: Clock)
    requires DevMode(view)
    requires PemOfEmptyIsNone(env)
    requires !env.fetch(Get(view.header, CertURLHeader)).Downloaded?
    ensures Validate(view, env, clock) == Panicked(NilPemBlock)
  {
  }

  /** A body that cannot be read is never accepted, in either mode: the
      verdict is its read error, or else an earlier stage decided and the
      verdict is the one a readable body would have had. */
  lemma BodyReadErrorNeverPasses(view: RequestView, env: Env, clock: Clock)
    requires view.body.readError.Some?
    ensures Validate(view, env, clock) != Passed
    ensures !BodyReExposed(Validate(view, env, clock))
    ensures || Validate(view, env, clock) == Rejected(BodyReadFailed(view.body.readError.value))
            || Validate(view, env, clock) == Validate(view.(body := Body(view.body.data, None)), env, clock)
  {
  }

  // ---------------------------------------------------------------------------
  // Each stage returns its own failure
  // ---------------------------------------------------------------------------

  /** The certificate the request names, once fetched, decoded and parsed. */
  function ParsedCert(view: RequestView, env: Env): Option<Certificate>
  {
    match env.pemDecode(CertContents(view, env))
    case None => None
    case Some(block) =>
      match env.parseCertificate(block)
      case Failure(_) => None
      case Success(cert) => Some(cert)
  }

  /** The certificate stages let the request through to the body: the
      certificate parses and, outside development mode, the URL is trusted,
      the fetch succeeded and the certificate is in its window and names the
      required host. */
  predicate CertStagesPass(view: RequestView, env: Env, clock: Clock)
  {
    && ParsedCert(view, env).Some?
    && (|| DevMode(view)
        || (&& VerifyCertURL(Get(view.header, CertURLHeader))
            && ReadCert(env, Get(view.header, CertURLHeader)).Success?
            && !Expired(ParsedCert(view, env).value, clock)
            && HasRequiredName(ParsedCert(view, env).value.subjectNames)))
  }

  /** Outside development mode a failed fetch of a trusted URL returns the
      fetch's own error. */
  lemma FetchFailureReturned(view: RequestView, env: Env, clock: Clock)
    requires !DevMode(view) && VerifyCertURL(Get(view.header, CertURLHeader))
    requires ReadCert(env, Get(view.header, CertURLHeader)).Failure?
    ensures Validate(view, env, clock) == Rejected(ReadCert(env, Get(view.header, CertURLHeader)).error)
  {
  }

  /** Outside development mode fetched contents holding no PEM block give
      `ErrDecodingCert`; in development mode the nil block is dereferenced. */
  lemma PemFailureReturned(view: RequestView, env: Env, clock: Clock)
    requires VerifyCertURL(Get(view.header, CertURLHeader)) || DevMode(view)
    requires ReadCert(env, Get(view.header, CertURLHeader)).Success? || DevMode(view)
    requires env.pemDecode(CertContents(view, env)).None?
    ensures Validate(view, env, clock) == if DevMode(view) then Panicked(NilPemBlock) else Rejected(DecodingCert)
  {
  }

  /** Outside development mode a block that does not parse returns the
      parser's error; in development mode the nil certificate is
      dereferenced. */
  lemma ParseFailureReturned(view: RequestView, env: Env, clock: Clock)
    requires VerifyCertURL(Get(view.header, CertURLHeader)) || DevMode(view)
    requires ReadCert(env, Get(view.header, CertURLHeader)).Success? || DevMode(view)
    requires env.pemDecode(CertContents(view, env)).Some?
    requires env.parseCertificate(env.pemDecode(CertContents(view, env)).value).Failure?
    ensures Validate(view, env, clock)
         == if DevMode(view) then Panicked(NilCertificate)
            else Rejected(ParseFailed(env.parseCertificate(env.pemDecode(CertContents(view, env)).value).error))
  {
  }

  /** Once the certificate stages pass, a body that cannot be read returns its
      read error, in either mode. */
  lemma BodyReadErrorReturned(view: RequestView, env: Env, clock: Clock)
    requires CertStagesPass(view, env, clock)
    requires view.body.readError.Some?
    ensures Validate(view, env, clock) == Rejected(BodyReadFailed(view.body.readError.value))
  {
  }

  /** Once the certificate stages pass and the body reads, a key that is not
      RSA fails the `*rsa.PublicKey` assertion, in either mode. */
  lemma NonRsaKeyPanicsInBothModes(view: RequestView, env: Env, clock: Clock)
    requires CertStagesPass(view, env, clock)
    requires view.body.readError.None?
    requires !ParsedCert(view, env).value.publicKey.Rsa?
    ensures Validate(view, env, clock) == Panicked(NonRsaKey)
  {
  }

  /** Outside development mode, once every earlier stage passes, a signature
      that does not verify over the body's digest gives `ErrSignatureMismatch`. */
  lemma SignatureFailureReturned(view: RequestView, env: Env, clock: Clock)
    requires !DevMode(view) && CertStagesPass(view, env, clock)
    requires view.body.readError.None?
    requires ParsedCert(view, env).value.publicKey.Rsa?
    requires !env.verifyPKCS1v15(ParsedCert(view, env).value.publicKey.key, env.sha1(view.body.data),
                                 env.base64Decode(Get(view.header, SignatureHeader)))
    ensures Validate(view, env, clock) == Rejected(SignatureMismatch)
  {
  }
}
