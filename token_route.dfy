/** The `POST /generate-token` handler: header parsing, the type check on
    the requested permissions, identity-token verification, the check for the
    repository claims, a single generation attempt, and the mapping of each
    failure to an HTTP status. Verification is an input: the library's
    verdict on the raw token. */
module TokenRoute {
  import opened Base
  import opened JsString
  import opened AuthHeader
  import opened Installations
  import opened TokenGeneration

  /** The claims of a verified identity token that the handler reads. */
  datatype Claims = Claims(repository: Option<string>, repositoryOwner: Option<string>)

  /** What `jwt.verify` (issuer, audience, RS256, 60 seconds of clock
      tolerance, key from the JWKS endpoint) decides: the decoded claims, or
      the message of the library's error. */
  datatype Verification = Verified(claims: Claims) | Rejected(reason: string)

  /** The parts of the request the handler reads: the `Authorization`
      header (absent is `None`) and `req.body.permissions`. The body is
      taken to be an object, as the JSON parser of Express 4 leaves it. */
  datatype Request = Request(authorization: Option<string>, permissions: PermissionsValue)

  datatype Body = Issued(credential: Credential) | Failure(error: string, details: Option<string>)

  datatype Response = Response(status: int, body: Body)

  /** The response together with the external calls made, in order. */
  datatype Exchange = Exchange(response: Response, calls: seq<Call>)

  const VerificationFailed: string := "Token verification failed"
  const GenerationFailed: string := "Failed to generate token"
  const RequestFailed: string := "Failed to process request"
  // The longer messages are written as concatenations of short literals,
  // which keeps the verifier's reasoning about their characters cheap.
  const PermissionsTypeMessage: string :=
    "Permissions must be an " + "object mapping " + "permission names to " + "access levels"
  const MissingRepositoryMessage: string := "Missing repository " + "information in token"

  /** The message of the error built from a rejected verification. */
  function VerificationMessage(reason: string): string
  {
    VerificationFailed + ": " + reason
  }

  /** The outer `catch` of the handler: the status follows from the words in
      the error's message. */
  function ClassifyError(message: string): (resp: Response)
    ensures resp.body.Failure? && resp.body.details == Some(message)
    ensures resp.status == 403 <==> Includes(message, VerificationFailed)
    ensures resp.status == 500 <==> !Includes(message, VerificationFailed) && Includes(message, GenerationFailed)
    ensures resp.status == 400 <==> !Includes(message, VerificationFailed) && !Includes(message, GenerationFailed)
    ensures resp.body.error == if resp.status == 403 then VerificationFailed
                               else if resp.status == 500 then GenerationFailed
                               else RequestFailed
  {
    if Includes(message, VerificationFailed) then
      Response(403, Failure(VerificationFailed, Some(message)))
    else if Includes(message, GenerationFailed) then
      Response(500, Failure(GenerationFailed, Some(message)))
    else
      Response(400, Failure(RequestFailed, Some(message)))
  }

  /** The inner `catch` around the generation attempt. */
  function GenerationResponse(r: Result<Credential>): (resp: Response)
    ensures r.Ok? <==> resp.status == 200
    ensures r.Ok? ==> resp.body == Issued(r.value)
    ensures r.Err? ==> resp == Response(500, Failure(GenerationFailed, Some(r.error.message)))
  {
    match r
    case Ok(credential) => Response(200, Issued(credential))
    case Err(e) => Response(500, Failure(GenerationFailed, Some(e.message)))
  }

  /** The claims generation needs are both present and non-empty. */
  predicate HasRepositoryClaims(claims: Claims)
  {
    Truthy(claims.repository) && Truthy(claims.repositoryOwner)
  }

  /** `POST /generate-token`. */
  function HandleGenerateToken(req: Request, verify: string -> Verification, up: Upstream): (x: Exchange)
    ensures x.response.status in {200, 400, 403, 500}
    ensures x.calls != [] ==> ExtractAndDecodeToken(req.authorization).Ok?
                              && x.calls[0] == VerifyIdentityToken(ExtractAndDecodeToken(req.authorization).value)
  {
    match ExtractAndDecodeToken(req.authorization)
    case Err(e) => Exchange(ClassifyError(e.message), [])
    case Ok(token) =>
      if req.permissions.NonObject? then
        Exchange(ClassifyError(PermissionsTypeMessage), [])
      else
        var verified := [VerifyIdentityToken(token)];
        match verify(token)
        case Rejected(reason) => Exchange(ClassifyError(VerificationMessage(reason)), verified)
        case Verified(claims) =>
          if !HasRepositoryClaims(claims) then
            Exchange(Response(400, Failure(MissingRepositoryMessage, None)), verified)
          else
            var g := GenerateToken(claims.repositoryOwner.value, claims.repository.value, req.permissions, up);
            Exchange(GenerationResponse(g.result), verified + g.calls)
  }

  // ---------------------------------------------------------------------------
  // The messages thrown before verification hold neither marker
  // ---------------------------------------------------------------------------

  /** A message holding neither marker is a plain request error. */
  predicate HoldsNoMarker(message: string)
  {
    !Includes(message, VerificationFailed) && !Includes(message, GenerationFailed)
  }

  /** Such a message is answered 400. */
  lemma PlainErrorIs400(message: string)
    requires HoldsNoMarker(message)
    ensures ClassifyError(message) == Response(400, Failure(RequestFailed, Some(message)))
  {
  }

  // 'T' and 'F' open the two markers and occur in none of these messages,
  // except the capital T of "JWT", where the 'c' of "verification" is missing.

  lemma MissingHeaderHoldsNoMarker()
    ensures HoldsNoMarker(MissingHeaderMessage)
  {
    var a, b := "Missing or invalid ", "Authorization header";
    assert MissingHeaderMessage == a + b;
    assert 'T' !in a && 'F' !in a by { LacksBoth(a, 'T', 'F'); }
    assert 'T' !in b && 'F' !in b by { LacksBoth(b, 'T', 'F'); }
    assert VerificationFailed[0] == 'T' && GenerationFailed[0] == 'F';
    NotIncludesMissingChar(MissingHeaderMessage, VerificationFailed, 0);
    NotIncludesMissingChar(MissingHeaderMessage, GenerationFailed, 0);
  }

  lemma MalformedTokenHoldsNoMarker()
    ensures HoldsNoMarker(MalformedTokenMessage)
  {
    var a, b := "Invalid JWT format - ", "token must have three parts";
    assert MalformedTokenMessage == a + b;
    assert 'c' !in a && 'F' !in a by { LacksBoth(a, 'c', 'F'); }
    assert 'c' !in b && 'F' !in b by { LacksBoth(b, 'c', 'F'); }
    assert VerificationFailed[12] == 'c' && GenerationFailed[0] == 'F';
    NotIncludesMissingChar(MalformedTokenMessage, VerificationFailed, 12);
    NotIncludesMissingChar(MalformedTokenMessage, GenerationFailed, 0);
  }

  lemma PermissionsTypeHoldsNoMarker()
    ensures HoldsNoMarker(PermissionsTypeMessage)
  {
    var a, b, c, d := "Permissions must be an ", "object mapping ", "permission names to ", "access levels";
    assert PermissionsTypeMessage == a + b + c + d;
    assert 'T' !in a && 'F' !in a by { LacksBoth(a, 'T', 'F'); }
    assert 'T' !in b && 'F' !in b by { LacksBoth(b, 'T', 'F'); }
    assert 'T' !in c && 'F' !in c by { LacksBoth(c, 'T', 'F'); }
    assert 'T' !in d && 'F' !in d by { LacksBoth(d, 'T', 'F'); }
    assert VerificationFailed[0] == 'T' && GenerationFailed[0] == 'F';
    NotIncludesMissingChar(PermissionsTypeMessage, VerificationFailed, 0);
    NotIncludesMissingChar(PermissionsTypeMessage, GenerationFailed, 0);
  }

  /** Every error thrown before verification is a plain request error. */
  lemma RequestMessagesHoldNoMarker()
    ensures HoldsNoMarker(MissingHeaderMessage)
    ensures HoldsNoMarker(MalformedTokenMessage)
    ensures HoldsNoMarker(PermissionsTypeMessage)
  {
    MissingHeaderHoldsNoMarker();
    MalformedTokenHoldsNoMarker();
    PermissionsTypeHoldsNoMarker();
  }

  /** The message of a rejected verification always carries the marker. */
  lemma VerificationMessageClassifiesAs403(reason: string)
    ensures ClassifyError(VerificationMessage(reason)).status == 403
  {
    IncludesPrefix(VerificationFailed, ": " + reason);
    assert VerificationMessage(reason) == VerificationFailed + (": " + reason);
  }

  // ---------------------------------------------------------------------------
  // Gating order and status classification
  // ---------------------------------------------------------------------------

  /** A missing header, a header without the exact `Bearer ` prefix, or a
      token without three segments is answered 400 before anything else. */
  lemma HeaderRejectedFirst(req: Request, verify: string -> Verification, up: Upstream)
    requires ExtractAndDecodeToken(req.authorization).Err?
    ensures HandleGenerateToken(req, verify, up)
         == Exchange(Response(400, Failure(RequestFailed, Some(ExtractAndDecodeToken(req.authorization).error.message))), [])
  {
    var message := ExtractAndDecodeToken(req.authorization).error.message;
    RequestMessagesHoldNoMarker();
    PlainErrorIs400(message);
  }

  /** In particular, without the prefix the answer names the header. */
  lemma MissingBearerPrefixIs400(req: Request, verify: string -> Verification, up: Upstream)
    requires req.authorization.None? || !StartsWith(req.authorization.value, BearerPrefix)
    ensures HandleGenerateToken(req, verify, up)
         == Exchange(Response(400, Failure(RequestFailed, Some(MissingHeaderMessage))), [])
  {
    MissingHeaderHoldsNoMarker();
    PlainErrorIs400(MissingHeaderMessage);
  }

  /** A truthy `permissions` value that is not an object is rejected with 400
      after the header is accepted and before verification is attempted. */
  lemma PermissionsTypeCheckedBeforeVerification(req: Request, verify: string -> Verification, up: Upstream)
    requires ExtractAndDecodeToken(req.authorization).Ok?
    requires req.permissions.NonObject?
    ensures HandleGenerateToken(req, verify, up)
         == Exchange(Response(400, Failure(RequestFailed, Some(PermissionsTypeMessage))), [])
  {
    PermissionsTypeHoldsNoMarker();
    PlainErrorIs400(PermissionsTypeMessage);
  }

  /** A rejected identity token is answered 403, whatever the library's
      message says, and nothing but the verification was attempted. */
  lemma VerificationFailureIs403(req: Request, verify: string -> Verification, up: Upstream)
    requires ExtractAndDecodeToken(req.authorization).Ok?
    requires !req.permissions.NonObject?
    requires verify(ExtractAndDecodeToken(req.authorization).value).Rejected?
    ensures var token := ExtractAndDecodeToken(req.authorization).value;
            HandleGenerateToken(req, verify, up) == Exchange(Response(403, Failure(VerificationFailed,
                                           Some(VerificationMessage(verify(token).reason)))),
                     [VerifyIdentityToken(token)])
  {
    VerificationMessageClassifiesAs403(verify(ExtractAndDecodeToken(req.authorization).value).reason);
  }

  /** Verified claims without a repository or an owner are answered 400 and
      generation is never called. */
  lemma MissingClaimsIs400(req: Request, verify: string -> Verification, up: Upstream)
    requires ExtractAndDecodeToken(req.authorization).Ok?
    requires !req.permissions.NonObject?
    requires var v := verify(ExtractAndDecodeToken(req.authorization).value);
             v.Verified? && !HasRepositoryClaims(v.claims)
    ensures HandleGenerateToken(req, verify, up)
         == Exchange(Response(400, Failure(MissingRepositoryMessage, None)),
                     [VerifyIdentityToken(ExtractAndDecodeToken(req.authorization).value)])
  {
  }

  /** Once every gate is passed, generation runs exactly once: the installation
      listing is called once, right after verification; its failure, whatever
      the error, is answered 500 "Failed to generate token", its success 200
      with the credential. */
  lemma SingleGenerationAttempt(req: Request, verify: string -> Verification, up: Upstream)
    requires ExtractAndDecodeToken(req.authorization).Ok?
    requires !req.permissions.NonObject?
    requires var v := verify(ExtractAndDecodeToken(req.authorization).value);
             v.Verified? && HasRepositoryClaims(v.claims)
    ensures var x := HandleGenerateToken(req, verify, up);
            var claims := verify(ExtractAndDecodeToken(req.authorization).value).claims;
            var g := GenerateToken(claims.repositoryOwner.value, claims.repository.value, req.permissions, up);
            && |x.calls| >= 2 && x.calls[1] == ListInstallations
            && (forall k :: 0 <= k < |x.calls| && k != 1 ==> x.calls[k] != ListInstallations)
            && x.calls[1..] == g.calls
            && (g.result.Ok? ==> x.response == Response(200, Issued(g.result.value)))
            && (g.result.Err? ==> x.response == Response(500, Failure(GenerationFailed, Some(g.result.error.message))))
  {
    var x := HandleGenerateToken(req, verify, up);
    var token := ExtractAndDecodeToken(req.authorization).value;
    var claims := verify(token).claims;
    var g := GenerateToken(claims.repositoryOwner.value, claims.repository.value, req.permissions, up);
    assert x.calls == [VerifyIdentityToken(token)] + g.calls;
    ListingAfterVerification(token, g.calls);
  }

  // Proof step only: where the listing call sits in a trace that follows verification.
  lemma ListingAfterVerification(token: string, calls: seq<Call>)
    requires |calls| >= 1 && calls[0] == ListInstallations
    requires forall k :: 1 <= k < |calls| ==> calls[k] != ListInstallations
    ensures var all := [VerifyIdentityToken(token)] + calls;
            && |all| >= 2 && all[1] == ListInstallations && all[1..] == calls
            && forall k :: 0 <= k < |all| && k != 1 ==> all[k] != ListInstallations
  {
    var all := [VerifyIdentityToken(token)] + calls;
    forall k | 2 <= k < |all|
      ensures all[k] != ListInstallations
    {
      assert all[k] == calls[k - 1];
    }
  }

  /** Which status each kind of outcome produces: 500 only when generation
      was attempted and failed, 200 only with a credential, 403 only for a
      rejected verification; the outer handler's own 500 branch is never taken. */
  lemma StatusClassification(req: Request, verify: string -> Verification, up: Upstream)
    ensures var x := HandleGenerateToken(req, verify, up);
            && (x.response.status == 200 <==> x.response.body.Issued?)
            && (x.response.status == 500 ==> |x.calls| >= 2 && x.calls[1] == ListInstallations
                                             && x.response.body == Failure(GenerationFailed, x.response.body.details))
            && (x.response.status == 403 ==> ExtractAndDecodeToken(req.authorization).Ok?
                                             && verify(ExtractAndDecodeToken(req.authorization).value).Rejected?)
  {
    RequestMessagesHoldNoMarker();
    match ExtractAndDecodeToken(req.authorization)
    case Err(e) =>
    case Ok(token) =>
      if !req.permissions.NonObject? {
        match verify(token)
        case Rejected(reason) =>
          VerificationMessageClassifiesAs403(reason);
        case Verified(claims) =>
          if HasRepositoryClaims(claims) {
            SingleGenerationAttempt(req, verify, up);
          }
      }
  }

  /** No credential is handed out unless the identity token was verified,
      its claims name a repository and an owner, and the installation whose
      id the credential carries has a login equal to the owner up to case. */
  lemma CredentialOnlyAfterVerificationAndMatch(req: Request, verify: string -> Verification, up: Upstream)
    requires HandleGenerateToken(req, verify, up).response.status == 200
    ensures ExtractAndDecodeToken(req.authorization).Ok?
    ensures var v := verify(ExtractAndDecodeToken(req.authorization).value);
            && v.Verified? && HasRepositoryClaims(v.claims)
            && HandleGenerateToken(req, verify, up).response.body.Issued?
            && up.listInstallations.Ok?
            && exists i :: 0 <= i < |up.listInstallations.value|
                 && up.listInstallations.value[i].id
                    == HandleGenerateToken(req, verify, up).response.body.credential.installationId
                 && LoginMatches(up.listInstallations.value[i], v.claims.repositoryOwner.value)
  {
    RequestMessagesHoldNoMarker();
    var token := ExtractAndDecodeToken(req.authorization).value;
    var v := verify(token);
    if v.Rejected? {
      VerificationMessageClassifiesAs403(v.reason);
    }
    var owner := v.claims.repositoryOwner.value;
    var installations := up.listInstallations.value;
    var k := FirstMatch(installations, owner);
    assert installations[k] == FindInstallation(installations, owner).value;
  }

  /** Nothing outside the model is called before the identity token has
      been verified and its repository claims found; in particular a header,
      format or permissions error makes no call at all. */
  lemma NoPlatformCallOnUntrustedInput(req: Request, verify: string -> Verification, up: Upstream)
    requires |HandleGenerateToken(req, verify, up).calls| > 1
    ensures ExtractAndDecodeToken(req.authorization).Ok?
    ensures !req.permissions.NonObject?
    ensures var v := verify(ExtractAndDecodeToken(req.authorization).value);
            v.Verified? && HasRepositoryClaims(v.claims)
  {
  }

  // ---------------------------------------------------------------------------
  // A complete exchange
  // ---------------------------------------------------------------------------

  /** When every step succeeds, the handler makes exactly the five calls of
      the pipeline, in order and with the values the previous steps
      produced, and answers 200 with the minted token, its expiry and the
      resolved installation's id. */
  lemma SuccessfulExchange(req: Request, verify: string -> Verification, up: Upstream,
                           token: string, owner: string, repository: string,
                           inst: Installation, repo: Repository, permissions: Permissions,
                           minted: string, expiresAt: string)
    requires ExtractAndDecodeToken(req.authorization) == Ok(token)
    requires !req.permissions.NonObject?
    requires verify(token) == Verified(Claims(Some(repository), Some(owner)))
    requires owner != "" && repository != ""
    requires up.listInstallations.Ok?
    requires FindInstallation(up.listInstallations.value, owner) == Some(inst)
    requires up.getRepository(inst.id, owner, RepoName(repository)) == Ok(repo)
    requires up.effectivePermissions(owner, repository, req.permissions) == Ok(permissions)
    requires up.mint(inst.id, [repo.id], permissions) == Ok(Minted(Some(minted), expiresAt))
    requires minted != ""
    ensures var x := HandleGenerateToken(req, verify, up);
            && x.response == Response(200, Issued(Credential(minted, expiresAt, inst.id)))
            && x.calls == [VerifyIdentityToken(token), ListInstallations,
                           GetRepository(inst.id, owner, RepoName(repository)),
                           EffectivePermissions(owner, repository, req.permissions),
                           Mint(inst.id, [repo.id], permissions)]
  {
    var g := GenerateToken(owner, repository, req.permissions, up);
    GenerationSucceeds(owner, repository, req.permissions, up, inst, repo, permissions, minted, expiresAt);
    var x := HandleGenerateToken(req, verify, up);
    assert x.calls == [VerifyIdentityToken(token)] + g.calls;
    assert x.response == GenerationResponse(g.result);
  }

  const ExampleRequested: PermissionsValue := Object(map["issues" := "write"])

  /** The policy grants `issues: write` for the request. */
  const ExampleUpstream: Upstream := Upstream(
    Ok([Installation(42, "Acme")]),
    (installationId: int, owner: string, repo: string) => Ok(Repository(7)),
    (owner: string, repository: string, requested: PermissionsValue) => Ok(map["issues" := "write"]),
    (installationId: int, repositoryIds: seq<int>, permissions: Permissions)
      => Ok(Minted(Some("ghs_example"), "2026-10-14T13:00:00Z")))

  /** The identity token names repository `acme/widgets` of owner `acme`. */
  const ExampleVerify: string -> Verification :=
    (token: string) => Verified(Claims(Some("acme/widgets"), Some("acme")))

  /** Claims for `acme/widgets`, one installation 42 of account `Acme`:
      the credential is issued for installation 42. */
  lemma ExampleExchange(header: string)
    requires header == BearerPrefix + "h.p.s"
    ensures var x := HandleGenerateToken(Request(Some(header), ExampleRequested),
                                         ExampleVerify, ExampleUpstream);
            && x.response == Response(200, Issued(Credential("ghs_example", "2026-10-14T13:00:00Z", 42)))
            && x.calls == [VerifyIdentityToken("h.p.s"), ListInstallations,
                           GetRepository(42, "acme", "widgets"),
                           EffectivePermissions("acme", "acme/widgets", ExampleRequested),
                           Mint(42, [7], map["issues" := "write"])]
  {
    var token := "h.p.s";
    PlainTokenAccepted(header);
    AcmeResolvesInAnyCase();
    AcmeWidgetsRepoName();
    SuccessfulExchange(Request(Some(header), ExampleRequested), ExampleVerify, ExampleUpstream,
                       token, "acme", "acme/widgets", Installation(42, "Acme"), Repository(7),
                       map["issues" := "write"], "ghs_example", "2026-10-14T13:00:00Z");
  }
}
