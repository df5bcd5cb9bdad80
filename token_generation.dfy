/** `generateToken(owner, repository, requestedPermissions)`: list the
    application's installations, pick the owner's, look the repository up,
    compute the effective permissions and mint a repository-scoped
    installation token. The platform and the permission policy are inputs;
    every run also returns the calls it made, in order. */
module TokenGeneration {
  import opened Base
  import opened JsString
  import opened Installations

  /** The `permissions` member of the request body, as far as the source
      looks at it: falsy (absent, `null`, `false`, `0`, `""`), an object, or
      a truthy value of another type. */
  datatype PermissionsValue = Falsy | Object(fields: map<string, string>) | NonObject

  /** A permission set as the policy returns it: permission name to access level. */
  type Permissions = map<string, string>

  /** The repository the platform returns: only its id is used. */
  datatype Repository = Repository(id: int)

  /** What installation authentication returns; a missing token is `None`. */
  datatype Minted = Minted(token: Option<string>, expiresAt: string)

  /** The success result `{ token, expires_at, installation_id }`. */
  datatype Credential = Credential(token: string, expiresAt: string, installationId: int)

  /** One call to a collaborator outside the model, with its arguments. */
  datatype Call =
    | VerifyIdentityToken(token: string)
    | ListInstallations
    | GetRepository(installationId: int, owner: string, repo: string)
    | EffectivePermissions(owner: string, repository: string, requested: PermissionsValue)
    | Mint(installationId: int, repositoryIds: seq<int>, permissions: Permissions)

  /** The outcomes of the upstream calls: `GET /app/installations`,
      `GET /repos/{owner}/{repo}` with installation authentication,
      `getEffectivePermissions` and the installation-token request. */
  datatype Upstream = Upstream(
    listInstallations: Result<seq<Installation>>,
    getRepository: (int, string, string) -> Result<Repository>,
    effectivePermissions: (string, string, PermissionsValue) -> Result<Permissions>,
    mint: (int, seq<int>, Permissions) -> Result<Minted>)

  /** A result together with the calls made to reach it. */
  datatype Run = Run(result: Result<Credential>, calls: seq<Call>)

  const MissingTokenMessage: string := "Failed to generate installation token"

  function NoInstallationMessage(owner: string): string
  {
    "No installation found for owner: " + owner
  }

  function RepositoryNotFoundMessage(owner: string, repoName: string): string
  {
    "Repository not found: " + owner + "/" + repoName
  }

  /** The inner `try` block of `generateToken`, for a resolved installation:
      repository lookup, effective permissions, minting, and the check that
      a token came back. */
  function ScopedMint(inst: Installation, owner: string, repository: string,
                      requested: PermissionsValue, up: Upstream): (g: Run)
    ensures 1 <= |g.calls| <= 3
    ensures g.calls[0] == GetRepository(inst.id, owner, RepoName(repository))
    ensures |g.calls| > 1 ==> up.getRepository(inst.id, owner, RepoName(repository)).Ok?
                              && g.calls[1] == EffectivePermissions(owner, repository, requested)
    ensures |g.calls| > 2 ==> up.effectivePermissions(owner, repository, requested).Ok?
                              && g.calls[2] == Mint(inst.id,
                                                    [up.getRepository(inst.id, owner, RepoName(repository)).value.id],
                                                    up.effectivePermissions(owner, repository, requested).value)
    ensures g.result.Ok? ==> |g.calls| == 3 && g.result.value.installationId == inst.id
                             && g.result.value.token != ""
    // a failed lookup is rethrown as it is, and nothing else is called
    ensures up.getRepository(inst.id, owner, RepoName(repository)).Err?
         ==> g.result == Err(up.getRepository(inst.id, owner, RepoName(repository)).error) && |g.calls| == 1
    // after a successful lookup, a failed permission computation is rethrown as it is
    ensures up.getRepository(inst.id, owner, RepoName(repository)).Ok?
            && up.effectivePermissions(owner, repository, requested).Err?
         ==> g.result == Err(up.effectivePermissions(owner, repository, requested).error) && |g.calls| == 2
    // after both succeeded, minting is attempted; its outcome decides the result
    ensures up.getRepository(inst.id, owner, RepoName(repository)).Ok?
            && up.effectivePermissions(owner, repository, requested).Ok?
         ==> |g.calls| == 3
             && var m := up.mint(inst.id, [up.getRepository(inst.id, owner, RepoName(repository)).value.id],
                                 up.effectivePermissions(owner, repository, requested).value);
                && (m.Err? ==> g.result == Err(m.error))
                && (m.Ok? && !Truthy(m.value.token) ==> g.result == Err(Error(MissingTokenMessage, None)))
                && (m.Ok? && Truthy(m.value.token)
                    ==> g.result == Ok(Credential(m.value.token.value, m.value.expiresAt, inst.id)))
  {
    var repoName := RepoName(repository);
    var lookup := [GetRepository(inst.id, owner, repoName)];
    match up.getRepository(inst.id, owner, repoName)
    case Err(e) => Run(Err(e), lookup)
    case Ok(repo) =>
      var scoped := lookup + [EffectivePermissions(owner, repository, requested)];
      match up.effectivePermissions(owner, repository, requested)
      case Err(e) => Run(Err(e), scoped)
      case Ok(permissions) =>
        var minting := scoped + [Mint(inst.id, [repo.id], permissions)];
        match up.mint(inst.id, [repo.id], permissions)
        case Err(e) => Run(Err(e), minting)
        case Ok(minted) =>
          if !Truthy(minted.token) then Run(Err(Error(MissingTokenMessage, None)), minting)
          else Run(Ok(Credential(minted.token.value, minted.expiresAt, inst.id)), minting)
  }

  /** The inner `catch`: a 404 becomes "Repository not found", anything
      else is rethrown as it is. */
  function TranslateNotFound(r: Result<Credential>, owner: string, repoName: string): (t: Result<Credential>)
    ensures r.Ok? ==> t == r
    ensures r.Err? && r.error.status == Some(404) ==> t == Err(Error(RepositoryNotFoundMessage(owner, repoName), None))
    ensures r.Err? && r.error.status != Some(404) ==> t == r
    ensures t.Err? ==> t.error.status != Some(404)
  {
    if r.Err? && r.error.status == Some(404) then Err(Error(RepositoryNotFoundMessage(owner, repoName), None))
    else r
  }

  /** `generateToken(owner, repository, requestedPermissions)`. */
  function GenerateToken(owner: string, repository: string, requested: PermissionsValue,
                         up: Upstream): (g: Run)
    ensures |g.calls| >= 1 && g.calls[0] == ListInstallations
    ensures forall k :: 1 <= k < |g.calls| ==> g.calls[k] != ListInstallations
    // a failed listing is rethrown unchanged, whatever its status
    ensures up.listInstallations.Err? ==> g.result == Err(up.listInstallations.error) && g.calls == [ListInstallations]
    // no matching installation: a hard error, and nothing else is called
    ensures up.listInstallations.Ok? && FindInstallation(up.listInstallations.value, owner).None?
         ==> g.result == Err(Error(NoInstallationMessage(owner), None)) && g.calls == [ListInstallations]
    // anything after the listing is done for the resolved installation
    ensures |g.calls| > 1 ==>
              && up.listInstallations.Ok?
              && FindInstallation(up.listInstallations.value, owner).Some?
              && g.calls[1] == GetRepository(FindInstallation(up.listInstallations.value, owner).value.id,
                                             owner, RepoName(repository))
    ensures g.result.Ok? ==>
              && |g.calls| == 4 && g.calls[3].Mint?
              && up.listInstallations.Ok?
              && FindInstallation(up.listInstallations.value, owner).Some?
              && g.result.value.installationId == FindInstallation(up.listInstallations.value, owner).value.id
              && g.result.value.token != ""
  {
    match up.listInstallations
    case Err(e) => Run(Err(e), [ListInstallations])
    case Ok(installations) =>
      match FindInstallation(installations, owner)
      case None => Run(Err(Error(NoInstallationMessage(owner), None)), [ListInstallations])
      case Some(inst) =>
        var inner := ScopedMint(inst, owner, repository, requested, up);
        Run(TranslateNotFound(inner.result, owner, RepoName(repository)), [ListInstallations] + inner.calls)
  }

  /** Minting happens only for an installation whose login matches the
      claimed owner up to case, and only after the repository lookup and the
      permission computation both succeeded, with their results. */
  lemma MintOnlyForMatchingInstallation(owner: string, repository: string,
                                        requested: PermissionsValue, up: Upstream, k: nat)
    requires k < |GenerateToken(owner, repository, requested, up).calls|
    requires GenerateToken(owner, repository, requested, up).calls[k].Mint?
    ensures k == 3
    ensures up.listInstallations.Ok?
    ensures exists i :: 0 <= i < |up.listInstallations.value|
                   && up.listInstallations.value[i].id == GenerateToken(owner, repository, requested, up).calls[k].installationId
                   && LoginMatches(up.listInstallations.value[i], owner)
    ensures up.getRepository(GenerateToken(owner, repository, requested, up).calls[k].installationId,
                             owner, RepoName(repository)).Ok?
    ensures up.effectivePermissions(owner, repository, requested).Ok?
    ensures GenerateToken(owner, repository, requested, up).calls[k].permissions
         == up.effectivePermissions(owner, repository, requested).value
  {
    var g := GenerateToken(owner, repository, requested, up);
    var inst := FindInstallation(up.listInstallations.value, owner).value;
    var inner := ScopedMint(inst, owner, repository, requested, up);
    assert g.calls == [ListInstallations] + inner.calls;
    assert g.calls[k] == inner.calls[k - 1];
  }

  /** Every error raised after an installation was resolved leaves
      `generateToken` translated: a 404 as "Repository not found:
      owner/name", everything else unchanged; a missing minted token is an
      error of its own. */
  lemma ErrorTranslation(owner: string, repository: string, requested: PermissionsValue,
                         up: Upstream, inst: Installation)
    requires up.listInstallations.Ok?
    requires FindInstallation(up.listInstallations.value, owner) == Some(inst)
    ensures var inner := ScopedMint(inst, owner, repository, requested, up);
            var g := GenerateToken(owner, repository, requested, up);
            && g.calls == [ListInstallations] + inner.calls
            && (inner.result.Err? && inner.result.error.status == Some(404)
                ==> g.result == Err(Error(RepositoryNotFoundMessage(owner, RepoName(repository)), None)))
            && (inner.result.Err? && inner.result.error.status != Some(404) ==> g.result == inner.result)
            && (inner.result.Ok? ==> g.result == inner.result)
  {
  }

  /** The translation step by step: whichever of the repository lookup, the
      permission computation or the minting fails first (the earlier ones
      having succeeded), its error `e` becomes "Repository not found:
      owner/name" when `e` has status 404 and is rethrown unchanged otherwise. */
  lemma FailedStepTranslated(owner: string, repository: string, requested: PermissionsValue,
                             up: Upstream, inst: Installation, e: Error)
    requires up.listInstallations.Ok?
    requires FindInstallation(up.listInstallations.value, owner) == Some(inst)
    requires var lookup := up.getRepository(inst.id, owner, RepoName(repository));
             var policy := up.effectivePermissions(owner, repository, requested);
             || lookup == Err(e)
             || (lookup.Ok? && policy == Err(e))
             || (lookup.Ok? && policy.Ok? && up.mint(inst.id, [lookup.value.id], policy.value) == Err(e))
    ensures GenerateToken(owner, repository, requested, up).result
         == if e.status == Some(404) then Err(Error(RepositoryNotFoundMessage(owner, RepoName(repository)), None))
            else Err(e)
  {
    var inner := ScopedMint(inst, owner, repository, requested, up);
    assert inner.result == Err(e);
  }

  /** A minted response without a token is a failure, never a credential. */
  lemma MissingMintedTokenFails(owner: string, repository: string, requested: PermissionsValue,
                                up: Upstream)
    requires |GenerateToken(owner, repository, requested, up).calls| == 4
    requires var m := GenerateToken(owner, repository, requested, up).calls[3];
             m.Mint? && up.mint(m.installationId, m.repositoryIds, m.permissions).Ok?
             && !Truthy(up.mint(m.installationId, m.repositoryIds, m.permissions).value.token)
    ensures GenerateToken(owner, repository, requested, up).result == Err(Error(MissingTokenMessage, None))
  {
    var inst := FindInstallation(up.listInstallations.value, owner).value;
    var inner := ScopedMint(inst, owner, repository, requested, up);
    assert GenerateToken(owner, repository, requested, up).calls == [ListInstallations] + inner.calls;
  }

  /** On success the credential is the minted token and expiry, for the
      installation resolved from the owner. */
  lemma SuccessCarriesMintedToken(owner: string, repository: string, requested: PermissionsValue,
                                  up: Upstream)
    requires GenerateToken(owner, repository, requested, up).result.Ok?
    ensures var g := GenerateToken(owner, repository, requested, up);
            var m := g.calls[3];
            && m.Mint?
            && up.mint(m.installationId, m.repositoryIds, m.permissions).Ok?
            && var minted := up.mint(m.installationId, m.repositoryIds, m.permissions).value;
               && minted.token == Some(g.result.value.token)
               && minted.expiresAt == g.result.value.expiresAt
               && m.installationId == g.result.value.installationId
  {
    var inst := FindInstallation(up.listInstallations.value, owner).value;
    var inner := ScopedMint(inst, owner, repository, requested, up);
    assert GenerateToken(owner, repository, requested, up).calls == [ListInstallations] + inner.calls;
  }

  /** The outcome does not depend on the case in which the owner's login is
      spelled as far as installation resolution goes: the same installation
      is chosen, or the same owner-independent listing error is raised. */
  lemma ResolutionCaseInsensitive(owner1: string, owner2: string, repository: string,
                                  requested: PermissionsValue, up: Upstream)
    requires ToLower(owner1) == ToLower(owner2)
    ensures var g1 := GenerateToken(owner1, repository, requested, up);
            var g2 := GenerateToken(owner2, repository, requested, up);
            && (|g1.calls| > 1 <==> |g2.calls| > 1)
            && (|g1.calls| > 1 ==> g1.calls[1].installationId == g2.calls[1].installationId)
  {
    if up.listInstallations.Ok? {
      ResolutionIgnoresCase(up.listInstallations.value, owner1, owner2);
    }
  }

  /** When every upstream step succeeds and a token comes back, the four
      calls are made in order, each with what the previous steps produced,
      and the credential carries the minted token, its expiry and the
      resolved installation's id. */
  lemma GenerationSucceeds(owner: string, repository: string, requested: PermissionsValue,
                           up: Upstream, inst: Installation, repo: Repository,
                           permissions: Permissions, minted: string, expiresAt: string)
    requires up.listInstallations.Ok?
    requires FindInstallation(up.listInstallations.value, owner) == Some(inst)
    requires up.getRepository(inst.id, owner, RepoName(repository)) == Ok(repo)
    requires up.effectivePermissions(owner, repository, requested) == Ok(permissions)
    requires up.mint(inst.id, [repo.id], permissions) == Ok(Minted(Some(minted), expiresAt))
    requires minted != ""
    ensures var g := GenerateToken(owner, repository, requested, up);
            && g.result == Ok(Credential(minted, expiresAt, inst.id))
            && g.calls == [ListInstallations,
                           GetRepository(inst.id, owner, RepoName(repository)),
                           EffectivePermissions(owner, repository, requested),
                           Mint(inst.id, [repo.id], permissions)]
  {
    var inner := ScopedMint(inst, owner, repository, requested, up);
    assert inner.result == Ok(Credential(minted, expiresAt, inst.id));
    assert inner.calls == [GetRepository(inst.id, owner, RepoName(repository)),
                           EffectivePermissions(owner, repository, requested),
                           Mint(inst.id, [repo.id], permissions)];
  }
}
