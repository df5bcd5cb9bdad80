# Token exchange of the token-bureau server, modelled in Dafny

The server turns a CI workflow's OIDC identity token into a short-lived
GitHub App installation token scoped to one repository. This project models
the decision logic of that exchange in `packages/server/index.js`:

- **Header parsing** (`extractAndDecodeToken`). The header must start with
  `Bearer `. The token is the second space-separated field. It is trimmed,
  then loses at most one leading and at most one trailing quote. It must
  have three `.`-separated segments.
- **Token generation** (`generateToken`). The steps are: list the app's
  installations, pick the first one whose login equals the claimed owner up
  to ASCII case, look the repository up, compute the effective permissions,
  then mint. A 404 after resolution becomes `Repository not found:
  owner/name`, and a missing minted token is an error.
- **The `POST /generate-token` handler**. Its gates run in order: header,
  `permissions` type, OIDC verification, repository claims, one generation
  attempt. Each error message maps to 400, 403 or 500.

Everything is a pure function over datatypes. The source has no loops and
no shared state once its library calls are abstracted. The collaborators
are inputs:

- the verdict of `jwt.verify` on the raw token (`TokenRoute.Verification`);
- the platform's answers to `GET /app/installations` and
  `GET /repos/{owner}/{repo}`, the policy `getEffectivePermissions`, and the
  installation-token request (`TokenGeneration.Upstream`, the last three as
  functions of their arguments).

Every run returns the list of calls it made (`TokenGeneration.Call`), so
ordering and short-circuiting are stated about that trace.

The JavaScript built-ins the code relies on (`startsWith`, `includes`,
`split`, `trim`, the `/^["']|["']$/g` replacement, `toLowerCase`) are
defined in module `JsString`. Each one has a lemma that ties it to an
independent description:

- `startsWith` as a prefix followed by the rest;
- `includes` as an occurrence at some index;
- `split` by split/join round trips and a part count;
- `trim` as removal of surrounding whitespace;
- the regular-expression scan as a slice;
- `toLowerCase` as agreement position by position up to ASCII case.

Files: `base.dfy` (Option, Error, Result), `js_string.dfy`,
`auth_header.dfy`, `installations.dfy`, `token_generation.dfy`,
`token_route.dfy`.

## Model

| member | source | states |
|---|---|---|
| `JsString.StartsWith` | packages/server/index.js:211 | `authHeader.startsWith('Bearer ')`, case-sensitive; `StartsWithConcat` states it holds exactly when the string is the prefix followed by the rest |
| `JsString.StartsWithConcat` | packages/server/index.js:211 | `startsWith(p)` holds exactly when the string is `p` followed by the rest of it |
| `JsString.Includes` | packages/server/index.js:323-330 | `message.includes(marker)`; with `IncludesAt` and `IncludesWitness` it holds exactly when the marker occurs at some index |
| `JsString.IncludesAt` | packages/server/index.js:323 | an occurrence at any index makes `includes` true |
| `JsString.IncludesWitness` | packages/server/index.js:323 | `includes` true yields an index where the text occurs |
| `JsString.NotIncludesMissingChar` | packages/server/index.js:323-330 | a text with a character absent from the message is not included in it |
| `JsString.IndexOf` | packages/server/index.js:216 | the first occurrence of the separator, or the length when there is none |
| `JsString.Split` | packages/server/index.js:216 | `split` on one character gives at least one part, and no part holds the separator |
| `JsString.SplitSingle` | packages/server/index.js:216 | there is exactly one part exactly when the separator does not occur |
| `JsString.SplitFirst` | packages/server/index.js:216 | the first part is the text before the first separator |
| `JsString.SplitCount` | packages/server/index.js:229-230 | the number of parts is the number of separators plus one |
| `JsString.JoinSplit` | packages/server/index.js:216 | joining the parts of a split restores the string |
| `JsString.SplitJoin` | packages/server/index.js:216 | splitting a join of separator-free parts gives the parts back |
| `JsString.SplitSecond` | packages/server/index.js:98 | the second part is the text strictly between the first and the second separator (or the end) |
| `JsString.Trim` | packages/server/index.js:224 | `trim()`: the result neither starts nor ends with whitespace; `TrimExact` and `TrimDecomposes` state it removes exactly the surrounding whitespace |
| `JsString.TrimStart` | packages/server/index.js:224 | the result is a suffix, only whitespace was dropped, and it starts with a non-whitespace character |
| `JsString.TrimEnd` | packages/server/index.js:224 | the result is a prefix, only whitespace was dropped, and it ends with a non-whitespace character |
| `JsString.TrimExact` | packages/server/index.js:224 | `trim` of any text padded with whitespace on both sides is that text |
| `JsString.TrimDecomposes` | packages/server/index.js:224 | every string is its trimmed text between two whitespace runs |
| `JsString.ReplaceQuoteAnchors` | packages/server/index.js:224 | the left-to-right scan of the global `/^["']\|["']$/g` replacement, dropping a quote at the first or the last position; `StripQuotesSlice` describes its outcome |
| `JsString.StripQuotes` | packages/server/index.js:224 | `.replace(/^["']\|["']$/g, '')`; `StripQuotesSlice` states it is the slice without one optional leading and one optional trailing quote |
| `JsString.StripQuotesSlice` | packages/server/index.js:224 | the global replacement of `/^["']\|["']$/g` removes at most one leading and, independently, at most one trailing quote and keeps the rest |
| `JsString.LowerChar` | packages/server/index.js:128 | ASCII capitals map to the letter 32 code points higher; every other character is unchanged |
| `JsString.ToLower` | packages/server/index.js:128 | lower-casing keeps the length and lower-cases each character |
| `JsString.ToLowerEqual` | packages/server/index.js:128 | two strings lower-case to the same string exactly when they have equal length and agree at every position up to ASCII case |
| `AuthHeader.HasThreeSegments` | packages/server/index.js:228-230 | `tokenPayload.split('.').length === 3`; `SplitCount` makes it two dots, as `ExtractedToken` states |
| `AuthHeader.Payload` | packages/server/index.js:216-224 | the `tokenPayload` pipeline: second space-separated field, trimmed, quotes stripped; `ExtractedToken` and `BearerTokenRoundTrip` describe its outcome |
| `AuthHeader.BearerField` | packages/server/index.js:216 | the second space-separated field of a `Bearer ` header exists and has no space |
| `AuthHeader.ExtractAndDecodeToken` | packages/server/index.js:208-236 | "Missing or invalid Authorization header" exactly when the header is absent or lacks the case-sensitive `Bearer ` prefix; "Invalid JWT format - token must have three parts" exactly when the derived token does not split into three parts; a returned token has three segments and no space |
| `AuthHeader.BearerFieldBetweenSpaces` | packages/server/index.js:216 | the field is the text after the prefix's space up to the next space or the end |
| `AuthHeader.ExtractedToken` | packages/server/index.js:216-235 | the token is the field, trimmed, with one optional leading and one optional trailing quote removed; it is returned exactly when it has two dots |
| `AuthHeader.EmptyTokenRejected` | packages/server/index.js:229-233 | `Bearer ` alone is rejected as malformed |
| `AuthHeader.DoubleSpaceRejected` | packages/server/index.js:216-233 | `Bearer` followed by two spaces is rejected as malformed, whatever follows |
| `AuthHeader.LowerCasePrefixRejected` | packages/server/index.js:211-214 | a `bearer ` prefix is rejected as a missing header |
| `AuthHeader.OptionalQuotesStripped` | packages/server/index.js:224 | stripping removes exactly the optional quotes around a bare token |
| `AuthHeader.PaddedQuotedTokenRecovered` | packages/server/index.js:224 | trimming and stripping recover a bare token from its padded, quoted form |
| `AuthHeader.BearerTokenRoundTrip` | packages/server/index.js:208-236 | `Bearer ` + padding + optional quote + bare token + optional quote + padding gives back the token when it has two dots, and the malformed-token error otherwise |
| `AuthHeader.QuotedTokenAccepted` | packages/server/index.js:224-235 | `Bearer "h.p.s"` yields `h.p.s` |
| `AuthHeader.PlainTokenAccepted` | packages/server/index.js:208-236 | `Bearer h.p.s` yields `h.p.s` |
| `Installations.RepoName` | packages/server/index.js:98 | without a slash the repository string is the name |
| `Installations.RepoNameSegment` | packages/server/index.js:98 | with a slash, the name is the segment after the first `/` and before the second, and holds no slash |
| `Installations.RepoNameOfQualified` | packages/server/index.js:98 | `owner/name` of slash-free parts yields `name` |
| `Installations.RepoNameIgnoresExtraSegments` | packages/server/index.js:98 | in `owner/name/extra` the name is `name` |
| `Installations.LoginMatches` | packages/server/index.js:128 | `inst.account.login.toLowerCase() === owner.toLowerCase()`; `ToLowerEqual` states it holds exactly when the two agree position by position up to ASCII case, and `ResolutionIgnoresCase` that resolution depends on the owner only up to case |
| `Installations.FirstMatch` | packages/server/index.js:127-129 | the index of the first installation whose lower-cased login equals the lower-cased owner; none before it matches |
| `Installations.FindInstallation` | packages/server/index.js:127-129 | `find` returns nothing exactly when no login matches, and otherwise a matching installation with no match before it |
| `Installations.ResolutionIgnoresCase` | packages/server/index.js:127-129 | owners equal up to ASCII case resolve to the same installation |
| `Installations.AcmeResolvesInAnyCase` | packages/server/index.js:127-129 | installation 42 of `Acme` resolves for `acme` and `ACME` |
| `Installations.AcmeWidgetsRepoName` | packages/server/index.js:98 | `acme/widgets` names repository `widgets` |
| `TokenGeneration.ScopedMint` | packages/server/index.js:158-191 | the inner block calls repository lookup, then permissions, then mint, each only after the previous one succeeded and with its result; the first failing step's error is the result, unchanged; a minted answer without a token gives "Failed to generate installation token"; a token gives a credential with it, its expiry and the installation's id |
| `TokenGeneration.TranslateNotFound` | packages/server/index.js:192-197 | a 404 becomes "Repository not found: owner/name" and any other error is kept; no 404 leaves it |
| `TokenGeneration.GenerateToken` | packages/server/index.js:96-206 | listing first and only once; a listing error rethrown unchanged; no matching installation gives "No installation found for owner: …" with no further call; later calls use the resolved installation; success carries the resolved id and a non-empty token after four calls |
| `TokenGeneration.MintOnlyForMatchingInstallation` | packages/server/index.js:127-179 | a mint call is the fourth call, for a listed installation whose login matches the owner up to case, after a successful lookup, with the permissions the policy returned |
| `TokenGeneration.ErrorTranslation` | packages/server/index.js:158-197 | after resolution any 404 from lookup, permissions or minting becomes "Repository not found: owner/name" and every other error or success passes unchanged |
| `TokenGeneration.FailedStepTranslated` | packages/server/index.js:158-197 | when the lookup, or the permission computation after a good lookup, or the minting after both, fails with `e`, the result is "Repository not found: owner/name" if `e` has status 404 and `e` otherwise |
| `TokenGeneration.MissingMintedTokenFails` | packages/server/index.js:181-183 | a mint answer that carries no token gives "Failed to generate installation token" |
| `TokenGeneration.SuccessCarriesMintedToken` | packages/server/index.js:175-191 | the credential's token and expiry are the minted ones, and its installation id is the one minting used |
| `TokenGeneration.ResolutionCaseInsensitive` | packages/server/index.js:127-162 | owners equal up to case get past resolution together and use the same installation id |
| `TokenGeneration.GenerationSucceeds` | packages/server/index.js:120-191 | when every step succeeds, the four calls are made in order with the previous steps' values, and the result is `{token, expires_at, installation_id}` of the resolved installation |
| `TokenRoute.ClassifyError` | packages/server/index.js:318-341 | 403 exactly when the message contains "Token verification failed"; otherwise 500 exactly when it contains "Failed to generate token"; otherwise 400; the message is the details |
| `TokenRoute.GenerationResponse` | packages/server/index.js:307-317 | 200 with the credential exactly on success, otherwise 500 "Failed to generate token" with the error's message |
| `TokenRoute.VerificationMessage` | packages/server/index.js:271 | the rejection message `Token verification failed: <reason>`; `VerificationMessageClassifiesAs403` and `VerificationFailureIs403` state it is answered 403 |
| `TokenRoute.HasRepositoryClaims` | packages/server/index.js:286 | `!repo \|\| !repoOwner` negated: both claims present and non-empty; `MissingClaimsIs400` states its failure is answered 400 before any generation call |
| `Base.Truthy` | packages/server/index.js:181 | JavaScript truthiness of an optional string: absent and `""` are falsy; `MissingMintedTokenFails` states a falsy minted token is an error |
| `TokenRoute.HandleGenerateToken` | packages/server/index.js:239-342 | the status is 200, 400, 403 or 500; any call made is preceded by verification of the token the header yielded |
| `TokenRoute.PlainErrorIs400` | packages/server/index.js:337-340 | a message with neither marker is answered 400 "Failed to process request" |
| `TokenRoute.MissingHeaderHoldsNoMarker` | packages/server/index.js:213 | the missing-header message contains neither marker |
| `TokenRoute.MalformedTokenHoldsNoMarker` | packages/server/index.js:232 | the malformed-token message contains neither marker |
| `TokenRoute.PermissionsTypeHoldsNoMarker` | packages/server/index.js:258 | the permissions-type message contains neither marker |
| `TokenRoute.RequestMessagesHoldNoMarker` | packages/server/index.js:213-258 | no error thrown before verification contains either marker |
| `TokenRoute.VerificationMessageClassifiesAs403` | packages/server/index.js:269-328 | a rejected verification is answered 403, whatever the library's message |
| `TokenRoute.HeaderRejectedFirst` | packages/server/index.js:246-340 | a header or format error is answered 400 with its message and no call is made |
| `TokenRoute.MissingBearerPrefixIs400` | packages/server/index.js:211-214 | a missing header or a wrong prefix is answered 400 "Missing or invalid Authorization header" with no call |
| `TokenRoute.PermissionsTypeCheckedBeforeVerification` | packages/server/index.js:249-259 | a truthy non-object `permissions` after a good header is answered 400 before verification |
| `TokenRoute.VerificationFailureIs403` | packages/server/index.js:262-328 | a rejected token is answered 403 with "Token verification failed: <reason>", and verification is the only call |
| `TokenRoute.MissingClaimsIs400` | packages/server/index.js:283-290 | verified claims without a repository or an owner are answered 400 "Missing repository information in token" and generation is not called |
| `TokenRoute.SingleGenerationAttempt` | packages/server/index.js:292-317 | past every gate the listing is called exactly once, right after verification; failure gives 500 "Failed to generate token" with the message, success 200 with the credential |
| `TokenRoute.StatusClassification` | packages/server/index.js:292-341 | 200 only with a credential; 500 only after generation was attempted; 403 only for a rejected verification; the outer 500 branch is never taken |
| `TokenRoute.CredentialOnlyAfterVerificationAndMatch` | packages/server/index.js:262-305 | a 200 needs a verified token with repository claims and a listed installation of that id whose login equals the owner up to case |
| `TokenRoute.NoPlatformCallOnUntrustedInput` | packages/server/index.js:246-295 | no call beyond verification is made unless the header, the permissions type, the verification and the claims all passed |
| `TokenRoute.SuccessfulExchange` | packages/server/index.js:239-310 | when every step succeeds the five calls are made in order and the answer is 200 with the minted token, its expiry and the resolved installation's id |
| `TokenRoute.ExampleExchange` | packages/server/index.js:239-310 | claims for `acme/widgets` with one installation 42 of `Acme` produce a credential for installation 42 |

## Left out

- Signature, issuer, audience, algorithm and expiry checks of `jwt.verify`, and JWKS key retrieval with its cache and rate limit (index.js:71-94, 262-278). These are library calls. The model takes the verdict as the input `verify`. A rejection's message gets the `Token verification failed: ` prefix.
- GitHub App authentication, installation authentication and the HTTP requests (index.js:104-120, 141-162, 175-179). These are network I/O. Their answers are the `Upstream` inputs, an error keeping its HTTP status.
- `getEffectivePermissions` (from `permissions.js`): permissions.js is not part of this model. It is an arbitrary function of owner, repository and requested permissions. Its capping and rejection rules are therefore not stated.
- Pagination: the model takes the installation list as returned by one call, as the source does.
- Express setup, the request-logging and error middleware, `pino` logging, request ids from `Date.now`/`Math.random`, response headers, `/health` and `app.listen` (index.js:1-68, 344-351). These are framework plumbing and I/O.
- Malformed JSON bodies. The JSON parser's error goes to the error middleware (index.js:58-68), which answers 500 "Internal server error" before the handler runs. Not modelled.
- `TokenRoute.Request`: the model assumes `req.body` is always an object (index.js:18, 249). That holds for Express 4, whose JSON parser leaves `req.body` as `{}` when no JSON body arrives. Under Express 5 `req.body` stays `undefined`, so reading `req.body.permissions` throws a `TypeError` and the handler answers 400 "Failed to process request". That answer is not modelled.
- `toLowerCase` is modelled for ASCII letters only. Logins that differ only in non-ASCII case are not matched as the engine would match them.
- Strings are sequences of Unicode scalar values, not UTF-16 code units. The whitespace set of `trim` is the ECMAScript WhiteSpace and LineTerminator list, with the Unicode space separators written out.
- JavaScript dynamic typing:
  - the header is a string or absent;
  - `permissions` is falsy, an object, or another truthy value;
  - the claims are optional strings, and `undefined`, `null` and `""` count as missing;
  - a minted token is an optional string, and `None` or `""` counts as missing.

  `permissions` is coarser than what reaches the policy. An `Object` holds only string values, while an array or an object with other values also passes `typeof … !== 'object'` at index.js:257 and goes to `getEffectivePermissions`. `Falsy` merges `undefined`, which the default parameter at index.js:96 turns into `null`, with `false`, `0` and `""`, which reach the policy unchanged. No stated property depends on the difference.

  Non-string claim values, installations without an account, and the `TypeError`s the source would throw on them are not modelled.
- `pRetry` with `retries: 0` is modelled as a single direct call. Its `onFailedAttempt` logging and its handling of thrown non-`Error` values are not modelled.
- Asynchrony and concurrency between requests: each request is modelled on its own.
