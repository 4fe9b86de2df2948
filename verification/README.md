# Customer portal: verified state machines

Five linked parts of the customer portal are modelled and proved in Dafny 4.11. `dafny verify dfyconfig.toml` checks all of it.

- **Credentials** (`Credentials`, `AccessTokens`, `SessionFamilies`, `SessionCap`, `RefreshTokens`, `RotationRuns`,
  `CredentialLaws`, `ClientPromises`, `UserService`, `MfaToken`, `Totp`, `RateLimit`, `LastAdmin`): login, MFA login, refresh rotation, logout, the session cap, user-wide revocation and role
  changes over one clock, the account, session, refresh-token and role tables, and the expiring `revoke_before` and `perm_epoch` keys. The
  central question is how keys that expire can act as permanent tombstones; the lifetimes are parameters and every
  inequality a proof needs is a hypothesis.
- **Support tickets** (`Tickets`, `TicketRuns`, `SupportDesk`, `Idempotency`): the status machine with its two CHECK
  constraints, replies, assignment, the seven-day window, the sweep, and the claim / resolve / release gate of ticket creation.
- **Audit hash chain** (`AuditChain`): the insert trigger and the verifier that walks the table in another order.
- **Keyset pagination** (`Ordering`, `Pagination`, `Listings`): cursors, pages, and listings read while rows change.
- **Refresh client** (`RefreshClient`): tabs of a browser, each with a single-flight refresh, composed with the server's
  rotation.

How the model is built:

- "Serial" machines (`Credentials.Next`, `TicketRuns.Then`, `LastAdmin.Apply`) take one request per step. "Interleaved" ones
  (`RotationRuns.Next`, `TicketRuns.Next`, `Idempotency.Next`, `LastAdmin.Next`, `SessionCap.Next`, `MfaToken.Next`,
  `RefreshClient.Happens`) split a request into its read and its guarded write, and a row that fails a CHECK aborts its
  request. Columns written with the database's `now()` carry the start of the transaction, so an interleaved refresh
  stamps its rows with the instant of its read.
- Code that updates state is a class or a method with loops whose postcondition equates the new state with the step of the
  machine. The classes carry the invariants of the runs: `SupportDesk.TicketDesk.Valid` says that every ticket's own events
  in the shared trail replay to its row, `UserService.UserService.Valid` that tokens are honest, families are whole chains
  and the cap holds; every method keeps them.
- What each operation does is stated twice: as the step functions the runs are made of, and as rules on the rows, keys and
  clock alone (`CredentialLaws`, the `...Rules` lemmas and the methods' postconditions), with lemmas that the two agree.
- Instants are integers in microseconds. Identifiers are natural numbers; generated ones (UUIDs, random tokens) are assumed
  new. Passwords, codes, permission checks of routes and attachment checks are boolean inputs, so the runs include more
  behaviour than the routes allow. `Credentials.ChangeStatus` lets account status and verification change at any time, which
  covers verification, invitations and reactivation by other modules.
- History variables (`Row.generation`, `Table.lineage`, `Table.rotations`, `World.alarms`, `World.losses`,
  `Tab.sent`, `Idempotency.System.claims`, the `author` of an idempotent ticket) are never read by a decision of the code.
- An access token is its jti: `State.tokens` maps each signed jti to its claims, and an unsigned token is one with no entry.
  Its `exp` is a whole second and a token is expired when `exp <= now` (section 4.1.4 of RFC 7519).

Where the code and its own comments disagree, or a promise fails, the model follows the code:

- A replay mark of a TOTP step is documented as living 30 seconds; the service passes 300. Ninety seconds is exactly what is
  needed: `Totp.AcceptedOnceIffMarkOutlivesWindow`.
- The verifier's comment says that the predecessor of a row in the walk is the row it was seeded from. That holds only for
  rows inserted in ascending (`occurred_at`, `id`) order; rows of one transaction share `occurred_at` and have random
  identifiers: `AuditChain.TriggerLogVerifiesIffInsertedInOrder`, `AuditChain.SharedTimestampNeedsAscendingIds`.
- `list_live_families_for_user` says that a family has at most one live row. Consumed rows stay live, so that is true
  exactly of dead families and of families that never rotated: `SessionFamilies.OneLiveRowIffNeverRotated`.
- `_evict_oldest_family_if_at_cap` says that overlapping logins of one user serialize on the row lock. A user without a live
  row has nothing to lock, and a login that pauses between the start of its locking statement and its row locks while all
  the rows it saw are evicted locks nothing either. The cap can be exceeded exactly when there are enough overlapping
  logins: `SessionCap.CapExceededIffTooManyLogins`.
- `MfaTokenCache` says that two concurrent successful requests with one token can never both complete the login. The result
  of the consuming read is ignored, so a token opens as many sessions as overlapping requests present different unspent
  codes: `MfaToken.SessionsPerTokenIffCodes`.
- Under interleaving, a refresh that passed its checks before a logout revives the family the logout revoked. The exact
  condition is `RotationRuns.RevivedIffRefreshPending`.
- Under interleaving, a reply (an agent's, or the customer's own) that read a ticket before it was resolved takes it out of
  `resolved` without an event: `TicketRuns.StaleReplyUnresolves`. Those are the only silent moves
  (`TicketRuns.SilentMoveIffStaleStatusWrite`), and the trail tells the ticket exactly in the runs without them
  (`TicketRuns.TrailToldIffNeverSilent`).
- Granting `admin` while another request is between its role read and its write can lose the last administrator:
  `LastAdmin.GrantDuringReplacementLosesAdmins`. Which sets of requests can do that is exactly
  `LastAdmin.AdminsLostIffLosable`.
- The idempotency key is deleted by whoever fails, not only by its owner: a request that outlives its claim and then fails
  deletes the key of the request that claimed after it. Two tickets of one key can therefore be claimed less than a time to
  live apart exactly when three requests use the key: `Idempotency.TwinsIffThreeRequests`.
- `inFlightRefresh` is per tab and the cookie per browser, so two tabs of one browser can lose their session to reuse
  detection: `RefreshClient.FamilyLostIffTwoTabs`.
- A refused attempt also extends the rate-limit key, so a caller who never pauses stays out:
  `RateLimit.ImpatientCallerStaysOut`.

## Model

| member | source | states |
|---|---|---|
| AccessTokens.ScopesAreCurrent | app/modules/users/service.py:760-782 | In every serial run from an empty deployment an admitted token carries exactly the scopes the role tables give its user at that moment, also after `perm_epoch` has expired, when the epoch key lives at least as long as an access token |
| AccessTokens.ScopesCurrentIffEpochOutlivesToken | app/core/config.py:20-32 | With two roles that differ, the previous property holds of a configuration if and only if the access lifetime is at most the epoch lifetime |
| AccessTokens.StaleScopesAdmitted | app/modules/roles/service.py:189-205 | Otherwise a run in which a token is admitted with the scopes of a role already taken away |
| AccessTokens.EnrolmentMarkIsCurrent | app/modules/users/service.py:441-472 | In every serial run a token marked for enrolment passes the session checks only while its account still needs to enrol |
| AccessTokens.AccessTokensStayDead | app/modules/users/service.py:747-758 | After logout-everywhere, password reset, deactivation or disabling MFA at T, no access token of the user issued at or before T is admitted again on any route, in any continuation |
| AccessTokens.LoggedOutStaysOut | app/modules/users/service.py:784-831 | A session that was logged out is refused in every continuation by every route that does not allow revoked sessions |
| AccessTokens.RequestMoves | app/modules/users/service.py:1315-1580 | Every request leaves issued tokens and session ages alone, only moves keys forward, mints only true claims, bumps the epoch when scopes change, and bumps a key when the need to enrol ends |
| AccessTokens.RunsKeepHonest | app/modules/users/service.py:508-516 | The invariant behind the two: what a token claims is current, or a key that lives as long as the token hides it |
| AccessTokens.ShadowedIsRejected | app/core/revocation_cache.py:29-42 | A key written after a token was issued and outliving it covers the token at every instant of its life |
| AccessTokens.EndingSetsTheKey | app/modules/users/service.py:833-855 | Each of the four user-wide revocations writes the revocation key at the current instant |
| CredentialLaws.AdmissionFollowsRules | app/modules/users/service.py:741-782 | When each admission outcome occurs, on tables and keys alone |
| CredentialLaws.NewTokensAreTruthful | app/modules/users/service.py:508-516 | Every token a request mints says of a known user exactly its scopes and its need to enrol at that moment, and expires in the last second of the access lifetime |
| CredentialLaws.EnrolmentHoldsBack | app/modules/users/service.py:774-775 | A token minted while its account has to enrol is never admitted on an ordinary route, in any continuation; one minted otherwise is never held to enrolment |
| CredentialLaws.NeedFollowsRules | app/modules/users/service.py:455-472 | When an account has to enrol, by flag, second factor, role and grace |
| CredentialLaws.ScopesAreTheUnion | app/modules/roles/service.py:94-105 | A scope is held exactly when one of the roles carries it |
| CredentialLaws.JudgementFollowsRules | app/modules/users/service.py:994-1023 | When a presented token may rotate, is a race, or is reuse |
| CredentialLaws.RefreshFollowsRules | app/modules/users/service.py:1025-1070 | A refresh that may rotate exchanges the token and nothing else; one that may not mints nothing |
| CredentialLaws.EvictionFollowsRules | app/modules/users/service.py:491-493 | Which rows an eviction revokes |
| CredentialLaws.LoginFollowsRules | app/modules/users/service.py:591-683 | When a login is refused, handed to MFA, or opens a session, and what it leaves |
| CredentialLaws.MfaLoginFollowsRules | app/modules/users/service.py:1434-1513 | What a completed MFA login leaves; after a recovery code the token is held to enrolment |
| CredentialLaws.LogoutFollowsRules | app/modules/users/service.py:784-831 | Which session and rows a logout revokes; somebody else's cookie revokes nothing |
| CredentialLaws.RevokeFamilyFollowsRules | app/modules/users/service.py:913-954 | Which rows a session revocation revokes |
| CredentialLaws.RevokeOthersFollowsRules | app/modules/users/service.py:857-867 | Exactly the user's other open sessions are revoked |
| CredentialLaws.DeactivationFollowsRules | app/modules/account/repository.py:24-38 | Who may deactivate which account, and what it leaves |
| CredentialLaws.ReplacementFollowsRules | app/modules/roles/repository.py:88-97 | The grants and the key a role replacement leaves |
| CredentialLaws.MfaSettingsFollowRules | app/modules/users/service.py:1342-1364 | The flags activation and disabling leave, and the key each writes exactly when it has to |
| ClientPromises.UndisturbedTokenIsAdmitted | app/modules/users/service.py:711-782 | A token minted when no key of its user reached that instant is admitted for its lifetime but the last second, on every route its mark allows, over any run that does not disturb its session |
| ClientPromises.OnlyTheseDisturb | app/core/revocation_cache.py:29-72 | The requests that can write a key of a user or revoke a session are exactly the named ones |
| ClientPromises.RegularClientStaysLoggedIn | app/modules/users/service.py:994-1057 | After a login that no revocation has overtaken, a client that refreshes at least every 14 days is served at every refresh until its family expires, over any run that leaves its family, account and key alone |
| SessionFamilies.RefreshFamiliesStayDead | app/modules/users/service.py:994-1050 | After a user-wide revocation at T no refresh family created at or before T ever passes the rotation checks again, also after `revoke_before` has expired |
| SessionFamilies.FamiliesLiveWholeWithinCap | app/modules/users/service.py:474-506 | In every serial run families are chains whose rows are revoked together and expire together one refresh lifetime after creation, and no user has more live families than the cap |
| SessionFamilies.DeadFamiliesStayDead | app/modules/users/service.py:1000-1012 | In every serial run a family without a live row never has one again |
| SessionFamilies.RetiredForever | app/modules/users/repository.py:75-80 | A logout with its cookie, a session revocation or a detected reuse ends its family in every continuation |
| SessionFamilies.ReuseEndsTheFamilyAfterGrace | app/modules/users/service.py:1072-1113 | Presenting a consumed token of a live family ends the family if and only if more than ten seconds have passed since its consumption |
| SessionFamilies.IdleFamiliesNeverRotate | app/modules/users/service.py:1021-1023 | In every serial run a family unused for more than 14 days never passes the rotation checks again |
| SessionFamilies.MinIssuedIsCreation | app/modules/users/repository.py:367-389 | `MIN(issued_at)` over a family's live rows is the time its first row was issued |
| SessionFamilies.EvictedIsOldestFamily | app/modules/users/service.py:491-493 | The family chosen for eviction was created no later than any other live family of the user |
| SessionFamilies.LiveTogether | app/modules/users/repository.py:309-325 | Any row of a family answers for the liveness of all of them |
| SessionFamilies.OneLiveRowIffNeverRotated | app/modules/users/repository.py:346-365 | A family has at most one live row if and only if it has none or has never rotated |
| SessionCap.CapExceededIffTooManyLogins | app/modules/users/service.py:474-506 | Overlapping logins of one user, each a lock, a count and a commit, can exceed the cap if and only if there are more of them than the cap, or than the cap plus one when the user has a live family to begin with |
| SessionCap.AcquireIsExclusive | app/modules/users/repository.py:327-344 | With no more logins than that, a login that would lock beside another is blocked by an initial family both have seen |
| SessionFamilies.RequestAppliesOp | app/modules/users/service.py:956-1113 | Every request changes the refresh table by nothing, one family revocation, one rotation of a live unconsumed uncovered row, or one opening after a due eviction |
| RotationRuns.FamiliesStayChains | app/modules/users/repository.py:82-96 | In every interleaving of logins, refreshes and revocations every family stays one chain with consecutive generations, one unconsumed tip and a shared user and expiry |
| RotationRuns.InterleavedFamiliesAreChains | app/modules/users/service.py:1025-1057 | From an empty table, in every interleaving: a token has at most one successor, the rows of a family share user and expiry, and exactly the last row inserted is unconsumed |
| RefreshTokens.AtMostOneSuccessor | app/modules/users/service.py:1025-1057 | A refresh token is exchanged for at most one successor |
| RefreshTokens.ExactlyOneUnconsumed | app/modules/users/repository.py:82-96 | A row is unconsumed exactly when it is the last one inserted into its family |
| RefreshTokens.FamilySharesUserAndExpiry | app/modules/users/service.py:1041-1050 | All rows of a family have the same user and the first row's `expires_at` |
| RotationRuns.RevivedIffRefreshPending | app/modules/users/repository.py:90-96 | Under interleaving a dead family can become live again if and only if a refresh past its checks still holds its unconsumed, unexpired token |
| RotationRuns.RevocationHoldsUnderInterleaving | app/modules/users/service.py:1014-1050 | In every interleaving from an empty table, after a user-wide revocation at T no token of a family created at or before T passes the checks again, the row a pending refresh still inserts included, and also after the key has expired |
| RotationRuns.StaleIsRefused | app/modules/users/service.py:994-1019 | Key and family lifetime between them refuse a row stamped by the time of the revocation at every later instant |
| RotationRuns.ReadRules | app/modules/users/service.py:994-1023 | When the read half of a refresh goes on, and when it revokes the family |
| RotationRuns.WriteRules | app/modules/users/service.py:1025-1050 | What the write half does as winner, as a loser within ten seconds, and as a later loser |
| RotationRuns.RefreshRevivesRevokedFamily | app/modules/users/service.py:1025-1050 | A concrete interleaving in which a revoked family becomes live again |
| RefreshClient.SingleFlightIsNeverTakenForReuse | frontend/src/api/httpClient.ts:119-146 | Over every run, with any number of simultaneous refusals and anything else happening on the server, a browser with one tab holds (or is about to receive) the tip of its family and none of its refreshes takes the reuse-or-race branch |
| RefreshClient.FamilyLostIffTwoTabs | frontend/src/api/refreshCoordinator.ts:11-20 | A browser whose tabs each coordinate their own refreshes can lose its family to reuse detection if and only if it has at least two tabs |
| RefreshClient.ManyRefusalsOneRefresh | frontend/src/api/refreshCoordinator.ts:11-20 | However many requests are refused at once, one refresh is sent and all wait for it |
| RefreshClient.FreshLoginIsTrusted | app/modules/users/service.py:641-660 | A browser with one tab that has just logged in meets the invariant the run starts from |
| RefreshClient.TwoTabsLose | app/modules/users/service.py:1089-1104 | After any login, two tabs that send one cookie, the second read after the grace window, leave the family dead |
| RefreshClient.RefreshCoordinator.CoordinateRefresh | frontend/src/api/refreshCoordinator.ts:13-20 | Joins the promise in flight or starts one; every caller until it settles gets the same promise |
| RefreshClient.RefreshCoordinator.RefusedTogether | frontend/src/api/httpClient.ts:132-144 | Any number of requests refused together send one refresh, share one promise and leave with its cookie |
| UserService.ResolveEnrolmentScoping | app/modules/users/service.py:441-472 | Scoped exactly for a pending re-enrolment, or without a second factor once a privileged role is past its grace; otherwise a running deadline, the least over the privileged grants, exactly when there is one |
| UserService.FamilyCreatedAtMap | app/modules/users/repository.py:367-389 | One entry per live family of the user, each the least `issued_at` of its live rows, attained by one of them |
| UserService.OldestFamily | app/modules/users/service.py:491-492 | A key of the map with the least value |
| UserService.UserService.GetAuthenticatedUser | app/modules/users/service.py:711-782 | Each of the four outcomes exactly when expiry, session row, the two keys, the enrolment mark and the two flags say so; whoever is admitted without the enrolment flag carries no mark, and has exactly the scopes the role tables give it now |
| UserService.UserService.EvictOldestFamilyIfAtCap | app/modules/users/service.py:474-506 | Below the cap every row stays as it is; at the cap exactly the rows of one oldest family are revoked |
| UserService.UserService.Admit | app/modules/users/service.py:592-623 | Passes exactly verified accounts and accounts deactivated less than 30 days ago; whoever passes is not deactivated and has the same scopes and need to enrol as before; no other account moves, and a refusal moves nothing |
| UserService.UserService.AuthenticateUser | app/modules/users/service.py:518-683 | Opens a session exactly for a correct password of an account that is let in and has no second factor: a new family of that user expiring after the refresh lifetime, a session, a token, and an eviction exactly at the cap; keeps the invariant |
| UserService.UserService.CompleteMfaLogin | app/modules/users/service.py:1380-1432 | Opens a session for a known user; a recovery code sets the re-enrolment flag first, so that the token is marked |
| UserService.UserService.HandleReuseOrRace | app/modules/users/service.py:1072-1113 | The family of a consumed live token stays live exactly within ten seconds of the consumption |
| UserService.UserService.EligibleToRotate | app/modules/users/service.py:1014-1023 | A live unconsumed token is eligible exactly when its user exists and is not deactivated, no readable key reaches back to its issue, and it was used within 14 days |
| UserService.UserService.RotateRefreshToken | app/modules/users/service.py:956-1070 | Rotates exactly a known, unthrottled token that is unexpired, unrevoked, unconsumed and eligible; then the old token is spent, its successor has the same family, user and expiry, a session opens, and no other row changes |
| UserService.UserService.Logout | app/modules/users/service.py:784-831 | Afterwards no strict route admits the session, the family of the caller's own cookie is dead, no other session and no row of any other user has changed whoever's cookie it was, and the invariant is kept |
| UserService.UserService.LogoutAll | app/modules/users/service.py:833-855 | Afterwards no route admits any token of the user, none of its refresh tokens passes the rotation checks, every other user is admitted as before, and the invariant is kept |
| UserService.UserService.RevokeSession | app/modules/users/service.py:913-954 | Current session, unknown family and revocation are told apart exactly, no row of another user changes, and the audit entry is due exactly when the family has an unrevoked, unexpired row, whichever row the lookup returns |
| UserService.UserService.ActivateMfa | app/modules/users/service.py:1318-1366 | Afterwards the account has nothing to enrol for and none of its tokens is held to enrolment, because the epoch is bumped exactly when the account was scoped |
| UserService.UserService.DisableMfa | app/modules/users/service.py:1515-1580 | Refused exactly for unknown or privileged accounts; otherwise disables MFA and revokes user-wide |
| UserService.UserService.DeactivateAccount | app/modules/account/service.py:43-77 | Allowed exactly for a verified account (by its user) or an active one (by an administrator); at once no token of the user is admitted and none of its refresh tokens may rotate |
| UserService.UserService.ReplaceUserRoles | app/modules/roles/service.py:189-205 | Replaces the grants by the requested ones, all granted now, and bumps the epoch; refused for empty, duplicate or unknown names |
| MfaToken.SessionsPerTokenIffCodes | app/modules/users/service.py:1444-1513 | Overlapping requests with one MFA token can open k sessions if and only if they present k different unspent codes |
| MfaToken.SerialTokenIsSingleUse | app/modules/users/cache.py:165-187 | One after the other, the requests that present a token open at most one session |
| MfaToken.FiveWrongCodesKillTheToken | app/modules/users/service.py:1487-1507 | A token survives four wrong codes and is gone with the fifth |
| MfaToken.ServeRules | app/modules/users/service.py:1444-1513 | A request logs in exactly with a live token and an unspent code, which spends both |
| Totp.AcceptedOnceIffMarkOutlivesWindow | app/modules/users/service.py:1475-1485 | Every (user, step) is accepted at most once in every run if and only if a mark lives at least 90 seconds |
| Totp.NeverTwice | app/modules/users/cache.py:215-231 | Two accepted attempts of one user in one run have different steps |
| Totp.ReplaySucceeds | app/core/security.py:225-237 | With a shorter mark, one code is accepted at the first and at the last instant of its window |
| Totp.VerifyTotpCode | app/core/security.py:225-237 | None exactly when no step within one of the current one has that code, else the first of them that does |
| Totp.AcceptedIffFirstUse | app/modules/users/service.py:1475-1485 | With marks that outlive the window, an attempt is accepted for a step exactly when that step is the first in its window with the code entered and the user was never accepted for it before |
| Totp.TruncateReadsFourBytes | app/core/security.py:211-217 | Dynamic truncation is the four bytes at the offset of the last nibble without the top bit (section 5.3 of RFC 4226) |
| Totp.HotpIsSixDigits | app/core/security.py:211-217 | A code has six digits and reads as the truncated digest modulo one million |
| Totp.Rfc4226Example | app/core/security.py:211-217 | The worked example of section 5.4 of RFC 4226 gives 872921 |
| Totp.CheckAttempt | app/modules/users/service.py:1473-1485 | Accepts a matching step exactly when it has no live mark, and then marks it |
| Totp.DecimalReadsBack | app/core/security.py:211-217 | The zero-filled digits of a code read back as the truncated digest modulo a power of ten |
| RateLimit.AtMostMaxPerWindow | app/modules/support/cache.py:97-103 | For every attempt sequence any half-open window holds at most the maximum number of accepted attempts |
| RateLimit.CountsClimb | app/modules/users/cache.py:89-95 | Attempts within one window of each other are numbered consecutively |
| RateLimit.ImpatientCallerStaysOut | app/modules/support/service.py:298-303 | A caller who never pauses for a window is let in for exactly the first attempts |
| RateLimit.Counter.RecordAndCheck | app/modules/support/cache.py:97-103 | INCR then EXPIRE: the count restarts after expiry and the expiry moves with every attempt |
| LastAdmin.SerialRunsKeepAnAdmin | app/modules/roles/service.py:178-200 | Serial runs of role replacement and admin deactivation always leave an active administrator |
| LastAdmin.AdminsLostIffLosable | app/modules/roles/service.py:178-200 | Some interleaving of a set of requests leaves no active administrator if and only if an active user is both granted admin and dropped (and, if it holds admin already, demoted once more while another administrator is there) and every other administrator is dropped |
| LastAdmin.InterleavedRunsKeepAnAdmin | app/modules/roles/repository.py:52-97 | In particular every interleaving leaves one when no user is both granted admin and dropped |
| LastAdmin.GrantDuringReplacementLosesAdmins | app/modules/roles/service.py:178-185 | Without that proviso an interleaving that ends with no active administrator |
| LastAdmin.RoleService.CountActiveAdminsExcluding | app/modules/roles/repository.py:52-86 | The number of active administrators other than the given user |
| LastAdmin.RoleService.ReplaceForUser | app/modules/roles/repository.py:88-97 | The user's role set becomes exactly the given one |
| LastAdmin.RoleService.ReplaceUserRoles | app/modules/roles/service.py:116-207 | Each outcome exactly when its rule is the first broken: self-target, empty or repeated names, unknown name, a scope the actor lacks, missing target, last administrator; otherwise exactly the named roles; an active administrator remains |
| LastAdmin.ReplacementFollowsRules | app/modules/roles/service.py:136-187 | The same of the decision, on roles, catalogue and scopes alone |
| LastAdmin.ScopesComeFromActors | app/modules/roles/service.py:159-176 | Over any serial run a scope a user gains was held by the actor of a replacement aimed at that user |
| LastAdmin.RoleService.DeactivateUser | app/modules/admin_users/service.py:320-353 | Each outcome exactly when its rule is the first broken, otherwise exactly the target is deactivated; an active administrator remains |
| LastAdmin.DeactivationFollowsRules | app/modules/admin_users/service.py:324-341 | The same of the decision |
| LastAdmin.RoleService.IsLastAdmin | app/modules/roles/service.py:257-283 | The target holds admin and every active administrator is the target |
| TicketRuns.ClosedIsFrozen | app/modules/support/repository.py:182-239 | In every interleaving, with arbitrarily stale reads, a closed ticket's status, closing fields, resolution fields and assignee never change |
| TicketRuns.StaleReplyIsStoppedByTheCheck | app/modules/support/models.py:55-59 | A stale reply to a closed ticket proposes a row that violates the closed CHECK |
| TicketRuns.FirstResponseIsNotFrozen | app/modules/support/service.py:910-952 | Exactly one kind of write touches a closed row: a public agent reply that read it as resolved and unanswered stamps the first response; every other write leaves the row as it is |
| TicketRuns.WriteRespectsChecks | app/modules/support/repository.py:170-192 | Whatever a request read, its write keeps both CHECKs and cannot reach a closed row |
| TicketRuns.TransitionRules | app/modules/support/service.py:615-761 | Resolving, closing and reopening with any stale read: exactly when the write takes effect, and the whole row and event it leaves |
| TicketRuns.AssignmentRules | app/modules/support/repository.py:241-307 | Assignment takes effect exactly on the assignee it read, and what both writes leave |
| TicketRuns.SecondAssignmentLoses | app/modules/support/repository.py:263-279 | Of two assignments that read the same row only the first takes effect |
| TicketRuns.ReplyRules | app/modules/support/service.py:910-952 | The status, stamps and event every reply leaves, with any stale read |
| TicketRuns.SweepRules | app/modules/support/repository.py:309-328 | A sweep closes a ticket exactly when it was resolved more than seven days ago, and the row it leaves |
| TicketRuns.StatusTellsTheTurn | app/modules/support/service.py:910-952 | In every serial run an active ticket waits on the customer exactly when an agent's public reply was the last to set the turn, on support when the customer's answer or a reopening was, and is open when nothing has |
| TicketRuns.SerialRunsNeverTripACheck | app/modules/support/models.py:55-66 | In every serial run from creation no request ever proposes a row that a CHECK rejects |
| TicketRuns.TrailTellsTheTicket | app/modules/support/service.py:654-662 | In every serial run the audit events replay to the ticket's phase and assignment, and its phase events are created, (resolved reopened)*, an optional resolved, an optional close, auto-close only after resolved |
| TicketRuns.RequestMoves | app/modules/support/service.py:500-761 | However stale its read, a write that is not a silent move makes at most one legal phase or assignment move and records exactly that |
| TicketRuns.SilentMoveIffStaleStatusWrite | app/modules/support/service.py:910-952 | A write changes the phase without an event if and only if it is a reply that sets the status as it read the ticket, and the ticket is resolved by now |
| TicketRuns.TrailToldIffNeverSilent | app/modules/support/service.py:923-952 | In an interleaving the trail tells phase and assignment at every point if and only if no such write happens |
| TicketRuns.InterleavedTrailIsFaithful | app/modules/support/repository.py:182-239 | In those interleavings the phase events also keep their regular form |
| TicketRuns.StaleReplyUnresolves | app/modules/support/service.py:923-952 | Any status-setting reply to an active ticket, an agent's or the customer's, has an interleaving after which the ticket is active and the trail says resolved |
| TicketRuns.ReopenOrSweep | app/modules/support/repository.py:229-239 | For a resolved ticket the reopen guard holds exactly when the sweep guard does not |
| TicketRuns.LapsedOnlyCloses | app/modules/support/service.py:734-749 | In serial runs a ticket past its window stays resolved or goes to closed |
| TicketRuns.SweepIsExactAndIdempotent | app/modules/support/repository.py:309-328 | A sweep closes exactly the lapsed tickets and a repeat at the same instant closes none |
| SupportDesk.TicketDesk.CreateTicket | app/modules/support/service.py:244-370 | The new row in full, its trail is its creation, every other row is untouched, and the books of all tickets still balance |
| SupportDesk.TicketDesk.CreateReply | app/modules/support/service.py:836-970 | The status after every reply and exactly when the first response is stamped; phase changes only by reopening, exactly for the requester's public reply within seven days of the resolution, and is recorded; the books balance |
| SupportDesk.TicketDesk.ResolveTicket | app/modules/support/service.py:615-676 | Succeeds exactly for an agent on an active ticket; the whole row it leaves and one more event in its trail; the books balance |
| SupportDesk.TicketDesk.CloseTicket | app/modules/support/service.py:678-718 | Succeeds exactly for an agent or the requester on a ticket that is not closed; the whole row it leaves and one more event; the books balance |
| SupportDesk.TicketDesk.ReopenTicket | app/modules/support/service.py:720-761 | Succeeds exactly within seven days of the resolution; the whole row it leaves, out of reach of the sweep, and one more event; the books balance |
| SupportDesk.TicketDesk.AssignTicket | app/modules/support/service.py:500-571 | Succeeds exactly for an eligible target on a ticket that is not closed, changes nothing but the assignee, and is recorded; the books balance |
| SupportDesk.TicketDesk.UnassignTicket | app/modules/support/service.py:573-613 | Succeeds exactly on a ticket that is not closed, changes nothing but the assignee, and is recorded; the books balance |
| SupportDesk.TicketDesk.AutoCloseResolved | scripts/auto_close_resolved_tickets.py:56-72 | Closes exactly the tickets resolved more than seven days ago, with the row and the one event each gets, changes no other, and the books balance |
| SupportDesk.TicketDesk.CloseLapsed | app/modules/support/repository.py:309-328 | The batch update returns exactly the tickets it closed, each once |
| SupportDesk.RequestBalances | app/modules/support/service.py:500-761 | A request on one ticket keeps every ticket's own events in the shared trail replaying to its row in their regular form |
| SupportDesk.SweepBalances | scripts/auto_close_resolved_tickets.py:56-72 | So does a sweep with one entry per closed ticket |
| Idempotency.AtMostOneTicketPerKey | app/modules/support/service.py:269-356 | In every interleaving that ends within one time to live, failures, releases and deaths included, at most one ticket is committed, and every success returns it to a request with its creator's payload hash |
| Idempotency.OneTicketIffWithinTtl | app/modules/support/cache.py:29-45 | Runs that end within d of their start commit at most one ticket if and only if d is less than the time to live or there is only one request |
| Idempotency.TwinsIffThreeRequests | app/modules/support/service.py:341-348 | Some interleaving commits two tickets of one key claimed less than a time to live apart if and only if at least three requests use the key |
| Idempotency.ReleaseFreesForeignKey | app/modules/support/cache.py:70-83 | From the start: a request that outlives its claim and fails leaves the next claimant at work without a key |
| Idempotency.SuccessesAreTruthful | app/modules/support/service.py:383-397 | At any time, also after expiry, a success returns a committed ticket with the caller's own payload hash, and an envelope that names a ticket names a committed one |
| Idempotency.ReplayReturnsTheTicket | app/modules/support/service.py:275-291 | A request with the same payload hash that comes within the time to live of a resolution is answered with its ticket |
| Idempotency.PollRules | app/modules/support/service.py:383-397 | When a poll returns the ticket, waits on, or is refused |
| Idempotency.ResolveReplay | app/modules/support/service.py:372-397 | Which ticket, or the key-reuse conflict, the bounded poll reports, in terms of the first envelope that is not pending |
| AuditChain.TriggerLogVerifiesIffInsertedInOrder | scripts/verify_audit_chain.py:42-48 | A log built only by the trigger verifies as intact if and only if its rows were inserted in ascending (`occurred_at`, `id`) order |
| AuditChain.SameTailSameHistory | scripts/verify_audit_chain.py:90-107 | Two accepted chains that end in the same hash have equal length and equal hashed fields throughout |
| AuditChain.PrefixAccepted | scripts/verify_audit_chain.py:73-107 | Every prefix of an accepted chain is accepted |
| AuditChain.VerifyChain | scripts/verify_audit_chain.py:73-107 | Reports nothing exactly when every row names its predecessor's hash and carries its own, else the first row that does not, with the link as reason exactly when the link is wrong |
| AuditChain.FetchedTellsTheRow | scripts/verify_audit_chain.py:110-128 | What the verifier is given about a row is that row's columns and the hash recomputed from them |
| AuditChain.PreimageFormat | migrations/versions/57a978462b74_add_audit_log_and_history_view.py:97-103 | The hashed text, column by column |
| AuditChain.SharedTimestampNeedsAscendingIds | migrations/versions/57a978462b74_add_audit_log_and_history_view.py:139-161 | Rows that share a timestamp with descending identifiers make an untouched log verify as broken |
| AuditChain.BackwardLinkBreaks | scripts/verify_audit_chain.py:90-107 | No accepted chain holds a row seeded from a row behind it |
| AuditChain.SqlHasherIsCollisionless | migrations/versions/57a978462b74_add_audit_log_and_history_view.py:88-109 | With an injective digest the concatenated row hash determines the previous hash and every hashed column, and never equals the genesis value |
| AuditChain.IntactHashesDiffer | scripts/verify_audit_chain.py:73-107 | The row hashes of an accepted chain are pairwise different |
| AuditChain.AuditLogTable.SeedHash | migrations/versions/57a978462b74_add_audit_log_and_history_view.py:145-152 | The hash of a row with no later timestamp and no greater identifier at that timestamp, or genesis |
| AuditChain.AuditLogTable.Insert | migrations/versions/57a978462b74_add_audit_log_and_history_view.py:139-161 | Appends the given row seeded from a newest one, with the hash of that seed and its body, and keeps the table trigger-built |
| Pagination.FollowingCursorsListsEverything | app/modules/support/repository.py:60-91 | Following `next_cursor` to the end yields exactly the filtered sorted list, each row once, in max(1, ceil(n/limit)) pages, in either direction |
| Pagination.FollowingTerminates | app/modules/audit/repository.py:93-121 | Following the cursors does come to an end |
| Pagination.FollowingCursorsThroughChanges | app/modules/support/repository.py:93-168 | The same while rows change between fetches, as long as key and filter do not depend on what changes |
| Pagination.BoundedListingIsSuffix | app/modules/admin_users/repository.py:94-114 | The cursor condition cuts the full listing exactly after the cursor's row |
| Pagination.CursorRoundTrip | app/modules/support/repository.py:23-34 | Decoding an encoded cursor gives back its key |
| Pagination.CursorDecodesIff | app/modules/support/repository.py:27-34 | A cursor decodes to a key exactly when it encodes a timestamp, a separator and an identifier |
| Pagination.FetchPage | app/modules/support/repository.py:439-474 | Nothing exactly for a malformed cursor; with the cursor that follows the first i rows of the plain listing, the next rows of that listing and the cursor after them |
| Pagination.PageCount | app/modules/support/repository.py:60-91 | The least number of pages, at least one, that holds n rows |
| Listings.QueueSurvivesHandOvers | app/modules/support/repository.py:263-306 | The agent queue without an assignee filter lists every queued ticket exactly once, in order, while any number of tickets are assigned and unassigned between any two fetches |
| Listings.OwnTicketsComplete | app/modules/support/repository.py:60-91 | A customer's own tickets followed to the end are exactly the tickets of that requester, newest first |
| Listings.QueueComplete | app/modules/support/repository.py:93-168 | The agent queue followed to the end is exactly the tickets of the status (or not closed), category and assignee asked for, the longest waiting first |
| Ordering.OrderByOrders | scripts/verify_audit_chain.py:42-48 | With distinct keys the sorted listing is strictly ordered |
| Ordering.OrderByPermutes | app/modules/audit/repository.py:93-121 | The sorted listing holds exactly the given rows |
| Ordering.OrderedIsUnique | scripts/verify_audit_chain.py:42-48 | A strictly ordered arrangement of given rows is unique |
| Prelude.TtlStore.SetIfAbsent | app/modules/users/cache.py:224-231 | SET NX EX writes exactly when no live value is there |

## Left out

- Argon2, AES-GCM, SHA-256, HMAC and JWT signing: abstract functions, injective where a proof needs it; a row hash is assumed never to equal genesis only through that injectivity.
- Event names with a `|` in them: the audit hash would then not determine its columns; the events the code writes are plain identifiers.
- Email, GeoIP and device labels: best-effort output with no effect on state.
- Routers, schemas, dependency wiring, React screens and stores: plumbing.
- MFA tokens inside the credential runs, login throttling counters: `Credentials.CompleteMfa` may happen for any account at any time, which includes every run the tokens allow; the token itself is `MfaToken`, where a used mark does not expire during a run; the counters have the shape of `RateLimit.Counter`.
- Password-reset tokens, recovery-code rows and TOTP secrets as rows: their checks are inputs of the requests that use them.
- Self-service deactivation and reactivation in the last-admin runs: that code does not consult the check.
- Profile changes, purge jobs, anonymisation, row-level security, the breached-password list and the other migrations: they add easy members.
- Valkey outages and clock skew: one monotone clock and available stores; the fail-closed branches of the cache reads are not part of this model.
- Base64, ISO timestamps and UUID text: a codec that round-trips, with no `|` in a timestamp.
- The audit and admin-user listings as separate instances: they have the query shape `Pagination` proves for every key, filter and direction.
- Reply bodies and attachments: `admitted` stands for their checks.
- Idempotency.ResolveReplay: the sleeps between polls and the final ticket lookup are not in the method; the lookup is in the interleaved machine and `Idempotency.SuccessesAreTruthful` shows that it succeeds.
- RefreshClient.SingleFlightIsNeverTakenForReuse: supposes that every response is delivered and that nobody outside the browser presents tokens of its family; a login happens only while no refresh is in flight.
- SessionCap.CapExceededIffTooManyLogins: logins alone; revocation, expiry and rotation do not happen during its runs. The lock statement is taken to work under PostgreSQL's READ COMMITTED: it sees a snapshot, may pause, and then locks those rows of the snapshot that still qualify, all at once rather than row by row.
- Credentials: the per-family refresh limit is a boolean input of the refresh request; its counter is `RateLimit.Counter`.
