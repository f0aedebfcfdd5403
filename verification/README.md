# Verified model of the starter project's stateful core

This project models, in Dafny, the parts of the repository whose correctness rests on state
and timing rather than on wiring, and proves what they promise:

- **Job queue** (`Queue.dfy`, `QueueProtocol.dfy`, `QueueFairness.dfy`): the `queue_jobs`
  table, the worker that claims, runs, finishes or releases, and a transition system of any
  number of workers that may crash, with the lease arithmetic on clocks floored to seconds.
- **Permission cache** (`RbacTables.dfy`, `RbacCommands.dfy`, `RbacAnswers.dfy`,
  `RbacStore.dfy`, `RbacCache.dfy`, `RbacRevocations.dfy`): the RBAC tables and commands, the versioned cache,
  readers and writers interleaved step by step with torn reads, and overlapping revocations.
- **Sessions** (`RefreshProtocol.dfy`, `SignOutProtocol.dfy`, `LoginProtocol.dfy`,
  `Sessions.dfy`, `SessionRuns.dfy`, `SessionAnswers.dfy`, `SessionLeeway.dfy`,
  `SessionCap.dfy`, `SessionOvershoot.dfy`, `SessionStore.dfy`): rotation, sign-out, password changes and logins
  under concurrency, and whole serial runs with the session cap, every sign-out path and the
  access-token denylist.
- **Verification codes** (`Codes.dfy`, `CodeRuns.dfy`): issuing and redeeming codes and magic links, serially
  and interleaved.
- **Cache drivers and rate limiter** (`CacheDrivers.dfy`, `Cache.dfy`, `LimiterProtocol.dfy`):
  the in-memory and the SQL driver against one abstract TTL map, the limiter as a function of
  history, and its checks interleaved.
- **Cron and scheduler** (`Cron.dfy`, `CronForms.dfy`, `Schedule.dfy`): compilation of an expression to five
  bit masks against the meaning of its text, and the wake-up loop.
- **SMTP pool** (`SmtpPool.dfy`): connection accounting under any interleaving.
- **Strings** (`Contact.dfy`, `Rebind.dfy`): phone canonicalisation, SQL placeholders, and the
  in-place integer formatter.

`Common.dfy`, `Text.dfy` and `Strconv.dfy` hold what these share: 64-bit wrap-around, clocks
floored to seconds, sequences seen as sets, and the pieces of Go's `strings` and `strconv`
that the code relies on.

Code that updates state is modelled by classes and loops whose contracts tie the new state to
a specification function of the old one; the theorems about runs are lemmas on those
functions. Concurrency is modelled by transition systems whose steps are single statements,
atomic operations or clock ticks, and theorems quantify over every valid sequence of steps.

## Assumptions

- Each SQL statement, or transaction where the source opens one, is atomic and reads the
  primary; string equality in the database is exact; timestamps keep their full precision.
- Time is one non-decreasing clock in nanoseconds. In the queue, workers read it with a skew
  of at most `skew`, and a claim commits at most `delay` after its clock reading.
- Queue handlers return by their context deadline, and a final write ends within its own 5 s.
  Deleting a job that has no handler has no deadline in the source; the model gives it the
  same one.
- Identifiers the application generates are new, and hashes are injective: a stored hash is
  represented by the secret itself.
- In the session runs, cache writes succeed, no access token is presented past its expiry
  (the parser's leeway is the subject of `SessionLeeway`), and a command runs to completion
  before the next; interleaving is the subject of `RefreshProtocol`, `SignOutProtocol` and
  `LoginProtocol`, in which denials succeed and do not run out.
- The cache key that holds the permission version is never evicted. Neither its counter nor a
  limiter's reaches the largest 64-bit integer.
- Text is valid Unicode.

## Where the code and its own documentation differ

The model follows the code.

- `internal/platform/queue/database.go:19-23` asks the lease to be at least the job timeout.
  Exclusion needs more: job timeout, the 5 s of the final write, claim latency and clock skew
  together (`QueueProtocol.ExclusionIffSlack`).
- `internal/platform/schedule/cron.go:24-27` calls the start of a range optional. An empty
  bound is refused (`CronText.EmptyStartRefused`, `CronText.EmptyEndRefused`).
- `internal/modules/auth/domain/contact.go:33-35` says every form of one subscriber folds to
  a single number. A doubled trunk zero does not (`Contact.DoubledTrunkZero`).
- `internal/modules/auth/domain/refresh_token.go:51-53` and the SQL filter of
  `internal/modules/auth/infrastructure/repository.go:261-281` disagree at the instant
  `now = ExpiresAt`. A refresh then brings a session back past the cap, one for each session
  that expires at that instant, and again a lifetime later: although
  `internal/modules/auth/application/command/issuer.go:91-94` says sessions cannot accumulate,
  their number has no bound (`SessionOvershoot.CapFailsWithoutBound`).
- The same claim fails under concurrency. k logins that overlap exceed the cap by k - 1,
  and an ordinary refresh beside a login removes any bound: from its compare-and-set
  (`internal/modules/auth/application/command/refresh.go:66`) until it saves the successor, no
  listing and no eviction finds the session (`LoginProtocol.CapHoldsIff`).
- `internal/modules/auth/application/command/change_password.go:61` says a change signs out
  every session at once. A session being rotated at that moment, and a login that verified the
  old password before, remain (`SignOutProtocol.PasswordChangeCompleteIff`).
- `internal/modules/auth/application/command/login.go:155-158` calls the limit a sliding
  window. When checks overlap, the counter can run out between the increment and the new
  window of one of them, and then up to 2 * max - 1 pass in one window
  (`LimiterProtocol.LimitHoldsIff`).
- `internal/modules/rbac/infrastructure/repository.go:316-318` counts holders to protect the
  last super_admin. Two overlapping revocations defeat the count
  (`RbacRevocations.LastHolderLostIff`).

## Model

| member | source | states |
|---|---|---|
| `QueueProtocol.ExclusionIffSlack` | internal/platform/queue/database.go:17-31 | no schedule of any number of workers, crashes and lost writes ever has two live holders of one job, if and only if claim latency plus clock skew is at most the 55 s that 360 s of lease leave after 300 s of handler and 5 s of final write |
| `QueueProtocol.HeldRowNotEligible` | internal/platform/queue/database.go:228-259 | while a worker holds a job, the job's row is not eligible for any other worker's claim, although both clock readings are floored to whole seconds |
| `QueueProtocol.FinalWriteIsOwn` | internal/platform/queue/database.go:194-225 | whenever a worker is about to finish or release, the row is still there, reserved under that worker's own claim time and attempt number |
| `QueueProtocol.JobsAccounted` | internal/platform/queue/database.go:173-225 | after any run each enqueued job is pending or removed, never both; it was claimed at most maxAttempts times plus once per crash or lost final write; a job given up as exhausted had its whole budget |
| `QueueProtocol.ClaimSpendsAnAttempt` | internal/platform/queue/database.go:235-253 | claim does not filter on attempts, yet in every run a claimed row has fewer than maxAttempts attempts, one more allowed per crash or lost write; so without those each claim spends a remaining attempt |
| `QueueProtocol.RunKeepsInv` | internal/platform/queue/database.go:173-269 | exclusive holding, timely workers that own their rows, and job accounting are kept by every run |
| `QueueProtocol.CallIsARun` | internal/platform/queue/database.go:173-225 | what a serial call leaves is what a run of the concurrent system leaves, and a row it deleted was removed for its reason: no handler, success, a permanent error, or attempts used up |
| `QueueFairness.NeverOvertaken` | internal/platform/queue/database.go:235-249 | once the clock second has passed a waiting row's available_at, whatever is claimed while the row is eligible was already its rival at that moment, over every later sequence of steps |
| `QueueFairness.StepNeverOvertakes` | internal/platform/queue/database.go:235-249 | one step of the above: no enqueue, claim, release, finish or crash adds a row ordered before the waiting one |
| `QueueFairness.OvertakingsBounded` | internal/platform/queue/database.go:235-259 | from a waiting row's turn on, the jobs claimed by workers that could have claimed it number at most its rivals that nobody held then plus the crashes and lost final writes meanwhile, over every run; so without those each rival passes it at most once |
| `QueueTable.NextExists` | internal/platform/queue/database.go:235-244 | if any row is eligible, there is an eligible row that no eligible row precedes in (available_at, created_at) |
| `QueueServer.DatabaseQueue.Enqueue` | internal/platform/queue/database.go:50-60 | one new row with the task and payload given, due now, with MaxRetry + 1 attempts, or one when MaxRetry is not positive; no other row changes |
| `QueueServer.DatabaseQueue.Claim` | internal/platform/queue/database.go:228-259 | a job exactly when some row is due and is free or reserved more than 360 s ago, and then the one due first, the oldest of those due at the same second, reserved now with one more attempt, handed out with its old attempt count, and no other row changes |
| `QueueServer.DatabaseQueue.Release` | internal/platform/queue/database.go:262-269 | the row unreserved and put off by the backoff, nothing else |
| `QueueServer.DatabaseQueue.ProcessOne` | internal/platform/queue/database.go:173-225 | works exactly when a row is eligible; the row is gone exactly after a missing handler, success, a permanent error or the last attempt, and otherwise back with one more attempt and its backoff; over any sequence of calls a job is handed to its handler at most as often as its budget, and a job in the table has attempts left |
| `QueueServer.BackoffDelay` | internal/platform/queue/database.go:274-284 | the guarded doubling loop equals min(5 * 2^(n-1), 300) seconds for every n and stays between 5 s and 300 s, so it cannot overflow |
| `RbacProtocol.CurrentEntriesExact` | internal/modules/rbac/application/query/get_user.go:36-91 | in every interleaving, once everything that matters to a user has been followed by a bump, a cached entry of the current version is exactly the user's roles and direct-or-inherited permissions, although load makes three separate reads |
| `RbacProtocol.AnswersAreFresh` | internal/modules/rbac/application/query/get_user.go:36-78 | a GetUser that begins after a state answers from views no older than the last bump before that state, whatever runs concurrently |
| `RbacProtocol.BumpedWriteIsSeen` | internal/modules/rbac/application/cache/permission_cache.go:36-93 | a GetUser begun after a command's bump answers exactly the tables, if nothing the user can see changed since the command's write |
| `RbacProtocol.RunKeepsInv` | internal/modules/rbac/application/query/get_user.go:36-91 | every cached entry and every reader in progress is at least as new as the bump its version stands for, over all runs |
| `RbacProtocol.ReaderAdvances` | internal/modules/rbac/application/query/get_user.go:64-78 | each of the three reads keeps the views in order and no older than the version read first |
| `RbacProtocol.UnbumpedCommandSettles` | internal/modules/rbac/application/command/cache.go:10-45 | a command that does not reach its bump leaves every user's cached entries as current as they were |
| `RbacProtocol.TornEntryPossible` | internal/modules/rbac/application/query/get_user.go:64-78 | between a write and its bump a torn read can cache an entry of the current version that matches no state the tables were ever in, so the coherence theorem needs its condition |
| `RbacProtocol.CoherentIff` | internal/modules/rbac/application/query/get_user.go:36-91 | given any history of writes and bumps: every interleaving of readers leaves only exact current-version entries for a user, if and only if, from the last bump on, roles read in any state, and direct permissions of a state joined with inherited ones of the same or a later state, are what the user has now |
| `RbacCache.PermissionCache.BumpChecked` | internal/modules/rbac/application/command/cache.go:36-45 | the version grows by one unless both attempts fail |
| `RbacCache.PermissionCache.Execute` | internal/modules/rbac/application/query/get_user.go:36-62 | a current entry is answered as it is and otherwise the tables are; over a coherent cache the answer is exactly what the tables say and the cache stays coherent, also when the write to it fails |
| `RbacCache.PermissionCache.Load` | internal/modules/rbac/application/query/get_user.go:64-78 | roles and merged permissions are exactly the tables' |
| `RbacCache.PermissionCache.HasPermission` | internal/modules/rbac/api.go:71-87 | over a coherent cache: allowed exactly for a super_admin or a direct or inherited permission |
| `RbacCache.Merge` | internal/modules/rbac/application/query/get_user.go:80-91 | the two lists concatenated, first occurrences kept in order; no repetition, and as a set the union |
| `RbacRevocations.LastHolderLostIff` | internal/modules/rbac/application/command/revoke_role.go:74-97 | from two or more holders of super_admin some run of overlapping calls ends with none, if and only if two revocations may be between check and delete at once |
| `RbacInvariants.AHolderRemains` | internal/modules/rbac/application/command/revoke_role.go:38-97 | no sequence of RBAC commands takes super_admin from its last holder |
| `RbacInvariants.HoldersAreAppointed` | internal/modules/rbac/application/command/assign_role.go:39-95 | when every AssignRole carries an identity, whoever holds super_admin after a run held it before, or was appointed at some step by a different user who held it at that step |
| `RbacInvariants.NobodySelfAppoints` | internal/modules/rbac/application/command/assign_role.go:77-95 | with no holder to begin with, identified callers never create one |
| `RbacInvariants.HoldersAfter` | internal/modules/rbac/application/command/protected.go:10-23 | the exact holder set of super_admin after any command: one more after a grant that went through, one fewer after a revocation, otherwise unchanged |
| `RbacInvariants.NoBumpNoChange` | internal/modules/rbac/application/command/update_role.go:36-70 | a command that does not bump, rejected ones included, changes no user's roles, direct or inherited permissions |
| `RbacInvariants.RolesAfter` | internal/modules/rbac/infrastructure/repository.go:278-288 | the exact roles of any user after any command: assignment adds, revocation and deletion of the role remove, nothing else changes them |
| `RbacInvariants.DirectAfter` | internal/modules/rbac/infrastructure/repository.go:293-303 | the exact direct permissions of any user after any command: grant adds, revocation and deletion of the permission remove, nothing else changes them |
| `RbacInvariants.CarriesAfter` | internal/modules/rbac/infrastructure/repository.go:112-144 | the exact permissions of any role after any command: a sync of that role replaces them by the request's distinct codes, deletions remove, nothing else changes them |
| `RbacInvariants.InheritedThroughRoles` | internal/modules/rbac/infrastructure/repository.go:338-346 | the join over both link tables returns exactly the union of what the user's roles carry |
| `RbacAnswers.AssignRoleIff` | internal/modules/rbac/application/command/assign_role.go:39-95 | done if and only if both names are non-blank, the role exists, super_admin is handed out without an identity or by another user who holds it, and the user exists or the dialect skips such links; then exactly that link is added; and when each refusal is given |
| `RbacAnswers.RevokeRoleIff` | internal/modules/rbac/application/command/revoke_role.go:38-97 | done if and only if both names are non-blank, the role exists, and it is not super_admin of its only holder; then exactly that link goes |
| `RbacAnswers.GrantPermissionIff` | internal/modules/rbac/application/command/grant_permission.go:36-53 | done if and only if both names are non-blank, the permission exists, and the user exists or the dialect skips such links |
| `RbacAnswers.RevokePermissionIff` | internal/modules/rbac/application/command/revoke_permission.go:36-53 | done if and only if both names are non-blank and the permission exists, and then exactly that link goes |
| `RbacAnswers.CreateIff` | internal/modules/rbac/application/command/create_role.go:34-60 | a role or permission is created if and only if code and name are non-blank and the code is new |
| `RbacAnswers.UpdateRoleIff` | internal/modules/rbac/application/command/update_role.go:36-59 | a role other than the two built-in ones is renamed if and only if it exists, and the cache is bumped exactly when the name changes |
| `RbacAnswers.UpdatePermissionIff` | internal/modules/rbac/application/command/update_permission.go:39-77 | the same for a permission other than rbac.manage, an empty group keeping the present one |
| `RbacAnswers.DeleteRoleIff` | internal/modules/rbac/application/command/delete_role.go:36-65 | a role other than the two built-in ones is deleted if and only if it exists, with exactly its links |
| `RbacAnswers.DeletePermissionIff` | internal/modules/rbac/application/command/delete_permission.go:36-65 | the same for a permission other than rbac.manage |
| `RbacAnswers.SyncIff` | internal/modules/rbac/application/command/sync_role_permissions.go:39-97 | a sync goes through if and only if the role exists; exactly the non-blank codes that are new get a row, no row changes, and no other role's links do |
| `RbacTables.ExecuteKeepsConsistent` | internal/modules/rbac/infrastructure/repository.go:79-144 | primary and foreign keys stay valid under every command, cascades and the sync transaction included |
| `RbacStore.Store.AssignRole` | internal/modules/rbac/application/command/assign_role.go:39-71 | the method does exactly what the command's specification says; when that goes through is `RbacAnswers.AssignRoleIff` |
| `RbacStore.Store.AuthorizeSuperAdminGrant` | internal/modules/rbac/application/command/assign_role.go:77-95 | the scan allows a grant if and only if there is no identity, or it is a different user who holds super_admin now |
| `RbacStore.Store.RevokeRole` | internal/modules/rbac/application/command/revoke_role.go:38-70 | the method does exactly what the command's specification says |
| `RbacStore.Store.EnsureSuperAdminRemains` | internal/modules/rbac/application/command/revoke_role.go:74-97 | the scan refuses exactly the revocation from the only holder |
| `RbacStore.Store.SetPermissions` | internal/modules/rbac/infrastructure/repository.go:128-144 | commits exactly when no id repeats, and then the role's links are exactly the ids given while other roles' links stay; otherwise nothing changes |
| `RbacStore.Store.CollectIds` | internal/modules/rbac/application/command/sync_role_permissions.go:52-80 | one id per distinct trimmed non-blank code, each backed by a row, rows created only where missing |
| `RbacStore.Store.SyncRolePermissions` | internal/modules/rbac/application/command/sync_role_permissions.go:39-96 | the role ends with exactly the request's distinct codes; the links never clash, so the transaction commits |
| `RefreshProtocol.OneCredentialPerFamily` | internal/modules/auth/application/command/refresh.go:35-76 | in every schedule of concurrent refreshes, logouts and revocations, a family's un-revoked tokens plus its rotations between compare-and-set and save number at most one |
| `RefreshProtocol.RevocationFinalIff` | internal/modules/auth/application/command/refresh.go:66-92 | after a family revocation no schedule gives the family a live token again, if and only if no rotation of it was in flight at that moment |
| `RefreshProtocol.RunKeepsInv` | internal/modules/auth/application/command/refresh.go:35-92 | only a family's newest token is live or being rotated, and one rotation at a time, over all runs |
| `RefreshProtocol.DeadRun` | internal/modules/auth/application/command/refresh.go:47-51 | a family with no live token and no rotation in flight never gets a live token |
| `RefreshProtocol.FamilyIsLinear` | internal/modules/auth/infrastructure/repository.go:216-227 | no two tokens of a family are the same rotation, and an older one is revoked |
| `RefreshProtocol.ExchangedAtMostOnce` | internal/modules/auth/application/command/refresh.go:66-76 | in every schedule at most one successor is ever saved for a refresh token |
| `RefreshProtocol.LiveTokenIsExchanged` | internal/modules/auth/application/command/refresh.go:35-76 | in any state, a refresh of a live token that nothing interrupts leaves it revoked and one live successor of the same user and family |
| `SignOutProtocol.DeniedAfterIff` | internal/modules/auth/application/command/refresh.go:81-92 | exactly when a run ends with every access token of a family denied: they were at its start or some step of it denied them all, and every token it gave the family is followed by such a step |
| `SignOutProtocol.SignOutCompleteIff` | internal/modules/auth/application/command/refresh.go:81-92 | with anything running between the denial and the revocation of a sign-out, no token of the family is ever live or accepted again, if and only if every successor saved between the two is denied again before the second and no rotation is in flight then |
| `SignOutProtocol.PasswordChangeCompleteIff` | internal/modules/auth/application/command/change_password.go:57-68 | with refreshes and logins running beside a password change, no session opened with an earlier password is ever usable again, if and only if each token such a session gets between the denial and the revocation is denied again before the second, none is being rotated then, and no login that verified an earlier password is still to save |
| `SessionRuns.SignOutIsTotal` | internal/modules/auth/application/command/denylist.go:41-53 | after any command that signs a family out, every access token ever returned for it is rejected up to its expiry, whatever is executed afterwards |
| `SessionRuns.AcceptedIffNotSignedOut` | internal/modules/auth/module.go:226-250 | before its expiry an access token is accepted if and only if its user exists and is not suspended and its family was never signed out |
| `SessionRuns.SignedOutAfter` | internal/modules/auth/application/command/issuer.go:95-117 | the exact set of families each command signs out: cap eviction, reuse, logout, session revocation, password change and reset |
| `SessionRuns.SignedOutStaysDead` | internal/modules/auth/application/command/refresh.go:47-76 | once signed out, a family gains no row and none of its rows is live again, under any further commands |
| `SessionRuns.RunKeepsInv` | internal/modules/auth/application/command/issuer.go:54-117 | rows and access tokens correspond, a family has at most one live row, and an access token is denied exactly when its family is signed out, over all runs |
| `SessionAnswers.RefreshServedIff` | internal/modules/auth/application/command/refresh.go:35-76 | a refresh is served if and only if the presented token is stored, not revoked, not past its expiry, and its user exists and is not suspended; then exactly that row is revoked, its successor lives refreshTtl and its access token accessTtl from now |
| `SessionAnswers.LoginServedIff` | internal/modules/auth/application/command/issuer.go:55-83 | a login with accepted credentials is served if and only if the user exists and is not suspended; then exactly the sessions over the cap are revoked, and both new tokens last their full time from now |
| `SessionAnswers.RevokeSessionIff` | internal/modules/auth/application/command/session_revoke.go:33-57 | a session can be revoked if and only if the caller has an unrevoked, unexpired token in it, and then exactly its rows are revoked |
| `SessionAnswers.LogoutAnswer` | internal/modules/auth/application/command/logout.go:33-49 | a logout revokes exactly the rows of the family of the caller's own token, and without one changes nothing |
| `SessionAnswers.RevokedIff` | internal/modules/auth/application/command/refresh.go:47-69 | over any run a row is revoked if and only if it was, it was exchanged, or its family was signed out, and nothing else about it ever changes |
| `SessionAnswers.SessionGoesOn` | internal/modules/auth/application/command/refresh.go:35-76 | at any point of any run, a refresh token handed out before is exchanged when presented, if and only if it has not been exchanged already, its session has not been signed out, it has not expired, and its user exists and is not suspended |
| `SessionLeeway.LeewayCoveredIff` | internal/modules/auth/module.go:226-250 | after any command that signs a family out at the end of any run, a token handed out before is accepted within the parser's leeway by some later run, if and only if there is time left and the denial ends before expiry and leeway do |
| `SessionLeeway.OutForGoodIff` | internal/platform/token/jwt.go:70-76 | the same for any denied token in any reachable state, from the date of its entry: denying again never shortens a denial |
| `Sessions.SignOutSetKeepsInv` | internal/modules/auth/application/command/denylist.go:41-53 | denying every jti of a set of families and revoking their rows keeps all of that |
| `Sessions.LatestIsMax` | internal/modules/auth/infrastructure/repository.go:261-281 | the time a family is listed by is the newest creation time among its active tokens |
| `SessionCap.LoginEvictsOldest` | internal/modules/auth/application/command/issuer.go:95-117 | a login evicts exactly the oldest sessions by newest live token, as few as the cap allows; the survivors are the rest of the listing and the new session |
| `SessionCap.RefreshKeepsActiveIff` | internal/modules/auth/domain/refresh_token.go:51-53 | a successful refresh leaves every active set unchanged if and only if it does not come at the instant now = ExpiresAt, where IsExpired and the SQL filter disagree |
| `SessionCap.ListingExists` | internal/modules/auth/infrastructure/repository.go:261-281 | every table has a listing of the active families by newest creation time |
| `SessionCap.CapHoldsIff` | internal/modules/auth/application/command/issuer.go:95-117 | with maxSessions at least 1, a user's active sessions stay within it throughout a run, if and only if no refresh in the run comes at its token's expiry instant while they are at the cap |
| `SessionCap.StepKeepsCapIff` | internal/modules/auth/application/command/issuer.go:95-117 | the same for one command |
| `SessionOvershoot.CapFailsWithoutBound` | internal/modules/auth/infrastructure/repository.go:261-281 | for every cap and every n some run of whole calls ends with n active sessions more than the cap |
| `LoginProtocol.OverlapBounded` | internal/modules/auth/application/command/issuer.go:95-117 | while no refresh runs beside a login and at most k logins are between listing and saving, the active sessions, those about to come back from a refresh included, never exceed the cap by k or more, in any interleaving with evictions, expiries, failures and sign-outs |
| `LoginProtocol.CapHoldsIff` | internal/modules/auth/application/command/issuer.go:95-117 | the cap holds in every interleaving if and only if logins overlap neither each other nor refreshes; k overlapping logins reach cap + k - 1; and every number of sessions is reached if and only if a refresh may run beside a login, even one login and one refresh at a time |
| `SessionStore.AuthService.Deny` | internal/modules/auth/application/command/denylist.go:41-53 | one cache entry per non-empty jti, everything else in the cache kept |
| `SessionStore.AuthService.SignOutFamily` | internal/modules/auth/application/command/refresh.go:81-92 | deny, then revoke, is the specified sign-out of the family |
| `SessionStore.AuthService.EnforceSessionCap` | internal/modules/auth/application/command/issuer.go:95-117 | the loop that counts excess down signs out exactly the first families of the listing, as many as the cap requires |
| `SessionStore.AuthService.IssueInFamily` | internal/modules/auth/application/command/issuer.go:54-89 | continues the family given, or opens a new one after enforcing the cap |
| `SessionStore.AuthService.Logout` | internal/modules/auth/application/command/logout.go:33-60 | signs out the presented token's family exactly when the token is the caller's |
| `SessionStore.AuthService.RevokeSession` | internal/modules/auth/application/command/session_revoke.go:33-67 | signs out exactly a family among the caller's active ones |
| `SessionStore.AuthService.Login` | internal/modules/auth/application/command/login.go:112-117 | the specified login from accepted credentials on; what that serves is `SessionAnswers.LoginServedIff` |
| `SessionStore.AuthService.Refresh` | internal/modules/auth/application/command/refresh.go:35-76 | the specified refresh with its order of checks, reuse detection included; what that serves is `SessionAnswers.RefreshServedIff` |
| `SessionStore.AuthService.Rotate` | internal/modules/auth/application/command/refresh.go:63-76 | whatever happened since the token was read: an active row is exchanged for one successor, and a lost compare-and-set signs the family out |
| `SessionStore.AuthService.SignOutEverywhere` | internal/modules/auth/application/command/change_password.go:62-68 | denies every jti and revokes every row of the user |
| `CacheDrivers.SimulatesIffFaithful` | internal/platform/cache/database.go:39-187 | each operation of either driver carries out the abstract TTL map's operation, answer included, if and only if it is not one of two: Memory incrementing live text that is no number, and either driver re-dating an expired entry still stored |
| `CacheDrivers.RunSimulates` | internal/platform/cache/memory.go:32-115 | over any sequence of calls in time order, either driver answers as the TTL map does |
| `CacheDrivers.ElapseSimulates` | internal/platform/cache/database.go:39-50 | time alone changes a store exactly as it changes the TTL map |
| `CacheDrivers.LifetimeNearTtl` | internal/platform/cache/database.go:185-187 | a database entry with a positive ttl lives strictly within one second of it and is never stamped permanent; a memory entry lives its ttl to the nanosecond |
| `CacheDrivers.FoundUntilDeadline` | internal/platform/cache/database.go:54-73 | a key set with a ttl is found, and handed out by GetDelete, exactly until its deadline; without a ttl at any time; once deleted never |
| `CacheDrivers.HandedOutOnce` | internal/platform/cache/database.go:86-110 | in any run, after a GetDelete that handed a value out no later call hands anything out under its key until something is stored there again |
| `CacheDrivers.SumReadsBack` | internal/platform/cache/database.go:115-169 | exactly numeric text can be added to; the text stored reads back as the sum, which is the true one unless it leaves the 64-bit range |
| `Cache.AddOrRestart` | internal/platform/cache/memory.go:81-97 | the same, with anything that is not a number taken as zero |
| `Cache.MemoryCache.Get` | internal/platform/cache/memory.go:32-40 | the specified Get |
| `Cache.MemoryCache.Set` | internal/platform/cache/memory.go:44-53 | the specified Set |
| `Cache.MemoryCache.GetDelete` | internal/platform/cache/memory.go:66-76 | the specified GetDelete; an expired entry is removed but not handed out |
| `Cache.MemoryCache.Increment` | internal/platform/cache/memory.go:81-97 | the specified Increment; a live counter keeps its expiry, an expired one starts over without any |
| `Cache.MemoryCache.Expire` | internal/platform/cache/memory.go:101-115 | the specified Expire |
| `Cache.DatabaseCache.Get` | internal/platform/cache/database.go:39-50 | the specified Get |
| `Cache.DatabaseCache.Set` | internal/platform/cache/database.go:54-73 | the specified Set, the ttl rounded up to whole seconds |
| `Cache.DatabaseCache.GetDelete` | internal/platform/cache/database.go:86-110 | the specified GetDelete; an expired row stays |
| `Cache.DatabaseCache.Increment` | internal/platform/cache/database.go:115-169 | seed, locking read and update together are the specified Increment; text that is not a number rolls the seed back |
| `Cache.DatabaseCache.Expire` | internal/platform/cache/database.go:173-181 | the specified Expire |
| `RateLimiter.CheckRefinesHistory` | internal/modules/auth/application/command/login.go:159-176 | over any history of checks and resets in time order and under either driver, a check is let through exactly when the checks since the last reset or the last gap longer than the window, itself and rejected ones included, are at most max |
| `RateLimiter.BurstMeaning` | internal/modules/auth/application/command/login.go:155-158 | that number is the length of the longest unbroken run of checks that ends the history |
| `RateLimiter.StoreTracks` | internal/platform/http/ratelimit.go:39-53 | after any history the stored counter is that number, dated by the last check, and absent after a reset |
| `RateLimiter.CheckInMemory` | internal/modules/auth/application/command/login.go:159-170 | Increment then Expire on the memory driver is the specified check |
| `RateLimiter.CheckInDatabase` | internal/platform/http/ratelimit.go:39-53 | Increment then Expire on the database driver is the specified check; a failed increment changes nothing |
| `LimiterProtocol.AcceptedInSpan` | internal/modules/auth/application/command/login.go:155-170 | however the two cache calls of checks interleave, and under either driver, at most 2 * max - 1 checks are let through in any span that a counter whose window has been set surely outlasts (the window, less a second in the database), until the next reset |
| `LimiterProtocol.LimitHoldsIff` | internal/modules/auth/application/command/login.go:155-170 | that bound is the least one; so overlapping checks keep to max in every interleaving if and only if max is at most one |
| `CodeProtocol.RedeemedAtMostOnce` | internal/modules/auth/application/command/verify.go:17-44 | however redemptions interleave, each code is accepted at most once, with its own secret and not after its expiry, and its counter is the number of guesses turned down as wrong, never more than maxAttempts |
| `CodeProtocol.RunKeepsInv` | internal/modules/auth/infrastructure/repository.go:370-421 | what requests hold is the row up to its counter and mark, wins are distinct and consumed, counters match the history |
| `CodeProtocol.LateWinIff` | internal/modules/auth/application/command/verify.go:24-43 | once the guesses are used up a code can still be redeemed, if and only if some request read it before with the right secret and either has passed its checks or is not past the expiry; serially therefore never |
| `CodeProtocol.BarredForGood` | internal/modules/auth/infrastructure/repository.go:370-396 | a consumed code, or an exhausted one without such a request, is never redeemed again, over all runs |
| `CodeProtocol.TwoIssuers` | internal/modules/auth/application/command/issue_verify_code.go:24-49 | two issuing calls for one scope whose invalidations both come before their saves leave two unconsumed codes |
| `CodeProtocol.ActiveIsRedeemed` | internal/modules/auth/application/command/verify.go:17-44 | in any state, a request for an active code with its secret that nothing interrupts redeems it |
| `Codes.SerialRunsKeepOneActive` | internal/modules/auth/application/command/issue_verify_code.go:24-49 | over any sequence of whole calls at most one unconsumed code exists per user, purpose and channel, and per user for reset codes and magic links |
| `Codes.SaveKeepsOneActiveIff` | internal/modules/auth/application/command/process_forgot_password.go:59-73 | a save keeps that exactly when its scope holds no unconsumed code, so two issuing calls whose invalidations both come first break it |
| `Codes.VerificationCodes.IssueCode` | internal/modules/auth/application/command/issue_verify_code.go:24-49 | exactly the user's codes of that purpose and channel are marked, and one new unused code with the given secret and expiry is added |
| `Codes.VerificationCodes.ProcessForgotPassword` | internal/modules/auth/application/command/process_forgot_password.go:42-74 | nothing for an unknown user; otherwise exactly the user's reset codes of every channel are marked and one new one is added |
| `Codes.VerificationCodes.ProcessMagicLink` | internal/modules/auth/application/command/process_magic_link.go:40-66 | nothing for an unknown user; otherwise exactly the user's links are marked and one new one is added |
| `Codes.VerificationCodes.ValidateCode` | internal/modules/auth/application/command/verify.go:17-44 | accepted if and only if the row read was unused, in time and below the limit, the secret matches, and the code is still unused now, and then it is marked; a wrong guess at a good code is counted; nothing else changes |
| `Codes.VerificationCodes.FindLink` | internal/modules/auth/infrastructure/repository.go:359-366 | a link is found if and only if an unused, unexpired one has that secret |
| `Codes.VerificationCodes.RedeemLink` | internal/modules/auth/application/command/magic_link_verify.go:40-72 | accepted if and only if the link found was unused and in time, its owner may log in, and it is still unused now, and then exactly it is marked; the checks come in the source's order, and a race lost is answered as not found |
| `CodeRuns.CodeAcceptedIff` | internal/modules/auth/application/command/verify.go:17-44 | over serial runs an issued code is accepted with its secret, if and only if it has not been used or replaced, it has not expired, and fewer than maxAttempts guesses at it were wrong |
| `CodeRuns.LinkOpensIff` | internal/modules/auth/application/command/magic_link_verify.go:40-72 | over serial runs a link opens, if and only if it has not been redeemed, no newer one has been sent to its user, and it has not expired |
| `SmtpProtocol.PoolConserved` | internal/platform/mailer/smtp.go:262-372 | in every interleaving of senders, sweeper and Close: createdConns is exactly idle plus in the sweeper's hand plus on loan or being dialled, every open connection is in exactly one place, idle never exceeds the channel, and createdConns is at most maxConns + k - 1 with k borrowers between check and add |
| `SmtpProtocol.BoundIsReached` | internal/platform/mailer/smtp.go:266-268 | for every maxConns and k a run reaches maxConns + k - 1, because check and add are not atomic |
| `SmtpProtocol.DrainedForGoodIff` | internal/platform/mailer/smtp.go:330-337 | a closed pool with createdConns 0, the sweeper's condition to quit, stays empty if and only if no borrower is past the closed check and not yet counted |
| `SmtpProtocol.CountsKept` | internal/platform/mailer/smtp.go:262-372 | every step keeps the counting equation, the capacity and the overshoot bound |
| `SmtpProtocol.PlacedKept` | internal/platform/mailer/smtp.go:262-372 | every step keeps each open connection in exactly one place |
| `SmtpPool.Pool.constructor` | internal/platform/mailer/smtp.go:90-126 | an empty open pool of at least one connection |
| `SmtpPool.Pool.BorrowConn` | internal/platform/mailer/smtp.go:262-286 | once closed it fails; with one idle it lends the longest idle one unless the wait is cut short; with none idle and below the limit it lends a new one if and only if the dial succeeds, and otherwise reports the dial's error; at the limit with none idle it fails; a failure changes nothing |
| `SmtpPool.Pool.ReturnConn` | internal/platform/mailer/smtp.go:289-318 | kept, at the back of the queue, exactly after no error or a reply other than 421, a successful reset and with room; otherwise closed and counted out |
| `SmtpPool.Pool.TakeOut` | internal/platform/mailer/smtp.go:339-357 | the popping loop closes exactly the stale connections, or all of them once closed |
| `SmtpPool.Pool.PutBack` | internal/platform/mailer/smtp.go:359-366 | the rest goes back in order as far as it fits, and what does not fit is counted out |
| `SmtpPool.Pool.SweepConns` | internal/platform/mailer/smtp.go:322-372 | a pass leaves exactly the fresh idle connections in order; after Close it leaves none, and only loans are still counted |
| `SmtpPool.FreshKeeps` | internal/platform/mailer/smtp.go:347-356 | a sweep keeps exactly the connections that are not stale, each once |
| `SmtpPool.Pool.SendOnConn` | internal/platform/mailer/smtp.go:376-413 | the error is that of the first command that fails, in order; a complete message is ended exactly when every earlier command succeeded, and is then never worth a retry |
| `SmtpPool.Pool.Send` | internal/platform/mailer/smtp.go:145-185 | every connection borrowed is returned; at most one complete message is ended over all tries; in a pool with room the answer is exactly what the first try meets, or the second after a failure worth a retry, so a message the server takes is sent at the first try, and after a connection that broke early at the second; a closed pool fails at once |
| `SmtpPool.Pool.TryOnce` | internal/platform/mailer/smtp.go:157-183 | one pass of the loop in a pool with room ends in exactly the first error of the borrow and the dialogue, retried exactly when that is worth it |
| `Cron.Parse` | internal/platform/schedule/cron.go:28-50 | an accepted expression matches exactly the instants its text says, through masks that are not empty and within range; a refused one fails for its number of fields or at its first bad field |
| `Cron.MatchSays` | internal/platform/schedule/cron.go:63-73 | matching the masks is the conjunction of what the five fields allow, Sunday being 0 or 7 |
| `Cron.FieldSpec.Parse` | internal/platform/schedule/cron.go:113-122 | a list compiles up to its first bad item, and adds exactly the values its text allows |
| `Cron.FieldSpec.ParsePart` | internal/platform/schedule/cron.go:126-165 | an item is refused without touching the mask, or adds exactly its values |
| `Cron.FieldSpec.Fill` | internal/platform/schedule/cron.go:161-163 | the step loop sets exactly every step-th value from lo to hi, and panics on a negative shift exactly when lo + step exceeds the largest int64 |
| `Cron.SetAdds` | internal/platform/schedule/cron.go:98-104 | or-ing in a shifted bit turns on that value and no other |
| `CronText.ReadItem` | internal/platform/schedule/cron.go:126-160 | an accepted item has its bounds in order and within the field's range, and a positive step |
| `CronText.AcceptedFieldAllows` | internal/platform/schedule/cron.go:113-122 | a field that compiles allows at least one value |
| `CronText.StarAllowsAll` | internal/platform/schedule/cron.go:114-140 | both star spellings mean the field's whole range |
| `CronText.EmptyStartRefused` | internal/platform/schedule/cron.go:126-165 | a range without its start is refused, with a step or without |
| `CronText.EmptyEndRefused` | internal/platform/schedule/cron.go:126-165 | a range without its end is refused, with a step or without |
| `CronForms.ListRoundTrip` | internal/platform/schedule/cron.go:113-186 | the text of any list of items, single values, ranges and stars, with steps or without, by number or by name, is accepted exactly when every item stands for something and no step overflows, and then means their union |
| `CronForms.FormReads` | internal/platform/schedule/cron.go:128-167 | every form of an item is read as the range and step it says, or refused when that is out of range or the step is zero |
| `CronForms.MonthResolves` | internal/platform/schedule/cron.go:169-191 | each month's name, in any case, stands for its number, JAN for 1 to DEC for 12 |
| `CronForms.DayResolves` | internal/platform/schedule/cron.go:169-195 | each day's name, in any case, stands for its number, SUN for 0 to SAT for 6 |
| `CronForms.NumberAllowsItself` | internal/platform/schedule/cron.go:150-156 | a number alone allows that value and no other, if and only if it is in the field's range |
| `CronForms.FieldsOfJoined` | internal/platform/schedule/cron.go:29-33 | words with any blanks around and between them come back as they are, in order |
| `CronForms.ExpressionMeans` | internal/platform/schedule/cron.go:29-74 | five lists, spelled in any way and with any blanks, say exactly the instants whose minute, hour, day, month and weekday they cover, Sunday being 0 or 7 |
| `Schedule.Loop` | internal/platform/schedule/schedule.go:104-116 | the handler runs in strictly increasing minutes, and in exactly the due minutes among those woken up in |
| `Schedule.WakesInLaterMinutes` | internal/platform/schedule/schedule.go:120-132 | each wake-up falls in a later minute than the one before |
| `Schedule.NoMinuteSkippedIff` | internal/platform/schedule/schedule.go:104-132 | the next wake-up is in the very next minute if and only if the handler ended within its minute and the timer fired within the one it aimed at |
| `Contact.NormalisesIff` | internal/modules/auth/domain/contact.go:38-71 | with a country code, the result is +ccn if and only if ccn has 7 to 15 digits and the input, separators aside, is one of 0n, ccn, +ccn, 00ccn or a form with a trunk zero after the country code |
| `Contact.ResultShape` | internal/modules/auth/domain/contact.go:86-100 | every accepted number is '+' and 7 to 15 digits without a leading zero |
| `Contact.CleanTrim` | internal/modules/auth/domain/contact.go:10-39 | trimming before cleaning changes nothing |
| `Contact.IdempotentIff` | internal/modules/auth/domain/contact.go:54-62 | normalising an accepted input again changes nothing, if and only if no doubled trunk zero follows the country code in it |
| `Contact.DoubledTrunkZero` | internal/modules/auth/domain/contact.go:30-37 | every number typed with a doubled trunk zero keeps one on the first pass and loses it on the second |
| `Contact.ForeignNormalisesIff` | internal/modules/auth/domain/contact.go:38-71 | for a number not under the country code, or without one configured, the result is +x if and only if x has 7 to 15 digits and the input, separators aside, is x, +x or 00x |
| `Rebind.Rebind` | internal/platform/database/database.go:170-187 | queries are unchanged unless the driver is postgres, and then every '?' is numbered from 1 |
| `Rebind.KthPlaceholder` | internal/platform/database/database.go:176-186 | wherever a '?' stands it becomes '$' and the number of placeholders up to it, and the text around it is rebound independently |
| `Rebind.Itoa` | internal/platform/database/database.go:189-209 | the decimal spelling, if and only if the number is not the smallest int64, whose negation wraps and leaves a bare minus |
| `Rebind.WriteDigits` | internal/platform/database/database.go:197-203 | the backward loop over the 20-byte buffer leaves exactly the digits at its end, with room for a sign |
| `Rebind.RoundTripIff` | internal/platform/database/database.go:170-187 | the inverse Unbind gives a query back if and only if no '?' or '$' in it stands directly before a digit |
| `Rebind.Injective` | internal/platform/database/database.go:170-187 | different queries without such a spot are never rebound to the same text |
| `Rebind.UniquePreimageIff` | internal/platform/database/database.go:170-187 | another query has the same rebound text, if and only if the query has a '?' or contains the text of the first placeholder |
| `Strconv.AtoiFormat` | internal/platform/cache/memory.go:81-97 | the decimal text a counter is stored as reads back as the same 64-bit number |

## Left out

- CacheDrivers.RunSimulates: for sequences in which every call meets the exact condition of `CacheDrivers.SimulatesIffFaithful`, because outside it the drivers do differ from the TTL map.
- RateLimiter.CheckRefinesHistory: calls on one key do not overlap, because the claim about gaps needs their times to be ordered; overlapping calls are the subject of `LimiterProtocol.LimitHoldsIff`.
- LimiterProtocol.LimitHoldsIff: for windows of more than a second, because under the database driver a shorter one may lapse at once.
- SignOutProtocol.PasswordChangeCompleteIff: a login by link or code counts as one with the password of its time.
- LoginProtocol.OverlapBounded: only while no refresh runs beside a login, because `LoginProtocol.CapHoldsIff` shows that with one there is no bound; and a refresh that looks at its token at the very instant of expiry is not one of the steps, because `SessionOvershoot.CapFailsWithoutBound` shows that those alone have no bound.
- RbacInvariants.AHolderRemains: serial runs only, because `RbacRevocations.LastHolderLostIff` shows that overlapping revocations can lose the last holder.
- Codes.SerialRunsKeepOneActive: serial runs only, because `CodeProtocol.TwoIssuers` shows that interleaved issuing breaks it.
- Codes.VerificationCodes.RedeemLink: stops at the consumption of the link; issuing the session is `SessionStore.AuthService.Login`, and the second-factor challenge is not modelled.
- Codes.VerificationCodes.FindLink: which of several links with one secret is the newest is left open.
- CodeProtocol.RedeemedAtMostOnce: a request may hold any active code of its kind, not only the newest; the order of the selecting query is left open.
- SessionStore.AuthService.Login: begins once password, verification and second factor have been accepted.
- SessionStore.AuthService.SignOutEverywhere: begins once a password change or reset has gone through.
- SmtpProtocol.PoolConserved: counts and places of connections only, not what is sent over them; closing and counting a connection out are one step.
- SmtpPool.Pool.SendOnConn: what closing the message after a failed write sends is the library's, and such a message is not counted as complete.
- Cron.FieldSpec.Parse: a mask is the sequence of its 64 bits, with or, and and shift defined on it, instead of a machine word.
- Schedule.Loop: zones with a fixed offset only; what `time.Date` does at daylight-saving changes is the library's.
- Rebind.Rebind: byte sequences that are not valid UTF-8, which the source would rewrite while copying.
- The order of a query's rows is left open, as in `RbacStore.Store.RolesOf`, except for the listing of the active sessions.
- The RBAC commands without a loop or a scan (creating, updating and deleting roles and permissions, direct grants and revocations) are modelled by `RbacTables.Execute` alone; no command removes a user.
- The bootstrap command of the RBAC module and the `cmd/seed` tool, which changes roles without a cache to bump.
- Overflow of a duration when a ttl within one second of the largest is rounded up to seconds.
- Retries of the database driver's transactions, and the error results of cache and database calls other than those named above.
- HTTP handlers, middleware, templates, configuration, the homepage and media modules: plumbing without deep state.
- The Redis, asynq, Kafka, RabbitMQ, S3, SES and Twilio drivers, whose behaviour lies in libraries that are not part of this model.
- JWT encoding, password hashing, one-time passwords and random generation.
- Audit records, logging and the delivery of messages, on which no property depends.
- Graceful shutdown of the queue server and the scheduler beyond the crash and abandon steps.
