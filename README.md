# Accounts, LPA documents and statistics of the LPA API, in Dafny

This project models the core of the API behind the service for making a Lasting Power of
Attorney (LPA). It covers four areas.

- The account store (`AuthUserCollection`) and the services that make decisions over it:
  - email change;
  - password change and password reset;
  - account management with its deletion log;
  - the four-stage inactivity cleanup.
- The version-1 REST resources that load and save LPA and user documents with an
  optimistic-concurrency write. The write is conditional on the `updatedAt` marker that
  was read.
- The applications service (create, fetch, search filter, soft delete) and the
  notified-people list inside an LPA.
- The statistics: the lpas-per-user histograms, the ObjectId bounds of a time range, the
  chained month windows, and the generation of the statistics document with each section
  isolated.

Each Mongo collection is a map from `_id` to a document, or a sequence of log documents.
Each method that changes a collection is a method of a class holding that map, and its
contract states the whole new map or log. For the cleanup run, the new store is given
stage by stage, through the stores and visit orders each stage produced. The current time is the parameter `now`. The clock,
randomness, hashing, validators and network calls are parameters: the values they would
produce, or functions the model assumes nothing about.

Three details of the code that the model keeps:
- A reset token or an email-update token is live only while its `expiresAt` is strictly
  after `now`. These are the `$gt` conditions of `AuthUserCollection`.
- `getByAuthToken` does not check the auth token's expiry. That check belongs to an
  authentication service that is not part of this model.
- Suppose an email is already held by another account while the requesting user id is
  unknown. `generateToken` then calls `id()` on a missing user. The model records that
  outcome as `Fault` and stores nothing.

## Model

| member | source | states |
|---|---|---|
| Common.ToStore | module/Auth/src/Model/DataAccess/Mongo/LogCollection.php:27-29 | a DateTime becomes a store date with the same instant; every other value is stored unchanged |
| Common.FromStore | module/Application/src/Model/DataAccess/Mongo/Collection/AuthLogCollection.php:58-62 | a store date becomes a DateTime with the same instant; every other value is unchanged |
| Common.DocToStore | module/Auth/src/Model/DataAccess/Mongo/LogCollection.php:27-29 | the stored document has the same keys, each value mapped to its store form |
| Common.DocFromStore | module/Application/src/Model/DataAccess/Mongo/Collection/AuthLogCollection.php:58-62 | the read-back document has the same keys, each store date mapped back to a DateTime |
| Common.StoreRoundTrip | module/Application/src/Model/DataAccess/Mongo/Collection/AuthLogCollection.php:32-34 | storing a document and mapping it back gives the document again, when it held no store dates |
| AuthUsers.InactiveAccounts | module/Application/src/Model/DataAccess/Mongo/Collection/AuthUserCollection.php:488-510 | exactly the accounts whose last login is before `since` and whose flags do not hold the excluded flag, with their stored documents |
| AuthUsers.UnactivatedAccounts | module/Application/src/Model/DataAccess/Mongo/Collection/AuthUserCollection.php:534-545 | exactly the unactivated accounts created before the cut-off, with their stored documents |
| AuthUsers.CountsPartition | module/Application/src/Model/DataAccess/Mongo/Collection/AuthUserCollection.php:551-603 | the live-account count and the deleted-account count add up to the size of the collection |
| AuthUsers.DeleteMovesCount | module/Application/src/Model/DataAccess/Mongo/Collection/AuthUserCollection.php:192-209 | deleting a live account lowers `countAccounts` by one and raises `countDeletedAccounts` by one |
| AuthUsers.TombstoneMatchesNothing | module/Application/src/Model/DataAccess/Mongo/Collection/AuthUserCollection.php:199-204 | a deleted record `{_id, deletedAt}` is not live and not activated; it holds no token and appears in no scan |
| AuthUsers.ResetTokenSingleUse | module/Application/src/Model/DataAccess/Mongo/Collection/AuthUserCollection.php:375-401 | after redemption the hash is set, the auth token is gone, and no account holds that reset token any more |
| AuthUsers.NewAuthTokenRevokesOld | module/Application/src/Model/DataAccess/Mongo/Collection/AuthUserCollection.php:329-349 | once an account's auth token is replaced, no account holds the old token (tokens are unique) |
| AuthUsers.ExtendKeepsToken | module/Application/src/Model/DataAccess/Mongo/Collection/AuthUserCollection.php:315-318 | extending keeps the token and its createdAt, and sets updatedAt and expiresAt |
| AuthUsers.FlagAddedIdempotent | module/Application/src/Model/DataAccess/Mongo/Collection/AuthUserCollection.php:517-526 | adding an inactivity flag twice is the same as adding it once (set semantics) |
| AuthUsers.FlagExcludesFromScan | module/Application/src/Model/DataAccess/Mongo/Collection/AuthUserCollection.php:97-112 | a flagged account is excluded from the scan that excludes that flag; a login clears every flag |
| AuthUsers.AuthUserCollection.constructor | module/Application/src/Model/DataAccess/Mongo/Collection/AuthUserCollection.php:19 | the collection holds the given documents, whose auth tokens are unique |
| AuthUsers.AuthUserCollection.FindOne | module/Application/src/Model/DataAccess/Mongo/Collection/AuthUserCollection.php:30-39 | some matching account is returned with its id, and None exactly when none matches |
| AuthUsers.AuthUserCollection.GetByUsername | module/Application/src/Model/DataAccess/Mongo/Collection/AuthUserCollection.php:30-39 | an account whose identity is the username; None exactly when there is none |
| AuthUsers.AuthUserCollection.GetById | module/Application/src/Model/DataAccess/Mongo/Collection/AuthUserCollection.php:45-54 | the account stored under the id, or None when the id is unknown |
| AuthUsers.AuthUserCollection.GetByAuthToken | module/Application/src/Model/DataAccess/Mongo/Collection/AuthUserCollection.php:60-69 | an account holding the auth token, whatever its expiry; None exactly when none holds it |
| AuthUsers.AuthUserCollection.GetByResetToken | module/Application/src/Model/DataAccess/Mongo/Collection/AuthUserCollection.php:75-91 | an account whose reset token equals the argument and expires strictly after now; None exactly when there is none |
| AuthUsers.AuthUserCollection.UpdateLastLoginTime | module/Application/src/Model/DataAccess/Mongo/Collection/AuthUserCollection.php:97-112 | the account's last login becomes now and its inactivity flags are cleared; nothing else changes |
| AuthUsers.AuthUserCollection.ResetFailedLoginCounter | module/Application/src/Model/DataAccess/Mongo/Collection/AuthUserCollection.php:120-132 | the account's failed-login counter becomes zero; nothing else changes |
| AuthUsers.AuthUserCollection.IncrementFailedLoginCounter | module/Application/src/Model/DataAccess/Mongo/Collection/AuthUserCollection.php:140-155 | the counter rises by one and the time of the last failure is now; nothing else changes |
| AuthUsers.AuthUserCollection.Create | module/Application/src/Model/DataAccess/Mongo/Collection/AuthUserCollection.php:164-182 | inserted exactly when the id is new and the auth token is not held elsewhere; otherwise nothing changes |
| AuthUsers.AuthUserCollection.Delete | module/Application/src/Model/DataAccess/Mongo/Collection/AuthUserCollection.php:192-209 | None for an unknown id with nothing changed; otherwise true, and the record becomes exactly `{_id, deletedAt}` |
| AuthUsers.AuthUserCollection.Activate | module/Application/src/Model/DataAccess/Mongo/Collection/AuthUserCollection.php:217-244 | None when no account holds the activation token; otherwise that account is activated, and the result says whether it was modified |
| AuthUsers.AuthUserCollection.SetNewPassword | module/Application/src/Model/DataAccess/Mongo/Collection/AuthUserCollection.php:253-270 | the hash is replaced and the auth token removed, nothing else changes; true exactly when the document was modified |
| AuthUsers.AuthUserCollection.RemoveAuthToken | module/Application/src/Model/DataAccess/Mongo/Collection/AuthUserCollection.php:278-290 | the auth token is unset on the account holding it and every other account is untouched |
| AuthUsers.AuthUserCollection.ModifyAuthToken | module/Application/src/Model/DataAccess/Mongo/Collection/AuthUserCollection.php:329-349 | false with nothing changed on an unknown id or a duplicate token; otherwise the token update, true exactly when one document was modified |
| AuthUsers.AuthUserCollection.SetAuthToken | module/Application/src/Model/DataAccess/Mongo/Collection/AuthUserCollection.php:300-308 | overwrites token and createdAt and sets updatedAt and expiresAt; true exactly when one document was modified |
| AuthUsers.AuthUserCollection.ExtendAuthToken | module/Application/src/Model/DataAccess/Mongo/Collection/AuthUserCollection.php:315-318 | changes only updatedAt and expiresAt; true exactly when one document was modified |
| AuthUsers.AuthUserCollection.AddPasswordResetToken | module/Application/src/Model/DataAccess/Mongo/Collection/AuthUserCollection.php:356-367 | the account's reset token becomes the given details; nothing else changes |
| AuthUsers.AuthUserCollection.UpdatePasswordUsingToken | module/Application/src/Model/DataAccess/Mongo/Collection/AuthUserCollection.php:375-401 | 'invalid-token' with nothing changed when no live reset token matches; otherwise hash and last update set, reset and auth tokens removed |
| AuthUsers.AuthUserCollection.AddEmailUpdateTokenAndNewEmail | module/Application/src/Model/DataAccess/Mongo/Collection/AuthUserCollection.php:409-427 | the account's email-update request becomes the token details and the new email; nothing else changes |
| AuthUsers.AuthUserCollection.UpdateEmailUsingToken | module/Application/src/Model/DataAccess/Mongo/Collection/AuthUserCollection.php:435-477 | 'invalid-token' without a live match; 'username-already-exists' with no change when the email is taken; otherwise the identity becomes the pending email and the request is removed |
| AuthUsers.AuthUserCollection.GetAccountsInactiveSince | module/Application/src/Model/DataAccess/Mongo/Collection/AuthUserCollection.php:488-510 | exactly the accounts that logged in before `since` and lack the excluded flag |
| AuthUsers.AuthUserCollection.SetInactivityFlag | module/Application/src/Model/DataAccess/Mongo/Collection/AuthUserCollection.php:517-526 | the flag is added to the account's flag set and true is returned |
| AuthUsers.AuthUserCollection.GetAccountsUnactivatedOlderThan | module/Application/src/Model/DataAccess/Mongo/Collection/AuthUserCollection.php:534-545 | exactly the unactivated accounts created before the cut-off |
| AuthUsers.AuthUserCollection.CountAccounts | module/Application/src/Model/DataAccess/Mongo/Collection/AuthUserCollection.php:551-560 | the number of records with an identity; with the deleted count it makes up the collection |
| AuthUsers.AuthUserCollection.CountActivatedAccounts | module/Application/src/Model/DataAccess/Mongo/Collection/AuthUserCollection.php:568-587 | the number of live, activated accounts, activated at or after `since` when it is given; at most the live count |
| AuthUsers.AuthUserCollection.CountDeletedAccounts | module/Application/src/Model/DataAccess/Mongo/Collection/AuthUserCollection.php:594-603 | the number of records without an identity; with the live count it makes up the collection |
| EmailService.TokenDecision | module/Application/src/Model/Service/Email/Service.php:20-66 | the guard chain in order: 'invalid-email', then same or other holder of the email, then 'user-not-found', then the strong-randomness check; an issued token lives TOKEN_TTL = 86400 seconds from now |
| EmailService.IssuedTokenLifetime | module/Application/src/Model/Service/Email/Service.php:56-62 | an issued email token is accepted exactly at times strictly before now + 86400 |
| EmailService.EmailService.GenerateToken | module/Application/src/Model/Service/Email/Service.php:20-67 | each outcome tied to its guard: 'invalid-email' exactly for bad syntax; the PHP error exactly when the user is unknown and the email is held; 'username-already-exists' whenever another account holds the email and the user's own identity differs; 'user-not-found', the weak-randomness throw and success exactly under their guards with no holder; only success stores the returned details against the user |
| EmailService.EmailService.UpdateEmailUsingToken | module/Application/src/Model/Service/Email/Service.php:73-76 | the store's three outcomes passed through: 'invalid-token' with no change when no live token matches; 'username-already-exists' with no change when another account holds the new email; otherwise that account's identity becomes the pending email, the request is removed, every other account is unchanged, and the user is returned |
| PasswordService.PasswordService.ChangePassword | module/Application/tests/Model/Service/Password/ServiceTest.php:37-116 | 'user-not-found', then 'invalid-new-password' before the current-password check, then 'invalid-user-credentials'; success stores the hash of the new password and re-authenticates with the identity and new password |
| PasswordService.PasswordService.GenerateToken | module/Application/tests/Model/Service/Password/ServiceTest.php:118-187 | 'user-not-found' for an unknown user; an inactive user gets only its activation token and nothing is stored; an active user gets TTL-long details, which are stored |
| PasswordService.PasswordService.UpdatePasswordUsingToken | module/Application/tests/Model/Service/Password/ServiceTest.php:189-260 | 'invalid-password' first, then 'invalid-token'; a store failure changes nothing; success gives the whole new store: the token holder's hash set with its tokens cleared, then its failed-login counter reset, every other account unchanged |
| UserManagement.TrimLeft | module/Auth/src/Model/Service/UserManagementService.php:91 | drops exactly the leading blank characters |
| UserManagement.TrimRight | module/Auth/src/Model/Service/UserManagementService.php:91 | drops exactly the trailing blank characters |
| UserManagement.LowerChar | module/Auth/src/Model/Service/UserManagementService.php:91 | maps each of A-Z to the letter 32 code points above it, in a-z, and leaves every other character alone |
| UserManagement.Lower | module/Auth/src/Model/Service/UserManagementService.php:91 | lower-cases each character, keeping the length |
| UserManagement.Trim | module/Auth/src/Model/Service/UserManagementService.php:91 | no blank at either end, and a string with none there is unchanged |
| UserManagement.Normalise | module/Auth/src/Model/Service/UserManagementService.php:91 | trimmed, with no upper-case letter left |
| UserManagement.TrimIgnoresPadding | module/Auth/src/Model/Service/UserManagementService.php:89-93 | blank padding on either side does not change the trimmed identity |
| UserManagement.TrimLower | module/Auth/src/Model/Service/UserManagementService.php:89-93 | trimming and lower-casing commute |
| UserManagement.HashIgnoresCaseAndPadding | module/Auth/src/Model/Service/UserManagementService.php:89-93 | usernames that differ only in case or surrounding blanks hash equal |
| UserManagement.NormaliseIdempotent | module/Auth/src/Model/Service/UserManagementService.php:89-93 | normalising an identity twice is normalising it once |
| UserManagement.DeletionLog | module/Auth/src/Model/Service/UserManagementService.php:68-73 | the deletion log carries the identity hash and holds no store dates before it is stored |
| UserManagement.DeletionSummary | module/Auth/src/Model/Service/UserManagementService.php:38-42 | `{isDeleted, deletedAt, reason}` read from a log whose `loggedAt` is a store date |
| UserManagement.DeletionIsFoundByUsername | module/Auth/src/Model/Service/UserManagementService.php:25-79 | the log written when an account is deleted is found by any username that normalises to the same identity, and it reads back as deleted at that time for that reason |
| UserManagement.UserManagementService.Get | module/Auth/src/Model/Service/UserManagementService.php:9-19 | 'user-not-found' exactly for an unknown id, otherwise that user |
| UserManagement.UserManagementService.GetByUsername | module/Auth/src/Model/Service/UserManagementService.php:25-46 | a live user if one has the username; else the deletion summary of a log with its hash; else false |
| UserManagement.UserManagementService.Delete | module/Auth/src/Model/Service/UserManagementService.php:48-80 | 'user-not-found' with no change and no log for an unknown id; otherwise the account is deleted and exactly one account-deleted log is appended |
| AuthModuleLog.LogCollection.constructor | module/Auth/src/Model/DataAccess/Mongo/LogCollection.php:13-16 | the collection holds the given documents |
| AuthModuleLog.LogCollection.AddLog | module/Auth/src/Model/DataAccess/Mongo/LogCollection.php:24-34 | true exactly when the insert was accepted, and then the document is appended with dates in store form |
| AuthModuleLog.LogCollection.GetLogByIdentityHash | module/Auth/src/Model/DataAccess/Mongo/LogCollection.php:42-52 | null exactly when no log has the hash; otherwise a stored log with that hash, as stored |
| AuthModuleLog.StoredLogKeepsFields | module/Auth/src/Model/DataAccess/Mongo/LogCollection.php:27-29 | storing keeps the hash; DateTime fields become store dates and other fields are unchanged |
| ApiAuthLog.AuthLogCollection.constructor | module/Application/src/Model/DataAccess/Mongo/Collection/AuthLogCollection.php:18-21 | the collection holds the given documents |
| ApiAuthLog.AuthLogCollection.AddLog | module/Application/src/Model/DataAccess/Mongo/Collection/AuthLogCollection.php:29-39 | true exactly when one document was inserted, false with no change when none was |
| ApiAuthLog.AuthLogCollection.GetLogByIdentityHash | module/Application/src/Model/DataAccess/Mongo/Collection/AuthLogCollection.php:47-63 | null exactly when no log has the hash; otherwise a log with that hash, its store dates mapped back |
| ApiAuthLog.LoggedDetailsReadBack | module/Application/src/Model/DataAccess/Mongo/Collection/AuthLogCollection.php:29-63 | a log added under a fresh hash is the only one found by it and reads back as the details that were added |
| AccountCleanup.Flagged | module/Application/tests/Model/Service/AccountCleanup/ServiceTest.php:324-337 | flagging changes no key of the store |
| AccountCleanup.Tombstoned | module/Application/tests/Model/Service/AccountCleanup/ServiceTest.php:317-322 | deleting the targets changes no key of the store |
| AccountCleanup.NoticeLogHasNoSummary | module/Application/tests/Model/Service/AccountCleanup/ServiceTest.php:180-262 | a notice stage logs one event per account and no summary publish |
| AccountCleanup.NoticeLogSent | module/Application/tests/Model/Service/AccountCleanup/ServiceTest.php:180-211 | every notice reported sent went to a target account, was of the stage's kind, and the post succeeded |
| AccountCleanup.RemovalLogOnlyRemovals | module/Application/tests/Model/Service/AccountCleanup/ServiceTest.php:141-160 | a removal stage logs one removal per account, each with the stage's reason |
| AccountCleanup.ListsEnumerates | module/Application/tests/Model/Service/AccountCleanup/ServiceTest.php:311-343 | the order in which a stage visited its accounts lists each target exactly once |
| AccountCleanup.RemovalProgressStep | module/Application/tests/Model/Service/AccountCleanup/ServiceTest.php:141-160 | deleting one more account keeps the removal loop's invariant: its store, its removal event and its account-deleted log (when the log insert is accepted) |
| AccountCleanup.DeletionLogs | module/Auth/src/Model/Service/UserManagementService.php:68-73 | the account-deleted logs of a removal stage: one per removed account when the log inserts are accepted, none otherwise |
| AccountCleanup.RemovalDone | module/Application/tests/Model/Service/AccountCleanup/ServiceTest.php:141-160 | at the end of a removal stage every target was deleted once, and the events and account-deleted logs are exactly those of the visit order |
| AccountCleanup.NoticeProgressStep | module/Application/tests/Model/Service/AccountCleanup/ServiceTest.php:180-262 | a notice post keeps the notice loop's invariant: the flag is set only after a successful post, and a failure changes nothing |
| AccountCleanup.NoticeProgressDone | module/Application/tests/Model/Service/AccountCleanup/ServiceTest.php:180-295 | at the end of a notice stage every target was visited once, and the flagged accounts are exactly those whose post succeeded |
| AccountCleanup.NotifyKeepsTombstones | module/Application/tests/Model/Service/AccountCleanup/ServiceTest.php:141-211 | an account deleted in stage 1 is not changed by a notice stage |
| AccountCleanup.ExpiredStayDeleted | module/Application/tests/Model/Service/AccountCleanup/ServiceTest.php:141-160 | every account inactive before the expiry cut-off ends the run deleted |
| AccountCleanup.WeekNoticeSticks | module/Application/tests/Model/Service/AccountCleanup/ServiceTest.php:180-211 | an account given the one-week notice was not expired and was due; after the run it is no longer due, so the next run does not notify it again |
| AccountCleanup.MonthNoticeSticks | module/Application/tests/Model/Service/AccountCleanup/ServiceTest.php:264-295 | an account given the one-month notice was due for it; after the run it is no longer due, so the next run does not notify it again |
| AccountCleanup.UnactivatedRemoved | module/Application/tests/Model/Service/AccountCleanup/ServiceTest.php:297-309 | every account that was never activated and was created before the cut-off ends the run deleted |
| AccountCleanup.RunLogEvents | module/Application/tests/Model/Service/AccountCleanup/ServiceTest.php:108-343 | the four stages log no summary, and each week or month notice sent went to an account due for it whose post succeeded |
| AccountCleanup.RunOutcome | module/Application/tests/Model/Service/AccountCleanup/ServiceTest.php:108-343 | over a run recorded stage by stage: no account key is lost, exactly one summary event comes last, expired accounts end deleted, accounts unactivated before the cut-off end deleted, and neither the week nor the month notice is repeated |
| AccountCleanup.CleanupService.RemoveOne | module/Application/tests/Model/Service/AccountCleanup/ServiceTest.php:141-160 | the account becomes a deletion record, one removal event is logged with the reason, and one account-deleted log with the identity hash is appended when the insert is accepted; nothing else changes |
| AccountCleanup.CleanupService.RemoveAll | module/Application/tests/Model/Service/AccountCleanup/ServiceTest.php:141-160 | every target is deleted, each once, one removal is logged per target with the reason, and the account-deleted logs are appended in the order of deletion |
| AccountCleanup.CleanupService.NotifyOne | module/Application/tests/Model/Service/AccountCleanup/ServiceTest.php:180-262 | posts the notice for the account; only a successful post sets the flag; the post's outcome is logged |
| AccountCleanup.CleanupService.NotifyAll | module/Application/tests/Model/Service/AccountCleanup/ServiceTest.php:180-295 | every target is posted to once; exactly the accounts whose post succeeded are flagged; failures are logged and the loop goes on |
| AccountCleanup.CleanupService.RunStages | module/Application/tests/Model/Service/AccountCleanup/ServiceTest.php:311-343 | the four stages in order: the stores and visit orders of each, the events they log, and the account-deleted logs of the two removal stages |
| AccountCleanup.CleanupService.Cleanup | module/Application/tests/Model/Service/AccountCleanup/ServiceTest.php:108-343 | the four stages in order with their cut-offs and flags, recorded stage by stage (the stores, the visit orders, the logged events and the account-deleted logs), then exactly one summary publish, recorded as an alert when it fails; expired and unactivated accounts end deleted; neither notice is repeated |
| RestResource.CasStore | module/Application/src/Application/Model/Rest/AbstractResource.php:120-124 | the write replaces the document only when both `_id` and the loaded `updatedAt` match; it creates nothing and touches no other document |
| RestResource.CasModifiedIffChanged | module/Application/src/Application/Model/Rest/AbstractResource.php:120-130 | `nModified` is 1 exactly when the store changed |
| RestResource.StaleMarkerChangesNothing | module/Application/src/Application/Model/Rest/AbstractResource.php:113-130 | a writer whose loaded marker is stale changes nothing and is told no document was modified |
| RestResource.SecondWriterLoses | module/Application/src/Application/Model/Rest/AbstractResource.php:113-130 | of two writers that loaded the same version, the second is refused after the first succeeds, and the first one's document stays |
| RestResource.VersionedCollection.FindOne | module/Application/src/Application/Model/Rest/Users/Resource.php:40 | the document stored under the id, or none |
| RestResource.VersionedCollection.Insert | module/Application/src/Application/Model/Rest/Users/Resource.php:190-192 | inserted exactly when the id is new; nothing changes otherwise |
| RestResource.VersionedCollection.Update | module/Application/src/Application/Model/Rest/AbstractResource.php:120-124 | the conditional write, reporting whether one document was modified |
| RestResource.VersionedCollection.Remove | module/Application/src/Application/Model/Rest/Users/Resource.php:118 | the document under the id is removed and no other |
| RestResource.Resource.SetRouteUser | module/Application/src/Application/Model/Rest/AbstractResource.php:39-41 | the route user is set; the LPA is kept |
| RestResource.Resource.SetLpa | module/Application/src/Application/Model/Rest/AbstractResource.php:55-57 | the LPA is set; the route user is kept |
| RestResource.Resource.GetRouteUser | module/Application/src/Application/Model/Rest/AbstractResource.php:46-51 | 'Route User not set' exactly until a route user is set, then that user |
| RestResource.Resource.GetLpa | module/Application/src/Application/Model/Rest/AbstractResource.php:62-67 | 'LPA not set' exactly until an LPA is set, then that LPA |
| RestResource.Resource.CheckAccess | module/Application/src/Application/Model/Rest/AbstractResource.php:81-95 | a missing user id means the route user's; unauthenticated takes precedence over forbidden; access is granted exactly to an authenticated identity that manages the user |
| RestResource.Resource.UpdateLpa | module/Application/src/Application/Model/Rest/AbstractResource.php:104-132 | after the access check, the object's `updatedAt` becomes now even if the write fails; the write is conditional on the loaded marker; anything other than one modified document is an error, with no retry |
| UsersResource.Unprotected | module/Application/src/Application/Model/Rest/Users/Resource.php:149 | client data without `id`, `email`, `createdAt` and `updatedAt`, other keys kept |
| UsersResource.Build | module/Application/src/Application/Model/Rest/Users/Resource.php:133-178 | a new user is stamped now/now; an existing one keeps its dates; client fields override stored ones and the rest stay; the email is always the identity's |
| UsersResource.ProtectedKeysIgnored | module/Application/src/Application/Model/Rest/Users/Resource.php:149 | no value under a protected key changes the user that is saved |
| UsersResource.SavedUserReadsBack | module/Application/src/Application/Model/Rest/Users/Resource.php:165-171 | a saved user, loaded again with no client data, is that user |
| UsersResource.UsersResource.Save | module/Application/src/Application/Model/Rest/Users/Resource.php:133-221 | an invalid user is a validation problem and nothing is written; a new user is inserted; an existing one is written conditionally on its old `updatedAt`, and any other outcome than one modified document is an error |
| UsersResource.UsersResource.Fetch | module/Application/src/Application/Model/Rest/Users/Resource.php:28-65 | an existing user is returned with the identity's email; an absent one is created; the route user is set on success |
| UsersResource.UsersResource.Update | module/Application/src/Application/Model/Rest/Users/Resource.php:75-99 | what `save` does to the store and returns: an invalid user is a validation problem with nothing written, a new user is inserted, an existing one is written conditionally on its old `updatedAt`; the route user is set exactly on success |
| UsersResource.UsersResource.Delete | module/Application/src/Application/Model/Rest/Users/Resource.php:108-122 | after the access check the user document is removed and true is returned |
| Applications.FilterIncomingData | module/Application/src/Model/Service/Applications/Service.php:80-88 | keeps exactly the keys `document`, `metadata`, `payment` and `repeatCaseNumber` with their values |
| Applications.NewLpa | module/Application/src/Model/Service/Applications/Service.php:49-57 | the new LPA's fields; only its empty `document` is one that client data can replace |
| Applications.Populated | module/Application/src/Model/Service/Applications/Service.php:59-63 | the accepted keys of the data are added or replaced; every other field is the new LPA's |
| Applications.FirstFree | module/Application/src/Model/Service/Applications/Service.php:38-47 | the first drawn id not in use; none exactly when every draw is in use |
| Applications.CreatedLpaFixedFields | module/Application/src/Model/Service/Applications/Service.php:49-63 | a created LPA has the route user, `locked` and `whoAreYouAnswered` false, its id and now as dates, whatever the data says; accepted keys take the data's values |
| Applications.AllDeleted | module/Application/src/Model/Service/Applications/Service.php:256-269 | every document of the user is stripped, the others are untouched, and no id disappears |
| Applications.Tombstone | module/Application/src/Model/Service/Applications/Service.php:244-248 | the stripped LPA keeps `updatedAt` and belongs to no user |
| Applications.DigitRun | module/Application/src/Model/Service/Applications/Service.php:166 | the length of the leading run of digits |
| Applications.SkipSpace | module/Application/src/Model/Service/Applications/Service.php:166 | the suffix after the leading whitespace |
| Applications.SkipSign | module/Application/src/Model/Service/Applications/Service.php:166-167 | drops one leading character exactly when it is `+` or `-` |
| Applications.AfterMantissa | module/Application/src/Model/Service/Applications/Service.php:166 | the rest after a decimal mantissa, a proper suffix; when nothing is left the string ended in a digit or a point |
| Applications.IsNumeric | module/Application/src/Model/Service/Applications/Service.php:166 | optional white space and sign, a mantissa and an optional exponent, nothing after: a numeric string ends in a digit or a point |
| Applications.DigitsValue | module/Application/src/Model/Service/Applications/Service.php:167 | the decimal value of a digit string, zero exactly when every digit is 0 |
| Applications.IntCast | module/Application/src/Model/Service/Applications/Service.php:167 | a non-zero cast needs digits after the white space and sign, and a negative one a minus sign |
| Applications.IntCastLeadingInteger | module/Application/src/Model/Service/Applications/Service.php:167 | white space, an optional sign, digits and anything else: the cast is the digits' value, negated after a minus |
| Applications.StripSpace | module/Application/src/Model/Service/Applications/Service.php:170 | the string without its whitespace |
| Applications.StripSpaceNoSpace | module/Application/src/Model/Service/Applications/Service.php:170 | a string without white space is unchanged |
| Applications.StripSpaceAppend | module/Application/src/Model/Service/Applications/Service.php:170 | stripping a concatenation strips each part, so the other characters are kept in order |
| Applications.DigitsAreNumeric | module/Application/src/Model/Service/Applications/Service.php:166-167 | a non-empty digit string is numeric and `(int)` reads its decimal value |
| Applications.DigitRunOfDigits | module/Application/src/Model/Service/Applications/Service.php:166 | a digit string is all one digit run |
| Applications.Classify | module/Application/src/Model/Service/Applications/Service.php:162-181 | numeric gives an `_id` search; A/a then digits once whitespace is removed gives an `_id` search; otherwise 3 or more characters give a case-insensitive pattern; exactly the rest give no search |
| Applications.ReferenceSearchFindsId | module/Application/src/Model/Service/Applications/Service.php:169-172 | "A" followed by digits with spaces searches for that id |
| Applications.LetterIsNotNumeric | module/Application/src/Model/Service/Applications/Service.php:166-170 | a search starting with "A" is never numeric, so it goes to the reference branch |
| Applications.NumberSearchFindsId | module/Application/src/Model/Service/Applications/Service.php:166-167 | a string of digits searches for that id |
| Applications.SearchOf | module/Application/src/Model/Service/Applications/Service.php:162-163 | the trimmed search string, present only when it is not empty |
| Applications.Merged | module/Application/src/Model/Service/Applications/Service.php:156-159 | with a filter array every parameter becomes an equality condition; without one there are none |
| Applications.SearchTerm | module/Application/src/Model/Service/Applications/Service.php:161-181 | no search without a search string, otherwise its classification |
| Applications.ListFilter | module/Application/src/Model/Service/Applications/Service.php:152-181 | `user` is always the route user; an id search adds `_id`; a name search adds a case-insensitive regex; with no filter and no search only `user` is present |
| Applications.ListFilterEqualities | module/Application/src/Model/Service/Applications/Service.php:156-159 | every other key is an equality on a parameter and appears only with a filter array; with one, every parameter appears |
| Applications.ApplicationsService.Create | module/Application/src/Model/Service/Applications/Service.php:25-74 | the id is the first free draw in [1000000, 99999999999] and is unused; a malformed LPA is refused with nothing inserted; otherwise the populated LPA is inserted under its id |
| Applications.ApplicationsService.DrawFreeId | module/Application/src/Model/Service/Applications/Service.php:38-47 | the loop takes the first draw that is not an id in use, and none when every draw is |
| Applications.ApplicationsService.Fetch | module/Application/src/Model/Service/Applications/Service.php:123-142 | 404 unless both `_id` and `user` match; otherwise the document read back from its stored form (store dates become DateTimes) with `id` added |
| Applications.ApplicationsService.Delete | module/Application/src/Model/Service/Applications/Service.php:229-251 | 404 with nothing changed for a document the user does not own; otherwise it becomes `{_id, updatedAt}` and true is returned |
| Applications.ApplicationsService.DeleteAll | module/Application/src/Model/Service/Applications/Service.php:256-269 | every document of the route user is stripped and true is returned |
| Applications.DeletedIdNeverReused | module/Application/src/Model/Service/Applications/Service.php:244-248 | a deleted LPA's id is still in use, so it is never allocated again |
| NotifiedPeople.MaxId | module/Application/src/Application/Model/Rest/NotifiedPeople/Resource.php:51-57 | the largest id in the list, or 0, and an id the list holds when it is not 0 |
| NotifiedPeople.NewIdIsFresh | module/Application/src/Application/Model/Rest/NotifiedPeople/Resource.php:51-57 | max + 1 is held by nobody in the list, and the first person gets id 1 |
| NotifiedPeople.NextId | module/Application/src/Application/Model/Rest/NotifiedPeople/Resource.php:51-57 | the loop computes max(ids ∪ {0}) + 1 |
| NotifiedPeople.FirstMatch | module/Application/src/Application/Model/Rest/NotifiedPeople/Resource.php:85-91 | the index of the first person with the id, or none when no one has it |
| NotifiedPeople.RemoveAt | module/Application/src/Application/Model/Rest/NotifiedPeople/Resource.php:190 | the list without the entry at the index, the others in order |
| NotifiedPeople.RemoveFirstMatch | module/Application/src/Application/Model/Rest/NotifiedPeople/Resource.php:185-190 | removing the first match loses exactly that entry and leaves no earlier match |
| NotifiedPeople.NotifiedPeopleResource.Create | module/Application/src/Application/Model/Rest/NotifiedPeople/Resource.php:35-68 | the person, with its id or max + 1, is appended and the others are unchanged; the LPA is saved with the conditional write |
| NotifiedPeople.NotifiedPeopleResource.Fetch | module/Application/src/Application/Model/Rest/NotifiedPeople/Resource.php:77-93 | the first person with the id; a 404 exactly when there is none |
| NotifiedPeople.NotifiedPeopleResource.FetchAll | module/Application/src/Application/Model/Rest/NotifiedPeople/Resource.php:102-129 | an empty collection for an empty list, otherwise all the people on one page |
| NotifiedPeople.NotifiedPeopleResource.Update | module/Application/src/Application/Model/Rest/NotifiedPeople/Resource.php:138-167 | replaces the first match in place, keeping its id, and saves; with no match a 404 and nothing saved |
| NotifiedPeople.NotifiedPeopleResource.Delete | module/Application/src/Application/Model/Rest/NotifiedPeople/Resource.php:176-222 | removes the first match; an invalid document is a validation problem and an invalid LPA an error, neither saved; otherwise saved and true; a 404 when nothing matches |
| Hal.Level | module/Application/src/Application/Library/Hal/Entity.php:47-62 | each kind of entity sits at one of the three route levels |
| Hal.LinksReachEveryLevelAbove | module/Application/src/Application/Library/Hal/Entity.php:47-62 | the uri comes from the entity's own level; the links reach every level above it and nothing else |
| Hal.GeneratedLinks | module/Application/src/Application/Library/Hal/Entity.php:53-62 | one link per relation of the entity's kind, each generated from its route |
| Hal.GeneratedLinksByKind | module/Application/src/Application/Library/Hal/Entity.php:49-62 | a user gets no links, an application a `user` link, anything else `user` and `application` |
| Hal.AddLinks | module/Application/src/Application/Library/Hal/Entity.php:53-62 | adding the links one by one merges them in |
| Hal.HalEntity.constructor | module/Application/src/Application/Library/Hal/Entity.php:20-22 | the document wraps the entity with its data, and its links are not set |
| Hal.HalEntity.SetEntity | module/Application/src/Application/Library/Hal/Entity.php:24-28 | the data becomes the entity's array form and the links must be set again |
| Hal.HalEntity.GetLinks | module/Application/src/Application/Library/Hal/Entity.php:32-38 | the links exactly when they have been set since the last `setEntity`, otherwise the exception |
| Hal.HalEntity.SetLinks | module/Application/src/Application/Library/Hal/Entity.php:47-70 | uri from `api-v1`, `api-v1/level-1` or `api-v1/level-2` by kind, the links of that kind added, and the links marked set |
| StatsCommon.Hex | module/Application/src/Application/Model/Rest/Stats/Resource.php:229 | hex digits without leading zeros |
| StatsCommon.HexRoundTrip | module/Application/src/Application/Model/Rest/Stats/Resource.php:229 | reading the hex string back gives the number |
| StatsCommon.HexLength | module/Application/src/Application/Model/Rest/Stats/Resource.php:229 | the hex string fits in k digits exactly when the number is below 16^k |
| StatsCommon.PadLeft | module/Application/src/Application/Model/Rest/Stats/Resource.php:229 | a hex string padded with zeros to the width |
| StatsCommon.DecHex | module/Application/src/Application/Model/Rest/Stats/Resource.php:229 | PHP's `dechex` of a 64-bit integer, negative ones in two's complement |
| StatsCommon.BoundShape | module/Application/src/Application/Model/Rest/Stats/Resource.php:229-233 | a bound exists exactly for timestamps in [0, 2^32); it is 24 hex characters: the timestamp in 8 digits, then 16 zeros |
| StatsCommon.BoundOfSmall | module/Application/src/Application/Model/Service/System/Stats.php:414-418 | the padded bound of a timestamp with at most 8 hex digits reads back as that timestamp shifted by 16 digits |
| StatsCommon.PaddingKeepsValue | module/Application/src/Application/Model/Service/System/Stats.php:414 | zero padding keeps the value |
| StatsCommon.BoundedRangeIsHalfOpen | module/Application/src/Application/Model/Rest/Stats/Resource.php:229-235 | with the inclusive `$gte`/`$lte` bounds, an ObjectId of second t with a non-zero tail is in the range exactly when start <= t < end |
| StatsCommon.WhoAreYouWindows | module/Application/src/Application/Model/Rest/Stats/Resource.php:176-208 | four windows starting at the month starts, the first ending now and each later one ending where the previous began; `all` runs from 0 |
| StatsCommon.ChainedWindowsPartition | module/Application/src/Application/Model/Service/System/Stats.php:379-387 | the chained windows cover exactly [earliest start, now) with no gaps and no overlap |
| StatsCommon.WindowsDescend | module/Application/src/Application/Model/Service/System/Stats.php:379-387 | every window starts at or after the last window's start, and the last ends no later than now |
| StatsCommon.InsertDescending | module/Application/src/Application/Model/Service/System/Stats.php:357 | inserting a new key keeps the pairs in descending key order, with the map gaining that entry |
| StatsCommon.KrSort | module/Application/src/Application/Model/Service/System/Stats.php:357 | the pairs of the map, in descending key order, each once |
| StatsResource.UserCountsKeys | module/Application/src/Application/Model/Rest/Stats/Resource.php:305-314 | the per-user counts are keyed by exactly the users whose id is not empty |
| StatsResource.UserCountsLast | module/Application/src/Application/Model/Rest/Stats/Resource.php:305-314 | each user's count is that of the last group row for the user |
| StatsResource.CountPerUser | module/Application/src/Application/Model/Rest/Stats/Resource.php:305-314 | the loop builds the per-user counts, ignoring empty user ids |
| StatsResource.ByLpaCount | module/Application/src/Application/Model/Rest/Stats/Resource.php:317-324 | the histogram has exactly the LPA counts that occur as keys; each value is the number of users with that count |
| StatsResource.HistogramAdd | module/Application/src/Application/Model/Rest/Stats/Resource.php:319-323 | one more user adds one under its count, starting from 1 |
| StatsResource.CountUsersPerLpaCount | module/Application/src/Application/Model/Rest/Stats/Resource.php:317-324 | the loop computes the histogram, and its values sum to the number of users |
| StatsResource.ByUserCount | module/Application/src/Application/Model/Rest/Stats/Resource.php:327-334 | keyed by exactly the user counts that occur; each value is the sum of the LPA counts held by that many users |
| StatsResource.ByUserCountAdd | module/Application/src/Application/Model/Rest/Stats/Resource.php:329-333 | one more LPA count adds that count under its user count |
| StatsResource.SumCountsPerUserCount | module/Application/src/Application/Model/Rest/Stats/Resource.php:327-334 | the loop computes by-user-count, and its values sum to the sum of the LPA counts |
| StatsResource.GetLpasPerUser | module/Application/src/Application/Model/Rest/Stats/Resource.php:290-343 | both maps as specified, each sorted by key descending; the by-LPA-count values sum to the number of kept users |
| StatsResource.Fetch | module/Application/src/Application/Model/Rest/Stats/Resource.php:22-39 | `lpas`, `whoareyou` and `lpasperuser` are answered; exactly the other types are 404 'Stats type not found.' |
| SystemStats.ReduceCountsOccurrences | module/Application/src/Application/Model/Service/System/Stats.php:337-352 | a count is a key exactly when some result has it, and its value is how many results have it |
| SystemStats.ReducedTotal | module/Application/src/Application/Model/Service/System/Stats.php:337-352 | the histogram's values sum to the number of results |
| SystemStats.GetLpasPerUser | module/Application/src/Application/Model/Service/System/Stats.php:337-357 | the histogram, sorted by key descending, counting occurrences and summing to the number of results |
| SystemStats.SectionEntry | module/Application/src/Application/Model/Service/System/Stats.php:74-123 | a section that threw is `['generated' => false]`, otherwise what it computed |
| SystemStats.StatsDocumentFields | module/Application/src/Application/Model/Service/System/Stats.php:74-126 | the document holds exactly the six sections, `generated` and `generationTimeInMs` |
| SystemStats.SectionsIsolated | module/Application/src/Application/Model/Service/System/Stats.php:74-123 | each section's entry depends on that section's own outcome alone |
| SystemStats.Stats.Generate | module/Application/src/Application/Model/Service/System/Stats.php:68-140 | the stats collection is emptied and then holds exactly the one new document; true is returned |

## Left out

- The cron lock around statistics generation is an external process and is not part of this model.
- HTTP routing, controllers and the paginator objects are left out. Results are datatypes standing for the entities, API problems and collections.
- Network calls are outcomes passed in: the notification POST and the SNS summary publish of the cleanup, and the re-authentication of the password service.
- Randomness is input. This covers `openssl_random_pseudo_bytes` with its strong flag, the base-62 conversion, and `Csprng` draws, passed as the sequence of draws.
- Hashing is a function parameter the model assumes nothing about. This covers sha512 and password hashing or verification.
- Email, password, user and LPA validation are predicates passed in. The rules live in foreign libraries.
- The clock is the parameter `now`. The month starts and the "9 months ago", "8 months ago" and "24 hours ago" cut-offs come from calendar arithmetic, so they are inputs as well.
- The cleanup's deletion dates (last login plus 9 months, as Y-m-d) are a function parameter. The AccountCleanup service's own source is not part of this model; its behaviour is taken from its tests.
- The password service's own source is not part of this model; its behaviour is taken from its tests.
- The count statistics (`getLpaStats`, correspondence, preferences and instructions, options) are Mongo count queries. Each is an outcome passed to `SystemStats.Stats.Generate`, and a stored value to `StatsResource.Fetch`.
- Mongo's `group` and `mapReduce` are left out. Their results are the input rows; float counts and the `(int)` of an exponent string are not modelled.
- SystemStats.GetLpasPerUser: returns only the `all` histogram. The section's own `generated` date and float `generationTimeInMs` are not modelled.
- SystemStats.Stats.Generate: `generated` is a formatted date passed in, and `generationTimeInMs` is a rounded integer passed in. The float timing and the two reads of the clock are not modelled.
- The `Y-m` labels of the month windows and the `ksort` of them are left out. The windows are a sequence from the current month backwards.
- When several documents match, Mongo `findOne` returns one in natural order. The model returns some matching document, so lookups by username or token do not fix which one.
- PHP array order is not modelled for maps that the source does not sort. Neither are the gaps that `unset` leaves in a list's numeric keys.
- Overflow of PHP integers is left out, except where `dechex` is modelled: there a bound exists only for timestamps in [0, 2^32).
- The `checkAccess` of the version-2 applications service, and its `patch` operation, are left out.
- Applications.ApplicationsService.Create: the do-while loop draws ids until one is free. The model takes a finite sequence of draws and reports `NoFreeId` if all of them are in use.
- The `count` and lazy paging of `fetchAll` are left out. Only its filter is modelled, by `Applications.ListFilter`.
- UsersResource.UsersResource.Delete: removing the user's applications through the applications resource's `deleteAll` is not modelled here. `Applications.ApplicationsService.DeleteAll` models that operation on its own.
- The notified person's details and nested LPA documents are opaque values. Their validation is the predicates passed in.
- Applications.Classify: the id of a numeric search is the value of its leading digits, as `(int)` reads a numeric string without an exponent. From PHP 7.1 on, `(int)` applies an exponent through a float conversion, so a search such as "1e3" looks for 1000 in the source and for 1 here; floating point is not modelled. The three-character minimum for a name search counts characters, while `strlen` counts UTF-8 bytes, so a two-character search with a multi-byte character gets a name search in the source and no search here.
- Applications.IntCastLeadingInteger: the remainder after the digits is ignored, as `(int)` does before PHP 7.1. From 7.1 on, a remainder starting with an exponent (`"12e2x"`) scales the value; that float conversion is not modelled (see `Applications.Classify` above).
- ApiAuthLog.LoggedDetailsReadBack: the `_id` that the Mongo driver adds to an inserted document, and that `getLogByIdentityHash` returns with it, is not modelled. A log reads back here with exactly the keys that were added. The same holds for `AuthModuleLog.LogCollection.AddLog`.
- AccountCleanup.CleanupService.RemoveOne: deleting the account's LPAs and its API-side record, which the removal stages ask for, is not modelled. The `withLpas` choice is only recorded in the removal event. `Applications.ApplicationsService.DeleteAll` models the LPA deletion on its own.
- Route ids arrive already as integers. The `(int)` cast of the route parameter in the notified-people resource and in the applications service's `fetch` and `delete` is not modelled.
- RestResource.SecondWriterLoses: the `updatedAt` marker is whole seconds here, while the source's DateTime and MongoDate carry microseconds. The lemma therefore requires the first writer's new marker to differ from the one both writers loaded. A first write within the same second as the load is not covered here, though in the source it would change the marker.
- The HAL base class (`Hal.php`) is not part of this model. The uri and the added links stand for what `setUri` and `addLink` record.
