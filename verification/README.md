# Verified models of IPaper's stateful core

IPaper is a reading workbench: a Flask server with local accounts and a library of PDF
papers, and a browser client that searches, renders and discusses them. This project models
the parts of it whose correctness depends on state, order or offsets, and proves what they
keep over all inputs and all runs. `dafny verify dfyconfig.toml` checks everything.

| part | modules |
|---|---|
| normalised PDF text search and its navigation | `ReadingSearch`, `ReadingSearchTheorems`, `ReadingSearchHyphens`, `ReadingSearchText`, `PdfNavigation` |
| local accounts: sessions, roles, invitations, reset codes | `LocalAuth`, `LocalAuthService`, `LocalAuthRuns`, `LocalAuthSessions`, `LocalAuthLifetimes`, `LocalAuthAnswers`, `LocalAuthCodes` |
| crash-safe submission to the MinerU service | `CloudProbe`, `CloudProbeRuns` |
| coalescing of search index rebuilds | `RebuildWorker` |
| reading calendar, server and client | `ReadingCalendar`, `ReadingCalendarDays` |
| browser caches and PDF workers | `OrderedMap`, `CoverCache`, `CoverCacheRuns`, `PdfRuntime`, `PdfSearchCache` |
| rate limiter | `RateLimiter` |
| arXiv identities and their SQL predicate | `ArxivIdentity`, `ArxivPredicate`, `ArxivSoundness`, `ArxivGrammar` |
| chat stream framing | `ChatStream` |
| application days and the arXiv announcement calendar | `AppTime` |

Objects with fields are classes whose methods are proved against specification functions;
protocols with several threads, requests or processes are state machines over those
functions, and the theorems are about every run of them. One step is a stretch of code
that no other actor of the same machine can observe half done: a locked region, the code
between two awaits, one call to the outside, and for the account store one read or one
transaction. The server runs eight threads with a connection each, so between the read of a
call and its write any other request may commit; calls that read before they write are
therefore several steps.

## Where a promise holds only under a condition

- **Stale reads.** `login`, `change_password` and `update_user` write on the strength of rows
  read before. A step keeps every open session under the current role and password of an
  active user if and only if the row it writes on still fits, and keeps an active administrator
  if and only if no update takes the last one away when it writes; so both hold all along a run
  exactly when every step of it meets its condition. They do in every run in which no row has
  changed since it was read, and fail for a login that overlaps a reset and for two demotions
  that overlap.
- **Rejected sessions.** An issued session is rejected for good if and only if it is revoked,
  expired, or idle with no use in flight. A use read just before the idle limit and written
  after it brings a rejected session back; so does enabling a user for whom a login that had
  read the row before wrote its session after the user was disabled.
- **Calendar.** Cutting a short calendar out of the 53-week payload equals asking the server
  again if and only if no later date of the current week has minutes: the client counts only
  elapsed reading days, the server counts all. One row dated tomorrow makes them differ.
- **arXiv predicate.** The documentation of `identity_sql` says that a different paper can never
  satisfy the predicate. `$` also matches before a trailing newline, so `"<id>\n/"` parses to a
  base that keeps its newline, and for such a value the predicate selects a stored string that
  parses to another identity. It is exact if and only if the base keeps no newline, and the
  values that keep one are exactly those in which the base is followed by a newline and then by
  a version or a slash, between the usual decorations.
- **arXiv printing.** `versioned` drops version 0, and a kept newline without a version is
  stripped when the text is parsed again; printing and parsing undo each other if and only if
  neither is the case.
- **Soft hyphens.** Dropping them leaves exactly the other code points of a page if and only if
  none stands inside a surrogate pair; one that does changes what the pair folds to.
- **Rebuilds.** When nothing is active every request is covered if and only if the last submit
  did not raise. The request of a refused submit stays uncovered; from the next request on all
  are covered again.
- **Page cache.** The byte counter stays exact if and only if the page is not cached any more at
  the time it is stored, or has no items. Two overlapping loads count a page twice, the surplus
  never goes away while the search lives, and the eviction loop runs into a type error exactly
  when the surplus leaves no room for a page.

`register` raises inside its `try`, where only integrity errors are caught, and
`create_bootstrap_admin` catches its integrity error without a rollback. Their transactions stay
open until the request ends; the model keeps other writers out meanwhile and then drops them.

The name `FixedWindowRateLimiter` is misleading: it is a sliding window over the events allowed
in the last `window` seconds.

## Model

| member | source | states |
|---|---|---|
| ReadingSearch.NormalizeItems | frontend/src/readingSearch.ts:12-43 | the four results grow in step and are the fold of all code points of all items, each unit stamped with its item, start and end |
| ReadingSearch.AppendItem | frontend/src/readingSearch.ts:17-34 | the loop over one item walks its code points with a running offset clamped to the string |
| ReadingSearch.AppendCell | frontend/src/readingSearch.ts:18-24 | a soft hyphen adds nothing, any other code point what its folded form adds |
| ReadingSearch.AppendFolded | frontend/src/readingSearch.ts:24-33 | the loop over one folded character adds its parts and skips a space after a space |
| ReadingSearch.AppendOffsets | frontend/src/readingSearch.ts:28-32 | every unit of a part gets one entry in each offset array |
| ReadingSearchTheorems.WhitespaceIsCollapsed | frontend/src/readingSearch.ts:24-27 | in the text of every page all white space is a plain space and no two spaces are adjacent, also across items |
| ReadingSearchHyphens.PageDehyphenedIff | frontend/src/readingSearch.ts:18-21 | a page without its soft hyphens has exactly the other code points if and only if none stood inside a surrogate pair |
| ReadingSearchHyphens.SoftHyphensVanish | frontend/src/readingSearch.ts:18-21 | such a page normalises like the page with its soft hyphens removed |
| ReadingSearchHyphens.SplitPairChangesText | frontend/src/readingSearch.ts:18-23 | a soft hyphen inside the pair of U+10400 keeps it from being lower-cased to U+10428 |
| ReadingSearchTheorems.SplitIndependence | frontend/src/readingSearch.ts:12-43 | the normalised text does not depend on how the same code points are split into items |
| ReadingSearchTheorems.OffsetArraysOrdered | frontend/src/readingSearch.ts:29-32 | the offset arrays stay inside their items and are lexicographically non-decreasing |
| ReadingSearchTheorems.SliceCodePoints | frontend/src/readingSearch.ts:17-34 | the source between the start of one code point and the end of a later one holds exactly the code points from the one to the other |
| ReadingSearchTheorems.SliceText | frontend/src/readingSearch.ts:12-43 | the text a stretch of the page adds in place is a suffix of what it normalises to on its own |
| ReadingSearchTheorems.MatchMapsBack | frontend/src/readingSearch.ts:60-64 | the source between the mapped start and end of any occurrence normalises on its own to text with the needle |
| ReadingSearchTheorems.EveryMatchMapsBack | frontend/src/readingSearch.ts:57-71 | the same for every match that can be returned, whose text is the needle |
| ReadingSearch.IndexOfIsFirst | frontend/src/readingSearch.ts:57 | the search finds the first occurrence at or after its start, or there is none |
| ReadingSearch.Collect | frontend/src/readingSearch.ts:57-71 | the scan counts every greedy position and keeps the records of one window of them |
| ReadingSearch.FindMatches | frontend/src/readingSearch.ts:44-73 | the count is over the whole page, the list is exactly the skip and limit slice of all matches, the characters are the trimmed text |
| ReadingSearchTheorems.PositionsAreDisjoint | frontend/src/readingSearch.ts:57-71 | the counted positions are occurrences of which no two share a unit |
| ReadingSearchTheorems.CountIsMaximal | frontend/src/readingSearch.ts:69-70 | no set of disjoint occurrences is larger than the count |
| ReadingSearchTheorems.CountIsMaximum | frontend/src/readingSearch.ts:44-73 | the count is the maximum size of a set of disjoint occurrences |
| ReadingSearchText.TextIsTheImage | frontend/src/readingSearch.ts:12-43 | the text of every page is what its code points without soft hyphens become under the tables, with runs of white space squeezed to one space |
| ReadingSearchText.NeedleIsTheMiddle | frontend/src/readingSearch.ts:52 | what is looked for is the text of the query without the white space at its two ends |
| ReadingSearchText.AlikePagesAnswerAlike | frontend/src/readingSearch.ts:23-24 | pages and queries whose code points agree one by one after the tables, case included only when it is asked for, give the same text and the same count |
| ReadingSearchText.SensitiveIgnoresCases | frontend/src/readingSearch.ts:24 | a case-sensitive search never consults the case table |
| ReadingSearchText.EveryMatchIsExact | frontend/src/readingSearch.ts:29-66 | every match runs from the start of the code point that gives its first unit to the end of the one that gives its last, and shows that text |
| ReadingSearchText.EveryMatchShowsContext | frontend/src/readingSearch.ts:65-67 | every match shows the 45 units before and the 70 units behind it, as far as the page has them |
| ReadingSearchText.WindowsJoin | frontend/src/readingSearch.ts:59 | consecutive windows of results join up to one window, and one large enough is everything |
| PdfNavigation.ScanPage | frontend/src/pdfSearch.ts:97-108 | a row has the page number, the number of its matches, the length of its text, and the error of a page that cannot be read |
| PdfNavigation.Scan | frontend/src/pdfSearch.ts:94-111 | one row for each page in order until the search is destroyed, and every update shows the rows so far |
| PdfNavigation.PageMatch | frontend/src/ReadingTools.tsx:496-498 | asking for one match from a valid skip on gives the match with that number |
| PdfNavigation.FindRow | frontend/src/ReadingTools.tsx:492-510 | the walk stops at the row whose range has the index, with the matches before it summed |
| PdfNavigation.Show | frontend/src/ReadingTools.tsx:492-511 | for every index below the total the shown match is the one with that number in the whole document |
| PdfNavigation.Choose | frontend/src/ReadingTools.tsx:485-512 | `choose` shows the match with the reduced number if and only if the index is at least -total or off by a multiple of the total; otherwise the number is negative and names no match |
| PdfNavigation.ActiveIndexInRangeIff | frontend/src/ReadingTools.tsx:489 | the remainder of JavaScript is a match number if and only if the sum is not negative or a multiple of the total |
| PdfNavigation.ButtonsReduce | frontend/src/ReadingTools.tsx:596-642 | every index that a button or the enter key asks for from -1 on meets that condition, -2 on a single match too |
| PdfNavigation.NextAndPrevious | frontend/src/ReadingTools.tsx:489 | a match number is itself, next and previous go to the neighbour and around at the ends, and from nothing chosen next shows the first match |
| PdfNavigation.NameIsPosition | frontend/src/ReadingTools.tsx:492-510 | match k of row r stands in the matches of the whole document where its global number says |
| PdfNavigation.GlobalIndexPicksOneMatch | frontend/src/ReadingTools.tsx:492-510 | every global number below the total names exactly one page and one existing match |
| PdfNavigation.EveryMatchHasANumber | frontend/src/ReadingTools.tsx:492-510 | every match of every listed page has a global number below the total |
| LocalAuthService.Service.CreateBootstrapAdmin | ipaper/local_auth.py:67-89 | one new administrator, or a name that is taken, which leaves the transaction of the failed insert open |
| LocalAuthService.Service.FindCredentials | ipaper/local_auth.py:106-119 | the read of `login`: refuses unknown, disabled and wrong credentials |
| LocalAuthService.Service.OpenSession | ipaper/local_auth.py:120-134 | its write: possibly a new hash of the password that was checked, and one new session |
| LocalAuthService.Service.FindSession | ipaper/local_auth.py:136-151 | the read of `authenticate`: accepts exactly the usable sessions |
| LocalAuthService.Service.RecordUse | ipaper/local_auth.py:152-155 | its write: the time of the read becomes the last use, whatever happened since |
| LocalAuthService.Service.Logout | ipaper/local_auth.py:169-176 | revokes exactly that session |
| LocalAuthService.Service.CheckCurrentPassword | ipaper/local_auth.py:186-196 | the first read of `change_password` |
| LocalAuthService.Service.CheckCurrentSession | ipaper/local_auth.py:197-204 | its second read: the session must be an open one of the user |
| LocalAuthService.Service.ReplacePassword | ipaper/local_auth.py:205-226 | its write: new hash, every session of the user revoked, one new session |
| LocalAuthService.Service.CreateInvite | ipaper/local_auth.py:228-240 | one new unused invitation that lives 24 hours |
| LocalAuthService.Service.RevokeInvite | ipaper/local_auth.py:259-265 | marks an unused invitation revoked and leaves a used one alone |
| LocalAuthService.Service.FindTarget | ipaper/local_auth.py:276-284 | the first read of `update_user`: the next role and status, and whether an active administrator is to go |
| LocalAuthService.Service.CountAdmins | ipaper/local_auth.py:285-290 | its second read: refuses when at most one active administrator is there |
| LocalAuthService.Service.WriteUser | ipaper/local_auth.py:291-301 | its write: sessions end when the user is disabled or the role differs from the one that was read |
| LocalAuthService.Service.CreatePasswordReset | ipaper/local_auth.py:305-317 | one new reset code of an existing user |
| LocalAuthService.Service.OfflineResetPassword | ipaper/local_auth.py:319-339 | temporary password that must be changed, every session revoked |
| LocalAuthService.Service.FindResetCode | ipaper/local_auth.py:341-354 | the read of `reset_password`: only an unused, unrevoked, unexpired code |
| LocalAuthService.Service.UseResetCode | ipaper/local_auth.py:355-372 | its transaction: the code is used, the password set and the sessions end, or all is rolled back |
| LocalAuthService.Service.CheckInvite | ipaper/local_auth.py:374-388 | the read of `register` |
| LocalAuthService.Service.RegisterTransaction | ipaper/local_auth.py:389-411 | its transaction, which commits, rolls back or stays open |
| LocalAuthRuns.RegistrationCommitsIff | ipaper/local_auth.py:390-406 | the transaction commits if and only if name and id are free and the invitation is still redeemable then |
| LocalAuthRuns.UniqueInEveryRun | ipaper/local_auth.py:67-86 | user names, invitation tokens and reset tokens stay unique over every interleaving |
| LocalAuthRuns.UsedCodesStayUsed | ipaper/local_auth.py:361-363 | a used reset code never changes again |
| LocalAuthRuns.ResetIsSingleUse | ipaper/local_auth.py:347-367 | after every run a used code is refused when it is read, and rolled back when it had been read before |
| LocalAuthRuns.InvitesMatchInEveryRun | ipaper/local_auth.py:228-265 | over every interleaving no invitation is both used and revoked, and used invitations and invited users point at each other |
| LocalAuthRuns.UsedInvitesStayUsed | ipaper/local_auth.py:399-403 | a used invitation never changes again |
| LocalAuthRuns.RedemptionIsABijection | ipaper/local_auth.py:390-406 | redemption is a bijection between used invitations and registered users |
| LocalAuthCodes.InviteAfterStep | ipaper/local_auth.py:259-403 | over every step an invitation changes only when the registration that commits uses it or it is revoked unused |
| LocalAuthCodes.InviteIsCreatedIff | ipaper/local_auth.py:228-240 | invitations appear if and only if one is created with a new id and code, unused, for 24 hours |
| LocalAuthCodes.ResetAfterStep | ipaper/local_auth.py:341-372 | over every step a reset code changes only when the reset that commits uses it |
| LocalAuthCodes.ResetIsCreatedIff | ipaper/local_auth.py:305-317 | reset codes appear if and only if one is created for an existing user with a new id and code, unused, for 24 hours |
| LocalAuthCodes.RegisterIff | ipaper/local_auth.py:374-388 | a registration goes on if and only if the password has 8 to 128 characters and the code is of an unused, unrevoked invitation made less than 24 hours ago |
| LocalAuthCodes.ResetIff | ipaper/local_auth.py:341-354 | a reset goes on if and only if the password has 8 to 128 characters and the code is of an unused reset made less than 24 hours ago, for its user |
| LocalAuthCodes.CodesAreUsedInTime | ipaper/local_auth.py:228-406 | from the empty store on, however calls overlap, every used invitation and reset code was used within 24 hours of its making |
| LocalAuthRuns.WriteLeavesOpenIff | ipaper/local_auth.py:390-411 | supporting: the writes that leave their transaction open are a registration whose invitation is gone and a repeated session token |
| LocalAuthRuns.OpLeavesOpenIff | ipaper/local_auth.py:71-85 | supporting: so do a bootstrap with a name or id that is taken, and a repeated id or token of an invitation or reset code |
| LocalAuthRuns.FailedCallLeavesNothing | ipaper/local_auth.py:404-409 | supporting: such a transaction leaves the tables as they were, before and after its request ends |
| LocalAuthSessions.LoginKeepsCurrentIff | ipaper/local_auth.py:111-133 | the write of a login keeps every open session current if and only if the user is active with the role and password that were read, or a rehash brings the old password back with no session open |
| LocalAuthSessions.ChangeKeepsCurrentIff | ipaper/local_auth.py:190-225 | that of a password change if and only if the user is active when it writes |
| LocalAuthSessions.UpdateKeepsCurrentIff | ipaper/local_auth.py:277-301 | that of a user update if and only if it revokes, or the role stays, or no session is open |
| LocalAuthSessions.StepKeepsCurrentIff | ipaper/local_auth.py:106-372 | a step of any kind keeps every unrevoked session with an active user, the current role and the current password if and only if it is no write, or its row still fits |
| LocalAuthSessions.CurrentInEveryRunIff | ipaper/local_auth.py:106-372 | sessions are current all along a run if and only if every write of the run finds its row fitting |
| LocalAuthSessions.StaleLoginOpensAnOldSession | ipaper/local_auth.py:111-133 | a login that overlaps a reset opens a usable session under the old password |
| LocalAuthSessions.StepKeepsAnAdminIff | ipaper/local_auth.py:281-295 | a step removes the last active administrator if and only if it writes an update that takes the only one away at that moment |
| LocalAuthSessions.AdminInEveryRunIff | ipaper/local_auth.py:281-295 | an active administrator exists all along a run if and only if no update of the run takes the last one away when it writes |
| LocalAuthSessions.SteadyRunsKeepBoth | ipaper/local_auth.py:106-372 | runs whose writes find the rows they read unchanged meet both conditions |
| LocalAuthSessions.StaleCountsLoseTheLastAdmin | ipaper/local_auth.py:285-295 | two demotions that both count before either writes leave no administrator |
| LocalAuthSessions.EveryReachableState | ipaper/local_auth.py:50-411 | unique columns and matching invitations from the empty store on, current sessions in every run whose writes fit, and a lasting administrator in every run whose updates spare one |
| LocalAuthAnswers.AcceptedIff | ipaper/local_auth.py:136-151 | a token is accepted if and only if it is of an active user, not revoked, created less than 7 days and used less than 12 hours ago |
| LocalAuthAnswers.AnswersInEveryRun | ipaper/local_auth.py:136-158 | from the empty store on, in every run whose writes fit, an accepted token is answered with the user of its session, the name and password flag the user has, and the role the login opened it with |
| LocalAuthAnswers.LoginIff | ipaper/local_auth.py:106-119 | a login reads exactly the active user with that name and password, or is refused |
| LocalAuthAnswers.ChangeIff | ipaper/local_auth.py:186-204 | a change of password goes on if and only if the new one has 8 to 128 characters, the current one is right, and the session is an open one of the user |
| LocalAuthAnswers.UpdateIff | ipaper/local_auth.py:273-290 | an update keeps the role and status it was not given, and counts administrators if and only if it takes one away |
| LocalAuthAnswers.UserAfterStep | ipaper/local_auth.py:106-411 | over every step of every interleaving a user changes only in password, flag, role and status, and only as the login, change, reset, update or offline reset that commits then says |
| LocalAuthAnswers.UserIsInsertedIff | ipaper/local_auth.py:67-406 | users appear if and only if a bootstrap commits, as an administrator who must change the password, or a registration, as a member |
| LocalAuthAnswers.SessionAfterStep | ipaper/local_auth.py:169-372 | an open session is revoked by exactly the steps that should, at their time, and a revoked one keeps its time |
| LocalAuthAnswers.SessionIsOpenedIff | ipaper/local_auth.py:125-224 | sessions appear if and only if a login or a change of password commits, for that user, with 7 days to live |
| LocalAuthAnswers.RefusalsDoNotTell | ipaper/local_auth.py:106-388 | an unknown name, a disabled user and a wrong password get one answer, and so do unknown, used, revoked and expired codes |
| LocalAuthAnswers.WritesAreAnswered | ipaper/local_auth.py:120-411 | a write is answered with success if and only if it commits, otherwise with what stood in its way |
| LocalAuthLifetimes.StepContinues | ipaper/local_auth.py:152-155 | no step changes owner, creation or expiry of a session or lifts a revocation, and the last use moves only to the time of a read in flight |
| LocalAuthLifetimes.SaneInEveryRun | ipaper/local_auth.py:106-226 | over every clocked run sessions belong to known users, have the full lifetime and were never used later than now |
| LocalAuthLifetimes.ReachableIsSane | ipaper/local_auth.py:106-226 | the same for everything reached from the empty store |
| LocalAuthLifetimes.NewSessionsAreFresh | ipaper/local_auth.py:127-132 | sessions are only created unrevoked, with the full lifetime and a first use at creation |
| LocalAuthLifetimes.EveryUseIsInTime | ipaper/local_auth.py:147-154 | however uses overlap, every accepted use lies under 7 days after creation and under 12 hours after the use before it |
| LocalAuthLifetimes.UsesFromCreation | ipaper/local_auth.py:125-154 | the same counted from the step that created the session |
| LocalAuthLifetimes.RejectedForGoodIff | ipaper/local_auth.py:136-158 | an issued session is rejected in every later run if and only if it is revoked, expired, or idle with no earlier use in flight that would bring it back |
| LocalAuthLifetimes.RejectionIsPermanent | ipaper/local_auth.py:136-158 | with current sessions and no use in flight one rejection is final, also after the user is disabled and enabled |
| LocalAuthLifetimes.LateUseRevivesASession | ipaper/local_auth.py:141-155 | without that, a use read before the idle limit and written after it: the same token is accepted, rejected, and accepted again |
| LocalAuthLifetimes.StaleLoginRevivesASession | ipaper/local_auth.py:106-158 | and a login that writes after its user was disabled: its session is rejected, and accepted once the user is enabled |
| LocalAuthLifetimes.RevokedForGood | ipaper/local_auth.py:147-151 | a revoked session stays revoked and is rejected over every later run |
| LocalAuthLifetimes.LogoutEndsTheSession | ipaper/local_auth.py:169-176 | after a logout of an issued session every later run leaves it revoked and every verdict on it is a rejection |
| LocalAuthLifetimes.NewPasswordEndsOldSessions | ipaper/local_auth.py:207-215 | a change, a reset or an offline reset ends every session its user had, over every later run |
| LocalAuthLifetimes.NewPasswordOpensOneSession | ipaper/local_auth.py:216-224 | what it leaves open for the user is at most the one session a change has just created |
| CloudProbe.Probe.Store | scripts/verify_mineru_cloud.py:143-144 | a save that returned is on disk; one that was interrupted wrote all or nothing |
| CloudProbe.Probe.Fail | scripts/verify_mineru_cloud.py:278-283 | the error path saves the state with its error code |
| CloudProbe.Probe.CloudRun | scripts/verify_mineru_cloud.py:164-198 | a whole process, fresh or resuming, leaves the disk and the calls that the step machine leaves for the same answers |
| CloudProbe.Probe.Submit | scripts/verify_mineru_cloud.py:171-178 | the submitting branch follows the step machine call by call |
| CloudProbe.Probe.SendFile | scripts/verify_mineru_cloud.py:175-178 | the upload and the save of its outcome follow the step machine |
| CloudProbe.Probe.PollForResult | scripts/verify_mineru_cloud.py:179-198 | the polling loop follows the step machine up to the deadline |
| CloudProbe.Probe.FetchArchive | scripts/verify_mineru_cloud.py:191-196 | the download and its save follow the step machine |
| CloudProbe.NextKeepsInv | scripts/verify_mineru_cloud.py:164-198 | every call, save, failure and kill keeps the durability invariant |
| CloudProbe.AtMostOnce | scripts/verify_mineru_cloud.py:164-198 | over any sequence of fresh runs, resumes and crashes, create and upload happen at most once, upload only with the batch id on disk, and the saved status never claims more than happened |
| CloudProbe.AtMostOnceFromTheStart | scripts/verify_mineru_cloud.py:130-141 | the same from an empty evidence directory |
| CloudProbe.ResumeOnlyPolls | scripts/verify_mineru_cloud.py:167-168 | a resume makes no call but polls of the batch that was on disk when it began |
| CloudProbe.BatchIsFixed | scripts/verify_mineru_cloud.py:174-175 | a batch id on disk is never replaced |
| CloudProbe.SecondFreshRunIsRefused | scripts/verify_mineru_cloud.py:170 | a fresh run after any attempt makes no call to the service |
| CloudProbeRuns.FreshRunIsInOrder | scripts/verify_mineru_cloud.py:164-196 | whatever the answers, a fresh process calls create, then upload after a create that answered a batch, then polls of that batch after an upload that was accepted, and nothing else |
| CloudProbeRuns.FreshRunSucceeds | scripts/verify_mineru_cloud.py:164-196 | a fresh process on an empty directory with good answers ends after one create, one accepted upload and the polls of its batch with the archive on disk |
| CloudProbeRuns.ResumeSucceeds | scripts/verify_mineru_cloud.py:168-196 | a resume with a batch on disk and good answers ends after the polls of that batch with the archive on disk |
| CloudProbeRuns.SavesAreWhole | scripts/verify_mineru_cloud.py:173-193 | a save that returns wrote the state, one that fails or is killed all of it or nothing |
| CloudProbeRuns.KilledProcessStops | scripts/verify_mineru_cloud.py:164-196 | a process that is killed anywhere stops there, and nothing reaches the disk but what a save was writing |
| CloudProbeRuns.UnexpectedAnswerFails | scripts/verify_mineru_cloud.py:278-281 | an answer that is neither good nor a coded failure is the error `probe_failed` |
| CloudProbeRuns.FailureIsSaved | scripts/verify_mineru_cloud.py:278-281 | the code of any failing call or save ends up on disk, when that save returns |
| CloudProbeRuns.RefusalIsSaved | scripts/verify_mineru_cloud.py:167-170 | a resume without a batch and a fresh run after an attempt stop without a call and save their code |
| CloudProbeRuns.DeadlineIsSaved | scripts/verify_mineru_cloud.py:197-198 | at the deadline the process stops and saves that the remote state is unknown |
| RebuildWorker.RebuildFlags.Request | app.py:1316-1320 | the caller's locked region |
| RebuildWorker.RebuildFlags.SubmitFailed | app.py:1323-1325 | the locked region after a refused submit: pending is left as it is |
| RebuildWorker.RebuildFlags.PassDone | app.py:1308-1313 | the worker's locked region after a pass |
| RebuildWorker.InvInEveryRun | app.py:1271-1326 | the flag is a token held by exactly one thread, over every interleaving |
| RebuildWorker.AtMostOneWorker | app.py:1271-1326 | at most one caller or worker is active, and there are no more passes than requests |
| RebuildWorker.IdleIsCoveredIff | app.py:1308-1326 | whenever nothing is active the last pass started after the last request if and only if the last submit did not raise |
| RebuildWorker.NoRequestIsLost | app.py:1308-1322 | without refused submits every request is covered when nothing is active |
| RebuildWorker.FailedSubmitLosesItsRequest | app.py:1323-1326 | a refused submit leaves its request uncovered |
| RebuildWorker.LaterRequestsAreAccepted | app.py:1316-1326 | after every quiet state, left by a refused submit too, however the threads interleave from the next request on, every request is covered whenever nothing is active, as long as no submit raises |
| RebuildWorker.WorkerDrains | app.py:1275-1313 | without new requests a waiting worker stops after at most two passes with everything covered |
| RebuildWorker.RequestIsRebuilt | app.py:1316-1323 | a request in a quiet state after a submit that did not raise leads to one pass, and the worker stops |
| RebuildWorker.RequestsDuringAPassShareOne | app.py:1308-1321 | however many requests come during a pass, one more pass covers them all, and the worker stops |
| ReadingCalendar.BuildActivityDays | ipaper/reading_activity.py:22-76 | one day for each date of the range, from the row and the legacy entry of that date |
| ReadingCalendar.Summarize | ipaper/reading_activity.py:79-98 | total and week minutes and the number of reading days |
| ReadingCalendar.ActivityPayload | ipaper/reading_activity.py:109-129 | the payload is the specified range, days and summary |
| ReadingCalendar.RangeIsWholeWeeks | ipaper/reading_activity.py:101-106 | every range starts on a Monday, ends on the Sunday on or after today and has 1 to 53 whole weeks |
| ReadingCalendarDays.EveryDayShowsItsStores | ipaper/reading_activity.py:40-76 | the days of a payload are dated in order; each shows the larger of the minutes of its last row and of its legacy entry, rounded, and the papers of the attributed row, else the number of different legacy papers, known if and only if there are such rows or papers |
| ReadingCalendarDays.UnknownDaysAreEmpty | ipaper/reading_activity.py:44-70 | a date that neither store has shows no minutes and no papers |
| ReadingCalendarDays.SummaryAddsUp | ipaper/reading_activity.py:79-98 | the summary of days put together is the sum of their summaries |
| ReadingCalendarDays.SummaryOfOneDay | ipaper/reading_activity.py:79-98 | one day counts in the total, in the week when it lies between this Monday and today, and as a reading day when it has minutes |
| ReadingCalendarDays.PayloadSpansItsWeeks | ipaper/reading_activity.py:101-129 | the payload spans 1 to 53 whole weeks up to this Sunday and carries the summary of its days |
| ReadingCalendar.RowsBeforeTheRangeDoNotMatter | ipaper/reading_activity.py:109-129 | rows from before the range do not change the payload |
| ReadingCalendar.WindowIsRecomputedPayload | frontend/src/home-data.ts:23-40 | for 1 to 53 weeks the calendar cut out on the client is the payload the server would compute, if and only if it is all 53 weeks or no later date of this week has minutes |
| ReadingCalendar.FutureDaysAreThisWeek | ipaper/reading_activity.py:101-106 | that condition says the same as that no future day of the payload has minutes |
| ReadingCalendar.TomorrowsRowBreaksTheCut | frontend/src/home-data.ts:36 | one row dated tomorrow, before the week is over, makes the cut and the recomputed calendar differ |
| CoverCache.CoverStore.Clear | frontend/src/library-cover-renderer.ts:11-13 | the clear event empties the cache, zeroes the counter and starts a new epoch |
| OrderedMap.FindAt | frontend/src/pdfSearch.ts:37-40 | in a map with different keys a key is found where it stands, and deleting it removes exactly that pair |
| OrderedMap.SumPut | frontend/src/pdfSearch.ts:71-72 | setting a key moves the sum of sizes by the new size less that of the value it had |
| CoverCache.CoverStore.Head | frontend/src/library-cover-renderer.ts:22-28 | a hit needs the ETag just fetched and moves the cover to the end; another cover of that paper is dropped and uncounted |
| CoverCache.CoverStore.Rendered | frontend/src/library-cover-renderer.ts:39-44 | stores and counts the cover and evicts from the oldest on |
| CoverCache.EvictDropsOldest | frontend/src/library-cover-renderer.ts:43 | eviction keeps a suffix within 12 MiB with an exact counter and drops no more than it must |
| CoverCache.InvInEveryRun | frontend/src/library-cover-renderer.ts:14-48 | counter, bound, freshness and soundness of hits survive every interleaving of jobs and clears |
| CoverCache.CoversAreAccountedAndFresh | frontend/src/library-cover-renderer.ts:9-48 | in every run the counter is the sum of the sizes, at most 12 MiB, no entry is from before the last clear, and every hit served the ETag that job fetched |
| CoverCacheRuns.CoverIsDrawn | frontend/src/library-cover-renderer.ts:14-47 | in every reachable state a job whose cover is not held under the ETag it fetches draws it, holds it as the newest, evicting older ones only, and makes room for the next job; covers asked for meanwhile wait at the end |
| CoverCacheRuns.CoverIsServed | frontend/src/library-cover-renderer.ts:22-27 | in every reachable state a job that fetches the ETag of the cover held is served exactly that cover, which becomes the newest, and nothing else changes |
| CoverCacheRuns.ClearIsFinal | frontend/src/library-cover-renderer.ts:11-45 | after a clear the cache stays empty and nothing is served, however the jobs from before it go on, until a cover is asked for again |
| CoverCacheRuns.AbortedJobEnds | frontend/src/library-cover-renderer.ts:17-45 | an aborted job stores and serves nothing more and makes room for the next |
| CoverCacheRuns.LateJobIsSkipped | frontend/src/library-cover-renderer.ts:17 | a job that is aborted or from before the last clear when its turn comes is skipped |
| PdfRuntime.Runtime.PdfDocument | frontend/src/pdfRuntime.ts:7-9 | a document joins the shared worker, or a new one |
| PdfRuntime.Runtime.Destroy | frontend/src/pdfRuntime.ts:10-14 | the first call starts closing and makes the one underlying call, later ones change nothing |
| PdfRuntime.Runtime.Settled | frontend/src/pdfRuntime.ts:13 | a closed task leaves the set |
| PdfRuntime.Runtime.Clear | frontend/src/pdfRuntime.ts:17-19 | the worker is retired and every open task starts closing |
| PdfRuntime.Runtime.AllSettled | frontend/src/pdfRuntime.ts:19-21 | the handler destroys the worker it retired |
| PdfRuntime.InvInEveryRun | frontend/src/pdfRuntime.ts:2-22 | task, handler and worker states stay consistent over every interleaving |
| PdfRuntime.WorkersOutliveTheirTasks | frontend/src/pdfRuntime.ts:2-22 | a destroyed worker has only closed tasks and is destroyed once, each task's own destroy runs at most once, every retired worker is destroyed or has a handler waiting only for closing tasks |
| PdfRuntime.NewDocumentsGetALiveWorker | frontend/src/pdfRuntime.ts:7-9 | no document opened after a clear uses a retired or destroyed worker |
| PdfRuntime.SettledClearDestroysItsWorker | frontend/src/pdfRuntime.ts:19-21 | once its tasks have closed, a handler's worker is destroyed |
| PdfRuntime.DocumentCloses | frontend/src/pdfRuntime.ts:10-14 | in every reachable state an open document closes after one call of the underlying destroy, however often it is told to |
| PdfRuntime.ClearRunsToItsEnd | frontend/src/pdfRuntime.ts:17-21 | a clear closes every open document, and when they have settled, in any order, destroys the worker once |
| PdfSearchCache.PageCache.Lookup | frontend/src/pdfSearch.ts:36-42 | a destroyed search aborts; a hit returns the cached items and becomes the most recent page |
| PdfSearchCache.PageCache.ReadPage | frontend/src/pdfSearch.ts:47-60 | all items of the stream with their cost, or nothing when they exceed 8 MiB |
| PdfSearchCache.PageCache.Store | frontend/src/pdfSearch.ts:66-73 | evicts, stores and counts, or fails with everything evicted where the loop would read an empty map |
| PdfSearchCache.PageCache.Destroy | frontend/src/pdfSearch.ts:112-122 | empties the cache and answers nothing from it any more |
| PdfSearchCache.LateLoadRefillsTheCache | frontend/src/pdfSearch.ts:60-73 | a load whose stream has ended by then still stores its page afterwards |
| PdfSearchCache.EvictDropsOldest | frontend/src/pdfSearch.ts:66-70 | with an exact counter the loop ends without failing, keeps a suffix in bounds and drops no more than it must |
| PdfSearchCache.EvictFailsIff | frontend/src/pdfSearch.ts:66-70 | the type error occurs if and only if the surplus of the counter leaves no room for the page |
| PdfSearchCache.StoreDrift | frontend/src/pdfSearch.ts:71-72 | a store adds to the surplus exactly what the page had already been counted for |
| PdfSearchCache.StoreIsExactIff | frontend/src/pdfSearch.ts:66-72 | an exact counter stays exact if and only if the page is not cached any more when it is stored, or has no items |
| PdfSearchCache.BoundedInEveryRun | frontend/src/pdfSearch.ts:35-74 | in every run, with overlapping loads too, every reply is the text of its page, at most 16 pages and 8 MiB are held, and the surplus never shrinks until the search is destroyed |
| PdfSearchCache.DriftedPageFailsForGood | frontend/src/pdfSearch.ts:66-72 | once the surplus leaves no room for a page, no load of it is stored again before the search is destroyed |
| PdfSearchCache.CacheIsSoundInEveryRun | frontend/src/pdfSearch.ts:35-74 | while loads of one page do not overlap every reply is the text of its page, the counter is exact, at most 16 entries and 8 MiB are held |
| PdfSearchCache.RequestsAreAnswered | frontend/src/pdfSearch.ts:35-74 | while loads of one page do not overlap every request is answered with the text of the page, at once when it is cached and at the end of its load otherwise, and the page is the newest; a load that fails leaves no trace |
| PdfSearchCache.DestroyedSearchRefuses | frontend/src/pdfSearch.ts:36-118 | a destroyed search holds nothing and answers no request |
| PdfSearchCache.EvictionIsLeastRecentlyUsed | frontend/src/pdfSearch.ts:37-42 | what is evicted was used before everything that stays |
| PdfSearchCache.OverlappingLoadsDoubleCount | frontend/src/pdfSearch.ts:71-72 | two overlapping loads of one page leave the counter too large by its cost |
| PdfSearchCache.OverlappingLoadsReachTheTypeError | frontend/src/pdfSearch.ts:66-72 | and then a page that fits the cache by itself cannot be stored: the loop empties the map and fails |
| RateLimiter.Limiter.Check | ipaper/auth.py:85-105 | prunes, decides and records on the queue of one key and touches no other |
| RateLimiter.Limiter.Clear | ipaper/auth.py:107-109 | forgets the events of every key |
| RateLimiter.CheckRefinesReference | ipaper/auth.py:98-105 | the pruned deque answers like the full history and stays a refinement of it |
| RateLimiter.DequeAnswersLikeHistory | ipaper/auth.py:85-105 | over every series of calls a call is allowed exactly when the full history has fewer than limit allowed events in the window |
| RateLimiter.RateIsLimited | ipaper/auth.py:85-105 | over every series of calls no more than limit of the allowed ones lie within one window, and the deque holds exactly those of them that are in the window of the last call |
| RateLimiter.DequeIsKept | ipaper/auth.py:98-104 | every series of calls leaves the deque in order and within the limit |
| RateLimiter.AllowedAgainIff | ipaper/auth.py:98-103 | after every series of calls, an untouched denied key is allowed again exactly when its oldest event has left the window |
| RateLimiter.RetryAfterIsLeast | ipaper/auth.py:102-103 | after every series of calls, retry_after lies in 1 to window and is the least whole number of seconds after which the key is allowed |
| ArxivIdentity.ParsePlain | ipaper/arxiv_identity.py:49-76 | an undecorated id parses to itself without a version, less one trailing newline |
| ArxivIdentity.ParseVersioned | ipaper/arxiv_identity.py:67-76 | an id with a version of 1 to 4 digits parses to both, one with more digits to nothing |
| ArxivIdentity.PrintThenParseIff | ipaper/arxiv_identity.py:37-39 | printing and parsing undo each other if and only if the version is 1 to 9999, or absent with no newline kept |
| ArxivIdentity.ReparseIff | ipaper/arxiv_identity.py:49-76 | for what the parser returns only version 0 and a kept newline break the round trip |
| ArxivIdentity.NewlineBaseArises | ipaper/arxiv_identity.py:63-74 | an id followed by a newline and a slash parses to a base that keeps the newline |
| ArxivGrammar.ModernIdIff | ipaper/arxiv_identity.py:22 | four digits, a dot and digits are an id if and only if these are four or five |
| ArxivGrammar.LegacyIdIff | ipaper/arxiv_identity.py:23 | a letter, a category, a slash and digits are an id if and only if these are seven |
| ArxivGrammar.ParseIff | ipaper/arxiv_identity.py:49-76 | the parser accepts a value if and only if it is an id and maybe a version of one to four digits among the allowed decorations, and returns exactly these |
| ArxivPredicate.SatisfiesIff | ipaper/arxiv_identity.py:112-124 | the four LIKE patterns select exactly the strings that have the base after nothing or a slash and before the end or a v |
| ArxivSoundness.CoreInside | ipaper/arxiv_identity.py:57-63 | what the parser keeps of a value is one stretch of it, with every digit inside and a slash, colon or white space before it |
| ArxivSoundness.SelectedIsSame | ipaper/arxiv_identity.py:105-124 | a stored string that parses and is selected for a base without a newline has that base |
| ArxivSoundness.NeverADifferentPaperIff | ipaper/arxiv_identity.py:105-132 | the predicate never selects an arXiv id of another paper if and only if the queried base keeps no newline |
| ArxivGrammar.NewlineIsKeptIff | ipaper/arxiv_identity.py:49-76 | the parser keeps a newline if and only if the value is a base, a newline, and a version or slashes, in a frame of white space, slashes, prefix and suffix |
| ArxivGrammar.ExactForTheValueIff | ipaper/arxiv_identity.py:49-132 | the predicate never selects an arXiv id of another paper if and only if the queried value is not of that form |
| ArxivSoundness.SelectsTheStoredForms | ipaper/arxiv_identity.py:105-124 | it selects exactly the stored forms: anything up to a slash or nothing, the base in any case, nothing or a v and anything |
| ChatStream.Reader.ConsumeChunk | frontend/src/chat-stream.ts:33-60 | one chunk changes header, flag and calls as specified, or fails |
| ChatStream.Reader.ReadAll | frontend/src/chat-stream.ts:61-70 | over all chunks the reader succeeds exactly when the whole text parses at once, delivers that session first and that text, and calls nothing when it fails |
| ChatStream.OneShotIff | frontend/src/chat-stream.ts:33-60 | a text is a chat if and only if it is a header line of at most 8192 units that names a session of at most 256 units, not all white space, and then the text of the chat |
| ChatStream.ConsumeStreams | frontend/src/chat-stream.ts:33-60 | after every chunk the state agrees with a one-shot parse of the text so far, or no continuation can succeed |
| ChatStream.HopelessStays | frontend/src/chat-stream.ts:39-54 | a header that failed early fails for every continuation |
| ChatStream.FoldStreams | frontend/src/chat-stream.ts:61-70 | the same over any list of chunks |
| ChatStream.CutDoesNotMatter | frontend/src/chat-stream.ts:33-70 | two ways of cutting the same text give the same session and the same text, or both fail |
| AppTime.SplitIntervalByAppDay | ipaper/timeutil.py:128-156 | lists in order exactly the days that meet the interval, each with its overlap |
| AppTime.PartsSumToLength | ipaper/timeutil.py:128-156 | the parts add up to the length of the interval |
| AppTime.ItemsAreConsecutive | ipaper/timeutil.py:128-156 | the listed days are consecutive from the first to the last |
| AppTime.SplitAtMidpoint | ipaper/timeutil.py:122-156 | splitting at any midpoint and merging gives the same result |
| AppTime.BucketsInUtc | ipaper/timeutil.py:122-156 | a day is listed if and only if the interval has time between 16:00 UTC of the day before and 16:00 UTC, and its part is that time |
| AppTime.ArxivAnnounceInstant | ipaper/timeutil.py:159-177 | the loop ends at 20:00 of the announcement day |
| AppTime.AnnounceDayIsEarliest | ipaper/timeutil.py:159-177 | the announcement day is the earliest weekday whose 14:00 is strictly after the submission |
| AppTime.AnnouncementDelay | ipaper/timeutil.py:159-177 | the announcement comes more than 6 and at most 78 hours later and is monotone |
| AppTime.SameAnnouncementIff | ipaper/timeutil.py:159-177 | two submissions share it if and only if no weekday 14:00 lies after the first and not after the second |
| AppTime.AnnouncedByWeekday | ipaper/timeutil.py:159-177 | before 14:00 from Monday to Friday the announcement is that day, else the next, and on Friday from 14:00, Saturday and Sunday on Monday, always at 20:00 |

## Left out

- NFKC, case tables, UTF-8 decoding and JSON parsing are parameters. The search theorems that
  map a match back use one fact about the tables: a line feed is left alone.
- Argon2 is a salted hash that verifies exactly its own password; SHA-256 is injective, so tables
  are keyed by the token; random tokens and ids are parameters, and a repeated one is a
  constraint error.
- User name normalisation, form validation, `verify_csrf`, the listing calls and `updated_at`.
- LocalAuthRuns.InvitesMatchInEveryRun: `create_password_reset` and `offline_reset_password` are one
  step; their read only finds a user by id or name, which never changes. A request that left a
  transaction open is taken to make no further call before it ends, as in every route.
- Flask routes, cookies, headers, audit logging, the processing, metadata, keyword and topic
  services, `noteSession` and `TenantSearchIndex`.
- CloudProbe.AtMostOnce: a crash during a save leaves the old file or the new one; power loss that
  undoes a completed replacement, `max_wait` validation, the sample hash, the inspection job and
  `compare_output` are not modelled.
- RebuildWorker.NoRequestIsLost: a pass that fails counts as a pass, as in the code; shutdown of the
  executor that cancels a queued worker is not modelled.
- ReadingCalendar.WindowIsRecomputedPayload: rows hold minutes already rounded to tenths; floating
  point sums and ISO date strings are not modelled, dates are day numbers.
- PdfNavigation.Choose: the sequence numbers of overlapping calls, and the messages of the search
  worker.
- CoverCache.InvInEveryRun: drawing and pixels; `getPage` and `render` count as one stretch of time
  in which clears and aborts can happen.
- PdfRuntime.Runtime.Destroy: the promise that later calls return is not a value of the model; the
  phase of the task stands for it.
- PdfRuntime.WorkersOutliveTheirTasks: `TextLayer.cleanup` and what PDF.js does inside `destroy`.
- PdfSearchCache.PageCache.Destroy: the readers, pending requests and worker that it ends.
- ArxivIdentity.ParsePlain: digits, letters and case are those of ASCII; the wider classes that
  Python uses for `\d` and `re.I` are not modelled.
- `identity_keys`, `best_match` and the labels around arXiv ids.
- ChatStream.Reader.ReadAll: the response status, the content type and aborts before or during the
  read.
- AppTime.ArxivAnnounceInstant: Eastern wall time without daylight saving changes; the application
  offset is fixed at eight hours.
- `highlightMatch`, React components, canvas and PDF.js rendering.
