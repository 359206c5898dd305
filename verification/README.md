# Verified model of the WH Alpha service and publication logic

A Dafny model of the parts of the repository that keep state over time, do exact arithmetic, or
accept data on a global property: `dafny verify dfyconfig.toml` checks all of it.

| part | files | what is at stake |
|---|---|---|
| Authentication service | `VisitorCounter`, `Sessions`, `SlidingWindow`, `AuthServer`, `AuthService`, `ServiceLoop` | lazily pruned tables against a clock, and a count written to disk that any operation may fail to write |
| Evidence custody | `FileTree`, `PathNames`, `Custody`, `Staging`, `CustodySystem`, `CustodyPublisher`, `CustodyScope`, `CustodyRuns`, `CustodyAlone`, `CustodyNames` | write-once directories staged and renamed by any number of publishers that may die anywhere |
| Score reconstruction | `Rounding`, `Decimals`, `StrategyScore`, `StrategyChannels` | decimal text, half-even rounding and weighted sums over unbounded integers |
| Detail cache | `Recency`, `DetailCache` | an insertion-ordered map as a least-recently-used cache, with fetches interleaving |
| Validators and selectors | `Ordering`, `Doubles`, `Publication`, `Dates`, `Timeline`, `EodSession`, `Highlights`, `DecisionChain` | local checks that must amount to global properties, and outputs independent of input order |

How the parts are built:

- What the source updates in place is a class with those fields (`AuthState`, `GuestVisitorCounter`,
  `DetailShardCache`, the custody tree); each method is proved against a function of the old state.
- Over those functions stand transition systems and histories, and the results are about every run of
  them. `AuthState`'s handlers each perform exactly one step of `AuthServer` and, for a visit, a legal
  run of `VisitorCounter`; `ServiceLoop` strings them into a legal history of both,
  process after process over one state file.
  `DetailShardCache`'s methods are the two halves of an event of `DetailCache`'s runs.
  `CustodyPublisher` runs one publisher operation by operation and proves it a legal run of
  `CustodySystem`, which interleaves any number of them.
- In the service, the clock may advance before every reading and never runs backwards, and random
  tokens are never drawn twice; both are hypotheses of the run theorems (`Legal`). `record_failure` and
  `record_guest_request` read the clock once per stored item, and so does the model.
- A file operation may fail at any point; a power loss keeps what was flushed, and may or may not keep
  the last replacement. Ghost counters of answered visits and of started processes appear in no
  program state. A visit counts as answered when `increment` returns.
- A path is resolved over the tree as the operating system does it: component by component, each a
  directory, dots and two dots among them, and no name longer than 255 bytes of UTF-8.
- A directory rename follows `rename()` of POSIX.1-2017: onto an absent name or an empty directory it
  succeeds, onto a directory with entries it fails.

What the proofs found, beyond the expected:

- The persisted count can exceed the answered visits, by one per process lifetime: a failure after the
  replacement rolls memory back but not the file. The bound is attained for every number of processes
  (`ExcessIsAttained`).
- `publish_cninfo_event_capture` never compares the raw bytes with the recorded size and digest. A
  capture that disagrees is published for good and can never be read; reading succeeds if and only if
  they agree (`CaptureReadsIffComplete`).
- Query identifiers are unrestricted text joined to a path, once as they are and once behind a dot for
  the staging directory. One that then leads upward can make a published plan unreadable for good: `./x`
  is staged beside the captures directory, in the plan's closed file set (`DetourRun`). When no identifier
  of any plan does so (`Inward`: with a separator in it, it is not absolute, and two dots are no component
  of it, nor of it behind a dot but the last), plan directories are safe whatever else their queries are
  called.
- Among identifiers without a separator, the empty one, a dot and two dots name directories that are
  already there; one above 245 bytes leaves no room for its staging name; and one of the form of another
  query's staging name (a dot, that identifier, a dash, eight characters) can find a dead publisher's
  directory where its capture belongs. For every other the publishers keep their promise in every run
  (`QueryKeptIffWellNamed`).
- The second of two concurrent publishers of the same content gets an error from the rename instead of
  the idempotent answer; nothing is overwritten (`RenameSucceedsIffAbsent`).
- The summary parser does not reconcile lane counts; the full parser does
  (`SummarySkipsReconciliation`).
- When a key is fetched twice at once, the second completion does not make it newest
  (`CompletionRefreshesUnlessCached`), so exact recency holds for requests run one at a time.
- Counts are added in floating point: covered 2 to the 53 and missing 1 reconcile with 2 to the 53
  members. Below that, accepted counts are exact (`AcceptedCountsAreExact`).
- A relationship without a timeline may carry a state outside the priority table; the comparator of the
  highlights can then compare three items in a circle, in a registry the parser accepts
  (`AcceptedRegistryMayBeUnordered`). `ComparatorOrdersIff` says exactly when.

## Model

| member | source | states |
|---|---|---|
| VisitorCounter.CountIsNeverLost | deploy/oci/auth/whalpha_auth_service.py:80-166 | in every run from the first start, with failures at any file operation, kills and power losses anywhere: the file is readable, shows at least the visits answered as counted and at most one more per process that served; a power loss next changes none of this; while serving, the file is the memory's count or one more |
| VisitorCounter.StepKeepsInv | deploy/oci/auth/whalpha_auth_service.py:80-166 | every boot, visit, file operation, failure, kill or power loss keeps the invariant that ties the answered visits, what survives a power loss, what is visible and the memory |
| VisitorCounter.RunKeepsInv | deploy/oci/auth/whalpha_auth_service.py:80-166 | the invariant holds after any run |
| VisitorCounter.ReplacementIsAtomic | deploy/oci/auth/whalpha_auth_service.py:130-166 | a flushed replacement is all or nothing under loss of power, and final once its directory entry is flushed; without the flush the file may be torn |
| VisitorCounter.LateFailureLeavesOneMore | deploy/oci/auth/whalpha_auth_service.py:80-89 | from every serving state the excess of one is reachable: a visit whose directory flush fails after the replacement is refused and rolled back in memory while the file shows it |
| VisitorCounter.ExcessIsAttained | deploy/oci/auth/whalpha_auth_service.py:80-166 | for every number of processes there is a legal run in which the file shows exactly that many more visits than were answered: the bound is attained |
| AuthService.GuestVisitorCounter.Persist | deploy/oci/auth/whalpha_auth_service.py:130-166 | the write stops at the first failing operation; the directory is then exactly what that many operations leave, without the temporary file, and success means all five were done |
| AuthService.GuestVisitorCounter.Increment | deploy/oci/auth/whalpha_auth_service.py:80-89 | memory grows by one on success and not at all on failure, and fails only where a write of the state file was begun and failed; what happened is a legal run of the persisted system ending in this process's state, with one more answered visit exactly on success |
| AuthService.GuestVisitorCounter.LoadOrInitialize | deploy/oci/auth/whalpha_auth_service.py:91-121 | a readable file is loaded, a torn one refused unchanged, a missing one initialized by a write of zero, whose failure is the only other refusal; a legal run of the persisted system ending in a serving process, or in none after the failure |
| AuthService.WriteRuns | deploy/oci/auth/whalpha_auth_service.py:130-166 | the operations a write performed, however many succeeded, are legal actions of the persisted system and end where the handler's object ends |
| AuthService.VisitRuns | deploy/oci/auth/whalpha_auth_service.py:80-89 | the same for a whole visit, from any serving state |
| AuthService.BootRuns | deploy/oci/auth/whalpha_auth_service.py:91-96 | the same for a start that finds no file |
| Sessions.AnswersRefineHistory | deploy/oci/auth/whalpha_auth_service.py:186-231 | in every legal run the lazily evicted table answers the next create, check, logout, visit or sweep exactly as a specification that looks only at the history: a check is true if and only if the token was created less than the lifetime ago and not logged out since; never more than the maximum are stored |
| Sessions.RunAgrees | deploy/oci/auth/whalpha_auth_service.py:186-231 | after every legal run table and history agree about every token at every later time |
| Sessions.StepAgrees | deploy/oci/auth/whalpha_auth_service.py:186-231 | each event keeps that agreement |
| Sessions.CountedOnce | deploy/oci/auth/whalpha_auth_service.py:201-210 | in every legal run, of all the table's answers to one token at most one is that its visit was counted, whatever is evicted, checked and visited in between |
| Sessions.CountedVisitsAreGuests | deploy/oci/auth/whalpha_auth_service.py:201-210 | in every legal run the number of visits answered as counted is the number of tokens counted, each created by a guest entry |
| SlidingWindow.RunTracks | deploy/oci/auth/whalpha_auth_service.py:233-253 | in every run of checks and recordings, with the clock advancing between any two readings, the pruned list is ascending, within the limit, and indistinguishable from the full history at any later check |
| SlidingWindow.WindowNeverExceeded | deploy/oci/auth/whalpha_auth_service.py:233-253 | no interval of 60 seconds, wherever it ends, holds more recordings than the limit |
| SlidingWindow.CheckIsExact | deploy/oci/auth/whalpha_auth_service.py:233-248 | checking the pruned list answers as counting the full history in the window would; the stored list is ascending and within the limit |
| SlidingWindow.RecordedIffRoom | deploy/oci/auth/whalpha_auth_service.py:233-253 | one more attempt is recorded if and only if it comes to that and fewer than the limit were recorded in the 60 seconds before its check |
| SlidingWindow.PruneAfterEach | deploy/oci/auth/whalpha_auth_service.py:239-242 | pruning with the clock read again for every item drops nothing a later check would count |
| AuthServer.LimitsHoldForEveryClient | deploy/oci/auth/whalpha_auth_service.py:420-473 | over any interleaving of all clients' requests, no 60-second window holds more than five recorded failures, or ten guest entries, of one client |
| AuthServer.RefusalsAreExact | deploy/oci/auth/whalpha_auth_service.py:426-473 | a request is turned away if and only if the client's own full history holds the limit's worth in the 60 seconds before |
| AuthServer.SessionAnswersAreExact | deploy/oci/auth/whalpha_auth_service.py:386-509 | after any run of the whole server every session question is answered as the history calls for |
| AuthServer.GrantedLasts | deploy/oci/auth/whalpha_auth_service.py:186-225 | after a session is granted, through any legal run of the whole server, it is stored with its own expiry, or it was logged out, or its time is over |
| AuthServer.SessionsSeparate | deploy/oci/auth/whalpha_auth_service.py:420-509 | the session table is what the run's session events alone produce |
| AuthServer.FailuresSeparate | deploy/oci/auth/whalpha_auth_service.py:420-441 | a client's failure list is what that client's own login attempts produce, whatever the others do |
| AuthServer.GuestsSeparate | deploy/oci/auth/whalpha_auth_service.py:457-473 | the same for guest entries |
| AuthService.Clock.Now | deploy/oci/auth/whalpha_auth_service.py:174 | a reading is never before the one before |
| AuthService.AuthState.CleanupExpired | deploy/oci/auth/whalpha_auth_service.py:227-231 | exactly the sessions whose expiry has passed at one reading are dropped |
| AuthService.AuthState.CreateSession | deploy/oci/auth/whalpha_auth_service.py:186-199 | sweeps, refuses when full, otherwise stores the drawn token with a lifetime counted from a later reading |
| AuthService.AuthState.CheckSession | deploy/oci/auth/whalpha_auth_service.py:212-221 | answers and evicts as the table specification does; an unknown token takes no reading |
| AuthService.AuthState.Logout | deploy/oci/auth/whalpha_auth_service.py:223-225 | removes that token and nothing else |
| AuthService.AuthState.RecordWorkspaceVisit | deploy/oci/auth/whalpha_auth_service.py:201-210 | answers as the table specification does, counts exactly the first visit of a live guest session, and leaves it uncounted if and only if there is a state file and its write was begun and failed |
| AuthService.AuthState.RateLimited | deploy/oci/auth/whalpha_auth_service.py:233-237 | prunes with one reading and stores what it kept; limited means at least five kept |
| AuthService.AuthState.RecordFailure | deploy/oci/auth/whalpha_auth_service.py:239-242 | prunes with a reading per item, then appends a later reading |
| AuthService.AuthState.GuestRateLimited | deploy/oci/auth/whalpha_auth_service.py:244-248 | the guest list's check, against ten |
| AuthService.AuthState.RecordGuestRequest | deploy/oci/auth/whalpha_auth_service.py:250-253 | the guest list's recording |
| AuthService.AuthState.HandleLogin | deploy/oci/auth/whalpha_auth_service.py:420-455 | performs exactly one step of the server: none after a cross-origin refusal; the limit first; a failure recorded if and only if the reply is wrong credentials; with the right password, after one sweep: when fewer than the maximum are live the reply is the drawn token, stored as a credential session living its lifetime from now, otherwise unavailable and none is added; every other live session stays as it was, and no session changes in any other case |
| AuthService.AuthState.HandleGuest | deploy/oci/auth/whalpha_auth_service.py:457-483 | performs exactly one step: origin and media type first, then the limit; an entry recorded if and only if the request is not limited and the body readable; then, after one sweep, the reply is the drawn token, stored as a guest session, if and only if fewer than the maximum are live, otherwise unavailable |
| AuthService.AuthState.HandleVisit | deploy/oci/auth/whalpha_auth_service.py:485-509 | performs exactly one step of the server, none when cross-origin or without a cookie, together with a legal run of the persisted counter; by the session stored: unknown or expired is unauthorized, not a guest's or already counted is shown the count, any other is counted and marked, or unavailable only where the write of an existing state file was begun and failed; the count shown is the baseline and the recorded visits |
| AuthService.AuthState.HandleCheck | deploy/oci/auth/whalpha_auth_service.py:386-402 | a missing or empty cookie is refused without touching the table; any other is accepted if and only if its session is stored and expires after the reading |
| AuthService.AuthState.HandleLogout | deploy/oci/auth/whalpha_auth_service.py:411-414 | one logout when there is a token, nothing otherwise |
| ServiceLoop.Dispatch | deploy/oci/auth/whalpha_auth_service.py:386-418 | each method and path leads to its handler's step and to no other, and to the reply its route calls for; wrong passwords are recorded and sessions created if and only if the client's list and the body call for it; the counter gains a visit exactly when the table's answer is counted; a visit is left unwritten only by a failed write |
| ServiceLoop.Serve | deploy/oci/auth/whalpha_auth_service.py:514-532 | serving any requests from a start, what the process did is a legal history of the server, each request did and was told what the tables of the history before it call for, a visit being shown the count at the start and all visits counted since; the memory's count and the persisted system's answered visits grew by exactly the visits that history counts |
| ServiceLoop.EnteredTokenChecks | deploy/oci/auth/whalpha_auth_service.py:212-225 | among everything a process serves: a token handed out at an entry checks as authenticated later if and only if its lifetime is not over and nobody has logged it out since |
| ServiceLoop.WrongPasswordRecordedIff | deploy/oci/auth/whalpha_auth_service.py:426-441 | among the requests served, a wrong password is recorded against its client if and only if fewer than five of that client's were in the 60 seconds before |
| ServiceLoop.RunProcess | deploy/oci/auth/whalpha_auth_service.py:91-96 | a process from start to end serves everything it is asked unless it finds no state file and cannot write one; the state file moved along a legal run of the persisted system, with one more answered visit for each its history counts |
| ServiceLoop.RunProcesses | deploy/oci/auth/whalpha_auth_service.py:80-166 | over any number of processes one after another, each ended by a kill or a loss of power, the file shows at least the visits all their histories count, and at most one more for each process that served |
| Rounding.RoundHalfEvenIsNearestEven | apps/web/src/api/candidateStrategyMethods.ts:141-147 | an integer is the result if and only if it is a nearest quotient, and the even one when two are equally near (roundTiesToEven, section 4.3.1 of IEEE 754-2019) |
| Rounding.RoundHalfEvenIsMonotone | apps/web/src/api/candidateStrategyMethods.ts:141-147 | the rounding is monotone |
| Rounding.RoundHalfEvenIsExact | apps/web/src/api/candidateStrategyMethods.ts:141-147 | multiples of the divisor round to themselves |
| Rounding.ContributionsReconcile | apps/web/src/api/candidateStrategyMethods.ts:102-118 | the separately rounded contributions of n components differ from the rounded total by at most (n + 1) / 2 units |
| Rounding.ScoreWithinInputs | apps/web/src/api/candidateStrategyMethods.ts:118 | with weights summing to 10000 the rounded total lies within the range of the inputs |
| Rounding.ScoreIsMonotone | apps/web/src/api/candidateStrategyMethods.ts:118 | raising inputs never lowers the rounded total |
| Decimals.AcceptsWhatIsWritten | apps/web/src/api/candidateStrategyMethods.ts:135-137 | a string parses if and only if it is some digits alone, or those, a point and one to four digits |
| Decimals.ParseOfPrint | apps/web/src/api/candidateStrategyMethods.ts:135-153 | printing then parsing gives every natural number back |
| Decimals.PrintOfParse | apps/web/src/api/candidateStrategyMethods.ts:135-153 | parsing then printing gives the canonical four-decimal form of every accepted string |
| Decimals.PrintIsInjective | apps/web/src/api/candidateStrategyMethods.ts:118 | two printed forms are equal if and only if the values are |
| StrategyScore.ComponentRows | apps/web/src/api/candidateStrategyMethods.ts:102-117 | the loop returns one row per component in table order and the exact weighted total, or the first component's error |
| StrategyScore.StrategyScoreBreakdown | apps/web/src/api/candidateStrategyMethods.ts:91-122 | a score is accepted if and only if it is the half-even rounding of the weighted total of what the evidence writes: per component the decimal of its own last evidence row, available, or for geometry of the table entry of the observed setup; the rows are those inputs, weights and products in table order; each refusal is the one the first missing or malformed piece calls for |
| StrategyScore.ReconstructsFromEvidence | apps/web/src/api/candidateStrategyMethods.ts:98-107 | the score reconstructs if and only if such inputs exist and its decimal is their rounded total; the inputs are then unique |
| StrategyScore.RefusalMeans | apps/web/src/api/candidateStrategyMethods.ts:98-121 | a refused score lacks, in this order: an available setup, a known one, the first unreadable component in table order for its own reason, a decimal text, or the right value |
| StrategyScore.FrozenFormulas | apps/web/src/api/candidateStrategyMethods.ts:27-75 | the weighted total is, per channel, the frozen sum of named inputs with their weights in ten-thousandths |
| StrategyScore.WeightsAreWhole | apps/web/src/api/candidateStrategyMethods.ts:27-75 | each frozen weight table sums to 10000 |
| StrategyScore.AcceptedScoreIsWithinInputs | apps/web/src/api/candidateStrategyMethods.ts:91-122 | an accepted score lies between its smallest and largest input |
| StrategyScore.AcceptedContributionsReconcile | apps/web/src/api/candidateStrategyMethods.ts:91-122 | the displayed contributions add up to an accepted score within half a unit per row plus half |
| StrategyScore.AcceptedScoreIsMonotone | apps/web/src/api/candidateStrategyMethods.ts:91-122 | between two accepted assessments of a channel, no input lower means the score not lower |
| StrategyScore.AcceptedScoreIsDetermined | apps/web/src/api/candidateStrategyMethods.ts:118 | for given evidence a score text is accepted if and only if its canonical form is the printed total |
| StrategyScore.RowsReadBack | apps/web/src/api/candidateStrategyMethods.ts:110-115 | each displayed row parses back to the exact input and the rounded product |
| StrategyChannels.ParseAssessment | apps/web/src/api/candidateStrategies.ts:169-197 | an assessment is accepted if and only if it has its channel, status, rank, a plain decimal score, the bound fingerprint and, on a technical channel, a score that reconstructs |
| StrategyChannels.PlainIsPlainlyWritten | apps/web/src/api/candidateStrategies.ts:69 | the pattern of a displayed score accepts exactly the numbers written without a superfluous zero in front, and with digits after a point if there is one |
| StrategyChannels.ParseChannel | apps/web/src/api/candidateStrategies.ts:157-167 | a view is accepted if and only if its counts reconcile, it shows the first eight at most, and the k-th record is an accepted assessment of rank k |
| StrategyChannels.AcceptedScoresArePrinted | apps/web/src/api/candidateStrategies.ts:177-195 | in an accepted view of a technical channel every score is its own canonical form up to trailing zeros |
| Custody.PlanReadsIffComplete | apps/api/src/tip_api/persistence/china_ashare_cninfo_event_evidence.py:48-60 | a directory reads back as a plan if and only if it is named after the plan's fingerprint and holds exactly the plan file with that plan and the captures directory, with their modes |
| Custody.CaptureReadsIffComplete | apps/api/src/tip_api/persistence/china_ashare_cninfo_event_evidence.py:95-115 | for any query and any result: what is read is a capture of that query, and is read with its raw bytes if and only if the directory the query leads to is complete with both and, when there are raw bytes, the recorded size is their length and the recorded digest theirs |
| Custody.InwardPlaces | apps/api/src/tip_api/persistence/china_ashare_cninfo_event_evidence.py:73-82 | an identifier that leads downward is looked for within the captures directory, and staged strictly inside it, wherever else it leads |
| FileTree.MovedLookup | apps/api/src/tip_api/persistence/china_ashare_cninfo_event_evidence.py:41 | what a directory rename leaves under its target is exactly what was under its source (rename() of POSIX.1-2017) |
| FileTree.MovedIsRooted | apps/api/src/tip_api/persistence/china_ashare_cninfo_event_evidence.py:41 | a rename that succeeds leaves every node under a directory |
| FileTree.RenameLosesNothing | apps/api/src/tip_api/persistence/china_ashare_cninfo_event_evidence.py:41 | a rename that succeeds loses no file: each is where it was, or below the new name as it was below the old |
| Staging.RenamePublishes | apps/api/src/tip_api/persistence/china_ashare_cninfo_event_evidence.py:34-41 | a fully staged directory can be renamed onto any absent path in a directory, and the tree is then the old one with exactly that directory added |
| Staging.WithIsComplete | apps/api/src/tip_api/persistence/china_ashare_cninfo_event_evidence.py:34-41 | that directory is complete |
| CustodyPublisher.ChildrenGoFirst | apps/api/src/tip_api/persistence/china_ashare_cninfo_event_evidence.py:150-155 | in reverse path order every directory is empty when its turn comes, for trees of any depth |
| CustodyPublisher.CustodyRoot.WriteFile | apps/api/src/tip_api/persistence/china_ashare_cninfo_event_evidence.py:118-125 | a write that fails leaves the tree as it was or with that one file, partial or whole |
| CustodyPublisher.CustodyRoot.RemoveStaging | apps/api/src/tip_api/persistence/china_ashare_cninfo_event_evidence.py:147-155 | removes exactly the subtree; when a removal fails everything outside the subtree is still untouched |
| CustodyPublisher.CustodyRoot.Stage | apps/api/src/tip_api/persistence/china_ashare_cninfo_event_evidence.py:36-45 | publishes exactly the items, or leaves everything outside the staging directory untouched and, when the cleanup succeeds, the whole tree; either way what it did is a legal run of the system of publishers |
| CustodyPublisher.CustodyRoot.PublishPlan | apps/api/src/tip_api/persistence/china_ashare_cninfo_event_evidence.py:22-45 | publish then read gives the plan; an existing target leaves the tree unchanged and succeeds if and only if it reads back equal, with the error otherwise; nothing else fails unless an operation does; a legal run of the system throughout |
| CustodyPublisher.CustodyRoot.PublishCapture | apps/api/src/tip_api/persistence/china_ashare_cninfo_event_evidence.py:63-92 | refused before anything changes, each by its own error, when the plan cannot be read, its fingerprint differs, it does not ask the query, or raw bytes and digest are not both there or both missing; refused with nothing staged when the staging path leads to no directory or is too long; an identifier that leads to something that is there leaves the tree unchanged and is answered by what reads there; otherwise the capture is staged where its staging path leads, and the rename to where the identifier then leads decides; for an identifier that names an entry and leaves room for its staging name that is its own directory, published whole, and read back whenever size and digest describe the bytes; a legal run of the system throughout |
| CustodyRuns.StepKeeps | apps/api/src/tip_api/persistence/china_ashare_cninfo_event_evidence.py:22-92 | one step of any of any number of publishers, including failing and dying, keeps the invariant on published and staging directories, when no capture is begun for an identifier that leads upward |
| CustodyRuns.RunKeeps | apps/api/src/tip_api/persistence/china_ashare_cninfo_event_evidence.py:22-92 | the invariant holds after every interleaving, when no identifier of any plan leads upward |
| CustodyRuns.PlansAreAbsentOrReadBack | apps/api/src/tip_api/persistence/china_ashare_cninfo_event_evidence.py:22-60 | when no identifier of any plan leads upward, after every interleaving a plan directory is absent or reads back as the plan whose rename put it there |
| CustodyRuns.CapturesAreAbsentOrReadBack | apps/api/src/tip_api/persistence/china_ashare_cninfo_event_evidence.py:63-115 | beside any such plans, when no identifier of its own plan has a separator and its own name is no staging name of one of them, a capture directory is absent or complete with a capture that was published for this query and bears its plan's fingerprint, with raw bytes exactly when it records a digest; it reads back if and only if size and digest describe the bytes |
| CustodyRuns.RenameSucceedsIffAbsent | apps/api/src/tip_api/persistence/china_ashare_cninfo_event_evidence.py:41 | a finished staging directory, of a plan or of a capture at a name no staging directory can take, can be renamed if and only if nothing is at its target: leftovers never block it and nobody overwrites |
| CustodyAlone.AbsentCanBePublished | apps/api/src/tip_api/persistence/china_ashare_cninfo_event_evidence.py:22-92 | from any state any run leads to, a publisher working alone whose target is absent puts exactly its items in place and changes nothing else |
| CustodyRuns.PublishedForGood | apps/api/src/tip_api/persistence/china_ashare_cninfo_event_evidence.py:22-92 | when no identifier of any plan leads upward, a published plan, and a capture published at a name no staging directory can take, stays unchanged through anything anybody does later |
| CustodyRuns.PlanNeverChanges | apps/api/src/tip_api/persistence/china_ashare_cninfo_event_evidence.py:22-60 | when no identifier of any plan leads upward, a plan directory that exists reads the same after any continuation |
| CustodyNames.QueryKeptIffWellNamed | apps/api/src/tip_api/persistence/china_ashare_cninfo_event_evidence.py:73-92 | for a query of a plan whose identifiers have no separator, beside any plans with none that leads upward: its capture directory is whole, or absent and publishable, in all runs if and only if its identifier names an entry, is at most 245 bytes long, and does not have the form of a staging name of one of the plan's queries |
| CustodyNames.ShadowingRun | apps/api/src/tip_api/persistence/china_ashare_cninfo_event_evidence.py:80-82 | for each pair of queries of the latter form, a concrete run leaves a directory where the capture belongs that nobody published and nobody can read |
| CustodyNames.UnplacedIsNotServed | apps/api/src/tip_api/persistence/china_ashare_cninfo_event_evidence.py:73-82 | an identifier without a separator that names no entry, or is longer, is not served as soon as its plan is published |
| CustodyNames.StagingBreaksPlanIff | apps/api/src/tip_api/persistence/china_ashare_cninfo_event_evidence.py:51-52 | making a staging directory leaves a readable plan readable if and only if it is not made among the plan's own entries |
| CustodyNames.DetourRun | apps/api/src/tip_api/persistence/china_ashare_cninfo_event_evidence.py:80-82 | for every plan that asks a dot, a separator and a name, a concrete run after which nobody is at work and the published plan can no longer be read: the hypothesis on identifiers is needed |
| DetailCache.DetailShardCache.Lookup | apps/web/src/api/opportunityCandidates.ts:429-440 | a hit is moved to the end, a miss changes nothing |
| DetailCache.DetailShardCache.Complete | apps/web/src/api/opportunityCandidates.ts:433-437 | a completed fetch is stored and the first key evicted when there are more than eight |
| DetailCache.DetailShardCache.GetDetail | apps/web/src/api/opportunityCandidates.ts:419-441 | an undeclared file is refused without touching the cache; a cached key answers its own entry's value, any other what the fetch brings, or the failure; the new cache is that of one whole request |
| DetailCache.RunIsLru | apps/web/src/api/opportunityCandidates.ts:429-441 | after any sequence of finished requests the map's order is recency order cut to the newest eight |
| DetailCache.CachedIffRecentlyAnswered | apps/web/src/api/opportunityCandidates.ts:429-441 | a key is cached if and only if it was answered and fewer than eight distinct other keys were answered since |
| DetailCache.RequestAnswers | apps/web/src/api/opportunityCandidates.ts:429-441 | after any requests, one more is answered with what the latest fetch of its key brought while the key is kept, and with what its own fetch brings otherwise |
| DetailCache.InterleavingsAreSound | apps/web/src/api/opportunityCandidates.ts:429-441 | in every interleaving of requests: at most eight entries, one per key, each what the latest completed fetch of its own key brought |
| DetailCache.CompletedKeyIsKept | apps/web/src/api/opportunityCandidates.ts:433-437 | in every interleaving a completion ends its fetch, and its eviction never hits the key just completed |
| DetailCache.LookFindsOrFetches | apps/web/src/api/opportunityCandidates.ts:430-440 | in every interleaving a lookup that finds its key moves it to the end and starts nothing; one that does not starts a fetch of that key and changes nothing |
| DetailCache.HitIsLatestFetch | apps/web/src/api/opportunityCandidates.ts:429-440 | in every interleaving a lookup finds what the latest completion of a fetch of that key brought, a completion being of the key its request last looked up |
| DetailCache.CompletionRefreshesUnlessCached | apps/web/src/api/opportunityCandidates.ts:433 | a completion makes its key the newest if and only if the key was not cached meanwhile, or already was the newest |
| DetailCache.DetailKeyIsInjective | apps/web/src/api/opportunityCandidates.ts:429 | two cache keys are equal if and only if publication and file are, when files hold no bar |
| DetailCache.DeclaredKeysNeverCollide | apps/web/src/api/opportunityCandidates.ts:211-218 | the declared files hold none, so their keys are equal if and only if publication and shard are |
| Recency.KeptIffRecent | apps/web/src/api/opportunityCandidates.ts:132 | the newest eight of the recency order are the keys with fewer than eight distinct others since |
| Recency.HitKeepsNewest | apps/web/src/api/opportunityCandidates.ts:438-440 | moving a kept key to the end is what one more access does to the newest eight |
| Recency.MissKeepsNewest | apps/web/src/api/opportunityCandidates.ts:433-437 | appending and dropping the first is what an access to another key does |
| Publication.OrderCheckedIffIncreasing | apps/web/src/api/opportunityCandidates.ts:273-274 | the check by set size and joined texts is equivalent to strict increase, for identifiers without a bar |
| Publication.JoinIsInjective | apps/web/src/api/opportunityCandidates.ts:274 | joined texts tell lists of one length apart |
| Publication.UuidMeans | apps/web/src/api/opportunityCandidates.ts:131 | the identifier pattern accepts exactly five groups of hexadecimal digits between dashes with their version and variant |
| Publication.CheckCommon | apps/web/src/api/opportunityCandidates.ts:268-276 | the identifier, coverage and risk-result part is accepted if and only if it is in order as a whole |
| Publication.CheckEntry | apps/web/src/api/opportunityCandidates.ts:279-291 | an entry mode is accepted if and only if its lanes are in order, within caps, without repeats, published, and add up to the hard-gate count |
| Publication.ParseUniverse | apps/web/src/api/opportunityCandidates.ts:263-295 | the full parser accepts exactly the universes that satisfy all of that |
| Publication.ParseSummaryUniverse | apps/web/src/api/opportunityCandidates.ts:232-261 | the summary parser accepts exactly those in order, whose lanes list published identifiers |
| Publication.DisplayedIdsResolveOnce | apps/web/src/api/opportunityCandidates.ts:256-276 | in an accepted universe every displayed identifier belongs to exactly one card |
| Publication.SummarySkipsReconciliation | apps/web/src/api/opportunityCandidates.ts:258-291 | the full parser accepts exactly what the summary parser accepts and whose lane counts reconcile; the summary parser takes an empty universe with any hard-gate count |
| Publication.AcceptedCountsAreExact | apps/web/src/api/opportunityCandidates.ts:237-291 | counts are added in floating point; below 2 to the 53 an accepted universe reconciles exactly all the same, and at it the full parser accepts a universe with one member too many |
| Doubles.NearestIsExact | apps/web/src/api/opportunityCandidates.ts:143-146 | a sum is below 2 to the 53 if and only if the exact sum is, and then is that sum |
| Dates.DateOrderIsNumeric | apps/web/src/api/marketRegime.ts:96 | comparing two dates of the accepted shape as strings is comparing (year, month, day) |
| Dates.IsoDateMeans | apps/web/src/api/marketRegime.ts:96 | the date pattern accepts exactly four, two and two digits between dashes |
| Timeline.ValidateTimeline | apps/web/src/api/marketRegime.ts:157-218 | a timeline is accepted if and only if all pairs of sessions increase, every flag after the first tells whether the state changed, the boundary fits and the last point is the current one |
| Timeline.NeighboursDecide | apps/web/src/api/marketRegime.ts:173-206 | checking each point against its neighbour decides that statement about all points |
| Timeline.SessionsAreChronological | apps/web/src/api/marketRegime.ts:175 | in an accepted timeline every earlier point is an earlier calendar day |
| Timeline.RunsCountFlags | apps/web/src/api/marketRegime.ts:198-204 | the number of state runs is one more than the flags set after the first point |
| Timeline.ParseRelationships | apps/web/src/api/marketRegime.ts:115-218 | the registry is accepted if and only if it has sixteen pairs, each once, in registry order, with accepted timelines |
| EodSession.ValidateOneSessionRecords | apps/api/src/tip_api/ingestion/eod_session.py:84-103 | succeeds if and only if all dates match, business keys are distinct and no bar has two latest revisions; returns the input's permutation in canonical order; an error is that of the first record that has one |
| EodSession.SortedIsCanonical | apps/api/src/tip_api/persistence/parquet/manifest.py:21-46 | sorting records with distinct keys leaves them strictly ascending by instrument, then date, then source, then revision |
| EodSession.ValidityForgetsOrder | apps/api/src/tip_api/ingestion/eod_session.py:84-103 | acceptance and result do not depend on the order of the records |
| Ordering.SortSorts | apps/api/src/tip_api/persistence/parquet/manifest.py:21-34 | the sort puts elements in the comparator's order |
| Ordering.SortIsStable | apps/web/src/features/marketDecisionChain.ts:48-54 | elements that tie keep their order |
| Ordering.SortForgetsOrder | apps/web/src/pages/MarketRegimeOpportunityMapPage.tsx:196-199 | with no ties the result depends only on the elements, not on their order |
| Ordering.SortedUnique | apps/web/src/api/opportunityCandidates.ts:274 | two sorted arrangements of the same untied elements are the same |
| Ordering.StringLessMeans | apps/api/src/tip_api/ingestion/eod_session.py:84-103 | one string is less than another if and only if they agree up to a place where it ends or has the smaller character |
| Highlights.SelectDecisionHighlights | apps/web/src/pages/MarketRegimeOpportunityMapPage.tsx:189-201 | the lane loop, the filter, the sort and the cut together give the selection the lemmas below are about |
| Highlights.SelectionShows | apps/web/src/pages/MarketRegimeOpportunityMapPage.tsx:189-201 | six at most, no repeats: the lanes' representatives in lane order, then telling others, turned ones first, then the more urgent, then by registry, none of those left out belonging before any shown |
| Highlights.ComparatorMeans | apps/web/src/pages/MarketRegimeOpportunityMapPage.tsx:197-199 | the comparator puts `a` no later than `b` if and only if `a` turned and `b` did not, or both or neither and `a` is more urgent, or neither is and `a` is not later in the registry |
| Highlights.RepresentativeMeans | apps/web/src/pages/MarketRegimeOpportunityMapPage.tsx:191-194 | a lane is represented if and only if one of its pairs is there, and by an active one if and only if it has one |
| Highlights.RepresentativeIsFirst | apps/web/src/pages/MarketRegimeOpportunityMapPage.tsx:192-193 | the representative is the first of the lane's pairs that is there, or the first active one when any is active |
| Highlights.PickedAreRepresentatives | apps/web/src/pages/MarketRegimeOpportunityMapPage.tsx:191-195 | exactly one per lane that has any, in lane order, without repeats |
| Highlights.SelectionForgetsOrder | apps/web/src/pages/MarketRegimeOpportunityMapPage.tsx:189-201 | the selection is the same for every permutation of the input whenever the comparator orders the fillers |
| Highlights.ComparatorOrdersIff | apps/web/src/pages/MarketRegimeOpportunityMapPage.tsx:197-199 | the comparator orders relationships if and only if no unlisted state stands, by registry order, against the priority order of two listed ones; with listed states only it always does |
| Highlights.AcceptedRegistryMayBeUnordered | apps/web/src/pages/MarketRegimeOpportunityMapPage.tsx:196-199 | a registry of the sixteen pairs that the parser accepts, one state not listed, whose fillers the comparator does not order |
| Highlights.RegistryIsRegistered | apps/web/src/api/marketRegime.ts:115-124 | an accepted registry has the distinct pair identifiers and registry orders the selection needs |
| DecisionChain.SectorsAreBest | apps/web/src/features/marketDecisionChain.ts:47-55 | at most five sectors, all available, in the comparator's order, none left out belonging before any shown |
| DecisionChain.SectorsForgetOrder | apps/web/src/features/marketDecisionChain.ts:47-55 | with distinct registry orders the shown sectors do not depend on the order of the records |
| DecisionChain.ChainRanksLeaders | apps/web/src/features/marketDecisionChain.ts:35-74 | a chain binds the session, publication and universe all responses name and ranks the first eight identifiers of the first balanced result from one, each with the last card that carries it |
| DecisionChain.ChainShowsBestSectors | apps/web/src/features/marketDecisionChain.ts:46-55 | a built chain shows the five best sectors available in the window, or all of them when there are fewer: by relative rank, unranked ones as the largest exact integer, then by registry order, none more often than recorded, none left out for a later one |
| DecisionChain.ChainRefusedFor | apps/web/src/features/marketDecisionChain.ts:35-64 | each of the five refusals has its own condition, in the order of the checks |
| DecisionChain.AcceptedPublicationsAlwaysJoin | apps/web/src/features/marketDecisionChain.ts:35-64 | over an accepted publication the chain is built if and only if sessions, publications and universes agree: no displayed identifier lacks its card |

## Left out

- HTTP parsing, cookies, origin and content-type tests, redirects, password hashing and body parsing: the handlers take their outcomes as parameters and keep the order of the state calls.
- JSON bytes, SHA-256 and fingerprints: payloads are datatypes, a digest of bytes is a parameter, and a plan's fingerprint is taken to identify its plan (the contract recomputes it on every read).
- Schema, baseline and arithmetic checks on the visitor-count file: a file that fails any of them is the model's torn file; the write of zero at first start is modelled, the creation of the parent directory is not.
- Floating-point times: the clock is real-valued, so the rounding of `now - 60` is not modelled. Counts are rounded as the web client's sums are, infinity apart.
- A temporary file left by a process that died inside a write: the source never looks at it again, and the model drops it.
- Interrupts other than exceptions inside `increment`, which end the process, and an interrupt delivered between a successful rename and the return of a publisher.
- Symbolic links, umask, file owners, and the creation and mode check of the custody root.
- Absolute query identifiers and paths that leave the custody root: the model has no tree there and refuses them. Both are outside the hypothesis on identifiers of the run theorems, which says nothing of them.
- CustodyRuns.RunKeeps: needs identifiers that do not lead upward, which the source does not ask for; `CustodyNames.DetourRun` shows what one that does can do. How captures of plans with other separators in their identifiers meet each other is not followed beyond that they stay among their plan's captures.
- CustodyPublisher.CustodyRoot.PublishCapture: where an identifier has a separator in it, what is left after success is stated as the rename of the staged directory, and reading it back is not.
- The limit on the length of a whole path, and file systems whose names are limited otherwise than to 255 bytes.
- CustodySystem: takes the suffixes of `mkdtemp` to be eight characters of its alphabet and its names to be unused.
- Sessions.AnswersRefineHistory: assumes fresh tokens and a clock that never runs backwards, as the service itself does.
- Sessions.CountedVisitsAreGuests: is about the table of one process, which starts empty; the count across restarts is that of `ServiceLoop.RunProcesses`, which ends a process between requests; `VisitorCounter` ends it anywhere.
- Candidates with embedded details, and the validation of a cached shard after it was cached.
- Highlights.SelectionForgetsOrder: needs the comparator to order the fillers; where it does not, the language leaves the result of the sort to the implementation, and no claim is made.
- Object identity: relationships are told apart by value, which with distinct pair identifiers is the same.
- A lookup of an entry setup that happens to be the name of an inherited object property: the geometry table is a plain map.
- The field-by-field schema, enumeration, decimal and digest checks of the parsers, relationship windows and change summaries, and the confirmed state and regime score the decision chain passes on.
- Character order is by code unit and digits are ASCII, as both languages compare and match the texts concerned.
- The ingestion service around `_validate_one_session_records` (empty responses, publication), Pydantic contracts, Parquet repositories, providers and routers.
- Snapshot quality gates, instrument identity, display formatting, charts and the pages' own state: short decisions without loops or state to prove anything hard about.
