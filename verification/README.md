# A verified model of the workspace's protocols and transformations

The workspace holds several small protocols and parse/print pairs that other services lean on. Each is modelled here in
Dafny in the form its source has, and what it is for is proved over every input, every run or every interleaving.

| part | files | what is modelled |
|---|---|---|
| asset cache | `AssetCache.dfy` | callers of `static_file` and editors of the files, one file access at a time; the cache object |
| name sync | `Renames.dfy`, `NameSync.dfy` | renames over a directory of holders; cycles with failures, overlap windows and atomic commits; the database object |
| login and sessions | `Expiring.dfy`, `Retry.dfy`, `OidcSessions.dfy`, `OidcServer.dfy` | the expiring store, the retry schedule under a shared deadline, the interleaved login machine, and the handlers over the two stores |
| vault token | `VaultToken.dfy` | callers around one mutex-guarded lease cache; the client object |
| script block | `Json.dfy`, `ScriptBlock.dfy` | the grammar of RFC 8259 and the three replacements |
| route to client | `Texts.dfy`, `Templates.dfy`, `PercentCoding.dfy`, `ClientUrl.dfy`, `Splitter.dfy`, `Ordering.dfy`, `RouteTables.dfy`, `HandlersFile.dfy`, `Generator.dfy` | both template scanners, the emitted URL expression and its value, the type splitter, the shared handlers file, the join of the two tables |
| config | `ConfigPaths.dfy`, `ConfigSchema.dfy`, `ConfigDerive.dfy`, `ConfigArgs.dfy`, `ConfigFile.dfy`, `ConfigLayers.dfy`, `ConfigValues.dfy`, `ConfigLoad.dfy` | the derive as an interpreter over a struct tree, the three spellings, argv, the TOML tree, the merge, the typed reading, the deployment rule |

`Wrappers.dfy` holds `Option` and `Result`. Concurrency is modelled as a state machine: a total step function, a run over
any list of steps, and an invariant every step keeps. Whatever is outside (clocks, the provider, the feed, jitter, random
ids, the file system, hashes, `FromStr`) is a parameter, so a lemma about it holds for every behaviour it may have.

## Where the code says less than its documentation

Each of these is a lemma with the exact condition, and beside it one with an input or a run on which the code fails.

- `names/src/sync.rs` says that applying a rename twice is a no-op. It is, exactly when no name ever passes to another
  holder: `Renames.HarmlessExactlyWithoutTransfer`, `Renames.RenamingTwiceMovesTheNewcomer`. In a run of cycles a row
  inserted under a name that is free again keeps it exactly when no rename of the next window was away from it:
  `NameSync.InsertedRowIsKeptExactly`; one inserted within the overlap of a rename loses it:
  `NameSync.NewcomerLosesItsName`.
- A cached asset is stale exactly when an edit brings back the cached mtime with other bytes:
  `AssetCache.StaleExactlyOnReusedMtime`; a run from the boot: `AssetCache.RestoredMtimeIsStale`. Pinned bytes are safe
  even then: `AssetCache.PinnedBytes`.
- An accepted logout is final exactly when no request on the session still holds a refresh token it may use:
  `OidcSessions.LogoutIsFinalExactly`; a run from an empty server on which one is undone: `OidcSessions.LogoutUndone`.
- A flow that has minted a session mints another exactly when another callback on it still waits for its code exchange:
  `OidcSessions.MintsAgainExactly`; a run from an empty server that mints twice:
  `OidcSessions.ReturningTwiceMintsTwice`.
- Sweeping shows only to a clock that goes back: `Expiring.SweepShowsExactlyOnSetback`; from an empty store:
  `Expiring.SetbackShows`.
- The built URL is the route's exactly when no parameter is called `enc`, every literal is kept by the TypeScript string
  it stands in, and no literal holds a doubled brace: `ClientUrl.UrlInvertsRoute`, `Generator.PlannedUrlInvertsRoute`. A
  parameter `enc` hides the encoder of that name and the URL calls a string: `ClientUrl.EncHidesTheEncoder`.
  `routing/src/manifest.rs` calls a doubled brace an escape for a literal one, but the generator copies it doubled:
  `ClientUrl.DoubledBraceDoesNotComeBack`.
- A segment is a placeholder of the URL but no path parameter exactly when it is `{}` or ends in a doubled brace:
  `Templates.PlaceholdersAreParamsExactly`, `Templates.StrayPlaceholders`.
- The encoder leaves an argument `.` or `..` as it is, so the browser resolves it away, as it does a literal that is dots,
  escaped or not: `ClientUrl.ResolutionKeepsExactly`; `/{id}` with `..` asks for `/`: `ClientUrl.TwoDotsGoUp`.
- A parameter is never called by a reserved word, but nothing looks at a function's name. The module can declare it
  exactly when the handler's Rust name, without the underscores behind it, is no keyword and no name of the module's own,
  and no digit or nothing at all follows the underscores before it: `Generator.DeclarableExactly`. The handlers `delete`,
  `_1` and `__` are planned like any other: `Generator.HandlersNobodyCanDeclare`.
- The functions come in the order of path and method, and so in an order of their own exactly when no two handlers share
  both: `Generator.OrderShowsExactly`; two that do: `Generator.SwappedDescriptionsShow`.
- The type splitter counts the arrow of a function type as a closing bracket. An object type is read back exactly when no
  field's type is out of balance for it: `Splitter.ParseInvertsPrint`, `Splitter.ArrowIsOutOfBalance`.
- `config/README.md` calls every spelling unambiguous without the schema. A doubled underscore in a name is a level to
  the flag and to the environment name: `ConfigPaths.DoubledUnderscoreIsALevel`; each reads back exactly on clear paths:
  `ConfigPaths.FlagReadsBackExactly`, `ConfigPaths.EnvReadsBackExactly`. A field's values are those behind its own flag
  exactly when no later field is spelled the same: `ConfigArgs.ValuesStandBehindTheirFlags`; a field `a__b` and a nested
  `a.b`: `ConfigArgs.SharedFlagMisleads`.
- The derive says that the app's case is not the author's to get right. The variable naming the config file is not
  upper-cased: `ConfigLayers.FileVariableIsUpperExactly`; an app `demo`: `ConfigLayers.LowerCaseApp`.

## Model

| member | source | states |
|---|---|---|
| AssetCache.Linearizable | crates/templating/src/lib.rs:137-182 | under any interleaving of callers and editors in which no write reuses an mtime, every finished call without an I/O error answers what a plain read answers at an instant within the call |
| AssetCache.PinnedBytes | crates/templating/src/lib.rs:137-182 | under any interleaving of callers and editors, whatever is written under whatever mtime, bytes served under a pinned name, cached or not, have the pinned hash |
| AssetCache.PoisonedCacheIsBypassed | crates/templating/src/lib.rs:159-182 | once a lock holder has panicked, under any interleaving and whatever mtimes the editors reuse, nothing is stored and every call begun from then on answers what a plain read answers at an instant within it |
| AssetCache.UnsafeExactly | crates/templating/src/lib.rs:107-123 | in every run exactly the calls for names that lead out of the root are refused as unsafe |
| AssetCache.PlainReadMeans | crates/templating/src/lib.rs:137-157 | a read misses exactly an absent file, refuses exactly a pinned one of another hash, and otherwise serves the bytes there |
| AssetCache.AloneAnswers | crates/templating/src/lib.rs:159-182 | the five accesses of an undisturbed call answer the cached bytes if their mtime is the file's, else a plain read |
| AssetCache.StaleExactlyOnReusedMtime | crates/templating/src/lib.rs:159-182 | after an edit the next call disagrees with a plain read if and only if the edit restored the cached mtime with other bytes |
| AssetCache.RestoredMtimeIsStale | crates/templating/src/lib.rs:159-182 | from the boot: a read, an edit that restores the mtime, and a later read that answers the old bytes where a plain read answers the new |
| AssetCache.AssetCache.CheckPins | crates/templating/src/lib.rs:82-103 | booting succeeds exactly when every pinned file is there with its hash, and otherwise refuses for one that is not |
| AssetCache.AssetCache.constructor | crates/templating/src/lib.rs:82-103 | the cache starts empty |
| AssetCache.AssetCache.Lookup | crates/templating/src/lib.rs:159-182 | a hit needs the name and the very mtime |
| AssetCache.AssetCache.StaticFile | crates/templating/src/lib.rs:159-182 | the whole call: its answer, the entry it stores, nothing else changed, and a plain read's answer when mtimes are distinct |
| Renames.RedeliveryHeals | crates/names/src/sync.rs:19-21 | applying a whole list after any part of it lands where applying it once would, when a name renamed away is not given out again |
| Renames.FollowsHolder | crates/names/src/apply.rs:12-50 | delivered once and in order, the feed keeps a stored name on its holder |
| Renames.HarmlessExactlyWithoutTransfer | crates/names/src/sync.rs:19-21 | redelivering any stretch leaves every right name right if and only if no name passes to another holder |
| Renames.RenamingTwiceMovesTheNewcomer | crates/names/src/sync.rs:19-21 | the smallest history on which the second delivery renames the wrong holder |
| Renames.GenuineFeedNeverRepeats | crates/names/src/sync.rs:19-21 | on a genuine history, never reusing a name is all the redelivery lemma asks |
| NameSync.NameStore.constructor | crates/names/src/sync.rs:96-111 | the columns as given, and no cursor |
| NameSync.NameStore.Update | crates/names/src/apply.rs:27-48 | one `UPDATE` rewrites every equal cell of one column and reports how many |
| NameSync.NameStore.ApplyColumnRenames | crates/names/src/apply.rs:12-50 | every target's column is rewritten by the renames of its kind in order; the count is the matches met row by row; failure, with nothing said of the columns, when renames meet a missing column |
| NameSync.NameStore.CommitCycle | crates/names/src/sync.rs:72-89 | rewrites and cursor together, or the whole state as it was |
| NameSync.NameStore.RunCycle | crates/names/src/sync.rs:58-70 | a cycle does to the database what the run's step says, and nothing unless it commits |
| NameSync.Since | crates/names/src/sync.rs:58-67 | a stored cursor is always sent, as it is or five minutes earlier; only the first cycle asks for everything |
| NameSync.TargetsPerColumn | crates/names/src/apply.rs:12-50 | each column is rewritten by exactly the renames of its own targets |
| NameSync.ApplyFailsExactly | crates/names/src/apply.rs:12-50 | applying fails if and only if a target of a missing column has renames of its kind |
| NameSync.RowsAreCounted | crates/names/src/apply.rs:27-48 | the sum of what the `UPDATE`s report is, row by row, the number of renames that match the name on its way |
| NameSync.TotalIsSummed | crates/names/src/apply.rs:12-26 | the total is the sum over the targets, each counted on what the ones before it left |
| NameSync.CycleCommitsExactly | crates/names/src/sync.rs:58-89 | a cycle moves the cursor to its instant if and only if it comes to its end and no rename of its window meets a missing column; otherwise nothing at all changes |
| NameSync.DeliveredOnce | crates/names/src/sync.rs:91-94 | a window that starts before the cursor adds to what was applied exactly what was missing |
| NameSync.DeliveredTwice | crates/names/src/sync.rs:58-94 | asked for again from the beginning, as when the cursor is lost, the feed moves nothing that it had delivered |
| NameSync.ListedTwice | crates/names/src/apply.rs:12-50 | a column listed as several targets reads as if listed once |
| NameSync.ExactlyOnce | crates/names/src/sync.rs:58-94 | over any run of cycles, failures, overlaps and inserted rows, a column equals the log visible at the cursor applied once, in order, of its own kind |
| NameSync.OtherColumnsUntouched | crates/names/src/apply.rs:12-50 | a column that is no target keeps its rows through any run |
| NameSync.RunChains | crates/names/src/sync.rs:58-94 | each committed window starts one overlap before the end of the one before |
| NameSync.OverlapIsExact | crates/names/src/sync.rs:19-94 | a record is in the first window committed after it is visible, in every run, if and only if it became visible within the overlap of its stamp |
| NameSync.InsertedRowIsKeptExactly | crates/names/src/sync.rs:19-94 | where names retire, in any state, a row inserted before a cycle keeps its name through it if and only if the window holds no rename away from that name |
| NameSync.NewcomerLosesItsName | crates/names/src/sync.rs:19-94 | a run of two cycles in which a row inserted under a freed name loses it if and only if the overlap redelivers the rename that freed it |
| Expiring.Store.constructor | crates/oidc/src/store.rs:62-68 | an empty store of the policy |
| Expiring.Store.Get | crates/oidc/src/store.rs:70-82 | an entry is found exactly while it is live |
| Expiring.Store.Put | crates/oidc/src/store.rs:84-89 | afterwards everything but the new entry is live, and no live entry is lost |
| Expiring.Store.Remove | crates/oidc/src/store.rs:91-96 | removes that entry and no other |
| Expiring.LiveExactly | crates/oidc/src/store.rs:70-89 | an entry is live up to its creation plus the age limit, that instant excluded, and before its creation too |
| Expiring.SweepingIsInvisible | crates/oidc/src/store.rs:70-96 | over a clock that never goes back, every sequence of operations is answered as by a map that never sweeps |
| Expiring.SweepShowsExactlyOnSetback | crates/oidc/src/store.rs:70-89 | a sweep shows if and only if the clock goes back into a swept entry's lifetime |
| Expiring.SetbackShows | crates/oidc/src/store.rs:70-89 | two puts into an empty store and a look with the clock set back: the sweeping store answers nothing, one that keeps everything the first value |
| Retry.Try | crates/oidc/src/retry.rs:57-92 | one attempt under its timeout and the decision after it, as the schedule has it |
| Retry.Retried | crates/oidc/src/retry.rs:57-92 | the retry loop ends as the schedule's recursion does: result, instant and number of attempts |
| Retry.WithinOn | crates/oidc/src/retry.rs:57-100 | a call under a deadline ends as the schedule says |
| Retry.CallBounds | crates/oidc/src/retry.rs:16-92 | for every jitter and behaviour: one to four attempts, at most ten seconds asleep, over by the limit and within fourteen seconds |
| Retry.SharedBudget | crates/oidc/src/retry.rs:39-92 | any number of calls sharing a deadline end within fourteen seconds of its start |
| Retry.FreshDeadlineNeverCuts | crates/oidc/src/retry.rs:39-92 | on a fresh deadline the timeout around the schedule never strikes |
| Retry.OnlySilenceIsRetried | crates/oidc/src/retry.rs:57-92 | every attempt but the last went unanswered, and the result is the last one's unless the deadline cut it |
| Retry.SilenceGetsThreeOrFour | crates/oidc/src/retry.rs:24-37 | an upstream that never answers is asked three or four times, whatever the jitter |
| Retry.SilenceGetsFourExactly | crates/oidc/src/retry.rs:16-37 | it is asked a fourth time if and only if the jitter of the first three delays adds up to no more than three seconds |
| Retry.OutageSurvivedExactlyUpToThreeSeconds | crates/oidc/src/retry.rs:16-92 | an outage is survived for every jitter and behaviour if and only if it is over within three seconds |
| OidcSessions.SessionProvenance | crates/oidc/src/web.rs:335-404 | every session minted came of a flow the server issued, live when read, whose stored state was presented; its redirect leads to the guarded target of that very flow |
| OidcSessions.LoginLandsOnItsTarget | crates/oidc/src/web.rs:317-404 | under any interleaving, a session minted of a login leads to what the guard makes of the target the login was asked for, the guard being settled on its outputs |
| OidcSessions.EscalatedLoginLandsOnItsTarget | crates/oidc/src/web.rs:335-404 | so does a session minted of the escalation of that login, whatever comes between the login, the error and the return with a code |
| OidcSessions.OneSessionPerFlow | crates/oidc/src/web.rs:335-404 | in every run from an empty server, of two sessions of one flow the later one's callback began before the earlier was minted |
| OidcSessions.MintsAgainExactly | crates/oidc/src/web.rs:335-404 | a flow that has minted a session mints another, after whatever steps, if and only if a callback on it still waits for its code exchange |
| OidcSessions.ReturningTwiceMintsTwice | crates/oidc/src/web.rs:335-404 | from an empty server: one login, the browser coming back twice with different codes before either exchange is answered, and two sessions of the one flow |
| OidcSessions.StoredFlows | crates/oidc/src/web.rs:206-229 | every stored flow was issued with a guarded target and is marked tried exactly when its redirect was interactive |
| OidcSessions.RefreshNeverExtends | crates/oidc/src/web.rs:114-167 | no sequence of refreshes makes a session readable at or past its minting plus the age limit |
| OidcSessions.ReadableAgainExactly | crates/oidc/src/web.rs:114-167 | a minted session can be read, now or after anything, exactly when it is young enough and stored or about to be written back |
| OidcSessions.LogoutIsFinalExactly | crates/oidc/src/web.rs:250-287 | an accepted logout ends a session for good if and only if no request on it waits with a refresh token |
| OidcSessions.ForeignLogoutIsIdle | crates/oidc/src/web.rs:250-287 | in any run a logout from another site changes no more than a moment that passes, and one from this site removes its session and nothing else |
| OidcSessions.LogoutUndone | crates/oidc/src/web.rs:114-167 | from an empty server: a request waits on a session with its refresh token, the logout is accepted, and the refresh makes the session readable again |
| OidcSessions.LoopBreaker | crates/oidc/src/web.rs:345-366 | from any live flow, error callbacks that follow the cookie escalate at most once and are then refused until the flow expires |
| OidcSessions.EscalationsNeverChain | crates/oidc/src/web.rs:345-366 | on any trail of error callbacks a refusal is the end, and between two escalations there is a silent start on a flow that was gone |
| OidcSessions.ErrorAnsweredExactly | crates/oidc/src/web.rs:335-366 | in every reachable state an error callback escalates if and only if its flow is live, was issued silently, and the error asks for interaction; on another live flow it is refused, on none the login starts over silently |
| OidcSessions.EscalatedFlowIsRefusedExactly | crates/oidc/src/web.rs:335-366 | whatever steps of anyone come between, the next error on an escalated flow is refused if and only if the flow is within its age and nothing took it out; else the login starts over, and it never escalates again |
| OidcServer.ResolveLeaves | crates/oidc/src/web.rs:114-167 | `None` on a stored id leaves it gone, `Some` leaves it stored with the token that answered, and no other session changes |
| OidcServer.ResolveIsTheMachine | crates/oidc/src/web.rs:114-167 | the handler run alone is a run of the interleaved machine |
| OidcServer.Server.constructor | crates/oidc/src/web.rs:63-84 | two empty stores of the site's policies |
| OidcServer.Server.StartLogin | crates/oidc/src/web.rs:206-229 | stores the drawn state and verifier with the target and the mark, sweeps, and redirects with the drawn id |
| OidcServer.Server.Login | crates/oidc/src/web.rs:317-325 | a prompted login is interactive and marked so, any other is silent, both to a guarded target |
| OidcServer.Server.Logout | crates/oidc/src/web.rs:250-287 | only a request of this site removes its session, and only its own |
| OidcServer.Server.HandleCallback | crates/oidc/src/web.rs:335-404 | both stores and the response, case by case: no live flow, an error that escalates to the flow's own target or is refused, a missing or foreign state, and the exchange of the code with the flow's own verifier |
| OidcServer.Server.ResolveSession | crates/oidc/src/web.rs:114-167 | which token each question to the provider carries: the stored access token, on rejection the stored refresh token, then the renewed access token; the stores and the answer after each; an identity is given only if the provider vouched for the very token of the session; over within fourteen seconds |
| VaultToken.LoginsNeverOverlap | crates/secrets/src/client.rs:148-178 | at most one caller is logging in, under any interleaving and cancellation |
| VaultToken.CallsAreBounded | crates/secrets/src/client.rs:133-146 | no call logs in or tries its operation more than twice |
| VaultToken.HandoutsAreInLease | crates/secrets/src/client.rs:148-178 | a token from the cache is in its lease whenever its login was answered within the skew |
| VaultToken.SkewIsExact | crates/secrets/src/client.rs:29-31 | every possible handout is in its lease if and only if the answer took no longer than the skew |
| VaultToken.ShortLeaseIsNeverHandedOut | crates/secrets/src/client.rs:29-31 | a lease no longer than the skew is spent as it is cached |
| VaultToken.EveryLoginIsNeeded | crates/secrets/src/client.rs:148-178 | each login after the first was for a refused token, a failed login or a spent one |
| VaultToken.OneLoginPerBurst | crates/secrets/src/client.rs:148-160 | a burst of cold callers logs in once while nothing fails, is refused or is spent |
| VaultToken.SecretClient.constructor | crates/secrets/src/client.rs:76-92 | nothing is cached at first |
| VaultToken.SecretClient.CachedToken | crates/secrets/src/client.rs:148-160 | the cached token while it is younger than its expiry, else the login's, which is cached, else nothing |
| VaultToken.SecretClient.Reauthenticate | crates/secrets/src/client.rs:161-168 | the cache is dropped first, and holds what the login brings |
| VaultToken.SecretClient.WithReauth | crates/secrets/src/client.rs:133-146 | one try is of the fresh cached token, or else of the first login's; exactly a refusal of it brings a second, with the second login's token; the last answer is the result, and the cache holds the last login |
| VaultToken.WithReauthIsTheMachine | crates/secrets/src/client.rs:133-178 | the wrapper run alone is a run of the interleaved machine: same tries, same cache, the lock free again, and its result is the answer of the last operation of that run on the token the caller holds there |
| ScriptBlock.PassesAreOne | crates/templating/src/render.rs:21-28 | the three passes over the whole text are one pass over its characters |
| ScriptBlock.NothingHot | crates/templating/src/render.rs:13-28 | no stamped text holds any of the three characters |
| ScriptBlock.EscapingPreservesMeaning | crates/templating/src/render.rs:13-28 | every valid JSON text is valid when stamped and parses to the same value |
| ScriptBlock.BackslashBeforeHot | crates/templating/src/render.rs:13-28 | validity is needed: behind an unpaired backslash the escape turns a text that is no JSON into one that is |
| Templates.PlaceholdersAreParamsExactly | crates/routing/src/generate.rs:269-288 | the URL's placeholders are the path parameters in order if and only if the template has no stray segment |
| Templates.StrayPlaceholders | crates/routing/src/generate.rs:269-288 | `/{}`, and `/{name}}` for any name, fill in a placeholder and have no path parameter |
| Templates.DeclaredParams | crates/routing-macros/src/parse.rs:113-161 | the scanning loop computes the declaration read segment by segment, with its refusals |
| Templates.DeclaredMeans | crates/routing-macros/src/parse.rs:113-161 | what is accepted declares plain names, each once, with types a declaration may spell; each refusal names its cause |
| Templates.WildcardIsNamed | crates/routing/src/generate.rs:269-288 | both readers take a wildcard's star off its name |
| Templates.ReadersAgreeExactly | crates/routing-macros/src/parse.rs:113-161 | on an accepted template both scanners name the same parameters if and only if every brace opens a segment that is one plain name |
| Templates.DeclarationNamesItsRoute | crates/routing/src/manifest.rs:19-29 | whatever types a declaration spells, it is accepted and names its route's parameters in order |
| PercentCoding.DecodeEncode | crates/routing/src/generate.rs:366-368 | any text, encoded as the client encodes it, decodes to itself |
| PercentCoding.EncodedIsSafe | crates/routing/src/generate.rs:366-368 | an encoded text holds only unreserved characters and percent signs |
| PercentCoding.LeftAlone | crates/routing/src/generate.rs:366-368 | a character is left as it is if and only if it is an ASCII letter or digit or one of the nine marks |
| ClientUrl.EmitUrl | crates/routing/src/generate.rs:269-288 | the loop with its flag emits the template or string literal of the route |
| ClientUrl.UrlValue | crates/routing/src/generate.rs:269-288 | for all arguments, the emitted expression is well formed and evaluates to the template with each parameter encoded in its place if and only if every literal is kept by its string and no parameter hides the encoder |
| ClientUrl.UrlInvertsRoute | crates/routing/src/generate.rs:269-288 | for all arguments the built URL, split and decoded through the route, gives them back if and only if no path parameter is called `enc`, every literal is kept by its string, and none holds a doubled brace |
| ClientUrl.UrlIsInjective | crates/routing/src/generate.rs:269-288 | on such a route different arguments build different URLs |
| ClientUrl.EncHidesTheEncoder | crates/routing/src/generate.rs:366-368 | `/{enc}` is a route with that parameter, and its URL evaluates to nothing: the parameter hides the encoder |
| ClientUrl.DoubledBraceDoesNotComeBack | crates/routing/src/manifest.rs:19-29 | the URL of `/{{name}}` keeps both braces, and the route does not read it back |
| ClientUrl.ResolutionKeepsExactly | crates/routing/src/generate.rs:366-368 | removing dot segments (section 5.2.4 of RFC 3986, escaped dots included as the WHATWG URL Standard has it) leaves a built URL as it is if and only if no argument is one dot or two and no literal is, escaped or not |
| ClientUrl.TwoDotsGoUp | crates/routing/src/generate.rs:366-368 | the URL of `/{name}` with the argument `..` is `/..`, which resolves to the root |
| Splitter.SplitTopLevel | crates/routing/src/export.rs:65-90 | the loop over depth and buffer computes the entries |
| Splitter.DeeperExactly | crates/routing/src/export.rs:65-90 | the depth rises behind each of the four opening brackets and falls behind each closing one |
| Splitter.BracketsProtect | crates/routing/src/export.rs:65-90 | a comma between brackets of any of the four kinds parts nothing |
| Splitter.SplitInvertsPrint | crates/routing/src/export.rs:65-90 | splitting a printed list of balanced entries gives it back, whatever white space and with or without a trailing comma |
| Splitter.ParseObjectFields | crates/routing/src/export.rs:92-103 | the loop computes the fields, and nothing when an entry has no colon |
| Splitter.ParseInvertsPrint | crates/routing/src/export.rs:92-103 | parsing a printed object type gives its fields back in order if and only if every field's type is in balance for the splitter |
| Splitter.ArrowIsOutOfBalance | crates/routing/src/export.rs:65-90 | a function type is out of balance, whatever bracket-free type it results in |
| Splitter.TuplePositions | crates/routing/src/export.rs:106-125 | a printed tuple type carries its positions |
| Splitter.NamedPayload | crates/routing/src/export.rs:106-125 | a primitive carries one value, and a printed object its fields |
| HandlersFile.HandlersFile.constructor | crates/routing/src/export.rs:208-224 | an absent or blank file holds no handlers |
| HandlersFile.HandlersFile.Append | crates/routing/src/export.rs:208-224 | an append keeps a sorted file sorted, replaces the handler's entry and leaves every other |
| HandlersFile.LastWriterWins | crates/routing/src/export.rs:194-224 | after any appends the file is strictly sorted and holds the last append under each name and every other earlier entry |
| HandlersFile.InterleavingsAgree | crates/routing/src/export.rs:194-224 | any two interleavings of appends of distinct handlers leave the same file |
| Generator.Camel | crates/routing/src/generate.rs:90-104 | the loop with its flag computes the camel-case name |
| Generator.SnakeBack | crates/routing/src/generate.rs:90-104 | a snake-case name is read back from its camel case, so two of them clash only when equal |
| Generator.CamelIsWordExactly | crates/routing/src/generate.rs:90-104 | the camel case of a name is a given lower-case word if and only if the name is that word with any number of underscores behind it |
| Generator.CollectNamedTypes | crates/routing/src/generate.rs:108-125 | exactly the maximal words that start upper-case and are no builtin are added |
| Generator.BindPath | crates/routing/src/generate.rs:199-240 | a lone value gives the one name its type, positions give the i-th name the i-th type, fields give each name the type of its first field; each refusal |
| Generator.PlanFn | crates/routing/src/generate.rs:190-300 | the plan of one function with each of its errors |
| Generator.PlanBindsTheRoute | crates/routing/src/generate.rs:190-300 | a planned function takes exactly the route's parameters in order, then query and body, and no parameter is a reserved word |
| Generator.PlanTypesTheRoute | crates/routing/src/generate.rs:190-300 | its signature pair by pair: each route parameter with the type the path extractor carries for it, then query and body, each with the type of its own extractor |
| Generator.PlannableExactly | crates/routing/src/generate.rs:190-268 | a function is planned if and only if no kind of extractor is there twice, the path extractor is there when the route has parameters and fits them, and none is a reserved word |
| Generator.ShapeErrorsMean | crates/routing/src/generate.rs:190-268 | a refused plan names the handler and what of it does not fit |
| Generator.SignatureDistinctExactly | crates/routing/src/generate.rs:241-268 | a signature repeats a name if and only if the template does |
| Generator.UrlIsClosed | crates/routing/src/generate.rs:269-288 | every name the URL fills in denotes a parameter of its function when the template has no stray segment; the encoder and the transport denote themselves if and only if no path parameter has their name |
| Generator.PlannedUrlInvertsRoute | crates/routing/src/generate.rs:190-300 | a planned function's URL, evaluated with that function's arguments, reads back through its route if and only if the route is invertible; a parameter called `enc` is planned and is not |
| Generator.Render | crates/routing/src/generate.rs:302-353 | the loops over both tables compute the join: errors in their order, sorted functions, imports |
| Generator.JoinSucceedsExactly | crates/routing/src/generate.rs:302-350 | there is a client if and only if no handler is mounted twice, every included route is described, every handler fits a route, and no two functions get one name |
| Generator.RefusalsNameTheirCause | crates/routing/src/generate.rs:302-350 | each refusal of the join names what it is about: a handler on two routes, a route nobody describes, a handler without a route or of another shape, two functions of one name |
| Generator.FunctionsInOrder | crates/routing/src/generate.rs:330-330 | the functions come by path, those of one path by method |
| Generator.ImportsExactly | crates/routing/src/generate.rs:342-351 | a type is imported if and only if a function names it in a parameter or a JSON answer, and it is not `FormData` |
| Generator.OneFunctionPerHandler | crates/routing/src/generate.rs:302-353 | one function per handler, planned from the one route of its name, names distinct |
| Generator.EveryRouteIsCovered | crates/routing/src/generate.rs:313-322 | every included route has its function |
| Generator.DeclarableExactly | crates/routing/src/generate.rs:90-104 | every function of a client is an identifier its module can declare if and only if every handler's Rust name is of identifier characters, has no digit behind its leading underscores, and, unless it gets `Url` behind it, is not of underscores alone and not a keyword, `arguments`, `eval`, `enc` or `call`, with or without underscores behind it |
| Generator.SnakeNameIsDeclarableExactly | crates/routing/src/generate.rs:90-104 | a function whose handler is named in snake case can be declared if and only if it is a link or the name is no keyword and no name of the module's own |
| Generator.HandlersNobodyCanDeclare | crates/routing/src/generate.rs:302-350 | handlers called `delete`, `_1` and `__`, each on one route, are joined to a client of one function that cannot be declared |
| Generator.OrderNeverDecides | crates/routing/src/generate.rs:302-350 | reordering either table never decides whether there is a client |
| Generator.OrderShowsExactly | crates/routing/src/generate.rs:302-350 | no reordering of either table changes the client if and only if no two handlers share path and method |
| Generator.SwappedDescriptionsShow | crates/routing/src/generate.rs:302-350 | two handlers at one path and method make different clients when their descriptions are swapped |
| Generator.DistinctTablesAreApart | crates/routing/src/generate.rs:302-350 | no two do when no two routes share path and method and no handler is described twice |
| ConfigPaths.FlagReadsBackExactly | crates/config/src/path.rs:45-53 | the flag reads back to its path if and only if no name doubles an underscore or ends with one before another level |
| ConfigPaths.EnvReadsBackExactly | crates/config/src/path.rs:59-62 | so does the environment name, for any app |
| ConfigPaths.DottedReadsBack | crates/config/src/path.rs:41-43 | the TOML key always reads back |
| ConfigPaths.SpellingsAreUnambiguous | crates/config/src/path.rs:41-62 | two clear paths sharing any spelling are the same path |
| ConfigPaths.DocumentedFlags | crates/config/README.md:56-62 | the flags of the documentation's examples |
| ConfigPaths.DocumentedVariables | crates/config/README.md:56-62 | the variables of the documentation's examples |
| ConfigPaths.DoubledUnderscoreIsALevel | crates/config/README.md:56-62 | a name with a doubled underscore shares its flag and environment name with a nested field |
| ConfigDerive.Expand | crates/config-derive/src/lib.rs:47-164 | the loop over a struct's fields emits a registration and the read-back of the same leaf for each, or the first compile error |
| ConfigDerive.LeafCompilesExactly | crates/config-derive/src/lib.rs:67-151 | the attributes under which a field compiles, for the root's `deployment` and for any other |
| ConfigDerive.LeafRegisters | crates/config-derive/src/lib.rs:271-335 | the kind, variable, class and presence a field that compiles registers; a bool without default is `false` |
| ConfigDerive.StructCompilesExactly | crates/config-derive/src/lib.rs:47-164 | a struct compiles if and only if each leaf does, nested fields carry no key, and a root has a leaf `deployment` |
| ConfigDerive.SchemaIsDistinct | crates/config-derive/src/lib.rs:67-151 | no two leaves of a struct tree are registered at one path |
| ConfigArgs.Parse | crates/config/src/args.rs:27-75 | the index loop computes the reading of argv item by item |
| ConfigArgs.TakeNext | crates/config/src/args.rs:77-98 | the value of a flag, inline or the next token unless it looks like a flag, and where the index goes |
| ConfigArgs.ReadingIsWritingBack | crates/config/src/args.rs:27-98 | argv is read as a list of items exactly when they are valid and written as it: each token consumed once, in order, and in one way only |
| ConfigArgs.ParsedSays | crates/config/src/args.rs:27-75 | what argv parses to says what stands in it: help, the config's print, the last file named, the values in order; refused exactly for an unknown token without a call for help |
| ConfigArgs.HelpMeans | crates/config/src/args.rs:27-75 | `--help` and `-h` ask for help |
| ConfigArgs.PrintMeans | crates/config/src/args.rs:27-75 | `--print-config` asks for the merged values |
| ConfigArgs.FileMeans | crates/config/src/args.rs:27-75 | `--config` names the file, inline or in the next token |
| ConfigArgs.BareFlagGives | crates/config/src/args.rs:27-98 | a bool's flag alone gives it `true` |
| ConfigArgs.NextTokenIsTaken | crates/config/src/args.rs:77-98 | any other flag takes the next token, and refuses one that starts with two dashes |
| ConfigArgs.ArgvRoundTrip | crates/config/src/args.rs:27-98 | any bindings, each written inline, spaced or bare where it may be, parse to themselves in order with nothing unknown |
| ConfigArgs.ValuesStandBehindTheirFlags | crates/config/src/args.rs:27-75 | for every argv, the values of a field are those that stood behind its own flag if and only if no later field shares the flag, or the flag is built in and gives no field anything |
| ConfigArgs.SharedFlagMisleads | crates/config/src/args.rs:27-75 | with a field `a__b` before a nested `a.b`, a value behind the first one's flag is given to the second |
| ConfigArgs.ClearFlagsAreTheirOwn | crates/config/src/args.rs:27-75 | no two fields share a flag when no name doubles an underscore or ends with one before another level |
| ConfigFile.Collect | crates/config/src/file.rs:62-94 | the recursion that pushes onto what is found appends what the table flattens to |
| ConfigFile.Read | crates/config/src/file.rs:14-53 | the pairs of the file, or the refusal for an unreadable or malformed file, a non-scalar or an unknown key |
| ConfigFile.AcceptedExactly | crates/config/src/file.rs:14-94 | a file is accepted if and only if it can be read, is TOML, and holds under every key a scalar that a field is spelled as |
| ConfigFile.FileRoundTrip | crates/config/src/file.rs:14-94 | a file written as the struct is nested is read as exactly the texts it was written from, each for its own field |
| ConfigLayers.MergeSources | crates/config/src/layers.rs:19-91 | the four insertion loops compute the stacked layers |
| ConfigLayers.PerFieldPrecedence | crates/config/src/layers.rs:19-91 | every field's text and origin are its last argument, else its variable, else the file's text, else its default, whatever other fields hold |
| ConfigLayers.ArgumentWins | crates/config/src/layers.rs:80-88 | a field given an argument has the last one's text, whatever else there is |
| ConfigLayers.VariableComesNext | crates/config/src/layers.rs:67-78 | without one, its variable's |
| ConfigLayers.FileComesNext | crates/config/src/layers.rs:43-65 | without either, the file's last text for it |
| ConfigLayers.NoSource | crates/config/src/layers.rs:31-41 | without any of the three, the default if it has one |
| ConfigLayers.LastPairWins | crates/config/src/layers.rs:25-28 | of several pairs of one variable the last is its value |
| ConfigLayers.LowerCaseApp | crates/config/src/layers.rs:15-17 | for an app `demo` every field's variable starts with `DEMO_`, and the file's is `demo_CONFIG` |
| ConfigValues.BoolWords | crates/config/src/values.rs:108-114 | a text is a bool if and only if, trimmed and in any casing, it is one of the eight words, and it is the one meant |
| ConfigValues.EnforceExactly | crates/config/src/class.rs:10-40 | the check passes exactly under dev, or when every prod-required value is set and no dev-only one is enabled |
| ConfigLoad.LoadNeverPanics | crates/config/src/values.rs:98-105 | no input makes a struct tree read a path it did not register |
| ConfigLoad.LoadedIsChosen | crates/config/src/lib.rs:86-103 | a loaded config holds, field by field in schema order, what each field's own sources give it, typed as the field is; under prod it meets every rule |
| ConfigLoad.LoadSucceedsExactly | crates/config/src/lib.rs:86-103 | a load gives a config if and only if arguments and file are accepted and ask for nothing else, every leaf reads from its own sources, and under prod every rule is met |
| ConfigLoad.BareFlagLoadsTrue | crates/config/src/lib.rs:86-103 | a bool given its flag alone loads true |
| ConfigLoad.UnsetBoolLoadsFalse | crates/config/src/lib.rs:86-103 | a bool with no default that no source gives anything loads false, and dev-only passes prod |
| ConfigLoad.UnreadableFileRefuses | crates/config/src/lib.rs:86-103 | a load that names a file that cannot be read fails with it, by flag or by variable, unless it asks for help |
| ConfigLoad.RequestsAreAnswered | crates/config/src/lib.rs:86-103 | a call for help is answered before any file is read, one for the merged values before any is read as a type |
| ConfigLoad.RefusalsNameTheirField | crates/config/src/lib.rs:86-103 | a refusal behind the merge names a field whose own sources are at fault |
| ConfigLoad.OnlyRequiredIsMissing | crates/config/src/values.rs:58-105 | a refusal for a missing value names a required field that no source gave anything |

## Left out

- The asset cache's file accesses are each atomic: a read that sees half of a write, symbolic links retargeted during a
  call, and the reuse of an inode are not modelled; path canonicalisation is an opaque function of the name.
- SHA-256, UUIDs, PKCE values and cookies are parameters, with fresh ids assumed where the code draws them.
- AssetCache.AssetCache.StaticFile: runs over files nobody edits meanwhile; the interleaved machine covers editing.
- NameSync.ExactlyOnce: takes columns listed under one kind. Rows that the service rewrites or deletes itself, NULL cells
  and SQL collation are not modelled, and neither are feed answers whose clock is no RFC 3339 time.
- Renames.HarmlessExactlyWithoutTransfer: holders are renamed and join; deleted accounts are not modelled.
- OidcServer.Server.ResolveSession: the shared deadline runs on its own clock, the write-back instant is a parameter.
- Session and flow stores other than the built-in one, the text of responses, cookies and headers, and `safe_next`
  beyond being a function of its input.
- Leases and instants are unbounded; an overflow of the platform's time types is not modelled.
- Serialising a config into JSON is foreign: the escape is proved on every valid JSON text instead.
- Placeholder and parameter names: a wildcard is one segment, as the client encodes the slashes of its argument. That the
  router refuses an empty segment is not modelled.
- Generator.Render: stops at the functions in order and the set of imported types; laying them out as text, and a
  handler's `Debug` detail inside an error, are not modelled.
- Generator.Camel: upper-cases ASCII letters only.
- Generator.DeclarableExactly: takes identifiers to be ASCII. A function that hides a global which the module uses
  (`undefined`, `String`, `encodeURIComponent`) can be declared; what that does to the others is not modelled.
- Generator.CollectNamedTypes: takes ASCII words only, as the names of exported types are.
- ClientUrl.UrlValue: segments that are a placeholder but no parameter (`{}`, `{a}}`), parameters that are no identifier
  and literals that hold `${` are outside it; string escapes are not evaluated, so a literal with a backslash has no value.
- Splitter.ParseInvertsPrint: quoted keys that hold a colon, a comma or a bracket are outside it.
- `classify`, `response_of` and `pat_name` work on Rust syntax trees; JSON file I/O and the lock call itself.
- The `toml` parser, `FromStr` of each type, `--help` and `--print-config` text, the wording of refusals and the masking
  of secrets.
- ConfigPaths.FlagReadsBackExactly: field names are lower-case ASCII identifiers.
- HTTP clients, the template engine, user interface assets, logging and the shell.
