# RingRouter, verified

A Dafny model of the parts of RingRouter (a Go gateway in front of LLM providers, with a React console)
whose correctness is about state over time rather than about one call:

- **Channel snapshots and failover** (`Gateway.dfy`, `Fleet.dfy`). Every instance keeps a list of
  channels for 30 s, behind it a Redis copy for 5 min, behind that the database. A reload is two steps
  (read, then install and publish), because an instance's lock does not stop the others.
- **The sliding-window limiter** (`RateLimit.dfy`). In-place pruning through `arr[:0]` on real arrays,
  append with growth, key sweeps, and a refinement to a limiter that keeps every hit for ever.
- **Group names as references** (`Lists.dfy`, `Like.dfy`, `GroupRefs.dfy`, `GroupIntegrity.dfy`,
  `GroupRouting.dfy`, `GroupEffects.dfy`). Renames that rewrite comma-separated lists behind a SQL LIKE
  prefilter, and deletes guarded by use.
- **Streams** (`StreamBilling.dfy`, `SseReader.dfy`). The 16 MiB tail from which a forwarded stream is
  billed, and the console's incremental line reader.
- **Protocol translation** (`Protocol.dfy`, `AnthropicWire.dfy`, `GoogleWire.dfy`,
  `ResponsesWire.dfy`). Encoders and decoders written independently, meeting in one request type.
- **base64url** (`Base64Url.dfy`), on top of sections 4 and 5 of RFC 4648.
- **Quota points** (`Billing.dfy`), **passkey challenges** (`Challenges.dfy`), **reset codes**
  (`ResetCodes.dfy`) and **accounts** (`Accounts.dfy`, `AccountSafety.dfy`, `AccountEffects.dfy`).

Handlers, the limiter, the gateway and the stores are classes whose methods are proved equal to
specification functions; the theorems are about those functions and about runs of them. `Text.dfy` and
`Options.dfy` hold the string functions of the Go standard library and the option type.
`dafny verify dfyconfig.toml` checks everything.

## What turned out not to hold

Where the code does not always do what it or its comments promise, the model follows the code, the exact
condition under which the promise holds is proved, and a run from a start state shows the failure:

- `internal/gateway/gateway.go:34` says that deleting the shared key, never the TTL, makes channel changes
  visible. `Fleet.InvalidationConvergesExactly`: convergence within 30 s of the deletion holds if and only if
  no reload in flight at the deletion holds a list older than the change. A reload that reads the old shared
  copy between the memory reset and the deletion is enough to break it (`Fleet.StaleCopyBreaksConvergence`).
  If reloads take at most some time, then after that time and 30 s only those reloads matter that will publish
  an older list (`Fleet.ConvergesWithinExactly`).
- One `limiter` serves tiers with 3 and 20 minute windows, and a sweep uses the caller's window.
  `RateLimit.BudgetSafeExactly`: the budgets are safe throughout a run if and only if no sweep of the run drops
  a key whose youngest hit is within that key's own window. `RateLimit.MixedWindowsBreakBudget` is a run that
  exceeds the longer tier's budget, for any two windows and limits, the default ones included.
- LIKE escapes with a backslash on PostgreSQL and MySQL, but SQLite, which is also supported, has no escape
  character. `Like.PrefilterCompleteExactly`: there, the prefilter of rename and delete misses channels
  exactly for names with `\`, `%` or `_`.
- Nothing keeps a comma out of a group name. `GroupIntegrity.RenameAlwaysSafeExactly` says which renames are
  harmless in every database, `GroupRouting.RenameKeepsCandidatesExactly` which renames of a given database
  keep routing, and `GroupIntegrity.OneGroupIsReachable` that the databases in which the others fail are
  reached from the first boot.
- A plan grant moves a user to the plan's group without looking whether it still exists
  (`GroupIntegrity.GrantKeepsRefsExactly`, and the run `GroupIntegrity.GrantCanDangle`); and an instance checks
  group names against names it cached up to 15 s ago, so it accepts a group that another instance deleted
  (`GroupIntegrity.StaleNamesCanDangle`). `GroupIntegrity.RunKeepsRefsExactly` gives the exact condition for
  every run of any number of instances.
- A grant writes a quota it read earlier, so charges and other grants of the meantime are lost
  (`Billing.GrantKeepsChargesExactly`, and the runs `Billing.ChargeCanBeLost` and `Billing.TopUpCanBeLost`).
- A charge by a request that saw a finite quota empties an account that became unlimited meanwhile
  (`Billing.UnlimitedSurvivesExactly`, and the run `Billing.UnlimitedCanBeEmptied`).
- `internal/handler/auth.go:316` promises at most one reset code per address and minute. The cooldown looks at
  the stored code only, and six wrong tries delete that (`ResetCodes.UsedUpCodeDoesNotCoolDown`).
  `ResetCodes.IssuedExactly`: a request makes a code if and only if its address is registered and no code
  mailed to it within the last minute is still kept, that is neither replaced, accepted nor deleted as used up.
- Setup closes when an administrator exists, active or not. Promoting a disabled account on an instance
  without administrators closes it with nobody active (`AccountSafety.ClosedSetupHasAdminExactly`, and the run
  `AccountSafety.SetupCanCloseWithoutAdmin`).
- Setup checks only the exact user name, so it can create a second account with the same address or a
  name that differs in case (`AccountSafety.StepKeepsNamesApartExactly`, and the run
  `AccountSafety.SetupCanTakeAnAddress`).

## Assumptions

- A handler is one atomic step, except where the model splits it: gateway reloads and invalidations
  (`Fleet`) and plan grants (`Billing.Books.WriteGrant`). In particular two administrators who demote each
  other at the same instant are outside the model.
- Times read by the limiter and by the challenge store do not decrease in lock order; times of reset-code
  requests do not decrease. The limiter reads its clock before it takes the lock (line 33), so this is an
  assumption about the run.
- The database returns channels in a fixed order, an update does not move a row, ids are not reused, and
  no statement fails midway through a handler.
- Trimming and JSON parsing of SSE payloads, calls to providers, mail delivery and WebAuthn verification are parameters.
  A password or code hash is identified with what it was made from. Prices are real numbers and quota is an
  unbounded integer. Case folding is that of ASCII letters.

## Model

| member | source | states |
|---|---|---|
| Gateway.SortIsStable | internal/gateway/gateway.go:100-103 | the sorted list is in descending priority and keeps the database order within each priority |
| Gateway.StableSortIsUnique | internal/gateway/gateway.go:100-103 | descending order and the order within each tier determine the list, so the sort specification has exactly one solution |
| Gateway.SnapshotIsSortedActive | internal/gateway/gateway.go:91-104 | a snapshot consists of exactly the active rows, highest priority first |
| Gateway.ActiveInOrder | internal/gateway/gateway.go:91-99 | the active rows are taken in the order of the database |
| Gateway.ReviveToWire | internal/gateway/gateway.go:49-56 | a published snapshot is revived unchanged, sealed keys included, although the channel's own JSON hides them |
| Gateway.Gateway.Reload | internal/gateway/gateway.go:63-115 | memory and shared copy after a reload: nothing while fresh, the shared copy if there is one, else the database rows with a publish, and no change when the database fails |
| Gateway.Gateway.InvalidateChannels | internal/gateway/gateway.go:131-139 | memory stale, provider pool empty, shared key gone if Redis answers |
| Gateway.Gateway.SupportsModel | internal/gateway/gateway.go:142-149 | true iff some trimmed list element is the model |
| Gateway.Gateway.ChannelInGroup | internal/gateway/gateway.go:154-170 | true iff the trimmed elements contain the group; the default request group matches an empty element or `default` |
| Gateway.Gateway.ProviderFor | internal/gateway/gateway.go:248-263 | a pooled provider is reused, a new one is pooled once, a failed construction leaves the pool alone |
| Gateway.Gateway.Select | internal/gateway/gateway.go:180-186 | the loop collects exactly the candidates in snapshot order |
| Gateway.Gateway.Failover | internal/gateway/gateway.go:192-207 | the loop's outcome and provider pool are those of trying the candidates one after the other |
| Gateway.Gateway.Chat | internal/gateway/gateway.go:176-208 | a request reloads, selects and fails over on the reloaded list |
| Gateway.CandidatesMembers | internal/gateway/gateway.go:180-186 | the candidates are exactly the listed channels that serve the model and belong to the group |
| Gateway.CandidatesKeepOrder | internal/gateway/gateway.go:180-186 | candidates keep the snapshot's priority order |
| Gateway.TryEachFindsFirst | internal/gateway/gateway.go:192-207 | over the adapters, their errors and the pool at the start: the outcome is the answer of the first candidate that answers, all earlier ones fail, and if none answers the last error is reported |
| Gateway.FailoverServesHighest | internal/gateway/gateway.go:172-208 | a request is answered by an eligible channel whose call answers, and no eligible channel of higher priority could have answered; it fails iff no eligible channel answers |
| Gateway.TryEachKeepsPool | internal/gateway/gateway.go:192-207 | a provider that is pooled stays pooled, and only tried channels are added, each with its own settings |
| Gateway.CandidatesAppend | internal/gateway/gateway.go:180-186 | candidates are taken row by row, those of an earlier row first |
| Gateway.GroupsServed | internal/gateway/gateway.go:154-170 | a default request is served iff some trimmed element of the list is empty or `default`, any other iff some trimmed element is its group |
| Fleet.BoundedStaleness | internal/gateway/gateway.go:31-38 | in every run of n instances a fresh instance serves the sorted active rows the database held less than 5 min 30 s (plus twice the reload time) ago |
| Fleet.ReloadRefreshesOrFails | internal/gateway/gateway.go:63-95 | a reload leaves the instance fresh unless both the shared copy and the database give nothing; then nothing changes |
| Fleet.InvalidationConvergesExactly | internal/gateway/gateway.go:31-38 | after the key's deletion and 30 s every fresh instance serves nothing older than the change, in all continuations, iff no reload in flight at the deletion holds an older list |
| Fleet.LateInstallServesOld | internal/gateway/gateway.go:91-115 | the continuation that breaks convergence when an older reload is in flight |
| Fleet.StaleCopyBreaksConvergence | internal/gateway/gateway.go:81-89 | from the start: a reload that begins after the change and reads the old shared copy before its deletion breaks convergence |
| Fleet.ConvergesWithinExactly | internal/gateway/gateway.go:63-139 | with reloads of bounded length, every instance converges 30 s and one reload after the deletion, in all such continuations, iff no reload in flight that will publish holds an older list |
| Fleet.LatePublishSurvives | internal/gateway/gateway.go:107-114 | the continuation otherwise: a list read before the change and published after the deletion is reloaded and still served then |
| Fleet.NextReloadIsCurrent | internal/gateway/gateway.go:128-139 | with no request in between, the reload after an invalidation serves the database as it is |
| RateLimit.SlidingWindow.Allow | internal/middleware/ratelimit.go:32-58 | one call on the real map of slices does exactly what the specification step does to the log of hits and gives its answer |
| RateLimit.SlidingWindow.Prune | internal/middleware/ratelimit.go:38-43 | filtering a slice into its own backing array keeps exactly the young hits, in order |
| RateLimit.SlidingWindow.Append | internal/middleware/ratelimit.go:48 | append in place or into a grown copy |
| RateLimit.SlidingWindow.SweepKeys | internal/middleware/ratelimit.go:50-56 | whatever order the map yields its keys in, exactly the stale keys go |
| RateLimit.PruningIsUnobservable | internal/middleware/ratelimit.go:37-43 | dropping old hits early changes no later count |
| RateLimit.DropUnobservableExactly | internal/middleware/ratelimit.go:50-56 | dropping a key can never be noticed iff its youngest hit has left that key's own window |
| RateLimit.StepSimulates | internal/middleware/ratelimit.go:32-58 | one call whose sweep forgets no young hit keeps the limiter and the full log in agreement for all later times, with the same answer |
| RateLimit.StepSimulatesExactly | internal/middleware/ratelimit.go:32-58 | the call is answered alike in any case, and the agreement survives iff its sweep drops no key with a hit within that key's own window |
| RateLimit.AnswersLikeFullLog | internal/middleware/ratelimit.go:29-58 | the limiter answers every call of a run as one that keeps all accepted hits and never sweeps, whenever no sweep drops a young hit |
| RateLimit.OneWindowIsHarmless | internal/middleware/ratelimit.go:50-56 | with one window every sweep is harmless |
| RateLimit.BudgetHolds | internal/middleware/ratelimit.go:29-58 | no half-open interval as long as a key's window holds more than max accepted hits, in any such run |
| RateLimit.AllowedExactly | internal/middleware/ratelimit.go:29-58 | after any such run a call is let through iff fewer than max hits of its key were accepted in the window that ends with it |
| RateLimit.ForgettingBreaksBudget | internal/middleware/ratelimit.go:50-56 | conversely, a key that a sweep drops although it has a young hit can at once exceed its budget |
| RateLimit.BudgetSafeExactly | internal/middleware/ratelimit.go:29-58 | for every run in order: at each of its moments, whichever key then calls however often, no budget is exceeded, iff no sweep of the run drops a key with a young hit |
| RateLimit.MixedWindowsBreakBudget | internal/middleware/ratelimit.go:50-62 | for any two tiers on one store whose windows differ by more than a tick, whatever their limits, a run from the empty store exceeds the budget of the longer window |
| RateLimit.DefaultTiersBreakBudget | internal/middleware/ratelimit.go:62-72 | in particular the default tiers of 480 in 3 and 20 in 20 minutes |
| Like.EscapeLikeIsEscapeEach | internal/handler/dbutil.go:11-16 | the three replacements in a row equal escaping each character once |
| Like.LikePatternFindsSubstrings | internal/handler/dbutil.go:7-22 | where LIKE has an escape character, the pattern matches exactly the texts that contain the term up to the dialect's case folding |
| Like.LikePatternIsContains | internal/handler/dbutil.go:7-22 | on PostgreSQL the pattern of q matches s iff q is a substring of s |
| Like.PrefilterCompleteExactly | internal/handler/groups.go:215 | the prefilter misses no list that contains the name iff the dialect escapes or the name has no special character |
| Like.NotFoundInItself | internal/handler/groups.go:265 | without an escape character such a name is not even found in a list that is just the name |
| Lists.NormalizeList | internal/handler/channels.go:390-402 | the loop builds the specified list |
| Lists.PiecesOfNormalized | internal/handler/channels.go:388-402 | normalising keeps exactly the non-empty trimmed elements, or gives `default` |
| Lists.KeptAppend | internal/handler/channels.go:390-402 | elements are trimmed and kept one by one, in order |
| Lists.NormalizedInOrder | internal/handler/channels.go:388-402 | the stored list splits into exactly the kept elements in order, and normalising it again changes nothing |
| Lists.RenameInList | internal/handler/groups.go:217-224 | the nested loop computes the rewritten elements and reports whether any element was the old name |
| Lists.PiecesOfRewrite | internal/handler/groups.go:210-229 | rewriting replaces the old element by the new one's elements and touches no other, not even one that begins with the old name |
| Lists.RewriteInPlace | internal/handler/groups.go:216-228 | a new name without a comma takes the places of the old one, and every other element stays in place, spaces included |
| Lists.RewriteUnlisted | internal/handler/groups.go:217-228 | a list without the name is left exactly as it is |
| Lists.ListContainsPieces | internal/handler/groups.go:263-275 | every trimmed element occurs in the list's text, so a substring prefilter is sound for element checks |
| GroupRefs.Database.UpdateGroup | internal/handler/groups.go:180-236 | all tables after a rename, and exactly which renames are refused |
| GroupRefs.Database.RewriteChannels | internal/handler/groups.go:214-230 | the rows behind the prefilter are rewritten, all others untouched |
| GroupRefs.Database.RemoveGroup | internal/handler/groups.go:240-284 | all tables after a delete: the group goes iff it is not the default one and no user, token or found channel uses it |
| GroupRefs.Database.FindChannelUsing | internal/handler/groups.go:263-277 | prefilter plus element check |
| GroupRefs.Database.CreateGroup | internal/handler/groups.go:62-124 | all tables after a create, refused for bad or taken names |
| GroupRefs.Database.LookupGroup | internal/setting/group.go:119-166 | the cached existence check and the fill of the cache |
| GroupRefs.Database.RegisterUser | internal/handler/auth.go:155-176 | a registered user starts in the default group, unchecked |
| GroupRefs.Database.CreateUser | internal/handler/admin.go:108-146 | the stored group of a new user |
| GroupRefs.Database.DeleteUser | internal/handler/admin.go:489-495 | the user and the user's tokens are gone |
| GroupRefs.Database.CreatePlan | internal/handler/plans.go:80-125 | the stored group and status of a new plan, after the check |
| GroupRefs.Database.UpdatePlan | internal/handler/plans.go:198-222 | a plan moves only to a known group; a blank group and a missing status change nothing |
| GroupRefs.Database.UpdateUserGroup | internal/handler/admin.go:265-311 | user and all the user's tokens move, after the check |
| GroupRefs.Database.CreateToken | internal/handler/tokens.go:140-189 | a token gets the named group or the user's own, after the check |
| GroupRefs.Database.UpdateTokenGroup | internal/handler/tokens.go:236-242 | a token moves only to a known group |
| GroupRefs.Database.ValidateList | internal/handler/channels.go:132-138 | accepted iff every non-empty element is a known group; the cache is filled iff an element was looked up |
| GroupRefs.Database.CreateChannel | internal/handler/channels.go:220-258 | the stored list of a new channel |
| GroupRefs.Database.UpdateChannelGroups | internal/handler/channels.go:283-353 | a blank list changes nothing, an accepted one is stored normalised |
| GroupRefs.Database.GrantSubscription | internal/handler/subscriptions.go:65-103 | user and tokens move to the plan's group, unchecked |
| GroupIntegrity.RenameKeepsRefsExactly | internal/handler/groups.go:196-231 | a rename keeps every reference valid iff each channel that lists the old name is found by the prefilter and the new name's elements exist |
| GroupIntegrity.RenameAlwaysSafeExactly | internal/handler/groups.go:196-231 | which pairs of names are safe in every database, as an equivalence |
| GroupIntegrity.DeleteKeepsRefsExactly | internal/handler/groups.go:249-281 | a delete keeps every reference valid iff no channel lists the name |
| GroupIntegrity.DeleteAlwaysSafeExactly | internal/handler/groups.go:249-281 | the guard suffices in every database iff the prefilter is complete for the name |
| GroupIntegrity.GrantKeepsRefsExactly | internal/handler/subscriptions.go:90-103 | a grant keeps references iff the plan's group still exists |
| GroupIntegrity.MoveUserKeepsRefsExactly | internal/handler/admin.go:289-308 | a move checked against stale cached names keeps references iff the group exists now |
| GroupIntegrity.StepKeepsRefsExactly | internal/handler/groups.go:180-284 | on any instance, with fresh or stale cached names, an operation keeps names unique, the default group present and every reference valid iff what it takes for existing exists: a rename is followed by all channels that list the name, a deleted group is listed by none, granted and accepted groups exist |
| GroupIntegrity.RunKeepsRefsExactly | internal/setting/group.go:81-145 | in every run of any number of instances the references are valid at every moment iff each operation meets that condition |
| GroupIntegrity.FreshChecks | internal/setting/group.go:159-166 | with cached names that are not stale, every check of a name suffices |
| GroupIntegrity.NamesStayFresh | internal/setting/group.go:98-106 | one instance never has stale names of its own making |
| GroupIntegrity.StepFramed | internal/handler/groups.go:62-284 | every operation leaves all tables alone that it is not about, and only one on groups, or another instance, makes cached names stale |
| GroupIntegrity.StepKeepsIntegrityExactly | internal/handler/groups.go:180-284 | on one instance only renames, deletes and grants have a condition, and it is exact |
| GroupIntegrity.RunKeepsIntegrityExactly | internal/handler/groups.go:180-284 | so for every run of group, user, token, channel, plan and grant operations on one instance |
| GroupIntegrity.DefaultIsNeverLost | internal/handler/groups.go:180-185 | whatever the run, names stay unique and the default group stays |
| GroupIntegrity.StaleNamesCanDangle | internal/setting/group.go:81-85 | from the first boot: an instance that cached the names before another deleted a group puts a user into it |
| GroupIntegrity.GrantCanDangle | internal/handler/subscriptions.go:90-103 | from the first boot: a group that only a plan names is deleted, and a grant then leaves a user in it |
| GroupIntegrity.OneGroupIsReachable | internal/handler/groups.go:62-124 | the database in which unsafe renames and deletes fail is reached from the first boot |
| GroupRouting.RenameKeepsRoutingExactly | internal/gateway/gateway.go:154-170 | membership of every list and request group is the same before and after a rename iff the new name has no comma or the old one has, so that no list contains it |
| GroupRouting.SnapshotCascaded | internal/handler/groups.go:210-230 | the snapshot after the cascade is the snapshot before it, row by row, in the same order |
| GroupRouting.RenameKeepsCandidatesExactly | internal/handler/groups.go:199-231 | every request group sees the same candidates in the same order for every model iff each active channel that lists the old name is found by the prefilter and the new name has no comma |
| GroupRouting.RenameKeepsCandidates | internal/handler/proxy.go:515-523 | then so does every token, through its own renamed group |
| GroupEffects.UsersAfter | internal/handler/admin.go:265-311 | for every operation, which user has which group afterwards, and which users are there |
| GroupEffects.TokensAfter | internal/handler/tokens.go:118-250 | for every operation, the owner and group of each API key afterwards |
| GroupEffects.GroupsAfter | internal/handler/groups.go:62-284 | for every operation, each group row afterwards; a change of the groups empties the cache |
| GroupEffects.PlansAfter | internal/handler/plans.go:80-222 | for every operation, each plan row afterwards |
| GroupEffects.ChannelsAfter | internal/handler/channels.go:220-353 | for every operation, the i-th channel row afterwards |
| GroupEffects.RenameMovesExactly | internal/handler/groups.go:196-208 | exactly the users and keys of the old name get the new one, which nobody had; all others, the owners and the plans stay, and no row comes or goes |
| GroupEffects.RenameRewritesLists | internal/handler/groups.go:210-230 | channel rows keep their places and all but their lists; found lists have the new name for the old one, others are the same |
| GroupEffects.RenameBackRestores | internal/handler/groups.go:180-236 | renaming back is accepted and restores every group, user and key |
| GroupEffects.RenameBackRestoresLists | internal/handler/groups.go:210-230 | and the elements of every channel list, where LIKE finds both names and the new one has no comma |
| GroupEffects.RenameKeepsUserCandidates | internal/handler/tokens.go:140-143 | what `GroupRouting.RenameKeepsCandidates` says of keys holds of the users whose group new keys take |
| GroupEffects.TokensFollowTheirUser | internal/handler/subscriptions.go:92-103 | a moved or granted user takes along exactly the user's own keys |
| StreamBilling.AccumulateOpenAISSE | internal/handler/proxy.go:558-604 | the loop over mutable text, usage, finish and id equals the fold |
| StreamBilling.FoldTakesLastUsage | internal/handler/proxy.go:587-589 | the billed usage is that of the last line that bears one |
| StreamBilling.FoldConcatenates | internal/handler/proxy.go:581-582 | the text is the contents of the chunks in their order |
| StreamBilling.FoldTakesLastFinish | internal/handler/proxy.go:583-585 | the finish reason is the last one that is not empty |
| StreamBilling.FoldTakesLastId | internal/handler/proxy.go:578-580 | the id is the last one that is not empty |
| StreamBilling.AccumulatedAnswer | internal/handler/proxy.go:558-604 | the answer of a stream: all contents in order, the last finish reason or `stop`, the last id |
| StreamBilling.PayloadExactly | internal/handler/proxy.go:565-573 | a line counts iff it is, up to white space, a data line with a payload that is not the end mark |
| StreamBilling.KeepTail | internal/handler/proxy.go:341-343 | what is kept is the last n bytes |
| StreamBilling.TailAppend | internal/handler/proxy.go:340-343 | cutting after every read gives the tail of everything read |
| StreamBilling.NextRead | internal/handler/proxy.go:335-343 | each read is appended to what was read before, and what is kept follows from what was kept |
| StreamBilling.Ledger.BillStream | internal/handler/proxy.go:231-241 | exactly one bill from what is in the buffer |
| StreamBilling.Ledger.Passthrough | internal/handler/proxy.go:335-354 | however the body is cut into reads and whichever exit is taken, one bill from the last 16 MiB read; the bytes sent are those read before a failed write |
| StreamBilling.CutLines | internal/handler/proxy.go:341-343 | the lines of any suffix are the lines of the whole from some line on, the first perhaps beheaded |
| StreamBilling.CutUsage | internal/handler/proxy.go:341-354 | what is billed from any suffix: the last usage after the cut line, else what is left of that line |
| StreamBilling.TailBillsWholeStream | internal/handler/proxy.go:341-354 | the bill equals that of the whole stream whenever the last usage line lies wholly in the tail |
| SseReader.ReadAll | web/src/pages/Playground.tsx:58-84 | lines handled, buffer and answer after all reads, as functions of the concatenated text |
| SseReader.HandleLines | web/src/pages/Playground.tsx:70-83 | each finished line adds its delta once |
| SseReader.NextChunk | web/src/pages/Playground.tsx:67-69 | splitting buffer plus chunk continues the split of all text so far |
| Text.ConcatAppend | web/src/pages/Playground.tsx:64-67 | the text of the reads is put together in order |
| SseReader.LinesReassemble | web/src/pages/Playground.tsx:67-69 | handled lines and buffer reassemble the text, and are its only cut into newline-ended lines and a newline-free rest |
| SseReader.ChunkingIsIrrelevant | web/src/pages/Playground.tsx:64-84 | two chunkings give the same lines and answer; an unfinished last line adds nothing |
| SseReader.AnswerInOrder | web/src/pages/Playground.tsx:70-83 | each line adds its text once, in its place |
| AnthropicWire.BuildAnthropic | internal/provider/anthropic.go:68-91 | the loop's request body: default token limit, glued system text, other turns in order |
| AnthropicWire.CollectMessages | internal/provider/anthropic.go:68-91 | the loop glues the system texts and collects the other turns in order |
| AnthropicWire.DecodeBody | internal/inbound/codec.go:126-165 | the decoder's result or error for every body |
| Protocol.ExtractBlocks | internal/inbound/codec.go:168-193 | text blocks joined by newlines |
| Protocol.GlueIsJoin | internal/inbound/codec.go:181-190 | gluing is joining with newlines, except that empty texts in front leave no line |
| Protocol.TextsAppend | internal/inbound/codec.go:181-190 | the texts are those of the text blocks, in order |
| Protocol.TextExtracted | internal/inbound/codec.go:168-193 | a string as it is, the text blocks joined, anything else empty |
| Protocol.PartsAppend | internal/provider/anthropic.go:79-89 | system texts and turns are taken message by message, in order |
| AnthropicWire.DecodeToAnthropic | internal/provider/anthropic.go:68-91 | decoding what was sent gives the canonical request; refused iff there is no model or no turn |
| AnthropicWire.CanonParts | internal/inbound/codec.go:126-165 | the canonical request has the same system text and turns |
| AnthropicWire.CanonIsFixed | internal/provider/anthropic.go:68-91 | the canonical request is sent as the same body |
| AnthropicWire.SecondTripIsIdentity | internal/inbound/codec.go:126-165 | a second trip changes nothing |
| AnthropicWire.DecodesSettings | internal/inbound/codec.go:126-150 | which bodies are refused and why, and the settings of all others |
| AnthropicWire.DecodesMessages | internal/inbound/codec.go:152-165 | the system text in front, and then each message with its role and text |
| AnthropicWire.SendsExactly | internal/provider/anthropic.go:68-91 | every field of the body that is sent for any request, turn by turn |
| AnthropicWire.CanonKeepsSettings | internal/inbound/codec.go:137-150 | a trip keeps all settings, except that a missing or non-positive token limit becomes 4096 |
| AnthropicWire.ReadReply | internal/provider/anthropic.go:94-128 | text, finish reason and usage of an answer |
| AnthropicWire.ReplyText | internal/provider/anthropic.go:94-103 | the text of any reply: its text blocks joined with newlines |
| AnthropicWire.ResponseComesBack | internal/inbound/codec.go:195-249 | what any response, without or with choices, is after encoding and reading |
| AnthropicWire.ResponseSurvivesExactly | internal/inbound/codec.go:195-249 | an answer survives encoding and reading iff its finish reason is not remapped and its total adds up; the text always does |
| GoogleWire.BuildGoogle | internal/provider/google.go:72-102 | the loop's request body: assistant becomes model, system parts apart, limits only if set |
| GoogleWire.CollectMessages | internal/provider/google.go:84-100 | the loop splits system parts from the other turns, with assistant renamed, in order |
| GoogleWire.DecodeBody | internal/inbound/codec.go:299-348 | the decoder's result or error for every body |
| GoogleWire.DecodeToGoogle | internal/provider/google.go:72-102 | decoding what was sent gives the canonical request or the exact error |
| GoogleWire.CanonParts | internal/inbound/codec.go:299-348 | same system text and same turns up to the renamed role |
| GoogleWire.CanonIsFixed | internal/provider/google.go:72-102 | the canonical request is its own canonical form |
| GoogleWire.SecondTripIsIdentity | internal/inbound/codec.go:299-348 | a second trip changes nothing |
| GoogleWire.DecodesSettings | internal/inbound/codec.go:299-348 | which bodies are refused, and the settings of all others |
| GoogleWire.DecodesContents | internal/inbound/codec.go:311-336 | the system parts run together in front, and then each turn with its unified role and its non-empty parts joined |
| GoogleWire.PartByPart | internal/inbound/codec.go:311-334 | parts are taken one by one, in order |
| GoogleWire.SendsExactly | internal/provider/google.go:72-102 | every field of the body that is sent for any request, turn by turn and part by part |
| GoogleWire.CanonKeepsSettings | internal/inbound/codec.go:338-347 | a trip keeps model, temperature, top_p and stop list; a limit survives iff it is positive, the stream flag never |
| GoogleWire.CanonIsSentAgain | internal/provider/google.go:72-102 | the canonical request is sent with the same contents; with the same system parts iff there was at most one and it was not empty, and with the same settings iff no non-positive limit left a trace |
| GoogleWire.ModelSurvivesPathExactly | internal/provider/google.go:143-166 | a model name put into the path is read back unchanged iff the receiver's own path rule accepts it |
| GoogleWire.ResponseSurvivesExactly | internal/provider/google.go:105-140 | which answers survive encoding and reading |
| GoogleWire.ReplyText | internal/provider/google.go:105-117 | the text of any reply: the parts of the first candidate joined with newlines |
| GoogleWire.ResponseComesBack | internal/inbound/codec.go:350-394 | what any response, without or with choices, is after encoding and reading |
| ResponsesWire.StringsJoin | internal/provider/openai-responses.go:182-191 | the loop equals joining |
| ResponsesWire.BuildResponses | internal/provider/openai-responses.go:61-98 | the loop's request body; no turn at all is sent as null |
| ResponsesWire.DecodeBody | internal/inbound/codec.go:437-490 | the decoder's result or error for every body |
| ResponsesWire.DecodeToResponses | internal/provider/openai-responses.go:61-98 | decoding what was sent gives the canonical request; without any turn an empty user turn appears |
| ResponsesWire.CanonParts | internal/inbound/codec.go:437-490 | same instructions and same turns |
| ResponsesWire.CanonIsFixed | internal/provider/openai-responses.go:61-98 | the canonical request is its own canonical form, and is sent as the same body iff there was a turn |
| ResponsesWire.SecondTripIsIdentity | internal/inbound/codec.go:437-490 | a second trip changes nothing, not even for a request without turns |
| ResponsesWire.DecodesSettings | internal/inbound/codec.go:437-459 | which bodies are refused and why, and the settings of all others |
| ResponsesWire.DecodesItems | internal/inbound/codec.go:461-489 | the instructions in front, and then each item with its role and text |
| ResponsesWire.DecodesText | internal/inbound/codec.go:461-471 | the instructions and one user turn: the given string, or nothing for null |
| ResponsesWire.SendsExactly | internal/provider/openai-responses.go:61-98 | every field of the body that is sent for any request, turn by turn |
| ResponsesWire.CanonKeepsSettings | internal/inbound/codec.go:449-459 | a trip keeps all settings |
| ResponsesWire.ResponseSurvivesExactly | internal/provider/openai-responses.go:101-127 | an answer survives iff its finish reason is stop; the text always does |
| ResponsesWire.OutputAppend | internal/provider/openai-responses.go:104-108 | the output texts are run together in order |
| ResponsesWire.ResponseComesBack | internal/inbound/codec.go:492-528 | what any response, without or with choices, is after encoding and reading |
| Base64Url.B64uEncode | web/src/lib/webauthn.ts:57-62 | the loop and the three replacements compute the encoding of the bytes |
| Base64Url.B64uDecode | web/src/lib/webauthn.ts:64-71 | throws iff there is no decoding, else fills the array with it |
| Base64Url.BtoaIsPaddedSextets | web/src/lib/webauthn.ts:61 | section 4 of RFC 4648: six-bit groups spelled out, padded to a multiple of four |
| Base64Url.PaddingRestoresBtoa | web/src/lib/webauthn.ts:65-66 | un-swapping and re-padding an encoded text gives what btoa produced |
| Base64Url.DecodeEncode | web/src/lib/webauthn.ts:57-71 | decoding inverts encoding for every byte sequence |
| Base64Url.EncodeDecodeExactly | web/src/lib/webauthn.ts:57-71 | the encoder's outputs are exactly the canonical texts, and on these encoding inverts decoding |
| Billing.CostIsFloorOfHalf | internal/handler/billing.go:79-93 | the formula is half the dollar-per-million tokens times the ratio, rounded down |
| Billing.CostIsMonotone | internal/handler/billing.go:82-93 | cost is monotone in tokens, prices and ratio together |
| Billing.CostIsCapped | internal/handler/modelmeta.go:38 | under the admitted caps a token costs at most five million points |
| Billing.SplittingSavesLittle | internal/handler/billing.go:87-92 | n parts of a request cost at most the whole, and at least the whole less n - 1 points |
| Billing.Books.DeductQuota | internal/handler/billing.go:114-142 | both tables after a charge |
| Billing.Books.WriteGrant | internal/handler/subscriptions.go:92-98 | the row after the write of a grant whose read came earlier |
| Billing.ChargesAddUp | internal/handler/billing.go:110-142 | after any charges a row is at max(0, quota - taken) and its use has grown by all of them |
| Billing.AnyOrderOfCharges | internal/handler/billing.go:110-142 | permuting the charges of all requests changes no row |
| Billing.UnlimitedSurvivesExactly | internal/handler/billing.go:120-139 | after any charges and grants a row is unlimited iff it was so at the start or was made so by a grant, and no request that saw it finite was charged since |
| Billing.UnlimitedCanBeEmptied | internal/handler/billing.go:131-140 | a plan makes an account unlimited, and a request authenticated before empties it |
| Billing.PointsAreConserved | internal/handler/subscriptions.go:90-101 | quota plus grants equals what is left plus what was taken less the write-off, and never falls below zero |
| Billing.OverdraftIsWorstShortfall | internal/handler/billing.go:110-142 | the write-off is the worst shortfall of any prefix of charges and grants |
| Billing.GrantKeepsChargesExactly | internal/handler/subscriptions.go:60-98 | whatever charges and grants happen in between, a read-then-write grant equals an atomic one iff it adds nothing or the quota is what was read; for a finite row, iff top-ups and write-off make up for the charges |
| Billing.ChargeCanBeLost | internal/handler/subscriptions.go:60-98 | a charge in between is used but never paid for |
| Billing.TopUpCanBeLost | internal/handler/subscriptions.go:60-98 | a second grant in between is lost |
| Billing.AdmissionBoundsOverdraft | internal/handler/billing.go:95-108 | however admissions and charges interleave, an account with at most k requests in flight is served for less than its quota and k requests |
| Billing.ReportAgreesWithAdmission | internal/handler/proxy.go:461-474 | the quota endpoints report a limit above the use, or unlimited, iff the admission check lets the request in |
| Billing.ReportsTighterRow | internal/handler/proxy.go:461-474 | what is reported as left and used is the tighter finite row of user and key, or unlimited without one |
| Challenges.ChallengeStore.Put | internal/handler/passkey.go:52-73 | sweep, evict one of a full store, insert with two minutes to live |
| Challenges.ChallengeStore.Take | internal/handler/passkey.go:75-83 | the entry if still alive; gone afterwards in any case |
| Challenges.StoreIsBounded | internal/handler/passkey.go:62-70 | never more than 4096 entries in any run |
| Challenges.TakeSucceedsExactly | internal/handler/passkey.go:41-83 | a take succeeds iff the last operation on its key was a put less than two minutes ago, not evicted since, and yields that put's ceremony |
| Challenges.NoPutIsTakenTwice | internal/handler/passkey.go:75-83 | two successful takes took two different puts |
| Challenges.RefinesUnboundedMap | internal/handler/passkey.go:52-83 | the store answers as an unbounded map that is never swept, except for evicted keys; exactly so while it never fills up |
| ResetCodes.Latest | internal/handler/auth.go:401-403 | the row of the address with the latest creation time, if there is any |
| ResetCodes.CodeDesk.SendCode | internal/handler/auth.go:295-371 | the rows, accounts and status after a request for a code |
| ResetCodes.CodeDesk.ResetPassword | internal/handler/auth.go:376-455 | the rows, accounts and status after a reset attempt |
| ResetCodes.OneCodePerAddress | internal/handler/auth.go:343-356 | at most one row per address at any time |
| ResetCodes.TriesAreBounded | internal/handler/auth.go:413-429 | a code is compared wrongly at most five times and accepted at most once |
| ResetCodes.DiscardedWasUsedUp | internal/handler/auth.go:413-417 | only a code tried wrongly five times is deleted as used up |
| ResetCodes.KeptIsStored | internal/handler/auth.go:343-356 | a mailed code that was neither replaced, accepted nor deleted as used up is in the table until it lapses |
| ResetCodes.StoredWasMailed | internal/handler/auth.go:343-356 | every row is such a code |
| ResetCodes.CoolingDownExactly | internal/handler/auth.go:316-322 | the cooldown refuses iff such a code was mailed to the address less than a minute ago |
| ResetCodes.IssuedExactly | internal/handler/auth.go:316-356 | in every run a request makes a code iff its address is registered and no such code exists |
| ResetCodes.UsedUpCodeDoesNotCoolDown | internal/handler/auth.go:316-322 | after any run, a mailed code and six wrong tries, the next code is made at once |
| ResetCodes.RunHasHistory | internal/handler/auth.go:295-455 | the rows of every run of the handlers are those its sequence of code events leaves |
| ResetCodes.IssuedByRequest | internal/handler/auth.go:348-356 | each issued code is the one its request made |
| ResetCodes.AcceptedExactly | internal/handler/auth.go:401-429 | a reset is accepted iff well formed and its code is the last one mailed, within five minutes, not replaced, accepted or tried wrongly five times |
| ResetCodes.PasswordChanges | internal/handler/auth.go:431-452 | a request changes a password only with an accepted code or as an administrator's reset, and then ends all sessions of that account |
| ResetCodes.AcceptedResetTakesEffect | internal/handler/auth.go:431-455 | an accepted code gives the oldest account of the address the new password and ends its sessions if it is active, else answers 403; all other accounts, sessions and keys stay, and the codes of the address go |
| ResetCodes.RefusedResetChangesNothing | internal/handler/auth.go:376-429 | any other reset changes no account and no session |
| ResetCodes.MailedCodeResets | internal/handler/auth.go:401-452 | in every run the code last mailed to an address, within five minutes and neither replaced, accepted nor used up, sets the password |
| ResetCodes.ResetSignsIn | internal/handler/auth.go:446-452 | after a reset in any run in which names are apart, the account's name signs in with exactly the new password |
| ResetCodes.TryIsRecorded | internal/handler/auth.go:405-429 | each well-formed try at a stored code is recorded as lapsed, used up, wrong or accepted, by its age and the tries its row counts |
| ResetCodes.SendAnswersExactly | internal/handler/auth.go:316-371 | which request for a code is answered how; an unregistered address is answered like a delivery |
| ResetCodes.EveryResetHasItsMail | internal/handler/auth.go:373-455 | behind every password changed by a reset in a run there is a request that mailed that code to that account's address at most five minutes before |
| Accounts.First | internal/handler/auth.go:205-209 | the matching row with the smallest id |
| Accounts.Caller | internal/middleware/session.go:36-57 | a session stands only for the virtual administrator or an existing active account |
| Accounts.Server.HandleSetup | internal/handler/setup.go:176-274 | tables and status after setup |
| Accounts.Server.HandleRegister | internal/handler/auth.go:111-180 | tables and status after registration |
| Accounts.Server.HandleCreate | internal/handler/admin.go:68-151 | tables and status after an administrator creates an account |
| Accounts.Server.HandleLogin | internal/handler/auth.go:183-231 | tables and status after a login |
| Accounts.Server.HandlePasskeyLogin | internal/handler/passkey.go:399-422 | tables and status after a passkey login |
| Accounts.Server.HandleAdminKey | internal/handler/auth.go:234-260 | a session of the virtual administrator |
| Accounts.Server.HandleLogout | internal/handler/auth.go:263-278 | the session is gone |
| Accounts.Server.StartSession | internal/handler/auth.go:515-533 | a session row unless its digest is taken |
| Accounts.Server.CheckSession | internal/middleware/session.go:34-75 | the caller, and the removal of a lapsed session |
| Accounts.Server.HandleUpdateRole | internal/handler/admin.go:209-260 | tables and status after a role change |
| Accounts.Server.HandleUpdateStatus | internal/handler/admin.go:315-374 | tables and status after enabling or disabling |
| Accounts.Server.HandleResetPassword | internal/handler/admin.go:411-446 | tables and status after an administrator's password reset |
| Accounts.Server.HandleDelete | internal/handler/admin.go:450-497 | tables and status after a deletion |
| Accounts.Server.ApplyReset | internal/handler/auth.go:431-454 | tables and status after an accepted code |
| Accounts.Server.HandleCreateToken | internal/handler/tokens.go:118-190 | an API key belongs to the authenticated account |
| AccountSafety.EffectOf | internal/handler/admin.go:209-497 | every handler has one of eight effects under its guard |
| AccountSafety.StepKeepsAdmin | internal/handler/admin.go:241-252 | each step leaves an active administrator if there was one |
| AccountSafety.AdminForever | internal/handler/admin.go:207-208 | so does every run |
| AccountSafety.SetupOnce | internal/handler/setup.go:173-184 | once setup succeeded it is refused for ever |
| AccountSafety.ClosedSetupHasAdminExactly | internal/handler/setup.go:90-97 | setup is closed without an active administrator after a step iff that step promoted a disabled account as the first administrator |
| AccountSafety.SetupCanCloseWithoutAdmin | internal/handler/setup.go:90-97 | from an empty instance: create, disable, promote closes setup with nobody active |
| AccountSafety.RunKeepsOwners | internal/handler/admin.go:467-495 | in every run sessions belong to existing active accounts (or the virtual one) and API keys to existing accounts |
| AccountSafety.SessionIsNeverStale | internal/handler/auth.go:451-452 | ever since a session was started its owner has existed, been active and had the same password |
| AccountSafety.StepKeepsNamesApartExactly | internal/handler/auth.go:165-172 | every step keeps names and addresses apart, except exactly a setup that passes its checks with a name or address that is taken up to case |
| AccountSafety.SetupCanTakeAnAddress | internal/handler/setup.go:263-274 | from an empty instance: create and setup leave two accounts with one address |
| AccountSafety.RunKeepsNamesApart | internal/handler/auth.go:165-172 | in every run no two accounts share a name or address at any moment iff no setup of the run is such a one |
| AccountSafety.LoginIsUnambiguous | internal/handler/auth.go:206-209 | then a name or address signs in to at most one account |
| AccountEffects.LoginOpensExactly | internal/handler/auth.go:199-231 | a login opens a seven-day session iff its digest is free and the oldest account of that name or address is active with exactly the given password; else it changes nothing |
| AccountEffects.LoginRefusals | internal/handler/auth.go:209-227 | how a login to that account is answered |
| AccountEffects.PasskeyOpensExactly | internal/handler/passkey.go:399-422 | a passkey opens a session of its account iff it is verified and the account is active |
| AccountEffects.AdminKeyOpensExactly | internal/handler/auth.go:234-260 | the bootstrap key opens a session of the virtual administrator iff one is configured and exactly it is given |
| AccountEffects.StandsExactly | internal/middleware/session.go:34-57 | a session stands for its user iff it has not lapsed and the user is active |
| AccountEffects.UsersAfter | internal/handler/admin.go:209-497 | for every operation, each account afterwards: only the accepted operation about it changes it |
| AccountEffects.SessionsAfter | internal/handler/auth.go:183-278 | for every operation, each session afterwards: what ends it, and exactly what opens it |
| AccountEffects.KeysAfter | internal/handler/tokens.go:118-190 | for every operation, the owner of each API key afterwards |
| AccountEffects.CreatingAnswers | internal/handler/auth.go:111-180 | how setup, registration and creation are answered |
| AccountEffects.AdministrationAnswers | internal/handler/admin.go:209-497 | 200 iff let through, 404 iff there is no such account, 409 iff it would hit the caller or the last active administrator |
| AccountEffects.PasswordAnswers | internal/handler/admin.go:411-446 | how a password reset is answered |
| AccountEffects.SessionHasItsCause | internal/handler/auth.go:515-533 | behind every session of a run is the request that opened it with what it takes, seven days before it lapses; a password given then is still the password of the account, which is still active |
| AccountEffects.NameSignsInExactly | internal/handler/auth.go:205-227 | while names are apart an active account's name signs in with exactly its password |
| AccountEffects.NewAccountSignsIn | internal/handler/auth.go:155-180 | so does the name of a registered or created account, with the password it was given |
| AccountEffects.NewPasswordSignsIn | internal/handler/admin.go:434-446 | after a change of password no session is left and exactly the new one signs in |
| AccountEffects.NoSessionLeft | internal/handler/admin.go:361-372 | a disabled, deleted or reset account has no session left |
| AccountEffects.LockedOut | internal/handler/auth.go:216-219 | nobody signs in to a disabled or deleted account |

## Left out

- RateLimit.BudgetHolds: for runs whose sweeps drop no young hit, because the budget is not safe otherwise.
- Fleet.BoundedStaleness: the promised bound plus twice the longest reload, because a reload is not atomic; with instant reloads it is the promised one.
- GroupRefs.Database.GrantSubscription: the subscription row is not modelled, and the quota write is `Billing.Books.WriteGrant`.
- Accounts.Server.HandleSetup: usage mode, site name, passkey and mail settings, whose refusals change nothing, and Turnstile.
- Accounts.Server.HandleRegister: Turnstile.
- Accounts.Server.HandleLogin: Turnstile.
- Accounts.Server.HandleAdminKey: Turnstile.
- Accounts.Server.HandleCreate: the caller's role, and the group, role and quota checks, whose refusals change nothing; the group check is `GroupRefs.Database.CreateUser`.
- Accounts.Server.HandlePasskeyLogin: WebAuthn verification is a parameter, and sign counts are not modelled.
- Accounts.Server.HandleCreateToken: the name, group and subnet checks, whose refusals change nothing; the group check is `GroupRefs.Database.CreateToken`.
- Accounts.Server.CheckSession: the bootstrap key as a bearer token, which is tried when there is no session.
- LIKE folds ASCII case only, and `=` on names is exact: MySQL's collation and trailing-space rules are not modelled.
- Column sizes (a rewritten list can outgrow 256 characters) and database errors in the middle of a cascade; a failed LIKE query, which skips the channel rewrite silently, is one.
- The gateway's adapter pool on other instances keeps old credentials until their own invalidation: no claim is made about it.
- `ChatStream` and `Models`: the stream variant selects and fails over as `Chat` does.
- The cross-format stream path, log rows, metrics, sensitive-word filters, model whitelists and subnets of API keys.
- `expireDue` and `Cancel`: they change the status of a subscription and nothing else that is modelled.
- The one-minute price cache: a price is a parameter.
- float64 rounding of costs and int64 width of quotas.
- Foreign keys, which some databases enforce between API keys and users.
- Authorisation layers in front of the admin handlers, cookies, SMTP settings, random code generation.
- Expiry of sessions at server start, and lists, paging and masks of the console.
- UTF-8 decoding of stream chunks in the browser: chunks are decoded texts.
