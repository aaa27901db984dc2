# A verified model of the gateway's control logic

These files model, in Dafny, the parts of the gateway that hold state and decide:
which requests are admitted, what is sent upstream, and what is remembered. Each
file follows one component of the program.

| file | component |
|---|---|
| `SlidingWindow.dfy` | time-stamped marks, the load of a window at any position, and pruning; shared by both limiters |
| `KeyQuota.dfy` | per-key and per-user quota: daily totals, requests and tokens per minute, concurrency, leases |
| `Throttle.dfy` | login throttling in a bounded table with two-phase eviction |
| `Inflight.dfy` | untagged in-flight leases with a time to live |
| `Endpoints.dfy` | the two-layer lease protocol of a request from admission to the end of its body |
| `Compress.dfy` | context trimming: estimate, atomic tool-call groups, longest suffix, last-resort truncation |
| `ModelMerge.dfy`, `PublicIds.dfy`, `AliasTable.dfy`, `Catalogue.dfy` | merging provider tables, unique public ids, the alias table, custom aliases |
| `Affinity.dfy` | conversation stickiness: fingerprint chains, expiry, least-recently-used eviction |
| `Continuation.dfy` | stitching truncated upstream streams into one |
| `ModelRefresh.dfy` | back-off and stale-while-revalidate for model tables |
| `RuntimeSettings.dfy` | typed settings, all-or-nothing batches, the override map |
| `Tags.dfy` | credential tags and their text form |
| `Text.dfy`, `Selections.dfy`, `Sets.dfy`, `Options.dfy` | stripping, splitting and joining; filters in positions; cardinalities; optional values |

## How the model is built

An object that the program updates in place is a class whose methods carry the same
loops and branches. Each method is proved against a function or predicate on values,
and the theorems are about those: about one step, about every sequence of steps
(`Exec`, `Behaves`, `History` with a non-decreasing clock), or about the relation
between a fast form and a plain one. Histories are kept separately from the state, so
that a statement such as "at most eight failures in any minute" is about what
happened and not about what the table happens to remember.

* Clocks are explicit arguments of type `real`. A window is half-open: `(t - width, t]`.
* Token weights are exact reals (0.55, 0.33, 0.25).
* Digests are free constructors, that is, a hash without collisions.
* Python's `str.lower`, the model-name normalisation, the parsing and printing of
  numbers and the webhook address check are function parameters. The laws used of
  them are the predicates `Naming.Lawful` and `Rules.Lawful` (for numbers: printing
  and parsing again one that some text stands for); case folding in tags needs no
  law at all.
* The upstream of a continued stream is an arbitrary function of the call number and
  the request body. Daily usage is part of the request: absent, failing, or a total.
* Sets that the program iterates in an unspecified order are sets here, and the
  contracts hold for every order.

## Where the code and its documentation differ

The model follows the code.

* `src/engine/inflight.py:77-84`: the comment describes first-in first-out; the code
  pops the newest lease. `NeverOvercounts` depends on that, `UndercountExample` is the
  price, `ReadingFormula` says what a reading reports instead, and `ReadingIsFairIff`
  exactly when that is the number of requests younger than the TTL.
* `src/api/admin_auth.py:269-275`: a password change is checked before its hash and its
  failure is recorded after it without another check, so the limits that the throttle
  documents can be exceeded by the number of pending changes (`FailuresPerWindow`,
  `CapsKeptIff`, `PendingChecksOvershoot`). It may also fill the table with keys that
  still have failures; `ChecksDecideOnHistory` shows that no check notices.
* `src/api/model_merge.py:447-461`: documented so that a public id leads to its model's
  raw id; a later entry of the same provider may take the name over (`FinishedIdsRoute`,
  `PublicIdCanBeShadowed`).
* `src/engine/compress.py:163-175`: truncating 8001 to 8021 characters can raise the
  estimate, since the marker itself weighs 5.35 tokens. `TruncationShrinksIff` and
  `SafeLengths` give the exact conditions.
* `src/engine/compress.py:186-187`: documented to stop at the first candidate without
  gain; the code goes on to the next one.
* `src/engine/continuation.py:96-109`: the finish reason is not reset between rounds
  (`SilentRoundIsContinued`). `_usage_is_empty` treats reported zeros like missing
  values.
* `src/runtime_settings.py:590-596`: a batch that only resets one end of the pacer pair
  is not compared with the other end (`OrderAfterBatch`, `ResetCanDisorder`).
* `src/key_quota.py:62-74`: limits are documented as off when zero or less; the code
  takes every non-zero limit as on. The loader rejects negative ones, so the theorems
  cover all values.
* `src/api/endpoints.py:151-178`: documented to count only when both layers agree; a
  refusal of the user layer returns the key's slot but leaves the mark in the key's
  window.
* `src/api/endpoints.py:196-202`: documented to release on disconnection; the cleanup of
  a generator that was never entered does not execute, so a streaming body that is
  closed before its first frame keeps its leases. The same would hold if a translator
  raised between admission and the response; the two translators in use
  (`src/compat/anthropic/response.py:93`, `src/compat/responses/response.py:120`) only
  assign fields, so that branch is hypothetical. `Gateway.stranded` names these requests.
* `src/engine/affinity.py:205-208`: the user name keeps users apart unless one name
  continues another with the separator and the beginning of a key
  (`PinsAreJustified`, `TangledNamesLeak`).

## Model

| member | source | states |
|---|---|---|
| SlidingWindow.PrunedTotal | src/key_quota.py:280-290 | For a time-sorted history, the cost sum of the pruned queue is the load of the complete history in the window ending now, whatever was popped earlier. |
| SlidingWindow.PrunedCount | src/auth/throttle.py:47-53 | The length of the pruned queue is the number of history marks in the window ending now. |
| SlidingWindow.AppendCapped | src/key_quota.py:236-246 | If every window position is within the cap and the window ending at a new mark has room for it, then every position of the window stays within the cap once the mark is added. |
| KeyQuota.RequestsPerWindow | src/key_quota.py:227-250 | In every run under a non-decreasing clock, any window of any position holds at most rpm counted admissions of a key. |
| KeyQuota.TokensPerWindow | src/key_quota.py:227-250 | In every run, the token estimates admitted for a key in any window position sum to at most its tpm. |
| KeyQuota.InflightWithinLimit | src/key_quota.py:243-257 | In every run, a key whose requests all carry a concurrency limit never has more than that many requests in flight. |
| KeyQuota.RunTracks | src/key_quota.py:280-290 | After every run the stored queue is time-sorted, is the history minus marks that can no longer be in a window, and is never stored empty. |
| KeyQuota.DecidesOnHistory | src/key_quota.py:227-250 | The decision taken on the pruned queue and counters is, both ways, the decision the complete admission history gives: admitted iff every configured limit still has room. |
| KeyQuota.VerdictOnHistory | src/key_quota.py:227-278 | The whole decision table on the complete history, in order: everything off, a failing daily query, each daily total that has reached its limit, then requests, tokens and concurrency, with the reason given for each. |
| KeyQuota.AdvertisedWait | src/key_quota.py:259-298 | The advertised wait: whole seconds that do not pass the end of the day, and the fewest whole seconds until the oldest mark is out of the window; never less than one. |
| KeyQuota.AdmissionEffect | src/key_quota.py:227-250 | A counted admission passed both window tests and appended exactly one mark of its key; every other outcome leaves the queues as they were or pruned. |
| KeyQuota.AdmissionKeepsRequestCap | src/key_quota.py:236-240 | One counted admission keeps the request cap of every window position. |
| KeyQuota.AdmissionKeepsTokenCap | src/key_quota.py:241-246 | One counted admission keeps the token cap of every window position. |
| KeyQuota.RetryPassesExactlyWhen | src/key_quota.py:293-298 | For request and token refusals alike, exactly when the same request passes after the advertised wait with nothing admitted meanwhile: when the marks that have left the window make room (and the concurrency limit does); the oldest mark always leaves. |
| KeyQuota.Lease.Release | src/key_quota.py:154-169 | Release is idempotent: the first call of a counted lease returns one slot, any other call changes no count; the guard counts stay exact. |
| KeyQuota.KeyQuotaGuard.Prune | src/key_quota.py:280-290 | The popping loop leaves the marks after the cutoff and deletes the key when none is left. |
| KeyQuota.KeyQuotaGuard.WindowUsage | src/key_quota.py:194-198 | Reports number and token sum of the pruned queue. |
| KeyQuota.KeyQuotaGuard.Admit | src/key_quota.py:204-278 | Verdict, retry time and new state are those of the admission function, for every refusal reason and for the fail-open path; an admitted request gets a fresh lease and only a counted one becomes outstanding. |
| KeyQuota.KeyQuotaGuard.Register | src/key_quota.py:247-250 | Books mark and slot; every key still has exactly as many slots as outstanding leases. |
| KeyQuota.AfterRelease | src/key_quota.py:252-257 | One slot of the key is returned if it has any, other keys and all queues stay, and a key without slots is not stored. |
| KeyQuota.KeyQuotaGuard.ReleaseSlot | src/key_quota.py:252-257 | Returns one slot, dropping the key at zero; every key still has exactly as many slots as outstanding leases. |
| Throttle.FailuresPerWindow | src/api/admin_auth.py:208-275 | In every run of logins and password changes, any window position holds at most the capped number of recorded failures overall, per address, and per account since its last success, plus the number of password changes that were ever pending on that key at once, however many those are and in spite of eviction. |
| Throttle.LoginFailuresPerWindow | src/api/admin_auth.py:208-217 | In every run without password changes the caps themselves hold. |
| Throttle.ShippedLimits | src/auth/throttle.py:23-28 | For the shipped limits: at most 40 failures in any minute, 8 of an address, 5 of an account since its last success. |
| Throttle.CapsKeptIff | src/api/admin_auth.py:208-275 | Exactly the runs in which every window stays within its cap after every step: those in which each failure that is recorded without a check would have passed the check at that moment. |
| Throttle.RecordKeepsCapsIff | src/api/admin_auth.py:269-275 | One step of it: a failure recorded without a check keeps every window within its cap iff the check, repeated at that moment, would have let it pass. |
| Throttle.PendingChecksOvershoot | src/api/admin_auth.py:269-275 | Runs in which any given number of password changes are checked before they fail, and all count in one window of everyone, the address and the account: the caps alone are false of the code. |
| Throttle.TableStaysBounded | src/auth/throttle.py:55-75 | Between operations of every run the table holds at most 4096 keys, for all limits and any number of pending password changes. |
| Throttle.RunTracks | src/auth/throttle.py:47-118 | After every run, with any number of pending changes: every queue is the newest part of its history, the global window is complete, and of every other key nothing is missing that a later check can come to look at. |
| Throttle.RunKeepsInvariant | src/auth/throttle.py:47-118 | In addition every window is within its budget with room for the pending changes, and the table is bounded. |
| Throttle.ChecksDecideOnHistory | src/auth/throttle.py:77-88 | In every run a check refuses iff a window of the complete failure history is full: no eviction, of stale keys or of the oldest ones, is ever seen by a check. |
| Throttle.EvictionTracks | src/auth/throttle.py:55-75 | Either phase of eviction loses nothing a check can come to look at: while the global window is open, a dropped key has no failure left in its window, since otherwise the kept keys alone would be more than its failures can touch. |
| Throttle.EvictionIsLossless | src/auth/throttle.py:55-75 | As long as the global window, with the failures above its cap, cannot fill the table, eviction keeps every key with a live failure unchanged. |
| Throttle.FewLiveKeys | src/auth/throttle.py:64-70 | The global window alone bounds the number of keys that are not stale: twice its cap and the failures above it, plus one. |
| Throttle.ShippedTable | src/auth/throttle.py:23-28 | With the shipped limits that is 81 keys, and up to 2007 failures above the cap cannot fill the table. |
| Throttle.RefusesExactlyWhenFull | src/auth/throttle.py:77-88 | The check refuses iff one of the windows the failure would count under is full in the complete failure history. |
| Throttle.RecordKeepsCaps | src/api/admin_auth.py:214-217 | A wrong password that passed the check and is recorded afterwards leaves every window of every key within its cap. |
| Throttle.LoginThrottle.Prune | src/auth/throttle.py:47-53 | The popping loop leaves the marks after the cutoff; an emptied queue keeps its key. |
| Throttle.LoginThrottle.CheckTransportWindows | src/auth/throttle.py:90-105 | Refuses iff the global or the address window is full; trims only those two. |
| Throttle.LoginThrottle.Check | src/auth/throttle.py:77-88 | Refuses iff the global, address or (for a non-empty name) account window is full after trimming all three; the step with which a password change begins. |
| Throttle.LoginThrottle.OldestKey | src/auth/throttle.py:71-73 | Finds a key other than the global one with the least recent last failure. |
| Throttle.LoginThrottle.DropOldest | src/auth/throttle.py:68-75 | Drops exactly the surplus, and every dropped key failed no later than every kept one; never the global key. |
| Throttle.LoginThrottle.EvictOverCapacity | src/auth/throttle.py:55-75 | Two-phase eviction: nothing below capacity, then stale keys, then the least recently failed surplus. |
| Throttle.LoginThrottle.RecordFailure | src/auth/throttle.py:107-113 | One mark for everyone, the address and a non-empty account, followed by eviction, without any check; the step with which a failed password change ends. |
| Throttle.LoginThrottle.RecordSuccess | src/auth/throttle.py:115-118 | Forgets the account and nothing else. |
| Throttle.LoginThrottle.WrongPassword | src/api/admin_auth.py:214-217 | Check and record as one step of a run: recorded iff not refused. |
| Inflight.NeverOvercounts | src/engine/inflight.py:54-84 | After any interleaving of acquisitions, releases of any outstanding request and pruning reads, the count is at most the number of outstanding requests younger than the TTL. |
| Inflight.RunTracks | src/engine/inflight.py:54-84 | The invariant behind it: aligned at the newest end, every stored start time is at most the real one, for every interleaving. |
| Inflight.PopTracks | src/engine/inflight.py:77-84 | Popping the newest stored start keeps that domination whichever outstanding request really ended. |
| Inflight.ExactWhileNothingExpires | src/engine/inflight.py:54-84 | In every run with matched releases, as many leases are stored as requests are in flight after every prefix iff no acquisition or reading finds a lease of the credential too old. |
| Inflight.ExactIffItPauses | src/engine/inflight.py:54-84 | The same condition on the requests alone: as many leases are stored as requests are in flight throughout iff the credential is never used or asked about when it has been busy without a pause for the TTL. |
| Inflight.ReadingFormula | src/engine/inflight.py:54-84 | In every run with matched releases a reading is the number of requests in flight less the least number that were in flight at any moment of the last TTL. |
| Inflight.ReadingIsFairIff | src/engine/inflight.py:54-84 | A reading equals the number of requests younger than the TTL iff at some moment of the last TTL nothing was in flight but the requests that have been running all along. |
| Inflight.ReadingIsExactIff | src/engine/inflight.py:66-68 | A reading equals the number of all requests in flight iff at some moment of the last TTL none was. |
| Inflight.QuietestIsLeast | src/engine/inflight.py:54-84 | The number subtracted is at most what was in flight at any moment of the last TTL ... |
| Inflight.QuietestIsReached | src/engine/inflight.py:54-84 | ... and is the number in flight at one such moment. |
| Inflight.OldestStaysFirst | src/engine/inflight.py:70-84 | Since releases pop the newest lease, the oldest stored start is the beginning of the present busy period. |
| Inflight.UndercountExample | src/engine/inflight.py:77-84 | A concrete run in which popping the newest start under-counts once the older one expires. |
| Inflight.BlockedMeansBusy | src/engine/inflight.py:111-116 | A credential is reported full only when that many requests really have been running for less than the TTL. |
| Inflight.YoungIsSuffix | src/engine/inflight.py:54-64 | In an ascending list the leases younger than the TTL are exactly a suffix. |
| Inflight.InflightTracker.Live | src/engine/inflight.py:54-64 | The filter loop; an empty list is deleted rather than stored. |
| Inflight.InflightTracker.Count | src/engine/inflight.py:66-68 | The number of live leases, with pruning as the only side effect. |
| Inflight.InflightTracker.Acquire | src/engine/inflight.py:70-75 | Prunes, then appends the current time. |
| Inflight.InflightTracker.Release | src/engine/inflight.py:77-84 | Removes the newest lease; without leases nothing happens. |
| Inflight.InflightGuard.Blocked | src/engine/inflight.py:111-116 | Unlimited for limits of zero or less, without touching the tracker; otherwise blocked iff the live count has reached the limit. |
| Endpoints.Gateway.AdmitBoth | src/api/endpoints.py:151-178 | Key layer first, and only what it admits reaches the user layer; every refusal leaves both guards with the leases they had, and a user-layer refusal returns the key slot but keeps the mark in the key window. |
| Endpoints.Gateway.Open | src/api/endpoints.py:87-148 | The outcome for every combination of verdicts and failures; refusals and a failed preflight leave both layers with the leases they had, an opened request holds one lease pair, a failing translator strands it. |
| Endpoints.Gateway.GiveBack | src/api/endpoints.py:181-193 | The combined release returns both layers, and the remaining requests account for all leases of both guards. |
| Endpoints.Gateway.Complete | src/api/endpoints.py:140-148 | A completion returns both leases whether it ends with a result or an exception. |
| Endpoints.Gateway.Defer | src/api/streaming.py:95-138 | A completion turned into a keep-alive body keeps owing its leases. |
| Endpoints.Gateway.Pull | src/api/endpoints.py:196-202 | A stream that ends or raises while being read returns both leases. |
| Endpoints.Gateway.Abort | src/api/endpoints.py:196-202 | Closing a body that was entered returns both leases; closing one that was never pulled strands them. |
| Endpoints.Gateway.Quiescent | src/api/endpoints.py:181-202 | Once every request has finished, the in-flight counts of both layers are exactly the stranded leases, hence zero without those. |
| Compress.EstimateTokens | src/engine/compress.py:53-63 | The counting loop computes the weighted sum 0.55/0.33/0.25 over the characters. |
| Compress.TokensByKind | src/engine/compress.py:47-63 | The weight of a text is 0.55 for each character in the CJK ranges, 0.33 for each other digit and 0.25 for each other character. |
| Compress.EstimateWeighsAllText | src/engine/compress.py:66-153 | The estimate of a list is the weight of all its texts, that is contents, text parts, reasoning, tool names, arguments and call ids, plus a quarter of the length of every image address. |
| Compress.TruncationShrinksIff | src/engine/compress.py:163-175 | Truncation never raises the estimate iff the removed middle weighs at least the marker (5.35); 22 removed characters of any kind do, and then text and estimate really shrink. |
| Compress.SafeLengths | src/engine/compress.py:163-175 | The lengths for which truncation is never more expensive, whatever the text, are exactly those of at least 8022. |
| Compress.TruncatedCost | src/engine/compress.py:163-175 | Only text-only content over 8000 characters changes; from 8022 characters on the message gets no more expensive; truncated content has at most 8013 characters. |
| Compress.CandidatesEffect | src/engine/compress.py:189-193 | The candidates are exactly the non-system positions, by descending length of the content text, ties in list order. |
| Compress.TruncateToBudget | src/engine/compress.py:178-206 | The loop with an incrementally updated total computes what re-estimating the whole list before each truncation computes; its total always equals the recomputed estimate. |
| Compress.LastResort | src/engine/compress.py:178-206 | On exit system messages are unchanged, other messages are unchanged or truncated once, and either the budget is met or all were visited and text-only content is at most 8013 characters. |
| Compress.TruncateAllEffect | src/engine/compress.py:194-206 | The same for any list of distinct candidates. |
| Compress.TruncatesNoMore | src/engine/compress.py:194-206 | Truncation stops as soon as the budget is met: exactly the first j candidates are truncated, the list with fewer of them truncated is over the budget, and if candidates are left the budget is met. |
| Compress.CandidatesAreDistinct | src/engine/compress.py:189-193 | No position is a candidate twice, so the two statements above hold of the list of candidates. |
| Compress.GroupAt | src/engine/compress.py:213-228 | The inner loop: an assistant message with calls takes all tool messages that directly follow, any other message stands alone. |
| Compress.GroupAtomic | src/engine/compress.py:209-229 | The index loop computes the grouping. |
| Compress.FlattenGroups | src/engine/compress.py:209-229 | Grouping loses, repeats and reorders nothing. |
| Compress.GroupsAreNonEmpty | src/engine/compress.py:209-229 | No group is empty. |
| Compress.ChooseStart | src/engine/compress.py:259-272 | The backward loop stops at a cut: the kept groups are exactly those that may stay. |
| Compress.FitsIsUpward | src/engine/compress.py:259-272 | Whenever a group may stay, every newer group may stay, so the kept ones form a suffix. |
| Compress.CutIsTight | src/engine/compress.py:259-277 | Before truncation the kept part fits the budget or dropping its oldest group leaves fewer than the minimum; and if anything was dropped, the minimum is kept and the next older group would exceed the budget. |
| Compress.CutIsUnique | src/engine/compress.py:259-277 | There is exactly one such cut, so these conditions determine the result. |
| Compress.TrimToBudget | src/engine/compress.py:232-279 | The loops compute a trim: system messages, then the body from the cut on, then the last resort; `TrimInPositions` says in positions of the input what that is. |
| Compress.CompressMessages | src/engine/compress.py:282-302 | Unchanged without an input limit, with a non-positive budget or when it already fits; otherwise a trim. |
| Compress.TrimKeepsSystemAndSuffix | src/engine/compress.py:249-279 | The list of system messages comes first, unchanged, then exactly a suffix of the list of the others in which only contents may be truncated. |
| Compress.TrimInPositions | src/engine/compress.py:249-279 | In positions of the input: there are increasing lists of exactly the positions of system messages and of the others; the result is the messages at all the former, in order, followed by those at the latter from the cut on, each unchanged or truncated. |
| Compress.BoundaryKeepsRuns | src/engine/compress.py:209-229 | No group boundary falls between an assistant message with calls and the tool messages that follow it. |
| Compress.GroupsStartOutsideRuns | src/engine/compress.py:209-229 | A group begins exactly where no tool message of a headed run stands, so grouping neither splits runs nor joins anything else. |
| Compress.TrimKeepsToolRuns | src/engine/compress.py:232-279 | If every tool message of the body belongs to a run headed by an assistant with calls, the same holds of what is sent. |
| ModelMerge.Placements | src/api/model_merge.py:237-242 | One placement for each model of a table, in order, under its merge key. |
| ModelMerge.MergeAllIsMerge | src/api/model_merge.py:214-264 | After merging any sequence of tables: which keys exist, providers = keys of raw ids = keys of provider metadata, the raw id kept per provider, and which providers are keyed by name, as statements about all placements. |
| ModelMerge.ModelsAreRepresented | src/api/model_merge.py:214-264 | Every visible model is represented by its provider under its merge key, and by its own raw id unless a later model of the same provider shares the key. |
| ModelMerge.MergeKeyRules | src/api/model_merge.py:151-211 | The key of every model of a table: scoped to the provider iff it has no name, a sentinel name, or a name it shares and that no id of the table has; else its name if no other model of the table has it, else its id; and by name only in the second case. |
| ModelMerge.MergedIff | src/api/model_merge.py:151-211 | Models of two providers are merged iff neither is kept apart and they go by the same key. |
| ModelMerge.LabelsAreShown | src/api/model_merge.py:248-252 | The names collected by an entry are exactly the non-empty ones shown for its models. |
| ModelMerge.ProviderMetaIsLast | src/api/model_merge.py:257-259 | For each of its providers an entry keeps every field of the model placed last. |
| ModelMerge.ScopedEntriesAreSingle | src/api/model_merge.py:151-211 | Sentinel names and unresolved duplicate names are never merged across providers: a scoped entry has exactly one provider. |
| ModelMerge.MetaIsFirstFilled | src/api/model_merge.py:245-264 | Each metadata field is the first non-blank value in merge order; later providers only fill gaps. |
| ModelMerge.FirstFilledIsFirst | src/api/model_merge.py:245-264 | That value is the one of the first placement under the key whose field is not blank. |
| ModelMerge.DecimalSpells | src/api/model_merge.py:330-335 | A suffix number is written in decimal digits without leading zeros that stand for it. |
| ModelMerge.DecimalInjective | src/api/model_merge.py:330-335 | Hence different suffix numbers are written differently. |
| PublicIds.FirstProvider | src/api/model_merge.py:344-345 | The first provider in sorted order. |
| PublicIds.Representative | src/api/model_merge.py:280-300 | A shortest display name, ties between several providers broken by the lower-cased text. |
| PublicIds.Finalize | src/api/model_merge.py:267-303 | Public id and name of a finished entry: normalised shortest name, or the normalised raw id for scoped and nameless entries of one provider. |
| PublicIds.ShownUnder | src/api/model_merge.py:267-303 | The name of a finished entry is a shortest one among the names of its models, and with several providers the first of the shortest, ignoring case. |
| PublicIds.NamedIsPublishedUnderKey | src/api/model_merge.py:267-303 | An entry whose models all go by their name is published under the key they were merged by, whichever of the names is shown. |
| PublicIds.IsolatedIsPublishedUnderRawId | src/api/model_merge.py:296-301 | An entry that was kept apart has one provider and is published under the normalised raw id it has there. |
| PublicIds.NamelessTakesRawId | src/api/model_merge.py:280-303 | An entry none of whose models has a name is published under the normalised raw id of its first provider. |
| PublicIds.UniqueSuffix | src/api/model_merge.py:330-335 | Terminates with a free id within one try more than there are taken ids, and picks the least free number. |
| PublicIds.Choose | src/api/model_merge.py:318-327 | The first free candidate of finished id, normalised raw id, that with the provider name, else the least free suffix. |
| PublicIds.Disambiguate | src/api/model_merge.py:306-327 | Every entry gets the id its predecessors left for it and keeps everything else. |
| PublicIds.DisambiguatedIdsAreDistinct | src/api/model_merge.py:306-327 | Afterwards all public ids are pairwise distinct ignoring case. |
| PublicIds.UnusedIdIsKept | src/api/model_merge.py:306-327 | An entry keeps its finished id iff it is non-empty and no earlier entry ended up with it; no public id is empty. |
| AliasTable.RegisterEntry | src/api/model_merge.py:464-484 | The registration loop writes exactly the names of the entry, for exactly its providers. |
| AliasTable.RegisterAliases | src/api/model_merge.py:447-461 | The table is built entry by entry. |
| AliasTable.RegisteredIsLast | src/api/model_merge.py:447-484 | A name is in a provider's table iff some entry of that provider claims it, and it leads to the raw id of the last such entry. |
| AliasTable.PublicIdRoutes | src/api/model_merge.py:447-484 | Every public id can be routed to each of its providers; it reaches its own raw id if no later entry of the provider with another raw id has that name as raw id or display name, and only then when raw ids differ between entries. |
| AliasTable.AliasesAreConservative | src/api/model_merge.py:372-444 | For every alias list: existing entries and mappings unchanged, ids still distinct, each added entry leads on each of its providers to the raw id of the real entry its alias means, pinned aliases only on the pinned provider, and nothing else is new. |
| AliasTable.AcceptedStandsFor | src/api/model_merge.py:372-393 | The entry of an accepted alias is a copy, under the alias name, of the real entry the alias means: the first one that has the stripped model text, in any case, as public id, display name or raw id. |
| AliasTable.AcceptsIffWelcome | src/api/model_merge.py:350-434 | An alias is accepted iff its name has no @ and is neither an id nor in a table, it means some real entry, and the provider it is pinned to has that entry; the entry it means is the target found. |
| AliasTable.AliasReachesItsModel | src/api/model_merge.py:396-444 | For every alias of every list: if it is welcome when its turn comes, the finished list has an entry that stands for the real entry it means and the final table leads from its name to that entry's raw id at each of its providers; otherwise it adds nothing. |
| AliasTable.FreshNameIsFree | src/api/model_merge.py:412-434 | An alias name that no real entry, no table and no earlier alias has is still free when its turn comes. |
| AliasTable.InjectStep | src/api/model_merge.py:412-444 | One alias, accepted or skipped, keeps the extension conservative. |
| Catalogue.FinishedIdsRoute | src/api/model_merge.py:447-502 | In a finished catalogue of tables that list each id once, a public id reaches its own model at a provider iff no later entry has that name there as raw id or display name. |
| Catalogue.MergedRawIdsDiffer | src/api/model_merge.py:214-264 | Merging keeps the raw ids of a provider apart: no two entries have the same one. |
| Catalogue.PublicIdCanBeShadowed | src/api/model_merge.py:267-484 | The failing family, in the order of the sorted keys: of a model published under an id that is the raw id of a sentinel-named model of the same provider, and that model, the first gets the id as public id and requests for it reach the other. |
| Catalogue.ClashesHappen | src/api/model_merge.py:104-117 | Such names exist, for providers sorted to either side. |
| Catalogue.AliasesStayInTheirTable | src/api/model_merge.py:396-484 | Whatever is registered or injected, a provider is only ever sent raw ids from its own table. |
| Catalogue.Published | src/api/model_merge.py:487-502 | The published list has distinct ids and its table never leaves the provider's own models. |
| Catalogue.ModelCatalogue.CountLabels | src/api/model_merge.py:225-235 | Finds exactly the label keys shared by several models of the table. |
| Catalogue.ModelCatalogue.KeyFor | src/api/model_merge.py:151-203 | The merge key of a model, from the counted duplicates. |
| Catalogue.ModelCatalogue.MergeProvider | src/api/model_merge.py:214-264 | The merging loop adds exactly the placements of the table, in order. |
| Catalogue.ModelCatalogue.ListEntries | src/api/model_merge.py:487-502 | One entry for each merged key, as merged. |
| Catalogue.ModelCatalogue.FinishEntries | src/api/model_merge.py:267-335 | Finished entries with distinct ids that still describe the merged ones. |
| Catalogue.ModelCatalogue.ApplyCustomAliases | src/api/model_merge.py:396-444 | The injection loop over the alias list. |
| Catalogue.ModelCatalogue.Build | src/api/model_merge.py:487-502 | The whole construction: finished entries, registered table, injected aliases, with the two guarantees above. |
| Affinity.PinsAreJustified | src/engine/affinity.py:163-203 | In every run in which no other name is tangled with the asking one, a pinned credential served the same user before, under the same explicit key or on a prefix of the same conversation. |
| Affinity.TangledNamesLeak | src/engine/affinity.py:163-208 | And only then: of two tangled names, either user can be pinned to a credential that has only served the other. |
| Affinity.PlainNamesAreApart | src/engine/affinity.py:205-208 | Names without the separator are never tangled. |
| Affinity.PinIsRepeatable | src/engine/affinity.py:163-180 | After answering one pin, every other pin at that time gets the answer it would have got before: asking twice or in another order changes nothing. |
| Affinity.PinRefreshes | src/engine/affinity.py:163-244 | A hit renews the pin: the same request is answered the same at every time up to a full TTL after the hit, and, in a table in recency order, not from then on. |
| Affinity.ConversationInUseStays | src/engine/affinity.py:163-253 | After a hit, remembering a request stored under a key that the first does not consult leaves its answer as it is for a full TTL, with a maximum of two or more: the refreshed entry is the newest and is not evicted. |
| Affinity.ServedIsPinned | src/engine/affinity.py:163-203 | A request that can be identified and has been served is pinned to its credential for a full TTL. |
| Affinity.HitSettles | src/engine/affinity.py:219-244 | A hit leaves its entry with the same credential and a full TTL, at the most recently used end of the table, and no entry of a longer prefix. |
| Affinity.IdentityRules | src/engine/affinity.py:63-203 | How a request is identified: the first key name with a non-blank text, metadata before the top level; without one a valid session header; without either the messages, unless a user_id is given or there are none. |
| Affinity.ConversationAffinity.PinFor | src/engine/affinity.py:163-180 | Answers with the credential of the live entry of the explicit key, else of the longest live remembered prefix; the new table is the step function's. |
| Affinity.ConversationAffinity.PinChain | src/engine/affinity.py:231-239 | The scan over all prefixes, in which the last hit wins and lookups have side effects, answers as the longest-live-prefix specification does on the table before the scan. |
| Affinity.ConversationAffinity.ChainDigests | src/engine/affinity.py:210-217 | The incremental loop yields the fingerprint of every prefix. |
| Affinity.ConversationAffinity.RememberServed | src/engine/affinity.py:182-203 | Stores exactly one entry, for the explicit key or the complete message list, and evicts. |
| Affinity.ConversationAffinity.DoLookup | src/engine/affinity.py:219-229 | The method computes the lookup function of which `HitSettles` and `LookupRefreshes` say what it leaves behind. |
| Affinity.LookupRefreshes | src/engine/affinity.py:219-244 | After a lookup the key has an entry with the live credential and a full TTL, or none if there was no live one; entries of other keys are untouched. |
| Affinity.ConversationAffinity.DoTouch | src/engine/affinity.py:241-244 | Writes the entry at the most recently used end. |
| Affinity.ConversationAffinity.DoEvict | src/engine/affinity.py:246-253 | Over capacity, drops the expired entries and then the oldest surplus. |
| Affinity.PinKeepsAnswers | src/engine/affinity.py:163-180 | Asking about one conversation changes no answer about any key at that time. |
| Affinity.LookupKeepsAnswers | src/engine/affinity.py:219-229 | Refreshing or deleting on lookup changes no answer for any key at that time. |
| Affinity.LongestLiveIsAPrefix | src/engine/affinity.py:231-239 | The specification returns the live entry of a prefix such that no longer prefix has one, and nothing iff no prefix has one. |
| Affinity.RunKeepsInvariant | src/engine/affinity.py:163-253 | In every run with a constant positive TTL the table has distinct keys, is ordered by expiry and never exceeds its maximum between calls. |
| Affinity.NotExpiredIsSuffix | src/engine/affinity.py:246-253 | Expired entries form exactly a prefix of the table. |
| Affinity.EvictionIsExact | src/engine/affinity.py:246-253 | Eviction removes nothing up to the maximum; over it exactly a prefix: expired entries and the least recently used surplus, and everything kept is live. |
| Affinity.RememberedSurvives | src/engine/affinity.py:182-203 | The entry just written is never evicted (maximum of at least one). |
| Affinity.NextTurnSticks | src/engine/affinity.py:163-203 | The next turn of a conversation is pinned to the credential that served this one unless a longer prefix has a live entry. |
| Affinity.ChainInjective | src/engine/affinity.py:210-217 | Without hash collisions, equal fingerprints mean the same user and the same messages. |
| Affinity.MixInjective | src/engine/affinity.py:205-208 | For user names free of the separator the explicit-key text determines user and key; otherwise the longer name continues the shorter one. |
| Affinity.TangledUsersCollide | src/engine/affinity.py:205-208 | Whenever one name continues another with a separator and the beginning of a key, two ordinary keys of the two users are stored under one entry. |
| Affinity.CollidingUsersAreTangled | src/engine/affinity.py:205-208 | And only then: together the exact condition under which entries of two users can meet. |
| Continuation.ContinuationStream.Run | src/engine/continuation.py:92-139 | The loop runs the specified number of rounds, yields the specified output and one final finish event, and sends the specified bodies. |
| Continuation.ContinuationStream.Forward | src/engine/continuation.py:97-122 | One round passes on all events but usage and finish and collects text, usage and reason. |
| Continuation.CallsAreBounded | src/engine/continuation.py:123-133 | At most one upstream call more than the continuations allowed. |
| Continuation.RoundsAreDetermined | src/engine/continuation.py:123-133 | The number of rounds is determined by the upstream's answers. |
| Continuation.OutputPassesThrough | src/engine/continuation.py:97-122 | All events other than usage and finish of all rounds reach the client in order. |
| Continuation.OutputInPositions | src/engine/continuation.py:97-122 | The k-th event received that is neither usage nor finish is the k-th such event sent, for all k and no others. |
| Continuation.NoFinishBeforeTheEnd | src/engine/continuation.py:107-139 | No finish event before the final one. |
| Continuation.ReasonIsLastSeen | src/engine/continuation.py:107-139 | The final reason is that of the last finish event of all rounds, by position, and none if there was no finish event. |
| Continuation.RoundIsContinuedIff | src/engine/continuation.py:107-133 | A round is followed by another iff the last finish event up to its end reports truncation and continuations are left. |
| Continuation.UntruncatedRoundIsLast | src/engine/continuation.py:107-139 | A round whose last finish event has another reason than truncation is the last round, and its reason is the one reported. |
| Continuation.SilentRoundIsContinued | src/engine/continuation.py:107-133 | Hence a round without a reason after a truncated round is continued again. |
| Continuation.UsageIsTheSum | src/engine/continuation.py:142-162 | Every usage field is the sum of the reported values over all rounds, absent iff none reported it. |
| Continuation.EstimatedIfAnyPartIs | src/engine/continuation.py:142-155 | The total is marked as estimated iff some part was. |
| Continuation.OutputReportsRunningTotals | src/engine/continuation.py:65-73 | The usage events yielded are the running totals after each round, where not empty. |
| Continuation.TotalIsReportedIff | src/engine/continuation.py:65-73 | After each round the client gets that round's events and then the total, iff some field of it is neither missing nor zero. |
| Continuation.BodyOfRound | src/engine/continuation.py:38-62 | Round k is asked with the original messages plus 2k, no output cap from the second round on, and every other field unchanged. |
| Continuation.SpokenSnoc | src/engine/continuation.py:110-118 | What an event adds to the collected text and reasoning: a content event its text to the one, a reasoning event its text to the other, anything else nothing. |
| Continuation.UpstreamIsToldWhatTheClientSaw | src/engine/continuation.py:38-62 | The assistant text, and the reasoning text, that the next round is told equal the content and the reasoning yielded to the client so far. |
| ModelRefresh.AttemptsAreSpaced | src/api/models.py:277-296 | In every run without restart, an attempt on a provider starts at least `Wait(n)` after the previous one ended, n being its failures in a row; `Wait` is 300 seconds for n of at most 1, doubles with each further failure and is 7200 at most. |
| ModelRefresh.NeighboursAreSpaced | src/api/models.py:277-296 | The same in positions of the history: for two neighbouring attempts on a provider, with n counted as its attempts since its last success. |
| ModelRefresh.IntervalIsWait | src/api/models.py:288-296 | The interval computed with capped powers of two is that schedule for every number of failures. |
| ModelRefresh.IntervalDoubles | src/api/models.py:288-296 | Beyond one failure each further one doubles the interval, up to 7200 seconds. |
| ModelRefresh.PassWaits | src/api/models.py:277-350 | A pass calls a provider it knows and has a credential for iff `Wait(n)` has passed since its last attempt ended, or, before the first attempt, iff it has no table or one at least 300 seconds old. |
| ModelRefresh.PassSkips | src/api/models.py:331-350 | A provider that is not registered or has no credential is never called. |
| ModelRefresh.HistoryMeans | src/api/models.py:229-274 | Last end, last table and failure streak of a history, by positions: of the last attempt, of the last success, and the number of attempts after it. |
| ModelRefresh.CatalogueFollowsHistory | src/api/models.py:229-274 | Failure count, timestamp and cached table of a provider are the failure streak, last end and last success of the attempt history. |
| ModelRefresh.FailureKeepsTables | src/api/models.py:229-274 | A failed attempt changes no cached table, a successful one only its own. |
| ModelRefresh.PassTriesWhatIsDue | src/api/models.py:331-350 | A pass attempts exactly the registered, connected providers that were due when it began. |
| ModelRefresh.IntervalGrows | src/api/models.py:277-296 | The interval never shrinks with more failures and stays between 300 and 7200 seconds. |
| ModelRefresh.RetryIsAlwaysPermitted | src/api/models.py:277-350 | However long a provider has failed, 7200 seconds after its last attempt a pass tries it. |
| ModelRefresh.RestoredFreshness | src/api/models.py:299-328 | A restored table falls due by its own age, not by the time of the restart. |
| ModelRefresh.ModelService.RefreshProvider | src/api/models.py:229-274 | One attempt, in all three outcomes. |
| ModelRefresh.ModelService.RefreshProviders | src/api/models.py:331-350 | The pass makes exactly the specified attempts. |
| ModelRefresh.ModelService.ScheduleRefresh | src/api/models.py:353-387 | Starts a background refresh iff none is running; at most one is in flight. |
| ModelRefresh.ModelService.BackgroundDone | src/api/models.py:370-387 | Ending the task, normally or not, clears the announcement. |
| ModelRefresh.ModelService.Revalidate | src/api/models.py:455-469 | Waits iff some stale provider has no table to serve; otherwise at most starts one background refresh for exactly the stale ones. |
| ModelRefresh.ModelService.Restore | src/api/models.py:299-328 | Restores exactly the registered and connected snapshots, with their age; failures stay. |
| RuntimeSettings.Rules.ParseOfFormat | src/runtime_settings.py:566-570 | Printing an accepted value and parsing it again accepts the same value. |
| RuntimeSettings.Rules.AcceptedIff | src/runtime_settings.py:436-473 | A text is accepted as a value iff it parses as one of the setting's kind that is not below the minimum nor above the maximum; words iff at most 65536 characters, not blank for the default model, and an allowed address for webhooks. |
| RuntimeSettings.Rules.Get | src/runtime_settings.py:644-651 | Reading gives the value in effect, or the floor if that is larger. |
| RuntimeSettings.ResetsIff | src/runtime_settings.py:559-563 | Null and texts of blanks only reset a setting, and nothing else does. |
| RuntimeSettings.Rules.ReloadAfterBatch | src/runtime_settings.py:632-642 | Writing a batch and reloading is writing the batch to the override map. |
| RuntimeSettings.BatchEffect | src/runtime_settings.py:664-690 | After a batch each submitted key holds its own value, each reset key none, every other key what it held. |
| RuntimeSettings.SubmittedIsEffective | src/runtime_settings.py:664-690 | The value a batch submits is the value in effect afterwards. |
| RuntimeSettings.SettingsLayer.Reload | src/runtime_settings.py:632-642 | The loop keeps exactly the rows that parse. |
| RuntimeSettings.SettingsLayer.Set | src/runtime_settings.py:692-706 | A value that does not parse writes nothing; otherwise one row is written or, for a reset, deleted. |
| RuntimeSettings.SettingsLayer.ValidateGroup | src/runtime_settings.py:573-602 | Accepts iff a batch that submits a pacer bound leaves the effective pair in order. |
| RuntimeSettings.SettingsLayer.SetMany | src/runtime_settings.py:664-690 | All or nothing: accepted iff every entry is known and parses and the pair check holds; rejected batches write nothing, accepted ones leave exactly the prospective map; after one that submits a pacer bound, `get` reports a minimum of at most the maximum. |
| RuntimeSettings.OrderAfterBatch | src/runtime_settings.py:573-602 | For every accepted batch: the effective pacer pair is in order afterwards iff the batch submits one of the bounds, or the two values that stay or come back (default if reset, else the one in effect) are in order. |
| RuntimeSettings.ResetsAreAccepted | src/runtime_settings.py:590-596 | A batch that submits neither bound is accepted iff each entry passes on its own; the pair is not compared. |
| RuntimeSettings.LawsCanBeMet | src/runtime_settings.py:566-570 | The laws asked of the conversions are met by some conversions that cover every whole number. |
| RuntimeSettings.ResetCanDisorder | src/runtime_settings.py:590-596 | Concrete ordered pairs that resetting the minimum, or the maximum, puts out of order. |
| Tags.ParseTags | src/tags.py:37-73 | The loop's outcome as a statement about the whole input: the first bad item's complaint, too many, or the first spellings in order. |
| Tags.TagsValue | src/tags.py:90-107 | The reading loop drops overlong and repeated items and cuts at 16. |
| Tags.AcceptedIsCanonical | src/tags.py:37-73 | An accepted result is stripped, non-empty, separator-free, at most 24 characters each, at most 16 items, and duplicate-free ignoring case. |
| Tags.DedupKeepsFirst | src/tags.py:62-72 | A spelling survives iff no earlier one folds to the same text; the set of folded texts is unchanged. |
| Tags.AcceptedInPositions | src/tags.py:37-73 | An accepted list is, of the items that are not blank, exactly the first of each spelling ignoring case, in order and stripped. |
| Tags.ReadInPositions | src/tags.py:90-107 | What is read is, of the stored pieces of at most 24 characters, exactly the first of each spelling, in order, of which the first 16. |
| Tags.LineInPieces | src/tags.py:30-34 | A line is cut at its separators and nowhere else; the pieces that are not blank are taken in order, stripped. |
| Tags.ParseStoreRead | src/tags.py:81-107 | For every accepted input, reading back the stored text gives the parsed list. |
| Tags.ReadInvertsText | src/tags.py:81-107 | Reading inverts storing on every canonical list. |
| Tags.ReadIsCanonical | src/tags.py:90-107 | Whatever text is stored, what is read is canonical. |
| Tags.ReadIsIdempotent | src/tags.py:81-107 | Reading, storing and reading again changes nothing. |
| Tags.ParseInvertsText | src/tags.py:37-87 | Submitting the stored text of a canonical list is accepted as exactly that list. |
| Tags.SplitTagsEffect | src/tags.py:30-34 | Every piece of a split is stripped, non-empty and free of all four separators. |
| Text.SplitOfJoin | src/tags.py:81-87 | Splitting inverts joining for texts without the separator. |
| Text.JoinOfSplit | src/tags.py:30-34 | Joining undoes splitting for every text, so with separator-free parts the split is the only one. |
| Text.StripTrims | src/tags.py:30-34 | Stripping removes blanks from both ends, all of them and nothing else. |

## Left out

- Routing, SSE framing, HTTP clients, upstream parsers, pages and scripts: plumbing over libraries.
- SQLite, encryption, password hashing and file locks: only their interfaces appear (a usage source, a map of settings rows, a map of snapshots).
- The executor, the scheduler, pacing and sticky trimming are not part of this model.
- The order of the entries: the program sorts them by provider rank and key (src/api/models.py:127) before ids are made unique, so the order decides who keeps an id. `ListEntries` yields some order and the id and alias theorems hold for each; only `PublicIdCanBeShadowed` uses the order of the keys.
- Blocklists, hidden aliases, prices, benchmarks and effort levels: filters and renderings of finished entries.
- `parse_model_aliases`: custom aliases arrive as a sequence of parsed values.
- Rounding of floating-point numbers: estimates and clocks are exact.
- Collisions of hash functions, and equality of messages up to their canonical JSON form.
- Restarts: histories begin with an empty table or, for model tables, with restored ones.
- Process-wide concurrency inside one step: the program's steps do not suspend where the model has one method.
- Playground's own use of the user guard: it takes single leases of the guard that `KeyQuota.KeyQuotaGuard` models.
- The wording of error messages.
- Throttle.FailuresPerWindow: the number of password changes pending on a key is a parameter of the bound; the program bounds only how many hash at the same time, not how many wait.
- Throttle.RunTracks: for limits whose global cap is at most 2047 (the program has 40), so that the failures of one open window cannot touch as many keys as the table holds; nothing in the program sets others.
- Throttle.LoginThrottle.DropOldest: among keys with equal last failures any may be dropped, where the program takes the order of its dictionary.
- PublicIds.Representative: for one provider, equally short names are left to the order of a set, as in the program.
- Affinity.ConversationAffinity.PinFor: the TTL is an argument, as the program reads it anew on each call; recency order is proved for a constant one.
- Affinity.RunKeepsInvariant: the maximum is a natural number; a negative one is not modelled.
- Continuation.ContinuationStream.Run: the stream is consumed to its end; closing it early is not modelled.
- Catalogue.ModelCatalogue.Build: entries are values, so two lists that share an entry object are not distinguished.
- ModelRefresh.ModelService.Revalidate: the waiting request performs its pass as a separate step.
