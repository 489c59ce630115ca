# Verified models of the gateway's stateful algorithms

A Go gateway for language-model APIs sits between clients and many upstream channels. This project
models, in Dafny, the parts of it that keep state or money and are not just plumbing, and proves what
they are for, over every input, every run or every interleaving. Where the code does not meet its
purpose on all inputs, the model keeps the code's behaviour and the theorem says exactly when it does:
an if-and-only-if whose condition can be checked before the call, with a concrete input for the other side.

`dafny verify dfyconfig.toml` checks everything.

| module | what it models |
|---|---|
| `RateLimit`, `Windows` | the sliding-window limiter and its sweeper, against an ideal limiter that forgets nothing |
| `InviteLimit` | the invite-reward counters: lazy expiry in memory against the embedded Redis script, and the keys of a check |
| `ChannelKeys`, `KeyTable`, `KeyAppend`, `Text`, `TextLists` | the key list of a multi-key channel, stored as text and read as lines or as a JSON array: status, deletion with renumbering, append |
| `UpstreamModels` | detecting upstream model changes and applying a selection of them |
| `RatioDiff`, `ModelsDev`, `TextOrder` | comparing price ratios across channels; picking one models.dev price per model |
| `ChannelSelect`, `Billing`, `Relay`, `RelayTask` | the retry loops, the channel choice that moves their counter, refunds and the background hand-off |
| `Midjourney` | several pollers racing on a task row with a compare-and-set |
| `Streams`, `BodyStorage`, `CacheStats` | request bodies in memory or on disk, and their global counters |
| `Opus` | the Ogg page scanner |
| `RedisHash`, `Numbers` | storing a struct in a Redis hash and reading it back |
| `Options` | a value that may be missing |

Objects that the gateway updates in place are classes and its loops are loops; each is proved against a
specification function, about which the results are then proved. Time is a parameter (a clock that does
not go back where a theorem says `Monotone` or `Possible`), map iteration order is an arbitrary choice,
and what the network, the upstream and the database answer is a parameter of the run.

What the proofs found out about the code, beside that it mostly does what it should:

- The rate limiter equals the ideal one iff every key has max >= 1 and no window is longer than the whole
  seconds of the sweep expiration plus one (or nothing is swept).
- An invite counter can be used 2 * limit - 1 times within one window length, and no more.
- Deleting all keys of a channel with `delete_disabled_keys` deletes none: the empty key text is not
  written by `Channel.Update`, and all keys come back enabled.
- Appending to a channel whose key text opens a bracket but is no JSON array loses all its keys, although the
  rest of the gateway reads them as lines. A key list whose text reads as a JSON array comes back as its
  elements.
- Detecting after applying everything pending finds nothing, unless a pending name contains a comma, or starts
  with `regex:` and is not matched by its own expression.
- With `RetryTimes < 0` a request is neither served nor refunded and keeps the quota it took; a task request
  dereferences nil.
- `RetryTimes + 1` does not limit the attempts of an "auto" token that has a second group to move to, with
  cross-group retry or without, unless `RetryTimes` is 0.
- A billing session settled after it was refunded charges too little; no run of the two relay loops does that.
- A Midjourney poll that only changes properties or buttons is never stored.
- A Midjourney refund is paid at most once for all poller interleavings iff upstream answers report status
  FAILURE exactly when they ask for a refund and do not list a task twice in one answer (but for restating the
  gateway's own time-out). A second item can refund again, or reopen a failed task.
- A body limit of the largest int64 stores every body as empty. Removing an old cache file that is still open
  leaves the disk counters short, until closings have found as much gone or nothing is open.
- The sweep of old cache files does change the disk counters, although its comment says that it does not
  (`common/disk_cache.go:108`).
- A pointer to the empty string comes back from Redis as nil.
- A models.dev price below a millionth of a dollar is published as free.

## Model

| member | source | states |
|---|---|---|
| RateLimit.InMemoryRateLimiter.Request | common/rate-limit.go:45-70 | a request's answer and the new store are those of the bounded-queue decision the theorems below are about; the store stays a map to non-empty queues |
| RateLimit.InMemoryRateLimiter.ClearExpiredItems | common/rate-limit.go:28-42 | a sweep keeps exactly the keys whose newest acceptance is not older than the whole seconds of the expiration, in whatever order it visits them |
| RateLimit.RequestAgrees | common/rate-limit.go:51-63 | a queue that is the newest part of the history gives the ideal limiter's answer in each branch, and stays so |
| RateLimit.SweepKeepsFit | common/rate-limit.go:33-39 | a sweep forgets nothing that can still count, when no duration exceeds the expiration's whole seconds by more than one |
| RateLimit.RunRelated | common/rate-limit.go:28-70 | over every run of requests and sweeps the store holds what the ideal limiter needs of its history |
| RateLimit.Disagreement | common/rate-limit.go:28-70 | for every bad configuration, a run on which the two limiters answer differently |
| RateLimit.AgreesExactly | common/rate-limit.go:14-70 | the limiter answers every run like the ideal one iff each key has max >= 1 and, if the expiration is positive, no duration above its whole seconds + 1 |
| RateLimit.AcceptancesAreSpaced | common/rate-limit.go:56-60 | any max + 1 consecutive acceptances of a key span at least its duration |
| RateLimit.WindowBound | common/rate-limit.go:45-70 | in every run every window of length duration holds at most max acceptances |
| Windows.SpacedMeansBounded | common/rate-limit.go:56-60 | spaced time stamps put at most max into any window |
| InviteLimit.InviteRewardMemoryLimiter.Count | common/invite_reward_limit.go:65-73 | one use: an absent or expired entry opens a new window, a live one is counted, other keys are untouched |
| InviteLimit.InviteRewardMemoryLimiter.Allow | common/invite_reward_limit.go:38-76 | on live counters a call is all-or-nothing: denied iff some counted key is at its limit, otherwise every named key is counted; other keys are untouched and mismatched lists pass |
| InviteLimit.RedisServer.Count | common/invite_reward_limit.go:101-104 | INCR with EXPIRE on the first count has the same effect on the visible counters |
| InviteLimit.RedisServer.Eval | common/invite_reward_limit.go:92-107 | the script makes the same all-or-nothing decision on the keys Redis has not expired |
| InviteLimit.FilterLimits | common/invite_reward_limit.go:79-87 | the filter loop keeps exactly the non-empty keys with a positive limit |
| InviteLimit.CheckWithMemory | common/invite_reward_limit.go:78-90 | without Redis a check is the admission of the filtered keys |
| InviteLimit.CheckWithRedis | common/invite_reward_limit.go:91-119 | with Redis a check is the same admission on Redis's visible counters |
| InviteLimit.BumpAllAt | common/invite_reward_limit.go:60-74 | an admitted call adds to each counter the number of times it names the key, opens a window of ttl seconds only where none was running and touches nothing else |
| InviteLimit.FilterHarmless | common/invite_reward_limit.go:79-90 | filtering changes the answer iff an empty key is exhausted and no other is; while it does not, it changes no counter but the empty key's; without limited empty keys it changes nothing |
| InviteLimit.Bisimilar | common/invite_reward_limit.go:38-121 | on every run with a non-decreasing clock and ttl > 0, the memory limiter and the script give the same answers and show the same live counters |
| InviteLimit.MemoryRunIsAfter | common/invite_reward_limit.go:38-76 | what the memory limiter answers and shows after any run is the specification's state |
| InviteLimit.WindowsHold | common/invite_reward_limit.go:60-74 | a key's admissions fall into disjoint windows of ttl seconds with at most limit each |
| InviteLimit.AdmissionBound | common/invite_reward_limit.go:45-74 | any ttl seconds contain at most 2 * limit - 1 admissions of a key |
| InviteLimit.AdmissionBoundIsTight | common/invite_reward_limit.go:45-74 | a run that reaches 2 * limit - 1, for every limit and every ttl of at least two seconds |
| InviteLimit.BuildKeys | common/invite_reward_limit.go:134-162 | a check names exactly the counters that are switched on, and only the inviter's own when there is no address |
| InviteLimit.CheckEligibility | common/invite_reward_limit.go:123-172 | passed without counting when there is no inviter or no window; otherwise refused iff the inviter's counter, or, with an address, the address's or the pair's, is switched on and at its limit; if passed, exactly these counters go up by one, a fresh one ending after windowMinutes * 60 seconds |
| InviteLimit.CountersDecide | common/invite_reward_limit.go:134-162 | the keys and limits of a check are exhausted iff one of the three counters that is switched on is at its own limit, and name each of these once |
| InviteLimit.CheckCounts | common/invite_reward_limit.go:134-162 | an admitted check counts each of its counters once, in its running window or a fresh one, and leaves every other alone |
| InviteLimit.CountersNeverCollide | common/invite_reward_limit.go:134-162 | different counters never share a key text, whatever a client sends as its address |
| InviteLimit.EligibilityKeysDistinct | common/invite_reward_limit.go:134-162 | a check names each key once |
| InviteLimit.CheckIsFixed | common/invite_reward_limit.go:123-172 | all checks under fixed settings use a counter with the same limit and window |
| InviteLimit.EligibilityBound | common/invite_reward_limit.go:123-172 | under fixed settings no window length of time sees a counter admitted more than 2 * limit - 1 times |
| ChannelKeys.WrittenReadsBack | model/channel.go:88-110 | a key list written one a line is read back by GetKeys as it was iff it can be kept one a line, for any JSON library whose array elements are non-empty pieces of the text |
| ChannelKeys.BracketKeyIsReread | model/channel.go:95-106 | the single key "[1]" is read back as "1" |
| ChannelKeys.SpaceInFront | model/channel.go:95-98 | white space in front of an array does not matter to how it is read |
| ChannelKeys.EmptyArrayCountsOne | model/channel.go:572-587 | an empty array holds no key, yet the update counts its text as one |
| ChannelKeys.ReadLength | model/channel.go:108-109 | lines, not all blank, read back as a part of themselves, shorter where an end is blank |
| ChannelKeys.KeysAreSolid | model/channel.go:88-110 | what GetKeys reads has no blank key at an end, but for a text of nothing but newlines |
| ChannelKeys.PlainStorable | model/channel.go:95-106 | single-line keys that open no bracket are never taken for a JSON array together |
| KeyTable.Channel.GetKeyStatus | controller/channel.go:1436-1603 | one row per key: its stored status or 1, disabled time and reason only when that is not 1, stored used count and limit or 0 |
| KeyTable.Channel.Update | model/channel.go:558-633 | the size is counted afresh from the stored text, as a JSON array or as lines, which an empty new text does not replace, and state beyond the last key is dropped |
| KeyTable.Without | controller/channel.go:1892-1936 | delete_key's loop keeps the other keys in order with their state renumbered |
| KeyTable.WithoutDoomed | controller/channel.go:1975-2052 | delete_disabled_keys's loop keeps all keys but the auto-disabled unbound ones, renumbered, and counts the rest |
| KeyTable.Channel.DeleteKey | controller/channel.go:1861-1966 | the whole table after delete_key; refused, with nothing changed, for an index out of range, a key with a token bound to it, and the last key |
| KeyTable.RefusedExactly | controller/channel.go:1870-1945 | delete_key is refused iff the index is out of range, a token is bound to the key, or it is the last one |
| KeyTable.Channel.DeleteDisabledKeys | controller/channel.go:1968-2091 | the whole table after delete_disabled_keys, how many keys it reports as deleted, and how many as passed over because a token is bound to them |
| KeyTable.RowStays | controller/channel.go:1892-1936 | neither renumbering changes anything shown of a key that stays |
| KeyTable.CarriedOver | controller/channel.go:1892-2052 | what is stored for a key that moves: delete_key carries the disabled time and reason of an enabled key along, delete_disabled_keys does not |
| KeyTable.NothingBeyondTheSize | model/channel.go:588-623 | an update keeps no state beyond the recorded size and changes none below it |
| KeyTable.StoredKeys | model/channel.go:558-633 | a shortened key list is read back as written iff it can be kept one a line: not empty, single lines, no blank key at either end, and the whole not taken for a JSON array |
| KeyTable.DeletionShows | controller/channel.go:1892-2075 | after a deletion the rows shown are the kept ones in order, iff the kept keys can be kept one a line |
| KeyTable.BindingStillPoints | controller/channel.go:1892-1953 | a surviving key moves to the index of the keys kept in front of it, so a binding by index still names it iff nothing in front of it went |
| KeyTable.DeleteOneShows | controller/channel.go:1861-1966 | delete_key refuses the last key, and otherwise removes exactly one row iff the other keys can be kept one a line |
| KeyTable.DeleteDoomedShows | controller/channel.go:1968-2091 | bulk deletion shows exactly the kept rows iff nothing is deleted or the kept keys can be kept one a line |
| KeyTable.DeletingAllRevivesAll | controller/channel.go:2066-2079 | when every key is doomed none is deleted: all keys stay and are shown enabled with their counters gone |
| KeyTable.BulkDeleteIsDeleteDown | controller/channel.go:1861-2091 | if every list on the way can be kept one a line, bulk deletion and delete_key applied to the doomed keys from the highest index down both show exactly the kept rows; for single-line keys that open no bracket the single deletions do so only then |
| KeyTable.NoBlankStorable | controller/channel.go:1861-2091 | without blank keys, single lines that open no bracket can be kept all the way down iff a key survives |
| KeyTable.BlankBetween | controller/channel.go:1861-2091 | with a blank key between two doomed ones a key survives, but a list on the way ends in a blank |
| KeyTable.OnlyUnboundDisabledGo | controller/channel.go:1975-2052 | a key goes iff its stored status is 3 and no token is bound to it |
| KeyAppend.SplitInput | controller/channel.go:1055-1061 | plain input becomes its non-blank lines, trimmed |
| KeyAppend.KnownKeys | controller/channel.go:1064-1071 | the keys an appended one is compared with are the trimmed non-blank stored ones |
| KeyAppend.EnteredKeys | controller/channel.go:1036-1062 | the keys entered: trimmed lines, or for a Vertex AI channel an array or one key that may span lines |
| KeyAppend.AppendKeys | controller/channel.go:1064-1086 | the stored text becomes the old keys and the added ones, joined |
| KeyAppend.Append | controller/channel.go:1015-1087 | the append branch from stored text, entered text and channel kind to the new text: the input itself without stored keys, an error for an unreadable array of Vertex keys |
| KeyAppend.AddsExactlyTheNew | controller/channel.go:1064-1083 | added are exactly the non-blank new keys that trimming does not find among the old, each once, trimmed, and in the order they were entered |
| KeyAppend.OldKeysKeepTheirIndex | controller/channel.go:1017-1086 | after any append every old key is read back at its old index iff nothing was written; or the old keys are single lines, not one blank; or, when the branch could not read them, the entered keys repeat them first; a new text that is itself a JSON array reads back as that array |
| KeyAppend.ReadsBackExactly | controller/channel.go:1017-1086 | the saved list reads back as old keys then added keys iff nothing was written, or the branch could read the old keys and all together can be kept one a line |
| KeyAppend.ExistingIsRead | controller/channel.go:1022-1034 | the branch reads the list GetKeys reads iff not (the text opens a bracket and is no JSON array); then it reads none |
| KeyAppend.OldKeysLost | controller/channel.go:1022-1030 | appending "c" to the keys "[a" and "b" leaves only "c" |
| KeyAppend.PlainKeysAreSingleLines | controller/channel.go:1055-1061 | keys from plain input never span lines |
| Text.SplitJoin | controller/channel.go:1033-1086 | splitting joined separator-free parts gives the parts |
| Text.JoinSplit | controller/channel.go:1033-1086 | joining split text gives the text |
| Text.ParseJoin | model/channel.go:265-270 | a joined list is read back as itself iff it has no blank entry at either end |
| Text.TrimCutsEnds | model/channel.go:108-109 | trimming cuts at the two ends only, and as far as it can |
| UpstreamModels.NormalizedNames | controller/channel_upstream_update.go:77-82 | a list's names are its entries, trimmed, but for blank ones, in their order |
| UpstreamModels.Merged | controller/channel_upstream_update.go:84-98 | merging yields a trimmed, duplicate-free list with the union of the members |
| UpstreamModels.Subtracted | controller/channel_upstream_update.go:100-109 | subtracting yields a normal list with the difference |
| UpstreamModels.Intersected | controller/channel_upstream_update.go:111-120 | intersecting yields a normal list with the intersection |
| UpstreamModels.MergeModelNames | controller/channel_upstream_update.go:84-98 | the merging loop computes the base followed by the names not in it |
| UpstreamModels.ApplySelectedShape | controller/channel_upstream_update.go:122-127 | survivors first in their order, new names after in theirs; addition wins over removal |
| UpstreamModels.CollectPending | controller/channel_upstream_update.go:156-215 | the loops over upstream and local names collect the pending additions and removals described next |
| UpstreamModels.Detected | controller/channel_upstream_update.go:156-215 | pending to add are exactly the upstream names that are neither local, nor a mapping's target, nor ignored; pending to remove the local names that are neither upstream nor a mapping's source |
| UpstreamModels.PendingInOrder | controller/channel_upstream_update.go:156-215 | pending names stand in the order of the upstream's or the channel's list, and what is picked of them in the order of the selection |
| UpstreamModels.IgnoredExactly | controller/channel_upstream_update.go:194-202 | an ignore list keeps out the names in it that do not start with `regex:`, and those that the trimmed rest of an entry that does matches |
| UpstreamModels.Channel.Check | controller/channel_upstream_update.go:340-387 | the whole channel after a check: throttled, failed or stored, with what was added automatically; the check time is now unless it was throttled; the models are reported as changed iff the names the stored text holds did change, if no pending name has a comma |
| UpstreamModels.SyncAddsAllPending | controller/channel_upstream_update.go:364-376 | automatic synchronisation adds every pending name, so its count is their number |
| UpstreamModels.SyncStores | controller/channel_upstream_update.go:340-387 | a check that may add by itself stores the old names followed by every pending one, leaves none pending, records the removals it found and keeps the ignore list; a second one adds nothing |
| UpstreamModels.CheckGains | controller/channel_upstream_update.go:340-387 | a check changes the names the stored text holds iff it is not throttled, may add by itself and something is pending, if no pending name has a comma |
| UpstreamModels.Channel.Apply | controller/channel_upstream_update.go:760-808 | the whole channel after an apply and the four lists it reports; the models are reported as changed iff a picked name was not there or a removed one was |
| UpstreamModels.ApplySets | controller/channel_upstream_update.go:768-796 | what is picked, left and ignored, as sets; picks outside the pending lists do nothing and addition wins over removal and ignoring |
| UpstreamModels.ApplyConserves | controller/channel_upstream_update.go:773-796 | pending additions split into added, ignored only and left, pending removals into removed and left, for every selection |
| UpstreamModels.ApplyShape | controller/channel_upstream_update.go:773-784 | the new list is (old minus removed) plus added, in that order |
| UpstreamModels.ApplyChanges | controller/channel_upstream_update.go:773-784 | the new list differs from the old one iff a picked name was not there or a removed one was |
| UpstreamModels.LocalAfterApply | controller/channel_upstream_update.go:773-796 | the stored comma-separated text holds that list, if no added name has a comma |
| UpstreamModels.Converges | controller/channel_upstream_update.go:156-215 | after a round that covers everything pending, detecting again finds nothing, when every pending name can be stored and ignored under its own name |
| UpstreamModels.RegexNameStaysPending | controller/channel_upstream_update.go:194-200 | under any engine, a name that reads as a regular expression and does not match itself stays pending after it was ignored |
| UpstreamModels.CommaNameStaysPending | controller/channel_upstream_update.go:773-784 | under any engine, a pending name with a comma stays pending after it was added |
| UpstreamModels.ConvergesExactly | controller/channel_upstream_update.go:156-215 | for a given regular expression engine, one round settles a channel for every covering selection iff each pending name has no comma and, if it starts with `regex:`, is matched by its own expression |
| RatioDiff.ModelsIn | controller/ratio_sync.go:446-465 | the models a set of tables names under any of the four ratio types |
| RatioDiff.CollectModels | controller/ratio_sync.go:443-465 | every model named locally or by a channel is looked at |
| RatioDiff.BuildItem | controller/ratio_sync.go:506-568 | the channel loop admits an item iff some report differs, and collects each channel's entry and confidence |
| RatioDiff.BuildModel | controller/ratio_sync.go:504-568 | a model gets an item for exactly the ratio types that are admitted |
| RatioDiff.MarkActive | controller/ratio_sync.go:572-581 | the channels marked are those with a concrete entry anywhere |
| RatioDiff.RemoveInactive | controller/ratio_sync.go:585-590 | an item loses its entries and confidence for exactly the unmarked channels |
| RatioDiff.PruneItem | controller/ratio_sync.go:585-603 | an item is kept iff some remaining entry is not "same" |
| RatioDiff.PruneModel | controller/ratio_sync.go:584-604 | a model keeps exactly the pruned items that say something |
| RatioDiff.Prune | controller/ratio_sync.go:583-609 | the pruning loops remove the unmarked channels, then items that say nothing, then empty models |
| RatioDiff.BuildDifferences | controller/ratio_sync.go:438-612 | both phases together compute the map the next results describe |
| RatioDiff.ResultAt | controller/ratio_sync.go:438-612 | for any JSON: an item is shown iff admitted and some shown channel's entry is not "same"; it has the local value and exactly the shown channels |
| RatioDiff.EntryMeans | controller/ratio_sync.go:506-551 | for any JSON: a channel's entry and whether it admits the item; a value that is no number differs from every local one |
| RatioDiff.SoundAndComplete | controller/ratio_sync.go:503-569 | for numeric reports an item is shown iff some channel reports a value and there is no local one or they differ by 1e-9 or more |
| RatioDiff.EntriesExactly | controller/ratio_sync.go:519-609 | for numeric reports the entry of each channel kept: "same", nil or the raw value, confidence false exactly on the 37.5 / 1.0 pair; a channel is kept iff it differs somewhere |
| RatioDiff.PruningKeepsEveryItem | controller/ratio_sync.go:583-609 | for numeric reports pruning deletes no item and no model |
| RatioDiff.NullReportVanishes | controller/ratio_sync.go:592-603 | a null report is admitted and then pruned, so numeric reports are needed above |
| TextOrder.OneAscendingListing | controller/ratio_sync.go:831-835 | a set of names has one ascending listing, so sorting removes the map's iteration order |
| TextOrder.SortAscends | controller/ratio_sync.go:831-835 | sorting distinct names yields a strictly ascending list |
| TextOrder.LessMeans | controller/ratio_sync.go:831-835 | a name comes before another iff it is a proper prefix of it or smaller in the first place they differ |
| ModelsDev.ValidWhenExpressible | controller/ratio_sync.go:761-795 | an offer is valid iff its prices are not negative and the output price is a multiple of the input price; a negative cache price is dropped, not the offer |
| ModelsDev.SelectedIsCheapest | controller/ratio_sync.go:797-809 | scanning in provider order, the offer kept is strictly cheaper than every earlier priced one and less than 1e-9 above every later one; free only if all are, and then the first |
| ModelsDev.DescendingOrderDrifts | controller/ratio_sync.go:797-809 | in descending provider order the kept price can end any multiple of 0.5e-9 above the cheapest: the comparator is not transitive |
| ModelsDev.SelectFrom | controller/ratio_sync.go:840-859 | one provider's models, in name order, each against the best so far; other models are untouched |
| ModelsDev.SelectAll | controller/ratio_sync.go:831-860 | the two loops select, for every model, what scanning its offers in provider order selects |
| ModelsDev.Publish | controller/ratio_sync.go:866-888 | each selected offer yields its model ratio, and its completion and cache ratios iff it is not free and quotes them |
| ModelsDev.Convert | controller/ratio_sync.go:822-901 | an empty catalogue and one without valid offers are errors; otherwise the ratios are a function of the catalogue, whatever order its maps are walked in |
| ModelsDev.ChosenIsCheapest | controller/ratio_sync.go:822-864 | a model is published iff some provider offers it validly, non-zero iff some price is, within 1e-9 of the cheapest |
| ModelsDev.RoundingCost | controller/ratio_sync.go:614-616 | rounding is off by at most half a millionth, and makes a priced model free iff it costs less than 0.000001 |
| ModelsDev.PublishedRatios | controller/ratio_sync.go:822-901 | from the catalogue to the ratios: a model is published iff some provider quotes prices a ratio can express, with one provider's input / 2, output / input and cache / input, each up to half a millionth, and no priced provider cheaper by 1e-9 |
| ChannelSelect.RetryParam.IncreaseRetry | service/channel_select.go:49-58 | the counter grows by one unless the last choice asked to skip that |
| ChannelSelect.RetryParam.SelectChannel | service/channel_select.go:99-187 | the loop over groups finds a channel and leaves group index, counter and skip flag as specified |
| ChannelSelect.SelectsFirst | service/channel_select.go:99-187 | an "auto" token gets a channel of the first group, from the current one on, that has one at its priority, and the cursor moves there or, with cross-group retry used up, behind it; without success it ends behind the last group |
| ChannelSelect.SelectSpends | service/channel_select.go:124-173 | every attempt a choice allows lowers the number of attempts left, although the counter may be reset to zero |
| ChannelSelect.FirstAttempt | controller/relay.go:379-391 | the first attempt, which chooses nothing, and what is left after it add up to the bound |
| ChannelSelect.WhenWithinRetries | service/channel_select.go:124-173 | the bound is at most RetryTimes + 1 iff the choice does not move through groups, or there are no retries, or no second group is left |
| ChannelSelect.SelectSpendsOne | service/channel_select.go:124-173 | where channels last, each attempt a choice allows costs exactly one, with cross-group retry and without |
| ChannelSelect.ObtainChannel | controller/relay.go:379-423 | getChannel: the request's own channel first, then the bound one or a choice, with their errors |
| Billing.Account.PreConsume | service/billing_session.go:186-238 | the quota leaves the wallet, and the token's quota unless in the playground, and is remembered by an open session |
| Billing.Account.Settle | service/billing_session.go:40-111 | the wallet, and the token's quota with it, ends charged for the actual use, once |
| Billing.Account.Refund | service/billing_session.go:115-148 | what was taken comes back to wallet and token, once, and never after a settlement |
| Billing.SessionEnds | service/billing_session.go:40-148 | over every sequence of settlements and refunds: one refund at most, and only before the first settlement, which is the only one that counts |
| Billing.SettledExactly | service/billing_session.go:40-148 | the user pays exactly the settled use iff nothing was taken in advance or no refund came first |
| Relay.Try | controller/relay.go:200-262 | the relay loop, attempt by attempt, with its error variable, and what it does to the account |
| Relay.Relay | controller/relay.go:171-269 | the wallet after a run is lower by exactly the served quota, the fee of a content violation, a price kept below zero retries, or nothing, and the token's quota with it; Refund is called once for a failure and not otherwise |
| Relay.SubmitAsyncImageTask | controller/image_task.go:42-65 | the hand-off settles or refunds once; the task's row ends finished as SUCCESS or FAILURE |
| Relay.ImageTask.Run | controller/image_task.go:224-267 | the continuation refunds once iff execution fails, and ends the task |
| Relay.RunEndsOnce | controller/relay.go:180-262 | a run is rejected, served by its last attempt only, failed with an error, or handed off before any attempt and without an error |
| Relay.AttemptsBounded | controller/relay.go:200-262 | no run makes more attempts than the bound: RetryTimes + 1, or for an "auto" token (groups left) * (RetryTimes + 1) with cross-group retry and (groups left) * RetryTimes + 1 without, but one if RetryTimes is 0 |
| Relay.AttemptsReached | controller/relay.go:200-262 | failures that are always retried reach that bound where channels last |
| Relay.WithinRetriesExactly | controller/relay.go:200-262 | RetryTimes + 1 limits the attempts of all requests under given settings iff the token is not "auto", or bound to a channel, or RetryTimes is 0, or no second group is left |
| Relay.RetriesExactly | controller/relay.go:200-262 | unless groups are tried in turn: while retries are left and the next attempt can be made, it is made iff the failure was worthwhile; a run stops only where it cannot go on or at a failure that was not worthwhile or came last, with that error, and an exhausted run made RetryTimes + 1 attempts |
| Relay.OnlyWorthwhileRetried | controller/relay.go:200-262 | for every routing: an attempt is only followed by another if it failed without an affinity veto and without a content violation, with the channel's own error or one the status and the settings let through |
| Relay.RetryDecision | controller/relay.go:425-455 | a failure is tried again iff there is no affinity veto and no content violation, and it is the channel's own or, with retries left, not marked to be skipped, not pinned, not 2xx, and outside 100..599 or let through by the settings |
| Relay.HandedOffExactly | controller/relay.go:223-240 | a request for the background is handed off, before anything is tried, iff its body can be read |
| Relay.PaysExactly | controller/relay.go:171-262 | the user pays the last answer's quota, or what the background task used, or the fee of a content violation of one kind, or nothing; the quota comes back for every error after it was taken and for a background task that failed |
| Relay.KeptForNothing | controller/relay.go:171-262 | a request is served, handed off or refunded iff RetryTimes >= 0; below, the quota taken is kept |
| RelayTask.RelayTaskSubmit | relay/relay_task.go:163-277 | the quota is taken only by the first submission that gets so far |
| RelayTask.Try | controller/relay.go:631-679 | the task loop, with at most one session opened, holding the price of the first attempt that took quota, and nothing settled or refunded in it |
| RelayTask.RelayTask | controller/relay.go:616-724 | the user pays exactly the accepted task's quota, settled once and not refunded, or nothing, refunded once if a session is open; RetryTimes < 0 crashes |
| RelayTask.RunEndsOnce | controller/relay.go:631-690 | result or error, never both and never neither, iff RetryTimes >= 0; the result is the last submission's and the only one accepted |
| RelayTask.OnlyWorthwhileRetried | controller/relay.go:631-679 | for every routing: a session is open in the end iff some attempt got as far as taking quota, and an attempt is only followed by another if it failed in a worthwhile way |
| RelayTask.RetriesExactly | controller/relay.go:631-775 | unless groups are tried in turn: while retries are left and the next attempt can be made, it is made iff the failure was worthwhile (no affinity veto, not pinned, and 429, 307, a 5xx that is not skipped, or another status but 400, 408 and 2xx that is not local); a run ends in an error only where it cannot go on or with a failure that was not worthwhile or came last |
| RelayTask.AttemptsBounded | controller/relay.go:631-679 | the same bound on attempts |
| RelayTask.AttemptsReached | controller/relay.go:631-679 | an upstream that is always too busy reaches the bound |
| RelayTask.WithinRetriesExactly | controller/relay.go:631-679 | RetryTimes + 1 limits the attempts under exactly the same condition |
| Midjourney.Task.Process | controller/midjourney.go:121-196 | the row, the poller's copy and the wallet after one item; only the winner of the compare-and-set pays |
| Midjourney.Store.UpdateWithStatus | model/midjourney.go:165-171 | the row is replaced iff its status is still the expected one |
| Midjourney.SkippedExactlyWhenUnchanged | controller/midjourney.go:202-255 | a poll is skipped iff it reports the same progress and would change nothing but properties and buttons |
| Midjourney.PollStores | controller/midjourney.go:121-196 | field by field what one poll stores, an overdue task as failed; it pays iff its copy wins, has a quota, and the task is overdue, unfinished with a reason to fail, or finished with status FAILURE |
| Midjourney.NextKeepsInv | controller/midjourney.go:28-196 | what every step of every poller keeps: a failed row is finished, the copies held are harmless to it, the quota came back at most once |
| Midjourney.RefundedAtMostOnce | controller/midjourney.go:121-196 | from any unfailed row, over all interleavings of stale pollers working through safe answers item by item, at most one refund and exactly the task's quota |
| Midjourney.FailureIsFinal | controller/midjourney.go:47-78 | with safe answers a failed row, failed in bulk or by a poll, stays failed and finished and is never refunded again |
| Midjourney.OverdueEnds | controller/midjourney.go:124-129 | the first winning poll after an hour ends the task and returns its quota |
| Midjourney.BulkFailureEnds | controller/midjourney.go:47-78 | a bulk failure ends the task at once, without its quota |
| Midjourney.RefundWithoutFailure | controller/midjourney.go:168-179 | two refunds when an answer asks for one in another status |
| Midjourney.FailureWithoutRefund | controller/midjourney.go:168-179 | two refunds when an answer says FAILURE without asking for one |
| Midjourney.SecondListing | controller/midjourney.go:121-196 | a run with two refunds for every answer that lists a failed task again with news: the poller's own failed copy wins, and gives the quota back or reopens the task |
| Midjourney.SafeMeansListedOnce | controller/midjourney.go:121-129 | an upstream that does not know the gateway's time-out reason gives safe answers iff it lists each task at most once and consistently |
| Midjourney.SafeExactly | controller/midjourney.go:121-196 | double refunds are impossible iff every answer the upstream may give is safe: the first item for the task has status FAILURE exactly when it triggers a refund, and further ones only restate it as failed with the gateway's own time-out reason |
| Midjourney.ListedTwice | controller/midjourney.go:121-196 | the second item for a task in one answer refunds again iff it says FAILURE and differs from the finished row |
| CacheStats.Stats.DecrementDiskFiles | common/disk_cache_config.go:115-122 | both disk counters fall, but not below zero |
| CacheStats.CountersFollow | common/disk_cache_config.go:109-134 | over every run of openings and repeated closings the counters are the number and size of open storages; with sweeps the disk ones never exceed them |
| CacheStats.SweepUndercounts | common/disk_cache.go:109-138 | a first sweep of an open file leaves the counters short by that file |
| CacheStats.ExactAgain | common/disk_cache_config.go:109-134 | with sweeps the counters are exact iff closings have found as many files and bytes gone from the counters as sweeps took; so whenever no disk storage is open |
| BodyStorage.MemoryStorage.constructor | common/body_storage.go:37-45 | a memory store of the data at position 0, counted once |
| BodyStorage.MemoryStorage.Read | common/body_storage.go:47-54 | the next bytes, EOF, or closed |
| BodyStorage.MemoryStorage.Seek | common/body_storage.go:56-63 | the new position, refused before the start, or closed |
| BodyStorage.MemoryStorage.Bytes | common/body_storage.go:74-81 | all the data wherever the position is, or closed |
| BodyStorage.MemoryStorage.Close | common/body_storage.go:65-72 | closed, and uncounted only the first time |
| BodyStorage.DiskStorage.constructor | common/body_storage.go:100-167 | a disk store of the file's content at position 0, counted once |
| BodyStorage.DiskStorage.Read | common/body_storage.go:169-176 | the next bytes, EOF, or closed |
| BodyStorage.DiskStorage.Seek | common/body_storage.go:178-185 | the new position, refused before the start, or closed |
| BodyStorage.DiskStorage.Bytes | common/body_storage.go:198-230 | all bytes, and the position is where it was |
| BodyStorage.DiskStorage.Close | common/body_storage.go:187-196 | closed, and uncounted only the first time |
| BodyStorage.Interchangeable | common/body_storage.go:29-238 | the two stores answer every sequence of calls alike iff no empty read is made at the end |
| BodyStorage.SeekLands | common/body_storage.go:56-185 | a seek leads to its offset from the start, the position or the end, also past the end, but not before the start |
| BodyStorage.ReadsAddUp | common/body_storage.go:47-176 | reads of whatever sizes add up to the stored bytes from the position on, as many as were asked for or as there are |
| BodyStorage.OneRead | common/body_storage.go:47-176 | one read yields what is left, up to n bytes, and EOF iff nothing is left, but for an empty read of a file |
| BodyStorage.RewoundReadIsBytes | common/body_storage.go:74-230 | going back to the start and reading everything gives what Bytes gives from anywhere, and Bytes does not move |
| BodyStorage.ClosedForGood | common/body_storage.go:47-238 | after Close everything but Close and Size fails, forever, and the data is kept |
| BodyStorage.CreateBodyStorage | common/body_storage.go:241-259 | the data is stored on disk iff the cache is on, the size reaches the threshold, fits and the disk works, otherwise in memory |
| BodyStorage.CreateFromReader | common/body_storage.go:262-303 | what is stored, where, what is refused and what is counted, on either branch |
| BodyStorage.LimitIsKept | common/body_storage.go:282-290 | a stream is refused iff longer than maxBytes and otherwise stored whole, iff maxBytes is below the largest int64 or the stream is empty |
| Streams.File.ReadFull | common/body_storage.go:217-222 | exactly n bytes from the position on, or an error iff fewer are left |
| Opus.EightBytes | common/audio.go:229 | eight bytes are a number in base 256, the first one its lowest digit |
| Opus.GranuleReadsBack | common/audio.go:229 | every int64 written as eight bytes, lowest first, is read back as itself |
| Opus.WellKnownPositions | common/audio.go:229 | eight bytes FF are -1; 80 BB and six zeros are 48000 |
| Opus.SumConcat | common/audio.go:242-245 | the sizes in a segment table add up, piece by piece |
| Opus.SegmentSum | common/audio.go:242-245 | the body's size is the sum of the segment table |
| Opus.SkipBody | common/audio.go:234-248 | the reader ends behind the page, or fails iff the table is cut short |
| Opus.ScanOnce | common/audio.go:207-249 | one turn keeps what remains to be found and, going on, moves the reader forward despite the seek back |
| Opus.GetOpusDuration | common/audio.go:196-254 | the duration is the largest granule position from the start on, over 48000; the loop ends |
| Opus.NoOverlap | common/audio.go:219-226 | no signature begins in clean junk and runs into the page behind it |
| Opus.ReadsPage | common/audio.go:228-248 | at a page laid out as in section 6 of RFC 3533 the scanner reads its granule position and lands behind its last byte |
| Opus.GranulesMatch | common/audio.go:228-232 | the granule positions read at the pages' offsets are the written ones |
| Opus.ScannerFindsExactlyThePages | common/audio.go:207-249 | the offsets taken for pages are the written pages' iff no junk before a page holds the signature and none after the last could pass for a header |
| Opus.ScannerFindsTheLength | common/audio.go:204-252 | then, for pages written with these int64 positions, the duration is the largest of them over 48000, and at least 0 |
| RedisHash.SetObj | common/redis.go:107-145 | the field loop builds the hash the results below are about; DeletedAt is left out |
| RedisHash.Object.GetObj | common/redis.go:161-239 | reading succeeds iff the hash is not empty and every present field parses; on failure the fields before the failing one have been overwritten and those after it have not |
| RedisHash.HashAt | common/redis.go:118-145 | the hash has each stored field's own text under its name |
| RedisHash.FieldRoundTrip | common/redis.go:188-235 | what a field's own text gives over what the target held |
| RedisHash.ReadsBack | common/redis.go:107-239 | a stored struct is read without an error iff some field is stored and none is of an unsupported kind |
| RedisHash.RoundTrip | common/redis.go:107-239 | it comes back unchanged iff the target already agrees on what is not carried over: deletion times, structs, nil pointers, pointers to empty text |
| RedisHash.IntoZeroTarget | common/redis.go:188-220 | into a zeroed struct every string, int64 and bool comes back, also behind a pointer, but for a pointer to the empty string |
| Numbers.IntRoundTrip | common/redis.go:209-214 | printing and parsing a number are inverse iff it is an int64 |
| Numbers.ParsesExactly | common/redis.go:209-214 | exactly the texts that spell an int64, with or without a sign, are parsed, as what they spell |
| Numbers.KnownTexts | common/redis.go:124-144 | truth values and numbers are stored as the texts other readers expect |

## Left out

- Request parsing, JSON replies, sessions, logging, HTTP and database errors, and everything the cited functions only call: answers of such calls are parameters.
- Floating point: ratios and prices are reals, so rounding of the arithmetic itself is not modelled; NaN and infinities cannot come out of JSON.
- Concurrency inside one operation: operations that hold a mutex, and the Redis script, are single steps; the counters' check-then-act on the disk quota and the two-step clamp of their decrement are taken as atomic.
- What the JSON library makes of a key text is a parameter: an arbitrary partial function from texts to lists, of which the theorems assume only that elements are non-empty and fit, with their brackets and commas, into the text.
- KeyTable.Channel.GetKeyStatus: shows the stored used count only. The gateway overwrites it with the success count of the usage table for the same index (controller/channel.go:1576), and that table is not renumbered by deletions, so "rows stay" is about the stored counts. Paging, the three totals, key previews and the binding and usage details are absent.
- KeyTable.BulkDeleteIsDeleteDown: is an if-and-only-if for single-line keys that open no bracket; for others it goes from storable lists to equal tables only, because a list misread as a JSON array on the way can by chance end in the right rows.
- MultiKeyUsedQuota and MultiKeyPollingIndex, which the deletions do not renumber.
- That GORM's Updates skips zero fields is taken from the library; it is what makes an empty key text stay unwritten.
- The fallback from a failing Redis to the memory limiter, which mixes two stores, and ResetInviteRewardLimiter, whose substring match clears more than one inviter.
- Regular expressions in the ignore list: the engine is a parameter, any predicate on pattern and name.
- Billing.Account.PreConsume: is funded by the wallet, not by a subscription. The trust bypass is a price of 0, and a failed balance, period or token check is the request's `reserve` error.
- Billing.Account.Settle: does not model a wallet or token update that fails, nor subscription funding.
- Billing.Account.Refund: takes effect at once, where the gateway runs it in the background, and does not model subscription funding.
- Whether a request asks for the background task is a parameter fixed for the request, as its header and relay mode are.
- Channel disabling after an error, request logging, and the content of replies in the relay loops.
- Midjourney items for tasks that are not in the batch, and database errors of the compare-and-set; the time-out reason is an English rendering.
- Pointers shared between structs in RedisHash, types with a String method, and the layout of a DeletedAt text, which RedisHSetObj never writes.
- Reads of more than a gigabyte at once, offsets beyond the file system's limit, and I/O errors other than a disk that cannot be used at creation.
- The age sweep of cached files other than its effect on the counters, and ResetDiskCacheStats, ResetDiskCacheUsage and SyncDiskCacheStats.
- The caller of memoryStorage.Bytes could change the stored bytes through the returned slice; the model returns a value.
- The other audio formats, the OpenRouter conversion, URL and network filtering, and tables of constants: they rest on libraries or would only add easy members.
