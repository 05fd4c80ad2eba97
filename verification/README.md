# Verified model of the gateway's metering core

The gateway meters paid API calls: it charges a quota ledger, picks an upstream channel by
priority and weight, limits request rates, aggregates hourly usage, and relays streamed answers.
This project models those parts in Dafny and proves what they keep. Each part that the source
updates step by step is a class or a method with loops, proved against functions over values; the
theorems about all runs, histories and inputs are lemmas about those functions.

| module | what it models |
|---|---|
| `Ledger`, `LedgerStore`, `LedgerRuns` | user rows charged under an optimistic lock, recharge records drained and expired, and every interleaving of these transactions |
| `Settlement`, `Pricing` | pre-charge, settlement and refund of many interleaved requests, and the amounts they use |
| `BatchUpdate` | the batch updater against unconditional posting and against direct mode |
| `Channels`, `ChannelIndex` | channel and ability tables and the index built from them |
| `ChannelSelect`, `ChannelLimit` | the priority search, the weighted draw, the retry loop, the per-channel cap |
| `SlidingWindow` | the in-memory request limiter and its Redis twin |
| `UsageKey`, `UsageData` | hourly usage rows cached under text keys and flushed |
| `LineScanner`, `StreamRelay`, `StreamRuns` | the stream relay: line splitting, producer, consumer, schedules |
| `MergeMessages` | the merging of same-role messages |
| `ImageTokens` | image rescaling and the token count of messages |
| `Basics` | small shared types |

Time is an integer, real numbers stand in for floating point, random draws are arbitrary values in
the range of the call, JSON decoding and the tokenizer are parameters, and each database
transaction is one step. The exception is a charge, which is split into its read and its
version-checked write, so that other transactions can fall in between.

## Where the code does less than it seems to promise

- A user's recharge records can exceed the quota, and an expiry can then make the quota negative.
  It happens when the expiry job runs between the read and the write of a charge (the job does not
  change the version), or when a charge commits between the two separate transactions of a top-up
  (`controller/topup.go:169` and `:176`). Over whole runs the records stay within the quota if and
  only if every committing charge finds its amount and every new record finds room
  (`LedgerRuns.WithinIffFits`); the quota stays non-negative if and only if every committing charge
  and every tick of the job find what they take (`LedgerRuns.SolventIffPays`). `StaleReadRace` and
  `TopUpGapRace` reach a negative quota.
- The in-memory limiter is exact if and only if the window is at most one second longer than the
  collector's expiration. It and the Redis version round differently below one second. On a history
  they answer alike if and only if no request finds the deciding stamp exactly the window old by
  the clock but, earlier within its second, not yet by elapsed time (`SlidingWindow.TwinsAgreeIff`).
- Batch mode and direct mode end with the same rows if and only if direct mode refuses no decrease:
  batch mode posts a decrease even beyond the balance.
- The per-channel cap lets through at most nine requests in any sixty seconds, not ten, and nine
  is reached.
- Two different usage keys can share one text once a user has been renamed; a flush is exact if
  and only if no two keys logged since the last one do.
- The line scanner stops silently at a line that does not fit its 64 KiB buffer.
- Inserting a channel whose group or model list repeats a name leaves it without any ability, and
  the next index build panics if it is enabled and one of its groups has no other ability.
- When the second of two settlement calls fails, user and token disagree about the cost, by the
  amount that `Settlement.UserAndTokensDiffer` gives.

## Model

| member | source | states |
|---|---|---|
| LedgerStore.Store.IncreaseUserQuota | model/user.go:544-577 | negative amounts are refused, others are added to the quota of an existing user, with nothing else changed |
| LedgerStore.Store.IncreaseRechargeQuota | model/user.go:579-614 | which end date a record gets, when no record is written, and when the ratio is rejected |
| LedgerStore.Store.Redeem | model/redemption.go:49-104 | each error exactly in its case, and then nothing is changed, also after the credit; success credits once, records once and disables this code and no other |
| LedgerStore.Store.FetchRecords | model/user.go:655-661 | exactly the user's positive records, each once, by ascending end date |
| LedgerStore.Store.DrainRecords | model/user.go:669-702 | the loop's records are those of the drain specification and what is left over is max(0, amount - credit fetched) |
| LedgerStore.Store.CompareAndCharge | model/user.go:642-709 | commits iff the version is the one read and no record conflicts; then charges once over the fetched order, otherwise changes nothing |
| LedgerStore.Store.DecreaseUserQuota | model/user.go:616-722 | the charge is a run of the LedgerRuns machine: it arrives, reads with its balance check and writes while others step in between, and ends as that run says; success means exactly one debit, any error none |
| LedgerStore.Store.Attempt | model/user.go:629-721 | one attempt is one read step and, unless that refuses, one write step |
| LedgerRuns.AtMostTwoWrites | model/user.go:627-722 | no run tries to write a charge more than twice |
| LedgerRuns.UndisturbedArrival | model/user.go:627-722 | left alone, a charge succeeds if and only if the user exists and the quota covers it |
| LedgerRuns.ReachedNeverNegative | model/user.go:566-722 | where a run without expiry has led, the quota of the charged user is not negative |
| LedgerRuns.CodesAreUsedOnce | model/redemption.go:63-90 | over every run no code is used up twice, only enabled ones are, and none comes back |
| LedgerRuns.CodesPayOnce | model/redemption.go:63-90 | what redemptions have added to a user's quota is what the codes that he has used up are worth |
| LedgerStore.Store.ExpireRecharges | model/user.go:782-822 | one tick does the sweep, and nothing at all when no record has expired |
| LedgerStore.Store.SweepRecords | model/user.go:790-822 | the loop over expired records takes each from its user's quota once and deletes the empty records |
| LedgerStore.Store.ExpireOne | model/user.go:799-811 | one record of the loop: its amount leaves the quota of its user once and the record is emptied |
| Ledger.DrainTakesMin | model/user.go:669-702 | the drain removes exactly min(amount, total) from the user's records, nothing from other users', and none becomes negative |
| Ledger.AlongIsTotal | model/user.go:655-661 | the fetched records are all of the user's credit |
| Ledger.DrainIsGreedy | model/user.go:669-697 | a record is touched only when every earlier one in the fetched order is empty; amounts only go down |
| Ledger.DrainFrame | model/user.go:669-697 | records outside the fetched order, and users and end dates of all, stay as they are |
| Ledger.ExpiryIsExact | model/user.go:790-822 | quota and records of each user lose the same amount, the expired total, and no expired record with a positive amount survives |
| Ledger.SweepKeepsExactly | model/user.go:790-822 | of the records with an amount a tick keeps exactly those that never expire or end later |
| LedgerRuns.ChargesAreExact | model/user.go:627-722 | in every interleaving a successful charge subtracted its amount exactly once, any other nothing, and the quota is the opening value plus what is journalled |
| LedgerRuns.NeverNegative | model/user.go:566-722 | no interleaving of charges and credits makes the quota negative, as long as nothing expires |
| Ledger.ExpiryNeverNegativeIff | model/user.go:790-822 | no tick, whenever it comes, makes the quota negative iff the quota covers the credit that expires at all |
| LedgerRuns.StepWithinIff | model/user.go:566-822 | each step keeps the records within the quota iff a committing charge finds its amount and a new record finds room |
| LedgerRuns.WithinIffFits | model/user.go:566-822 | over a whole run the records never exceed the quota if and only if every step fits in this sense |
| LedgerRuns.SolventIffPays | model/user.go:566-822 | over a whole run the quota is never negative if and only if every committing charge and every tick of the job find what they take |
| LedgerRuns.StepBackedIff | model/user.go:627-822 | among all steps exactly a committing charge that eats into unrecorded credit breaks "records and unrecorded top-ups together never exceed the quota" |
| LedgerRuns.BackedIffCovered | model/user.go:566-822 | over a whole run records and unrecorded top-ups together stay within the quota if and only if every committing write finds its amount beyond the unrecorded credit |
| LedgerRuns.BackedKeepsBoth | model/user.go:566-822 | such runs keep the records within the quota and the quota non-negative |
| LedgerRuns.BackedIsSafe | model/user.go:790-822 | while covered, the unconditional subtraction of the expiry job leaves the quota non-negative |
| LedgerRuns.OrderlyRunsStayBacked | model/user.go:566-822 | runs that tear neither a charge nor a top-up apart keep the records covered throughout |
| LedgerRuns.StaleReadRace | model/user.go:634-652 | an expiry between read and write makes the quota negative by the charge, for every record and amount |
| LedgerRuns.TopUpGapRace | controller/topup.go:168-180 | a charge between a top-up's credit and its record does the same |
| Settlement.Gateway.DecreaseUserQuota | model/user.go:616-625 | succeeds iff the amount is not negative, the existing user has it and the database carries it out; takes it then, otherwise nothing |
| Settlement.Gateway.IncreaseUserQuota | model/user.go:544-553 | succeeds iff the amount is not negative and the database carries it out; gives it then, otherwise nothing |
| Settlement.Gateway.DecreaseTokenQuota | model/token.go:209-256 | succeeds iff the amount is not negative, the token exists and one of two attempts is not outrun; moves it then from remain to used, otherwise nothing |
| Settlement.Gateway.IncreaseTokenQuota | model/token.go:186-207 | succeeds iff the amount is not negative and the database carries it out; moves it back then, otherwise nothing |
| Settlement.Gateway.PreConsumeTokenQuota | model/token.go:281-329 | exactly when it is refused, held, or left with only the token charged, and what token and user have paid then |
| Settlement.Gateway.PreConsumeQuota | relay/controller/helper.go:155-181 | refused below the pre-charge, trusted with nothing taken above a hundred times of it, in between charged, and what each costs user and token |
| Settlement.DecisionByCases | relay/controller/helper.go:160-173 | a positive pre-charge is waived exactly when a hundred of them leave something of the quota; one unit less and it is charged |
| Settlement.Gateway.PostConsumeTokenQuota | model/token.go:258-279 | user first, then a limited token, in either direction; exactly when each call succeeds and what a failure leaves behind |
| Settlement.Gateway.PostConsumeQuota | relay/controller/helper.go:243-252 | the request ends up costing exactly its final quota, or what the failed call leaves, and exactly when |
| Settlement.Gateway.ReturnPreConsumedQuota | relay/util/billing.go:9-19 | a refunded request ends up costing nothing |
| Settlement.StepTakesItsCost | model/token.go:198-329 | every ledger call takes from token and user exactly what it adds to the request's cost |
| Settlement.AlwaysConserved | relay/controller/helper.go:155-252 | in every interleaving of any number of requests, with any calls failing, quota = opening + credits - costs, and remain + used of a token is constant |
| Settlement.FinishedRunsPayTheBills | relay/controller/text.go:152-174 | when all are finished the user has paid exactly the final charges |
| Settlement.UserAndTokensDiffer | model/token.go:258-329 | after any run that is at rest a user with limited tokens has spent more than the tokens by exactly the settlements that reached only the user, less the pre-charges that reached only a token |
| Pricing.MeteredWithinRatioPlusOne | relay/controller/helper.go:205-231 | the twice truncated charge lies within ratio + 1 below the exact one and never above it |
| Pricing.MeteredMonotone | relay/controller/helper.go:205-231 | more tokens never cost less |
| Pricing.PreChargeCases | relay/controller/text.go:45-69 | the pre-charge by price, by prompt, by 500 tokens or by the configured number, and when each applies |
| Pricing.FinalQuotaCases | relay/controller/helper.go:205-241 | nothing for no tokens, else metered or priced but at least one, times a reported image count |
| Pricing.FinalAtMostExact | relay/controller/helper.go:205-231 | token billing charges no more than the exact amount, or one, and no less than ratio + 1 below it |
| Pricing.TruncateTowardsZero | relay/controller/helper.go:206-209 | the conversion drops the fraction on both sides of zero |
| Pricing.FinalCoversPreCharge | relay/controller/text.go:45-69 | with the same positive prompt count the final charge is at least the pre-charge, also when multiplied by a positive image count |
| Pricing.NoImagesPayBackIff | relay/controller/helper.go:232-241 | with an image count that is not positive it is so only if there is nothing to pay back |
| BatchUpdate.BatchUpdater.AddNewRecord | model/utils.go:37-45 | one recorded delta, as a step of the machine |
| BatchUpdate.BatchUpdater.PostEntry | model/utils.go:56-74 | the switch posts an entry to the columns of its kind, a token delta to remain and, negated, to used |
| BatchUpdate.PostedColumns | model/utils.go:56-74 | which column each kind of delta changes, and by how much |
| BatchUpdate.BatchUpdater.FlushKind | model/utils.go:49-76 | swapping one map and posting its entries, with records arriving between all sub-steps, is a run of the machine that leaves nothing taken |
| BatchUpdate.BatchUpdater.BatchUpdate | model/utils.go:47-77 | a flush is such a run and takes every kind |
| BatchUpdate.StepRefines | model/utils.go:37-77 | recording posts the delta, unconditionally, to the settled database; every sub-step of a flush leaves it as it is |
| BatchUpdate.BatchRefinesPosting | model/utils.go:37-77 | in every interleaving and posting order, database + pending + taken is the result of posting every recorded delta at once and unconditionally |
| BatchUpdate.DirectPostsAllIff | model/user.go:616-652 | direct mode, which refuses user decreases beyond the balance and decreases that lose their lock, does the same iff it refuses none |
| BatchUpdate.DirectNeverNegative | model/user.go:634-652 | direct mode never charges a user below zero |
| BatchUpdate.RefusedOnlyWhen | model/user.go:634-652 | and refuses only a decrease beyond the balance or one that loses its lock |
| BatchUpdate.BatchAgreesWithDirectIff | model/user.go:616-652 | batch and direct mode agree on the recorded deltas, in every interleaving, iff direct mode refuses none of them |
| BatchUpdate.NothingLostOrDoubled | model/user.go:729-766 | per column and row: value + pending + taken = initial + everything recorded |
| BatchUpdate.QuietFlushSettles | model/utils.go:47-77 | after a flush with nothing new, everything recorded has been posted to the database itself |
| ChannelIndex.Store.AddAbilities | model/ability.go:424-444 | all rows of the lists are inserted, or none if a key repeats or exists |
| ChannelIndex.Store.DeleteAbilities | model/ability.go:446-448 | all abilities of the channel go and no other |
| ChannelIndex.Store.InsertChannel | model/channel.go:260-271 | the tables after an insert |
| ChannelIndex.Store.UpdateChannel | model/channel.go:273-285 | the tables after an update that recreates the abilities, also for an id that is no longer stored |
| ChannelIndex.Store.BatchDeleteChannels | model/channel.go:186-204 | the tables after a batch delete |
| ChannelIndex.Store.DeleteDisabledChannel | model/channel.go:392-395 | disabled channels go, their abilities stay |
| ChannelIndex.Store.UpdateChannelStatusById | model/channel.go:357-366 | the tables after a status change |
| ChannelIndex.AlwaysSynced | model/channel.go:158-395 | after any legal sequence of operations every channel has exactly the abilities of its lists, enabled as it is |
| ChannelIndex.InsertEffect | model/channel.go:260-271 | an insert stores the channel as it is, with an ability for exactly its pairs or none, and touches no other |
| ChannelIndex.UpdateEffect | model/channel.go:273-285 | an update replaces exactly the given fields and recreates exactly the channel's abilities |
| ChannelIndex.DeleteEffect | model/channel.go:186-204 | a delete removes these channels and all their abilities, and nothing else |
| ChannelIndex.DeleteDisabledEffect | model/channel.go:392-395 | exactly the channels of status 2 and 3 go |
| ChannelIndex.SetStatusEffect | model/channel.go:357-366 | a status change sets the status and the abilities of that channel, and nothing else |
| ChannelIndex.InsertServes | model/channel.go:260-271 | after an insert exactly the new channel serves its pairs in addition, if enabled |
| ChannelIndex.UpdateServes | model/channel.go:273-285 | after an update the channel serves exactly its new pairs, if enabled; others as before |
| ChannelIndex.DeleteServes | model/channel.go:186-204 | deleted channels serve nothing; others as before |
| ChannelIndex.DeleteDisabledServes | model/channel.go:392-395 | deleting disabled channels changes nothing that is served |
| ChannelIndex.SetStatusServes | model/channel.go:357-366 | after a status change the channel serves its pairs iff it is enabled; others as before |
| ChannelIndex.InsertKeepsRowsIff | model/ability.go:424-444 | after an insert the ability rows are exactly those of the channels if and only if its lists name nothing twice; otherwise the channel has none |
| ChannelIndex.StatusOfMissingChannelIff | model/channel.go:357-366 | a status change on a missing channel is harmless unless it enables abilities left behind |
| ChannelIndex.UpdateOfMissingChannelIff | model/channel.go:273-285 | an update of a missing channel is harmless unless it creates enabled abilities |
| ChannelIndex.EnabledChannels | model/cache.go:179-182 | every enabled channel once, in any order, and no other |
| ChannelIndex.EnterChannels | model/cache.go:189-206 | the loop panics iff a channel lists a group without a map; otherwise each pair holds the channels that list it, in order |
| ChannelIndex.AddChannel | model/cache.go:196-206 | the channel is appended for each of its pairs and no other; a missing group map is the panic |
| ChannelIndex.InitChannelCache | model/cache.go:176-216 | for any tables: the build panics iff an enabled channel lists a group unknown to the abilities |
| ChannelIndex.BuildIndex | model/cache.go:176-216 | from tables in step it never panics and holds for every pair exactly the channels with an enabled ability, each once, by descending priority |
| ChannelIndex.RepeatedNamePanicsIff | model/cache.go:189-206 | after inserting a channel with a repeated name into tables in step, the build panics iff the channel is enabled and one of its groups has no other ability |
| Channels.SortKeepsAll | model/cache.go:285-293 | the sort neither loses nor duplicates a channel |
| ChannelSelect.FilterAndWeightChannels | model/cache.go:344-354 | exactly the non-excluded channels of the level, and their total weight |
| ChannelSelect.GetNextLowerPriority | model/cache.go:412-421 | the largest priority below the current one, none iff there is none |
| ChannelSelect.RandomSelection | model/cache.go:356-370 | a channel of the list that is not limited, none iff all are; its status alone is updated |
| ChannelSelect.WeightedRandomSelection | model/cache.go:372-394 | without limited channels the draw picks the entry in whose slice it falls; an exhausted or limited draw never leaves the list; a limited channel must be granted and is then counted twice, by check and update, no other status changes |
| ChannelSelect.ExactlyProportional | model/cache.go:372-394 | precisely weight(c) of the possible draws belong to c, none to a zero weight |
| ChannelSelect.EveryDrawSelectsOne | model/cache.go:372-394 | each draw belongs to exactly one entry |
| ChannelSelect.ResolveInitialPriority | model/cache.go:329-337 | the top priority, or on the last retry the second distinct one |
| ChannelSelect.TryLevel | model/cache.go:339-354 | one level of the search: a non-excluded channel of exactly that priority, found whenever there is one and none is limited |
| ChannelSelect.SelectChannel | model/cache.go:295-327 | never an excluded channel or one above the starting level; without limited channels it finds one iff there is one, of maximal priority; only the chosen channel's status is counted, whatever was refused before |
| ChannelSelect.FilterByTools | model/cache.go:233-242 | exactly the channels that pass the tool filter, still sorted |
| ChannelSelect.SearchOrder | model/cache.go:274-278 | the search runs over exactly the permitted channels, by descending priority |
| ChannelSelect.CacheGetRandomSatisfiedChannel | model/cache.go:250-282 | the same for the channels of the group and model that pass the tool filter |
| ChannelSelect.NextChannel | controller/relay.go:83-87 | a round takes an untried channel, below the highest priority on the last retry, and else, with none limited, one of the highest untried priority |
| ChannelSelect.RetryByStatus | controller/relay.go:187-207 | all failures are tried again but those of status 400 and those of a request for a specific channel |
| ChannelSelect.IndexedModel | model/cache.go:257-259 | every gizmo model is looked up under one name, any other under its own |
| ChannelSelect.Relay | controller/relay.go:45-118 | at most 1 + RetryTimes attempts, no channel twice, the "same as last failed" skip never taken, and why it stops |
| ChannelSelect.Retry | controller/relay.go:73-104 | the retry loop: each attempt's channel comes from that round's index and was not tried before |
| ChannelLimit.ChannelLimits.CheckRateLimit | model/ability.go:184-211 | what a check grants and records, for its key only |
| ChannelLimit.ChannelLimits.UpdateRateLimitStatus | model/ability.go:213-236 | what an update records, for its key only |
| ChannelLimit.AtMostFivePerWindow | model/ability.go:184-236 | at most five grants per window, whatever the interleaving and the clocks |
| ChannelLimit.ResetsApart | model/ability.go:184-236 | window starts are more than a minute apart |
| ChannelLimit.AtMostNinePerMinute | model/ability.go:184-236 | with a monotone clock any sixty seconds see at most nine grants |
| ChannelLimit.NineIsAttained | model/ability.go:184-236 | a history with nine |
| ChannelLimit.AtMostThreeWhenPrompt | model/cache.go:378-391 | at most three per window when each update runs before the next check |
| SlidingWindow.InMemoryRateLimiter.Request | common/rate-limit.go:44-70 | the answer and the new queue |
| SlidingWindow.InMemoryRateLimiter.ClearExpiredItems | common/rate-limit.go:28-41 | exactly the idle keys are dropped |
| SlidingWindow.MemoryExact | common/rate-limit.go:28-70 | accepted iff fewer than max earlier accepted requests are younger than the window, although only max stamps are kept and idle keys are dropped |
| SlidingWindow.MemoryExactIff | common/rate-limit.go:28-70 | exact on all histories iff duration <= expiration + 1 |
| SlidingWindow.TooLongWindowFails | common/rate-limit.go:28-41 | a failing history for every longer window |
| SlidingWindow.QueueBounded | common/rate-limit.go:44-70 | the queue never exceeds the limit, on any history |
| SlidingWindow.RedisRateLimiter.LPush | middleware/rate-limit.go:26-28 | a push puts the stamp in front and keeps the time to live of an existing list |
| SlidingWindow.RedisRateLimiter.Expire | middleware/rate-limit.go:26-28 | the time to live of an existing list is renewed |
| SlidingWindow.RedisRateLimiter.Request | middleware/rate-limit.go:16-60 | the reply and the new list and time to live |
| SlidingWindow.RedisLifetime | middleware/rate-limit.go:26-58 | every answered request renews the time to live, refused ones too; a key goes only after its end |
| SlidingWindow.RedisExact | middleware/rate-limit.go:16-60 | the Redis limiter meets the same specification at millisecond precision, whatever lapses |
| SlidingWindow.DecisionsAgreeForAllLimitsIff | middleware/rate-limit.go:30-55 | on the same accepted requests both decide alike under every limit iff none of them came later within its second |
| SlidingWindow.TwinsAgreeIff | middleware/rate-limit.go:16-69 | over a whole history both answer every request of a key alike iff no request finds its deciding stamp rounded differently |
| SlidingWindow.TwinsAgree | middleware/rate-limit.go:16-69 | so they do when the key's requests never come earlier within their second |
| SlidingWindow.TwinsDiffer | middleware/rate-limit.go:16-69 | two requests that memory accepts and Redis refuses, for all instants with the second earlier within its second |
| UsageKey.DecimalInjective | model/usedata.go:58 | two numbers with the same decimal form are equal |
| UsageKey.TextInjective | model/usedata.go:58 | the text identifies the key when the user id determines the name |
| UsageKey.RenamedUsersCollide | model/usedata.go:58 | otherwise two keys of one user can share a text, for any id, name and numbers |
| UsageData.LoggedIs | model/usedata.go:55-80 | the hour is the last full one and every argument has its own column |
| UsageData.UsageStore.LogQuotaDataCache | model/usedata.go:55-80 | the entry under the event's text gains its sums, or is created |
| UsageData.UsageStore.LogQuotaData | model/usedata.go:82-86 | one more event, cut to the hour, with the table untouched |
| UsageData.UsageStore.SaveRow | model/usedata.go:96-108 | the row's sums reach the table once, on its own key only, and keys stay unique |
| UsageData.UsageStore.SaveRows | model/usedata.go:96-109 | the loop adds every cached entry to the table exactly once |
| UsageData.UsageStore.SaveQuotaDataCache | model/usedata.go:88-112 | in any order of entries, the table gains for every key exactly what was logged iff no two keys share a text; with fixed names it shows everything logged |
| UsageData.CacheExactIff | model/usedata.go:55-80 | the cache holds for every key what was logged iff no two logged keys share a text |
| UsageData.FlushExactIff | model/usedata.go:88-112 | the same for a finished flush |
| UsageData.FixedNamesStayExact | model/usedata.go:55-112 | while each id keeps one name, table = everything logged stays true over any number of flushes |
| UsageData.UsageStore.TableAndCacheExact | model/usedata.go:55-112 | at any moment, then, table and cache together hold for every key exactly what was logged |
| LineScanner.Split | relay/channel/openai/main.go:24-35 | the token is the text before the first newline, or at the end all that is left; none iff there is no newline yet, or nothing at the end |
| LineScanner.Scan | relay/channel/openai/main.go:23-35 | however the body is cut into reads, the scanned lines are the lines of the body, and all of it iff no stretch of the buffer's size is without a newline |
| LineScanner.NothingLostIff | relay/channel/openai/main.go:23-35 | the same for the lines of a body, whether its end is reported with its last bytes or after them |
| LineScanner.NoNewlineInside | relay/channel/openai/main.go:24-35 | no line goes beyond a newline |
| StreamRelay.LineVerdict | relay/channel/openai/main.go:43-108 | which lines end the stream, are held as stop lines, dropped or forwarded, and which chunks count for the text |
| StreamRelay.ForwardedInOrder | relay/channel/openai/main.go:39-113 | the forwarded lines are exactly those to be passed on, each in its place |
| StreamRelay.ClosingIs | relay/channel/openai/main.go:114-122 | after a stop line the fixed message or, without one, that line; otherwise an empty message |
| StreamRelay.SaidJoin | relay/channel/openai/main.go:67-97 | the texts of choices add up in order |
| StreamRelay.SpokenJoin | relay/channel/openai/main.go:67-97 | the texts of lines add up in order |
| StreamRelay.SaidOne | relay/channel/openai/main.go:67-78 | a choice says its content, then names and arguments of its tools |
| StreamRelay.AddChoices | relay/channel/openai/main.go:67-97 | text and tool count of a chunk, and whether it stops the stream |
| StreamRelay.AddTools | relay/channel/openai/main.go:74-77 | names and arguments of the tools, in order |
| StreamRelay.TakeLine | relay/channel/openai/main.go:47-108 | the verdict on a line: dropped, end, held stop line, forwarded |
| StreamRelay.Produce | relay/channel/openai/main.go:39-128 | sent are the forwardable lines before the end in order, one closing message, one [DONE]; text and tools cover the lines up to the stop line |
| StreamRuns.ClientSeesAPrefix | relay/channel/openai/main.go:39-141 | under every schedule, also when the client goes away, each event so far is the message due at its place less one carriage return, or [DONE] for one that starts so |
| StreamRuns.StoppedMeansComplete | relay/channel/openai/main.go:125-141 | when the handler returns on the stop signal there is such an event for every message and the returned text is complete |
| StreamRuns.TidyShows | relay/channel/openai/main.go:126-131 | a message is shown as it is, less one carriage return at its end; one that starts with [DONE] as just that |
| StreamRuns.NeverStuck | relay/channel/openai/main.go:39-141 | before that one of the two can always move |
| StreamRuns.EveryFullRunIsComplete | relay/channel/openai/main.go:39-141 | runs are bounded, and one that cannot go on has shown everything |
| StreamRuns.ExactlyOneDone | relay/channel/openai/main.go:125-141 | for chats and completions the last event and no other is a [DONE] |
| StreamRuns.OtherModesRepeatDoneIff | relay/channel/openai/main.go:125-141 | in other modes an earlier event is a [DONE] too iff a line before the end starts with it and goes on |
| MergeMessages.RolesSettled | relay/channel/anthropic/main.go:211-222 | only the first message can be the system's; no role, or a later system role, means the user; other roles and all contents stay |
| MergeMessages.TrimCuts | relay/channel/anthropic/main.go:226 | trimming cuts all quotes at both ends and nothing else |
| MergeMessages.MergedCuts | relay/channel/anthropic/main.go:226 | a merged text is the text so far, a space and the next text, with only the quotes at its ends cut |
| MergeMessages.Append | relay/channel/anthropic/main.go:219-240 | one turn of the loop on the messages so far |
| MergeMessages.Merge | relay/channel/anthropic/main.go:207-241 | the loop yields one message per maximal group of same-role texts |
| MergeMessages.GroupsDivide | relay/channel/anthropic/main.go:207-241 | the groups keep all messages in order and could not be larger |
| MergeMessages.DivisionIsUnique | relay/channel/anthropic/main.go:207-241 | there is no other such division |
| MergeMessages.NothingLeftToMerge | relay/channel/anthropic/main.go:224-231 | no two neighbouring plain texts of one role remain |
| MergeMessages.EachGroupKept | relay/channel/anthropic/main.go:224-238 | role kept; texts without quotes are the sources' joined by single spaces; other messages as they were, empty ones filled |
| MergeMessages.MergedMeans | relay/channel/anthropic/main.go:226 | trimming and joining changes nothing but quotes |
| ImageTokens.RescaledFits | relay/channel/openai/token.go:226-235 | the result fits both bounds, no side grows, sizes that fit and only they stay, a bound is met exactly |
| ImageTokens.RescaledTwice | relay/channel/openai/token.go:226-235 | rescaling twice changes nothing more |
| ImageTokens.RescaledShape | relay/channel/openai/token.go:226-235 | the shape is kept to within a pixel by each of the two reductions, which are made only where needed |
| ImageTokens.AtMostEightTiles | relay/channel/openai/token.go:235 | at most eight tiles, and eight for the largest size |
| ImageTokens.TilesAcross | relay/channel/openai/token.go:235 | the least number of tiles that reach across a side |
| ImageTokens.Prices | relay/channel/openai/token.go:204-244 | the prices of low and high detail for both kinds of model |
| ImageTokens.ClaudePrices | relay/channel/openai/token.go:246-267 | the flat prices by size, and per tile beyond |
| ImageTokens.MessagePieces | relay/channel/openai/token.go:112-202 | what role, name, text and each part add to a message, and the three tokens of one without content |
| ImageTokens.PartPieces | relay/channel/openai/token.go:132-190 | what each part adds; unreadable ones nothing |
| ImageTokens.Rescale | relay/channel/openai/token.go:226-235 | the reassigned sides are those of the rescaling |
| ImageTokens.CountImageTokens | relay/channel/openai/token.go:204-244 | cost by detail option, and the error cases |
| ImageTokens.CountParts | relay/channel/openai/token.go:132-190 | the inner loop's sum; parts that cannot be read add nothing |
| ImageTokens.CountTokenMessages | relay/channel/openai/token.go:112-202 | the loop's sum over messages and parts |
| ImageTokens.ImagesAddAtMost | relay/channel/openai/token.go:112-244 | n images add at most 1445 n tokens (48169 n for gpt-4o-mini), and at least nothing |

## Left out

- Redis quota caching (model/cache.go:78-146): it drifts from the database until its time to live, so the cached quota is a parameter of the pre-charge decision.
- Admin edits of quota and whole-row saves of stale users.
- Recharge records in batch mode: decreases bypass them there.
- Version numbers of recharge records: their check is an arbitrary conflict that rolls the charge back; user versions are assumed fresh.
- Early returns after the pre-charge without a refund (relay/controller/text.go:79-81, 119-125, 129-135, 146-149).
- Settlement.Gateway.DecreaseTokenQuota: whether an attempt is outrun by another update is arbitrary; the subtraction is relative, so no stale value is written.
- The return of postConsumeQuota when usage is nil (relay/controller/helper.go:184-187): it leaves the pre-charge unsettled.
- Token id 0, for which GetTokenById returns no token and the settlement panics.
- BatchUpdate.BatchAgreesWithDirectIff: direct mode without recharge records, and without failing increases.
- Failing database updates inside a flush, which the batch updater only logs.
- Channel used_count in batch mode: it counts flushes instead of calls.
- handleTokenError (model/channel.go:486-498), which breaks the ability tables.
- The database path of channel selection (model/ability.go:238-420): its weighted pick is not proportional.
- Availability at levels with rate-limited channels: a refused draw on the last entry falls through to a lower level.
- Columns that the proofs do not need: start dates, redemption times, priorities and weights of ability rows, most channel fields.
- Splitting and trimming of the comma-separated group and model lists.
- The in-place sort of a slice that concurrent requests share: the model sorts a copy, any stable order by priority and weight.
- ChannelIndex.SortEach: the per-group and per-model loop over maps is a comprehension.
- LedgerStore.Store.Others: stands for all transactions of other requests by its contract alone; LedgerRuns says what they are.
- StreamRelay.Produce: sends are appended to a list; the rendezvous with the consumer is in StreamRuns.
- The bytes of a rendered event, and the goroutine that stays blocked after the client has gone away.
- Readers that return no bytes and no error over and over.
- MergeMessages.Merge: the conversion to the provider's own message format after the merge is not modelled.
- ImageTokens.RescaledFits: rounding of float64, which can make a side one pixel smaller.
- Pricing.MeteredWithinRatioPlusOne: holds for exact arithmetic, not for float64 rounding.
- Negative token counts, hours before the epoch and negative ids in usage keys.
- The HTTP layer, sessions, notifications, provider adaptors and front ends.
