# Verified models of the gateway's stateful core

This project models, in Dafny, the parts of the gateway whose correctness is not visible in any one function: a lock protocol with payment fulfilment on top of it, a reconciliation cycle, a rate limiter, channels with several keys, request body storages with shared counters, a price comparison, the settlement of video tasks, and a scanner for Ogg pages. Each module states what the component is for, in terms independent of its code where there is such a notion, and proves it for all inputs, all runs or all interleavings. `dafny verify dfyconfig.toml` checks everything.

| modules | component |
|---|---|
| `OrderLocks`, `OrderLockTable` | the reference-counted lock per order: threads interleave by atomic steps, and the code over heap objects is shown to be that protocol |
| `TopUps`, `TopUpRuns` | the payment handlers that run under the lock, each database access a step that may fail, and two particular runs |
| `Texts`, `NameLists`, `UpstreamModels` | ordered duplicate-free name lists, and detect, select, apply, detect again |
| `RateLimiter` | a bounded queue per key against the full log of accepted requests |
| `MultiKeys`, `KeyAppend`, `KeyPages` | a channel's key text and sparse status maps as a sequence of records |
| `BodyStorage`, `BodyBackends` | one interface, two backends, and their creation |
| `DiskAccounting`, `DiskRuns`, `DiskCache` | the shared cache counters: atomic steps, particular runs and calls one at a time, and objects |
| `RatioDiff`, `PriceSelection` | the difference table of prices, and the choice among providers |
| `VideoSettlement` | polling, re-pricing and refunding a video task |
| `OggScanner` | finding the largest granule position of an Opus stream |
| `Numbers`, `Options` | bytes, 64-bit integers, truncation, and optional values |

Where the code does not do what its comments or its callers suggest, the model follows the code, and a theorem says exactly when the expected property holds:

- A success callback credits at most once, but not exactly once: the order becomes a success before the quota is written. It is credited exactly once unless that write fails, and then nothing ever credits it (`TopUps.SettledExactlyOnce`, `TopUps.LostIsNeverCredited`; `TopUpRuns` has a run of each kind).
- The limiter is exact, and the requests it accepts are spaced, if and only if the window is at most one second longer than the expiration (`RateLimiter.ExactIffKeptLongEnough`, `RateLimiter.AcceptancesAreSpaced`).
- Model lists are stored joined by commas, so an upstream name with a comma comes back in pieces and is detected again; a model name that begins with `regex:` is read as a pattern when it is ignored, and lifts a rule when it is added. Whatever was selected, detecting again agrees with what the administrator was told if and only if every published name is treated as was meant, pieces counted, and no piece is an unknown name (`UpstreamModels.RedetectIff`). Applying everything converges if and only if no pending name has a comma and no rule is lifted that a published name depends on (`UpstreamModels.ApplyAllConverges`, `UpstreamModels.LiftedRuleExample`).
- Deleting keys rewrites a key list as lines. It deletes what was asked for if and only if some key remains and the remaining keys survive being joined and split; keys with newlines, or an empty first or last key, do not (`MultiKeys.RereadsIffPlain`). Deleting the auto-disabled keys of a channel whose keys are all auto-disabled deletes none and enables all (`MultiKeys.AllAutoDisabledComesBack`).
- Appending rewrites a key list as lines too. Read back from the saved row, the keys that were there stay a prefix, and their records stay at their indices, if and only if none of them has a newline and the list does not begin or end with an empty key; a JSON array with an element printed over two lines is split. A key text that looks like a JSON array and is none is replaced by the appended keys (`KeyAppend.ExistingStayPrefix`, `KeyAppend.TwoLineElement`, `KeyAppend.MalformedIsReplaced`).
- A zero-length read at the end of a body tells the two backends apart, and nothing else does (`BodyStorage.Indistinguishable`).
- The comment above the cleanup of cache files says that it does not update the statistics; it does. One call at a time, the counters are exact after every call if and only if every cleanup takes place while no storage has a file open; in any interleaving they are exact at every step if and only if no cleanup takes anything off. A file whose storage is still open is taken off twice, the second time from another storage's (`DiskRuns.ExactIffSweepsFindNothingOpen`, `DiskAccounting.ExactIffNothingUncounted`, `DiskRuns.CleanedFileIsTakenTwice`).
- A null or the word "same" from an upstream passes for a difference but is not shown as one; the result is complete if and only if no differing value is one of these (`RatioDiff.CompleteIffNoneHidden`, `RatioDiff.HiddenDifference`).
- The choice among prices closer than epsilon depends on the providers. Over name-sorted lists the chosen price is independent of who offers which, and the lowest, if and only if no price lies above the lowest one by less than epsilon; and a given list of offers is decided alike in every order if and only if one of them is replaced by no other (`PriceSelection.OnePriceIffGapClear`, `PriceSelection.OrderIrrelevantIffUnbeaten`).
- Polling a video task conserves the user's money if and only if it is not one of three failures: a refused refund is lost for good, a failed task that is reported finished after all is free, and a charge whose row could not be saved is taken again by the next poll (`VideoSettlement.ConservedIffNoLeak`, `VideoSettlement.RefusedRefundIsLost`, `VideoSettlement.RevivedTaskIsFree`, `VideoSettlement.UnsavedChargeIsTakenTwice`).

## Model

| member | source | states |
|---|---|---|
| OrderLocks.RunKeepsInv | controller/topup.go:268-308 | In every run of any number of threads: attached threads agree with the table about their mutex, reference counts are the exact numbers of counted threads, a mutex is locked exactly while one thread is in its critical section, and only one thread is inside the creation lock |
| OrderLocks.MutualExclusion | controller/topup.go:279-308 | At most one thread is between LockOrder(o) and the mutex release of UnlockOrder(o) |
| OrderLocks.UnlockLoadsHeldMutex | controller/topup.go:294-300 | The look-up outside the creation lock finds the mutex the caller holds; an unlocked mutex is never unlocked |
| OrderLocks.EntryIffCounted | controller/topup.go:279-308 | Outside the creation lock an order has an entry exactly while some thread is counted on it, and the count is the number of those threads |
| OrderLocks.NoDeadlock | controller/topup.go:279-308 | While any thread is inside a call, some thread can move |
| OrderLocks.EveryScheduleDrains | controller/topup.go:279-308 | Without new calls every schedule ends after a bounded number of steps, and a state is stuck exactly when all threads are idle and the table is empty |
| OrderLockTable.LockOrderAlone | controller/topup.go:279-291 | Run by one thread undisturbed, the steps of LockOrder end with the mutex locked, the count one higher and an entry there |
| OrderLockTable.UnlockOrderAlone | controller/topup.go:294-308 | Run undisturbed, the steps of UnlockOrder release the mutex and delete the entry exactly when the count reaches zero |
| OrderLockTable.OrderLockTable.LockOrder | controller/topup.go:279-291 | The code over heap objects does what those steps come to |
| OrderLockTable.OrderLockTable.UnlockOrder | controller/topup.go:294-308 | Likewise; without an entry it does nothing |
| TopUps.ExecutionIsSafe | controller/topup.go:373-408 | In every interleaving of callbacks, repairs and failing database calls: locks stay safe, what a handler read still describes the row, every order is settled once if it became a success and never otherwise |
| TopUps.CreditedAtMostOnce | controller/topup.go:373-408 | An order is credited at most once, only when its row is a success, to its user: for Epay the integer part of Amount times QuotaPerUnit, for Stripe Money times QuotaPerUnit or the integer part of that |
| TopUps.WholeQuota | controller/topup.go:398-400 | With whole numbers the credit of an Epay order is Amount times QuotaPerUnit |
| TopUps.StripeFulfilOutcome | model/topup.go:109-160 | A successful callback marks a pending Stripe order and credits Money times QuotaPerUnit in one commit, and does nothing to any other |
| TopUps.StripeExpireOutcome | model/topup.go:82-107 | An expired session marks a pending Stripe order as expired and does nothing to any other |
| TopUps.StripeFailOutcome | controller/topup_stripe.go:231-255 | A failed payment reads a pending Stripe order and in a second step, if the database obeys, marks it as failed |
| TopUps.AdminCompleteOutcome | model/topup.go:320-391 | An administrator completes a pending order of any provider and credits the integer part of its worth if that is positive, and otherwise does nothing |
| TopUps.SettledExactlyOnce | controller/topup.go:376-406 | With no handler at work, a success reached in this process was credited exactly once or its quota write failed exactly once |
| TopUps.StatusIsAbsorbing | model/topup.go:82-160 | No action changes the row of an order that is no longer pending |
| TopUps.StripeFailureIsGuarded | controller/topup_stripe.go:222-257 | The failure handler changes only a row that is a pending Stripe order at the moment of the write, and only its status |
| TopUps.LostIsNeverCredited | controller/topup.go:388-404 | After a failed quota write the order stays a success without credit, whatever callback or manual completion follows |
| TopUpRuns.CreditRun | controller/topup.go:373-406 | From any pending Epay order there is a run of one callback after which it is a success and was credited once with the integer part of Amount times QuotaPerUnit, or, if that is negative, not at all |
| TopUpRuns.LossRun | controller/topup.go:388-404 | There is a run of one callback after which it is a success that was not credited, because the quota write was refused |
| Texts.TrimSlice | controller/channel_upstream_update.go:97-102 | Trimming yields the slice between the first and the last character that is not dropped |
| Texts.SplitJoin | model/channel.go:289-294 | Splitting undoes joining when no part contains the separator |
| NameLists.NormalizeIsClean | controller/channel_upstream_update.go:97-102 | Normalized lists hold trimmed names that are not blank, each once |
| NameLists.NormalizeMember | controller/channel_upstream_update.go:97-102 | They hold exactly the trimmed names of the input that are not blank |
| NameLists.NormalizeGrows | controller/channel_upstream_update.go:97-102 | They are in the order of the first occurrences: a longer input only adds at the end |
| NameLists.CleanIsNormal | controller/channel_upstream_update.go:97-102 | Normalizing a clean list changes nothing |
| UpstreamModels.MergeModelNames | controller/channel_upstream_update.go:104-118 | The loop over the set of names seen computes the merge |
| UpstreamModels.SubtractModelNames | controller/channel_upstream_update.go:120-129 | Set building and filter compute the difference |
| UpstreamModels.IntersectModelNames | controller/channel_upstream_update.go:131-140 | Set building and filter compute the intersection |
| UpstreamModels.MergeFacts | controller/channel_upstream_update.go:104-118 | A merge is clean and holds exactly the names of either list |
| UpstreamModels.MergeIsBoth | controller/channel_upstream_update.go:104-118 | A merge is both lists one after the other, normalized |
| UpstreamModels.SubtractFacts | controller/channel_upstream_update.go:120-129 | A difference is clean and holds exactly the names of the first list that are not in the second |
| UpstreamModels.IntersectFacts | controller/channel_upstream_update.go:131-140 | An intersection is clean and holds exactly the names of both lists |
| UpstreamModels.AddWins | controller/channel_upstream_update.go:142-147 | A name is in the result exactly when it was there or is added, and is not removed unless it is added |
| UpstreamModels.PendingAreFilters | controller/channel_upstream_update.go:176-235 | The pending lists are the upstream names that nothing covers or ignores and the local names the upstream lacks, in order, clean |
| UpstreamModels.DetectedIff | controller/channel_upstream_update.go:196-234 | Which names are pending, in terms of the rules' own text: a rule that begins with the prefix matches as the trimmed rest matches, any other only its own name |
| UpstreamModels.RuleReads | controller/channel_upstream_update.go:214-220 | Which text of a rule reaches the regular-expression engine |
| UpstreamModels.LocalModelsAreParts | model/channel.go:289-294 | The local models are the parts of the stored text between commas, normalized |
| UpstreamModels.CheckLeaves | controller/channel_upstream_update.go:384-398 | What a check leaves in the models and in every setting |
| UpstreamModels.StoreAndLoad | controller/channel_upstream_update.go:799-803 | Storing a clean list and reading it back loses nothing when no name has a comma |
| UpstreamModels.StoredAsPieces | model/channel.go:289-294 | Any list, stored and read back, is the pieces of its names at the commas, normalized |
| UpstreamModels.ChosenIff | controller/channel_upstream_update.go:796-802 | What is chosen of a selection is exactly what was selected and is pending; a removal gives way to an addition |
| UpstreamModels.ChosenInOrder | controller/channel_upstream_update.go:799-802 | It is in the order selected |
| UpstreamModels.RemainingIff | controller/channel_upstream_update.go:815-816 | What remains pending is exactly what was pending and not selected |
| UpstreamModels.NextIgnoredInOrder | controller/channel_upstream_update.go:811-814 | The rules after applying are the old ones and then the newly ignored names, without the added ones |
| UpstreamModels.NextModelsShape | controller/channel_upstream_update.go:791-800 | Applying keeps the order of the kept models and puts the chosen additions last |
| UpstreamModels.RedetectIffNoComma | controller/channel_upstream_update.go:176-235 | After applying any selection, detecting again against the same upstream gives the remaining lists, as sequences, if and only if no chosen addition has a comma (no upstream name reading as a regex rule) |
| UpstreamModels.RedetectIffRulesHarmless | controller/channel_upstream_update.go:213-221 | With names that read as rules, and without commas, it does so if and only if the stored rules treat every open name as was meant |
| UpstreamModels.RedetectIff | controller/channel_upstream_update.go:176-235 | After applying any selection, whatever its names, detecting again gives the remaining lists, as sequences, if and only if added names with a comma are silenced, every other open name is covered exactly if it was to be ignored, and every piece of an added name is published or the source of a redirect |
| UpstreamModels.ApplyAllConverges | controller/channel_upstream_update.go:884-889 | Applying everything pending makes the next detection empty in both lists if and only if no pending name has a comma and adding names that equal stored rules lifts no rule an open name depends on |
| UpstreamModels.LiteralsAreHarmless | controller/channel_upstream_update.go:213-221 | Pending names that do not begin with the rule prefix lift none |
| UpstreamModels.AutoSyncConverges | controller/channel_upstream_update.go:384-396 | After an automatic sync the next detection adds nothing and removes the same names, if and only if no addition has a comma |
| UpstreamModels.CommaExample | controller/channel_upstream_update.go:802-803 | The upstream model "a,b" is pending again after everything pending was applied |
| UpstreamModels.RegexNameExample | controller/channel_upstream_update.go:214-219 | A model name that begins with the rule prefix is still pending after it was ignored by name |
| UpstreamModels.LiftedRuleExample | controller/channel_upstream_update.go:811-814 | A model published under the name of a stored rule is added, the rule is lifted, and what it kept away is pending next |
| UpstreamModels.ChannelRecord.CheckAndPersist | controller/channel_upstream_update.go:360-407 | The channel and its row after a check: skipped, failed, stored, automatically applied |
| UpstreamModels.ChannelRecord.ApplyUpdates | controller/channel_upstream_update.go:783-831 | The channel and its row after applying a selection; the reported lists hold exactly what was selected and pending, and what is left |
| RateLimiter.RequestAgrees | common/rate-limit.go:45-70 | One request: the queue decides as the full log of accepted requests does and still represents it |
| RateLimiter.SweepAgrees | common/rate-limit.go:28-43 | One sweep loses nothing that still counts, if entries are kept long enough |
| RateLimiter.RefinesFullLog | common/rate-limit.go:28-70 | With a clock that never goes back and sweeps at any time, a request is refused exactly when the full log has the maximum of acceptances younger than the duration |
| RateLimiter.ExactIffKeptLongEnough | common/rate-limit.go:28-70 | The limiter is exact in every run if and only if the duration is at most the expiration plus one second |
| RateLimiter.ShortExpirationFails | common/rate-limit.go:34-39 | A run that a shorter expiration decides wrongly |
| RateLimiter.AcceptedIsLog | common/rate-limit.go:45-70 | The timestamps the limiter accepts are those of the full log, if entries are kept long enough |
| RateLimiter.AcceptancesAreSpaced | common/rate-limit.go:48-63 | In every run the i-th and the (i + max)-th timestamp the limiter accepts are at least the duration apart, if and only if the duration is at most the expiration plus one second |
| RateLimiter.QueueIsBounded | common/rate-limit.go:48-63 | Whatever the expiration, the queue is sorted, never longer than the maximum, and the end of the sorted timestamps the limiter accepted |
| RateLimiter.KeysAreIndependent | common/rate-limit.go:45-70 | Removing the requests of all other keys changes neither queue nor log of a key |
| RateLimiter.InMemoryRateLimiter.Request | common/rate-limit.go:45-70 | The object's answer and its whole new store |
| RateLimiter.InMemoryRateLimiter.ClearExpiredItems | common/rate-limit.go:28-43 | One round visits every key once and deletes exactly the stale ones |
| MultiKeys.RereadsIffPlain | model/channel.go:175-197 | Keys survive being stored as lines exactly when none has a newline and neither the first nor the last is empty |
| MultiKeys.PlainKeysAreLines | model/channel.go:194-196 | Plain key text is its lines, without the newlines at either end |
| MultiKeys.ArrayKeysAreElements | model/channel.go:182-196 | Key text that parses as an array is its elements; one that only looks like an array is its lines |
| MultiKeys.RecordsShow | controller/channel.go:1431-1465 | The records of a row: each key with what the maps say at its index, enabled when they say nothing |
| MultiKeys.TwoLineKey | model/channel.go:194-196 | A key of two lines comes back as two keys |
| MultiKeys.SavedRowIsConsistent | model/channel.go:526-563 | After any save the size is the number of keys and every status index is below it, unless the key text is an empty JSON array |
| MultiKeys.SavedRecords | model/channel.go:526-570 | Saving a shorter list means what it should exactly when a key remains and the keys survive being stored |
| MultiKeys.SavingWrites | controller/channel.go:1747-1754 | The whole row after a deletion: the joined keys unless empty, the recounted size, the kept states by new index |
| MultiKeys.AllAutoDisabledComesBack | controller/channel.go:1767-1830 | Deleting the auto-disabled keys when all are auto-disabled keeps every key and enables it |
| MultiKeys.DropKeepsCounts | controller/channel.go:1777-1805 | Deleting drops every auto-disabled record and none of another status |
| MultiKeys.DropShortens | controller/channel.go:1777-1807 | Nothing is deleted exactly when nothing is auto-disabled |
| MultiKeys.DropKeepsSurvivors | controller/channel.go:1777-1805 | Each surviving record is where as many survive before it, as it was, but without time and reason when it is enabled |
| MultiKeys.DeleteMovesUp | controller/channel.go:1710-1737 | Deleting one record moves the later ones up by one |
| MultiKeys.AllAtOnce | controller/channel.go:1616-1664 | Disabling all changes the status of the enabled records only; enabling all resets every record |
| MultiKeys.CountIsCardinality | controller/channel.go:1652-1664 | The count of a status is the number of indices that have it |
| MultiKeys.DescribesNext | controller/channel.go:1703-1733 | Re-indexed maps describe the records kept so far, in order |
| MultiKeys.MultiKeyChannel.DisableKey | controller/channel.go:1531-1572 | Sets one record's status and nothing else; rejects exactly a missing or out-of-range index |
| MultiKeys.MultiKeyChannel.EnableKey | controller/channel.go:1574-1614 | Resets one record and nothing else |
| MultiKeys.MultiKeyChannel.EnableAllKeys | controller/channel.go:1616-1638 | Resets every record |
| MultiKeys.MultiKeyChannel.DisableAllKeys | controller/channel.go:1640-1685 | Disables exactly the enabled records, counts them, and rejects when there are none |
| MultiKeys.MultiKeyChannel.DeleteKey | controller/channel.go:1687-1765 | Removes one record and keeps the others with their statuses, if and only if the remaining keys survive being stored; never the last key |
| MultiKeys.MultiKeyChannel.DeleteDisabledKeys | controller/channel.go:1767-1834 | Removes exactly the auto-disabled records, if and only if a key remains and the remaining keys survive being stored; rejects when there are none |
| KeyPages.GetKeyStatus | controller/channel.go:1417-1529 | The page that is shown, its number, the number of pages, the total and the three counts |
| KeyPages.PagesAreTheList | controller/channel.go:1492-1513 | Pages 1 to the number of pages, one after the other, are the filtered list |
| KeyPages.SelectedShows | controller/channel.go:1431-1488 | A listed key has the status asked for, its own index and status, and its time and reason if it is not enabled |
| KeyPages.SelectedFinds | controller/channel.go:1431-1488 | Every key of the status asked for is listed |
| KeyPages.SelectedAscends | controller/channel.go:1431-1488 | Listed indices ascend, so no key is listed twice |
| KeyPages.SelectedIsCounted | controller/channel.go:1446-1454 | As many keys are listed under a status as are counted for it |
| KeyAppend.AppendKeys | controller/channel.go:932-1001 | The stored text: existing keys, then the offered ones trimmed, once each, without those there already; rejects exactly what has no usable JSON keys |
| KeyAppend.Dedupe | controller/channel.go:979-998 | The loops over `seen` compute exactly those additions |
| KeyAppend.VertexArrayKeys | controller/channel.go:557-587 | The usable elements of a JSON array, or a rejection when there are none |
| KeyAppend.PlainOffer | controller/channel.go:968-976 | Plain text offers its lines |
| KeyAppend.JsonOffer | controller/channel.go:951-966 | JSON text that does not look like an array is one key; an array offers the keys of its elements, in order, and is rejected when it does not parse or all are empty |
| KeyAppend.AddedIsNew | controller/channel.go:979-998 | Appended keys are trimmed, not blank, distinct and new, and no offered key that is not blank is lost |
| KeyAppend.AddedGrows | controller/channel.go:987-998 | Appended keys are in the order offered: offering more only adds at the end |
| KeyAppend.ExistingStayPrefix | controller/channel.go:936-1001 | The existing keys are a prefix of those read from the saved row if and only if none has a newline and the list does not begin or end with an empty key, or it is an array again or nothing is written |
| KeyAppend.AppendStoresAll | controller/channel.go:979-1001 | Exactly the existing and the appended keys are read from the saved row, if and only if the same holds of all of them |
| KeyAppend.PlainFirstAppend | controller/channel.go:936-1001 | When the first stored key is visible and does not begin like an array, both conditions are about newlines and empty ends only |
| KeyAppend.TwoLineElement | controller/channel.go:936-945 | A well-formed array of one element over two lines, to which nothing is appended, is read back as two keys |
| KeyAppend.MalformedIsReplaced | controller/channel.go:936-945 | A malformed array is replaced by the appended keys, each as the lines it has, unless there are none or they are an array themselves |
| KeyAppend.MalformedIsLost | controller/channel.go:936-945 | Some request makes the keys of every malformed array disappear |
| KeyAppend.AppendKeepsRecords | controller/channel.go:979-1001 | Every record is at its index as before if and only if the keys stay a prefix |
| KeyAppend.AppendedAreEnabled | controller/channel.go:979-1001 | The records after the old ones are enabled |
| KeyAppend.PlainAppendRereads | controller/channel.go:966-1001 | Plain keys with something visible in them always survive an append of single lines |
| BodyStorage.Indistinguishable | common/body_storage.go:47-230 | Both backends give the same answers to a sequence of calls if and only if none reads into an empty buffer at the end |
| BodyStorage.ReadsDeliver | common/body_storage.go:47-54 | Reads of any sizes deliver the content from the position on without gap or overlap |
| BodyStorage.SeekThenRead | common/body_storage.go:47-63 | Seeking from the start, the position or the end and then reading delivers exactly the bytes from there, or EOF; an impossible position changes nothing |
| BodyStorage.BytesAnytime | common/body_storage.go:198-230 | Asking for the bytes gives the content at any time and changes no other answer |
| BodyStorage.ClosedForGood | common/body_storage.go:47-81 | After Close a storage refuses everything but its size and a further Close, and stays as it was, closed |
| BodyBackends.MemoryStorage.Read | common/body_storage.go:47-54 | The memory backend answers and moves as the interface says |
| BodyBackends.MemoryStorage.Seek | common/body_storage.go:56-63 | Likewise, with 64-bit offsets that wrap around |
| BodyBackends.MemoryStorage.Bytes | common/body_storage.go:74-81 | The content, as the storage's own bytes |
| BodyBackends.MemoryStorage.Size | common/body_storage.go:83-85 | The number of bytes, closed or not |
| BodyBackends.MemoryStorage.Close | common/body_storage.go:65-72 | Closes and un-counts once; a second Close does nothing |
| BodyBackends.DiskStorage.Read | common/body_storage.go:169-176 | The disk backend answers and moves as the interface says |
| BodyBackends.DiskStorage.Seek | common/body_storage.go:178-185 | Likewise |
| BodyBackends.DiskStorage.Bytes | common/body_storage.go:198-230 | The content, as a fresh copy, with the position back where it was |
| BodyBackends.DiskStorage.Size | common/body_storage.go:232-234 | The number of bytes, closed or not |
| BodyBackends.DiskStorage.Close | common/body_storage.go:187-196 | Closes and un-counts once; a second Close does nothing |
| BodyBackends.CreateBodyStorage | common/body_storage.go:241-259 | On disk exactly when enabled, at least the threshold, with room and without fault, and then within the configured size; otherwise in memory; content, position and counters either way |
| BodyBackends.CreateBodyStorageFromReader | common/body_storage.go:262-303 | Too large, failed or created as the limited read says, on either backend; counters change only on creation |
| BodyBackends.TooLargeIffExceeds | common/body_storage.go:283-290 | A body is refused as too large if and only if it exceeds maxBytes and is otherwise taken whole, but for the largest maxBytes, which takes every body as empty |
| DiskAccounting.MemoryIsExact | common/disk_cache_config.go:125-134 | In every interleaving the memory counters are the number and size of the open buffers |
| DiskAccounting.DiskIsExact | common/disk_cache_config.go:109-122 | Without cleanups the disk counters are the number and size of the open files |
| DiskAccounting.DiskIsNeverOver | common/disk_cache.go:120-136 | With cleanups they are at most that, and negative only while a goroutine is about to store 0 |
| DiskAccounting.UsageIsBounded | common/disk_cache_config.go:170-177 | With at most n pending creations of at most S bytes, tracked usage is at most the larger of max and S, plus (n - 1) * S |
| DiskRuns.BoundIsReached | common/body_storage.go:241-256 | For every n, S and max there is a run that reaches that bound |
| DiskAccounting.ExactIffNothingUncounted | common/disk_cache.go:127-133 | In every interleaving the disk counters are exact at every step if and only if no cleanup takes anything off them |
| DiskRuns.ExactIffSweepsFindNothingOpen | common/disk_cache.go:120-136 | One call at a time, they are exact after every call if and only if every cleanup takes place while no storage has a file open |
| DiskRuns.OpsAreARun | common/disk_cache_config.go:109-122 | Calls one at a time are a run of atomic steps |
| DiskRuns.CleanedFileIsTakenTwice | common/disk_cache.go:127-133 | Two open files, one of which is cleaned up and then closed: it is taken off twice, and the other, still open, is no longer counted in full |
| DiskAccounting.UncountAlone | common/disk_cache_config.go:115-122 | Undisturbed, the steps of a decrement take the file off and stop at 0 |
| DiskCache.DiskCacheStats.IncrementDiskFiles | common/disk_cache_config.go:109-112 | The counters' new values |
| DiskCache.DiskCacheStats.DecrementDiskFiles | common/disk_cache_config.go:115-122 | Likewise, stopping at 0 |
| DiskCache.CleanupOldDiskCacheFiles | common/disk_cache.go:109-138 | Removes exactly the old files and takes exactly their number and size off the counters, down to 0 |
| DiskCache.SurvivorsAreTheYoung | common/disk_cache.go:120-136 | Gone are exactly the files older than the maximum age that the system lets go; every other entry is left as often as it was there |
| DiskCache.OldBytesAreGone | common/disk_cache.go:127-133 | What is taken off the usage is what the directory got smaller by |
| DiskCache.CleanupTwice | common/disk_cache.go:120-136 | A second cleanup at the same time finds nothing |
| RatioDiff.BuildDifferences | controller/ratio_sync.go:536-696 | The passes over nested maps, in any order of iteration, compute the specified table |
| RatioDiff.ShownIffDifferent | controller/ratio_sync.go:605-629 | A value other than null and "same" is shown for a model, field and channel exactly when the channel has it and it is not the local value |
| RatioDiff.ShownIffApart | controller/ratio_sync.go:48-62 | On the result, a number beside a local number is shown exactly when they are 1e-9 or more apart; any other value that can be shown, exactly when it is not the local value itself |
| RatioDiff.DistrustedIff | controller/ratio_sync.go:563-591 | A channel is marked as not to be trusted exactly when its model ratio is 37.5 and its completion ratio 1, each up to 1e-9 |
| RatioDiff.NullKeepsItem | controller/ratio_sync.go:608-629 | A null beside a local value keeps the item when the channel differs elsewhere |
| RatioDiff.ItemIsExact | controller/ratio_sync.go:643-693 | An item holds the local value, and the cells and confidence of exactly the channels that differ somewhere |
| RatioDiff.ReportedIff | controller/ratio_sync.go:631-693 | For all inputs, exactly which items are reported |
| RatioDiff.CleanLosesNothing | controller/ratio_sync.go:666-693 | Without null and "same" an item is reported exactly when some channel really differs there, and pruning deletes none |
| RatioDiff.CompleteIffNoneHidden | controller/ratio_sync.go:593-693 | The result is complete if and only if no differing upstream value is null or "same" |
| RatioDiff.HiddenDifference | controller/ratio_sync.go:612-624 | A null, or "same", beside the local price 1 is a difference that is not shown |
| RatioDiff.DifferentIffSomewhere | controller/ratio_sync.go:656-665 | The channels kept are exactly those with a real difference somewhere |
| RatioDiff.CompareCell | controller/ratio_sync.go:606-624 | What is shown of one cell and whether it counts as a difference |
| RatioDiff.Trust | controller/ratio_sync.go:561-591 | A channel is not trusted for a model exactly when its ratios are 37.5 and 1 up to epsilon |
| PriceSelection.Build | controller/ratio_sync.go:845-879 | A cost is a candidate exactly when its input price is finite and not negative, its output price too if there is one, and a free input has no paid output; the prices are the cost's own, and a cache price is kept exactly when it is finite and not negative |
| PriceSelection.PickIsNonZero | controller/ratio_sync.go:881-893 | A price other than 0 is chosen whenever there is one |
| PriceSelection.PickIsCheap | controller/ratio_sync.go:881-893 | Among name-sorted providers the chosen price is less than every other such price plus epsilon |
| PriceSelection.ReplacesIsBefore | controller/ratio_sync.go:881-893 | On prices equal or epsilon apart, the comparison is a strict order |
| PriceSelection.PickIgnoresOrder | controller/ratio_sync.go:915-944 | On such prices the choice does not depend on the order of the providers |
| PriceSelection.OrderIrrelevantIffUnbeaten | controller/ratio_sync.go:881-893 | The choice is the same in every order of the candidates if and only if some candidate is replaced by none of the others |
| PriceSelection.OnePriceIffGapClear | controller/ratio_sync.go:915-944 | Over name-sorted providers the chosen price does not depend on who offers which price, if and only if none lies above the lowest non-zero price by less than epsilon; then it is the lowest |
| PriceSelection.OrderMatters | controller/ratio_sync.go:48-53 | Three closer prices whose assignment to the providers decides which price is chosen |
| PriceSelection.Select | controller/ratio_sync.go:921-944 | The loops over providers and models select for every model what the fold picks |
| PriceSelection.CandidateIsOffer | controller/ratio_sync.go:921-944 | The candidates for a model are the offers for it and nothing else |
| PriceSelection.SelectedIsCheap | controller/ratio_sync.go:915-944 | The price selected from a name-sorted list is cheap in that sense |
| VideoSettlement.ConservedIffNoLeak | controller/task_video.go:121-278 | A poll conserves balance plus held charge if and only if it is not one of three failures |
| VideoSettlement.RefusedRefundIsLost | controller/task_video.go:262-276 | A refused refund is never made up for |
| VideoSettlement.RevivedTaskIsFree | controller/task_video.go:138-150 | A refunded task that is reported finished after all keeps its charge on the row, and the user the refund |
| VideoSettlement.UnsavedChargeIsTakenTwice | controller/task_video.go:177-267 | A charge whose row was not saved is taken again |
| VideoSettlement.RunConserves | controller/task_video.go:121-278 | So does every run without them |
| VideoSettlement.NetDebit | controller/task_video.go:127-276 | Over a run without leaks the user pays nothing for a failed task and the charge on the row otherwise |
| VideoSettlement.RepricedRow | controller/task_video.go:151-237 | A finished task that qualifies is charged, on its row and in the balance, the integer part of tokens times model ratio times the user's own group ratio, or the group's if there is none |
| VideoSettlement.RepricedDebit | controller/task_video.go:151-237 | When the last poll re-prices, the net debit of the whole run is that price |
| VideoSettlement.UnpricedIsFree | controller/task_video.go:151-240 | Without tokens, model, ratio or group the charge stays |
| VideoSettlement.RepollIsFree | controller/task_video.go:177-232 | Polling a settled task again charges nothing |
| VideoSettlement.FailureIsFinal | controller/task_video.go:241-276 | A failed video task that is only reported failed again changes no balance, over any number of polls |
| VideoSettlement.FirstFailureRefunds | controller/task_video.go:121-124 | The first report of failure, or an empty status, refunds the charge |
| VideoSettlement.UnderWayIsFree | controller/task_video.go:134-142 | While a task is under way, or its status is unknown, no money moves |
| VideoSettlement.SavedRow | controller/task_video.go:131-267 | Status, progress, times and reason that a poll leaves on the row |
| VideoSettlement.TimesAreSetOnce | controller/task_video.go:140-147 | A start or finish time that is there stays over any polls |
| VideoSettlement.VideoPoller.UpdateVideoSingleTask | controller/task_video.go:121-279 | The stored row and the balance of the user after one poll, step by step |
| OggScanner.LittleEndianRoundTrip | common/audio.go:228-229 | Reading back a little-endian number gives the number |
| OggScanner.LaterBytesWeighMore | common/audio.go:229-229 | Bytes that follow n others weigh 256 to the n-th as much |
| OggScanner.TwoBytes | common/audio.go:229-229 | Two bytes are the first plus 256 times the second |
| OggScanner.SignedIsCongruent | common/audio.go:229-229 | The signed granule position is the unsigned one up to 2^64 |
| OggScanner.PatternIsOggS | common/audio.go:219-220 | The pattern is the text "OggS" |
| OggScanner.SumOfBoth | common/audio.go:241-245 | The payload is as long as the segments together |
| OggScanner.SumOfOne | common/audio.go:241-245 | One segment is as long as its byte says |
| OggScanner.GranuleRoundTrip | common/audio.go:228-229 | A signed 64-bit granule position survives its encoding |
| OggScanner.ScanFindsLargestGranule | common/audio.go:196-254 | Whatever garbage without the pattern stands before, between and after well-formed pages, the scan finds the largest granule position, or 0 |
| OggScanner.MaxGranuleIsLargest | common/audio.go:229-232 | That value is 0 or some page's, and bounds them all |
| OggScanner.NoStraddle | common/audio.go:219-226 | No match straddles garbage and a following page |
| OggScanner.ScanSkipsGap | common/audio.go:219-226 | Garbage is skipped up to the next page |
| OggScanner.ScanSkipsPage | common/audio.go:228-248 | A page contributes its granule position and its payload is never scanned |
| OggScanner.CutPage | common/audio.go:207-248 | A page cut off in its header says nothing; one cut off later still gives its granule position |
| OggScanner.ScanShift | common/audio.go:197-254 | What a scan finds depends only on the bytes from its position on |
| OggScanner.SkipPage | common/audio.go:234-248 | Table and payload of one page are passed over |
| OggScanner.GetOpusDuration | common/audio.go:196-254 | The loop over the reader computes what the scan finds, divided by 48000, and ends |

## Left out

- HTTP, JSON binding, logging, audit entries, notifications, runtime caches and translations.
- Database, Redis and operating system: a row read, a write or a transaction is an atomic step that may fail; a file write fails or succeeds as a whole, and reads deliver what is there without short reads or errors.
- Regular expressions and JSON parsing are arbitrary functions of the text; parsing the redirect table is left out, so a redirect table is a map of names.
- Creem, Waffo and Waffo Pancake orders: their handlers also write rows outside the order lock, so such rows may change at any time and nothing is claimed about their credits. Subscription orders, the signature checks and the calls of the payment providers are not part of this model.
- The helpers of the Stripe payment form that compute prices and minimum amounts, and the codes of quota display: one formula each.
- Floating-point rounding: prices, ratios and durations are real numbers; not-a-number and infinite prices appear only where they are rejected.
- TopUps.CreditedAtMostOnce: claims nothing about several processes on one database, because the order lock is a table in one process; the quota product is not cut off at 64 bits.
- OrderLocks.EveryScheduleDrains: a thread that holds an order eventually calls UnlockOrder, as the deferred call does; it does not model a handler that locks two orders.
- KeyPages.GetKeyStatus: the page size is an unbounded integer, so a page size within the number of keys of 2^63 does not wrap around; the key preview is not shown.
- DiskAccounting.UsageIsBounded: sizes are unbounded integers, so the sum of usage and an announced size does not wrap around; a written size is at most the checked one.
- RatioDiff.BuildDifferences: channels are known by their names, so two channels of one name are one; values are null, numbers, texts and truth values, numbers of every Go type being one type.
- BodyBackends.DiskStorage.Seek: an operating system's limit on file offsets below 2^63 and its additional values of whence are not modelled.
- BodyBackends.MemoryStorage.Read: the caller's buffer is the returned sequence, so a buffer that is itself the storage's content is not modelled.
- The cache files of downloaded content (service/file_service.go), which are counted in the same counters by the same two calls.
- The cache-hit counters, the synchronisation of the counters with the directory and their reset.
- The rewriting of chosen candidates into ratio tables, with its rounding to six digits, and the conversion of the other price sources.
- The relay, channel selection with its key rotation, the other audio formats, and the other polled platforms.
