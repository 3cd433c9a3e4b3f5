# Verification of the proxy aggregator's core

A Dafny model of the parts of the repository in which several requests, processes, tasks or functions
have to agree, with proofs about every run of them. Each module stands for one component.

| module | component |
|---|---|
| `Publisher` | publishing a file on GitHub by GET-sha and PUT-with-sha, while others commit |
| `HealthRecords`, `HealthSources`, `HealthMerge`, `HealthHistory` | the verdict and ban records, their ageing and cap, and the merge on save between processes that share one file |
| `ProbeStage` | the probe tasks with their semaphore, early stop, deadline and cancellation |
| `HtmlLimits`, `HtmlKept`, `HtmlLost` | cutting a Telegram message to a number of UTF-16 units, and how much of it that keeps |
| `Base64`, `Subscription` | writing the subscription and reading it back |
| `Merger`, `RoundRobin`, `Aggregate` | deduplication, sorting, limits, the round-robin over countries, the whitelist quotas and the mix |
| `Identity` | the text behind a config's dedup key |
| `RateLimiter` | the slots of the GeoIP limiter |
| `Crawl` | the recursive directory crawl and its file budget |
| `ClashNames` | the names of the proxies in the Mihomo document |
| `Options`, `Sequences`, `Sorting`, `Decimals`, `WhiteSpace`, `Configs` | what they share |

`dafny verify dfyconfig.toml` checks all of it.

## How the model is built

- Code that changes things step by step is imperative here too: the publisher, the history and its file,
  the probe stage, the rate limiter, the name registry and the used keys are classes, and the loops are
  loops. Their contracts tie the new state to a specification function or relation; the lemmas are about
  those.
- The environment answers freely. A PUT that names a sha is accepted only if that is the current blob's,
  one without a sha only if there is no file; 200 and 201 mean that it was applied, any other answer
  leaves that open; a sha in a 2xx GET is the current blob's. Blob hashes are injective and not empty.
- A save of the history is atomic under its file lock. Config keys and source names share one set of
  pruned keys, as in the program.
- A task of the probe stage runs without interruption between two awaits; its steps are those stretches,
  and a cancellation may come at any await of any task.
- The crawl's server answers by place, not by path, so a tree may contain itself.
- Strings that may hold lone surrogates are lists of code points (`HtmlLimits`, `Identity`). The length of
  a message counts a lone surrogate as one unit, as the code does; a comment in it says two.

## Where the code differs from what it says

Each of these is a proved statement about the code as it is.

- An entity longer than 8 characters can be cut (`HtmlLimits.LongEntityIsCut`); the exact condition is
  `HtmlLimits.CutsEntityIff`. html.escape emits entities of at most 6 characters
  (`src/notify/html_limits.py:37`), so only a caller that passes other text can meet one.
- A message can shrink to nothing: one of emoji alone, up to 20000 of them (`HtmlLost.AllEmojiIsLostIff`),
  and one of opening tags in plain ASCII of any length (`HtmlLost.AllBoldIsLost`), since a `<b>` of 3
  characters brings a closing tag of 4. `HtmlKept.TruncationIsEmptyIff` is the exact condition for every
  message.
- The raw-link filter passes three line boundaries of `splitlines`, so such a link is published and not
  read back (`Subscription.SafeLinkMayHoldBoundary`). There are no others
  (`Subscription.SafeLinkBoundaryIff`), and `Subscription.RoundTripIff` is the exact condition.
- Lone surrogates are dropped before hashing, so dedup keys can collide (`Identity.SurrogateIsLost`,
  `Identity.CleanMayMeetUnclean`), and an empty field leaves no trace (`Identity.PathMeetsHost`). The
  parsers keep lone surrogates out (`src/parsers/vmess.py:65-79`, and decoding with replacement elsewhere),
  so only configs that are built by other means can collide in the first way; `Identity.KeysEqualIff` is the
  exact condition for all others.
- The record cap bounds the cache, and the file only under a condition (`HealthMerge.CapBoundsFileIff`): an
  evicted record may come back from the disk (`HealthMerge.CapDoesNotBoundFile`), and records of another
  process come in unpruned (`HealthMerge.ForeignRecordsPassCap`). Stale sources stay while there is no config record
  (`HealthMerge.SourcesAgeOutIff`).
- A save is meant to lose no run's evidence. Of a record that two runs have both updated it keeps one run's
  evidence only (`HealthMerge.ConcurrentVerdictIsLost`); it keeps all exactly when the copy that does not
  win has nothing new (`HealthMerge.EvidenceIsKeptIff`, `HealthMerge.SourceEvidenceIsKeptIff`).
- False from the publisher does not mean that nothing was published (`Publisher.FalseMayHavePublished`). It
  does exactly when every PUT was refused (`Publisher.FalseProvesNothingIff`).
- A limit of 0 means no limit to the country-balanced limit, and nothing at all to the whitelist balance
  (`Aggregate.CountryBalancedLimit`, `Aggregate.WhitelistBalance`).

## Model

| member | source | states |
|---|---|---|
| Publisher.GitHubPublisher.PublishFile | src/publisher/github.py:272-549 | Against any answers and any competing commits: every GET, PUT, wait, abort and lookup result of the call is the one the answers before it call for (which lookup or retry is due, the sha, the content, the seconds slept), how the call ends is what its own log shows (all retries used before False, when True is earned, when it raises), no PUT and True when the first GET already shows the content, and at most 9 PUTs, 12 GETs and 8 rate-limit sleeps |
| Publisher.GitHubPublisher.GetFileSha | src/publisher/github.py:158-215 | One lookup: at most three GETs and one rate-limit sleep, no PUT; it reports what the last answer says once the 5xx and rate-limit retries are used, and Aborted only for a refused token or a wait beyond the cap |
| Publisher.GitHubPublisher.WaitForRateLimit | src/publisher/github.py:229-270 | It sleeps exactly when the wait that the headers ask for is at most 300 seconds, and for exactly that wait, until the delay, the date or the reset time is reached; otherwise it aborts without sleeping |
| Publisher.GitHubPublisher.RetryIfRateLimited | src/publisher/github.py:363-370 | At most one more PUT after a rate limit, and only after a sleep; it aborts only when the wait that the answer asks for is beyond the cap |
| Publisher.GitHubPublisher.FirstRound | src/publisher/github.py:342-381 | The primary PUT with its 5xx retry and its rate-limit retry, within the budget of the whole call |
| Publisher.GitHubPublisher.ResolveConflict | src/publisher/github.py:388-465 | The 409 loop: one new lookup before each retry, at most two retries, the call explained however it ends |
| Publisher.GitHubPublisher.ConflictRetry | src/publisher/github.py:389-458 | One pass: one lookup and at most two PUTs; it ends the call or leaves an answer that is not a success |
| Publisher.GitHubPublisher.Finish | src/publisher/github.py:467-549 | 422 recovery, refused tokens and the other failures, within the budget of the whole call |
| Publisher.WaitSeconds | src/publisher/github.py:229-270 | The wait in terms of the headers alone: it lasts until the time they name, or one second when that is sooner; an infinite one is none, and without a usable header it is 60 seconds |
| Publisher.Interpret | src/publisher/github.py:186-215 | A lookup finds a sha exactly in a 2xx answer that has one; 404, 409 and a 2xx answer without a sha count as no file |
| Publisher.AnswersToldApart | src/publisher/github.py:218-227 | Which answers are a success, a transient 5xx, a rate limit, or a refused token, by status and headers |
| Publisher.FirstLookupSees | src/publisher/github.py:286-340 | What the first lookup reports found is what the last GET before the first PUT showed, and the other way round |
| Publisher.OutcomeIsDetermined | src/publisher/github.py:272-549 | The calls and answers of a log explain at most one way for the call to end |
| Publisher.Repository.OtherCommits | src/publisher/github.py:336-340 | Competing commits leave the publisher's own log alone |
| Publisher.GetSawFile | src/publisher/github.py:158-215 | A sha in the latest GET is that of the file this GET looked at, which the path held |
| Publisher.LookupSawFile | src/publisher/github.py:158-215 | A sha that the latest lookup reported was read by the latest GET |
| Publisher.TrueMeansHeld | src/publisher/github.py:319-325 | True is returned only if the path held exactly the given content at some moment of the call, also when an applied PUT was answered with a 5xx |
| Publisher.NoLostUpdate | src/publisher/github.py:327-340 | Every applied PUT overwrites exactly the version the latest GET looked at, or creates the file where there was none; and when the first GET showed the file it never creates it |
| Publisher.NeverResurrects | src/publisher/github.py:408-419 | When the first GET of the call showed the file, only a competing commit can bring a deleted file back |
| Publisher.ExistingFileIsUpdated | src/publisher/github.py:334-340 | When the first GET of the call showed the file, every PUT carries a sha, applied or not |
| Publisher.FalseProvesNothingIff | src/publisher/github.py:342-549 | A call, False or not, proves that nothing was published exactly when every PUT of it was answered with a refusal, for any kind of answer the server is trusted to give only when it has applied nothing |
| Publisher.FalseProvesNothingIffNoPut | src/publisher/github.py:342-549 | Of a server that may have applied a PUT whatever it answered, only a call without a PUT proves that nothing was published |
| Publisher.TwinIsLegal | src/publisher/github.py:342-549 | The same calls and answers fit a repository in which every PUT that was not refused was applied |
| Publisher.FalseMayHavePublished | src/publisher/github.py:349-361 | A case in which False is returned although the content was published: a 5xx hid an applied PUT |
| HealthRecords.JudgeFaithful | src/scheduler/health_history.py:641-666 | One verdict keeps a record a faithful summary of the whole verdict history of its config |
| HealthRecords.FastTrackKeepsSource | src/scheduler/health_history.py:646-654 | The fast-track names and the empty one leave the source of a record as it was; any other name replaces it |
| HealthRecords.ReplayFaithful | src/scheduler/health_history.py:596-667 | Over every sequence of updates: passes plus fails counts the verdicts, recent is the last W of them, the ban, the last pass, the source and the country are those of the history; no verdict, no change |
| HealthRecords.BannedIffFailing | src/scheduler/health_history.py:526-542 | A config is banned at t exactly when its trailing failures reach the threshold and t is before the last failure plus the cooldown |
| HealthRecords.StreakIsTrailingPasses | src/scheduler/health_history.py:564-577 | consecutive_successes is min(W, trailing passes) |
| HealthSources.MeasureFaithful | src/scheduler/health_history.py:729-784 | One sample keeps a source record faithful to its judged windows and its pending samples |
| HealthSources.SourceLadder | src/scheduler/health_history.py:689-784 | Whatever samples come, each is judged once or pending, the ladder counts the bad windows since the last good one, and the ban is the one that count earns |
| HealthSources.LastSampleIsShown | src/scheduler/health_history.py:729-741 | A source record counts its samples and shows the last one, with its rate and its time, from which it ages |
| HealthSources.BadRateIff | src/scheduler/health_history.py:755-755 | A window is bad exactly when the alive ones are at most bad_rate of the checked ones |
| HealthSources.WindowsUnique | src/scheduler/health_history.py:742-755 | Samples can be cut into windows in one way only, so the ladder depends on the samples alone |
| HealthMerge.EvictionUnique | src/scheduler/health_history.py:228-266 | The records the cap evicts are determined by its description |
| HealthMerge.PruneKeepsBans | src/scheduler/health_history.py:292-327 | prune never drops a config or a source under an active ban |
| HealthMerge.PruneCapsCache | src/scheduler/health_history.py:228-266 | With a positive cap the cache holds at most max(max_records, active bans) configs after prune |
| HealthMerge.PruneDropsOldest | src/scheduler/health_history.py:243-301 | What prune drops, by age or by the cap, was last seen no later than any unbanned record it leaves, and of two seen at the same time the smaller key goes |
| HealthMerge.PruneByAgeIff | src/scheduler/health_history.py:268-337 | By age a record goes exactly when it is past retention and under no active ban; without a cap all others stay, and every key that goes is recorded |
| HealthMerge.PruneAddsUp | src/scheduler/health_history.py:268-337 | What is left, what is reported as aged out and what the cap evicted add up to what there was |
| HealthMerge.SourcesAgeOutIff | src/scheduler/health_history.py:268-337 | Stale sources age out exactly when the configs section is not empty, because prune returns early on an empty one |
| HealthMerge.MergedSectionUnique | src/scheduler/health_history.py:388-459 | The merged section is determined, key by key, by memory, disk, pruned keys, tie rule and cutoff |
| HealthMerge.MergeSection | src/scheduler/health_history.py:413-458 | The merge loops over one section produce that section |
| HealthMerge.MergeWithDisk | src/scheduler/health_history.py:388-459 | The merged file, both sections, and the cache as it is when there is no file |
| HealthMerge.StepKeepsRecords | src/scheduler/health_history.py:339-459 | One step of any process: a config or source record of the file stays and gets no less recent, or it left through a save that pruned it while its disk copy was past retention |
| HealthMerge.SavedRecordIsLatest | src/scheduler/health_history.py:427-444 | In both sections a saved record is the memory or the disk copy, whichever is more recent, ties by load time |
| HealthMerge.RecencyNeverDecreases | src/scheduler/health_history.py:339-459 | Over any interleaving of any number of processes a record of either section that stays in the file never gets less recent |
| HealthMerge.RecordsLeaveByRetention | src/scheduler/health_history.py:445-457 | Over any interleaving a record of either section that is gone was dropped by the prune of some save while its disk copy was past retention |
| HealthMerge.EvictedComesBackIff | src/scheduler/health_history.py:445-457 | A pruned key is in its section of the saved file exactly when its disk copy is inside the retention window |
| HealthMerge.CapDoesNotBoundFile | src/scheduler/health_history.py:445-457 | A save after which the file holds more records than the cap, because an evicted one comes back from the disk |
| HealthMerge.ForeignRecordsPassCap | src/scheduler/health_history.py:413-458 | Another such save, in which nothing is pruned: a record that another process wrote is taken over |
| HealthMerge.CapBoundsFileIff | src/scheduler/health_history.py:339-459 | The file stays within max(max_records, active bans) exactly when the configs that come from the disk alone fit into what the pruned cache leaves free; it holds the configs of the cache exactly when every other config on disk was pruned and is past retention |
| HealthMerge.SavedKeys | src/scheduler/health_history.py:413-458 | The configs of the saved file are those of the pruned cache and those taken over from the disk alone |
| HealthMerge.EvidenceIsKeptIff | src/scheduler/health_history.py:388-459 | Of a config record to which two runs have each added any verdicts, the merge keeps the evidence of both exactly when the side that does not win has added none; for any sections and pruned keys |
| HealthMerge.SourceEvidenceIsKeptIff | src/scheduler/health_history.py:388-459 | The same of a source record and the samples of two runs |
| HealthMerge.ConcurrentVerdictIsLost | src/scheduler/health_history.py:427-444 | An instance: of two verdicts that two processes add to one record the merge keeps one |
| HealthHistory.EntriesInOrder | src/scheduler/health_history.py:244-252 | Sorting the (last_seen, key) pairs lists every evictable key once, oldest first |
| HealthHistory.FirstAreOldest | src/scheduler/health_history.py:249-259 | The first n keys of that order are n records no more recent than the rest |
| HealthHistory.SourceRunStats | src/scheduler/health_history.py:669-687 | Per source, how many probed configs count and how many of them passed; fast-track names do not count |
| HealthHistory.SourcesOfRun | src/scheduler/health_history.py:674-686 | The statistics hold no fast-track name and no empty one; a config without a name counts for "?" and any other for its own source |
| HealthHistory.EvictOverCap | src/scheduler/health_history.py:228-266 | Exactly the eviction the cap describes, and the cache without it |
| HealthHistory.TakePruneSteps | src/scheduler/health_history.py:268-337 | The three steps of prune on a cache that holds a config record |
| HealthHistory.HealthHistory.Load | src/scheduler/health_history.py:124-166 | The file is read once and stamps the cache; as a step of the processes that share the file it is a load |
| HealthHistory.HealthHistory.Update | src/scheduler/health_history.py:596-667 | The cache after update is the fold of the verdicts into it, one after another |
| HealthHistory.HealthHistory.ConsecutiveSuccesses | src/scheduler/health_history.py:564-577 | The trailing passes of the window, 0 for an unknown config |
| HealthHistory.HealthHistory.UpdateSources | src/scheduler/health_history.py:689-784 | The counts of the run are right, each counted source is measured once and shows this run and its time, and the others stay as they were |
| HealthHistory.HealthHistory.Prune | src/scheduler/health_history.py:268-337 | The pruned cache, the keys it adds to _pruned_keys, and the number of records that aged out |
| HealthHistory.HealthHistory.Save | src/scheduler/health_history.py:339-386 | Prune, merge with the file, write, adopt what was written; a failed write leaves the file alone and the cache pruned; an unloaded cache is not saved |
| HealthHistory.SavedIsStep | src/scheduler/health_history.py:339-386 | What Save ensures makes it a save step of the processes that share the file, so the results over all interleavings are about it |
| ProbeStage.StepKeepsInv | src/validators/singbox_probe.py:500-593 | Every step of every task, cancellation included, keeps the invariant of tasks, verdict fields, list, event and semaphore |
| ProbeStage.StepKeepsTold | src/validators/singbox_probe.py:500-593 | Every step keeps what a task and its config say of the answers its probes gave: the counters of the attempt loop, the pending True, and the verdict |
| ProbeStage.VerdictIsEarned | src/validators/singbox_probe.py:526-593 | When a task has ended, its config carries the verdict that its own answers have earned, and only a reason the code knows leaves none |
| ProbeStage.BarredIsNotProbed | src/validators/singbox_probe.py:500-515 | A task that enters past the deadline, or begins or enters when the stage is done, ends without a probe and without a verdict |
| ProbeStage.NoProbeAfterDone | src/validators/singbox_probe.py:526-529 | Once the stage is done no config gets more than the answer of the probe under way |
| ProbeStage.CountersCount | src/validators/singbox_probe.py:490-493 | The counters that are logged: configs with a verdict reached, configs past the deadline, configs with a probe that gave no verdict |
| ProbeStage.SettingsMean | src/validators/singbox_probe.py:517-520 | Attempts, required successes and slots for any setting, out of range ones included |
| ProbeStage.VerdictNeedsAnswer | src/validators/singbox_probe.py:526-589 | True needs a passing probe, False a failing one, and a config that was never probed does not count as checked |
| ProbeStage.VerdictsOfEverySchedule | src/validators/singbox_probe.py:483-673 | In every schedule: each verdict is the one the config's own probe answers earn (True exactly when enough passed, False exactly when too many failed, unless a probe raised or the task was cancelled; none only after one of these, a probe without a verdict, the deadline, or a full list); the returned list is free of duplicates, at most max_alive long, and each of its configs had enough passing probes; an alive config is missing only from a full list |
| ProbeStage.ConcurrencyIsBounded | src/validators/singbox_probe.py:488-504 | At most max(1, concurrency) tasks are inside the semaphore at once |
| ProbeStage.StepsMakeProgress | src/validators/singbox_probe.py:500-593 | Every step that is taken leaves less to do, so every schedule ends |
| ProbeStage.NoDeadlock | src/validators/singbox_probe.py:500-593 | Until all tasks have ended one can move without a cancellation |
| ProbeStage.Stage.StartTask | src/validators/singbox_probe.py:500-504 | In place, the step of a task that starts |
| ProbeStage.Stage.EnterSemaphore | src/validators/singbox_probe.py:504-526 | In place, the step after the semaphore: event, deadline, first probe |
| ProbeStage.Stage.ProbeAnswered | src/validators/singbox_probe.py:526-589 | In place, the step after a probe: no verdict, exception, another attempt, or the verdict |
| ProbeStage.Stage.AppendAlive | src/validators/singbox_probe.py:590-593 | In place, the step that lists a config and may stop the stage |
| ProbeStage.Stage.Collect | src/validators/singbox_probe.py:641-673 | In place, the clean-up of raised tasks and the cut of the list |
| HtmlLimits.DecodeEncode | src/notify/html_limits.py:55-59 | The UTF-16 units that are counted can be read back (section 2.1 of RFC 2781) |
| HtmlLimits.EncodeExample | src/notify/html_limits.py:55-59 | A character outside the BMP takes its surrogate pair (section 5 of RFC 2781) |
| HtmlLimits.Utf16LenIsEncodedLength | src/notify/html_limits.py:55-59 | The length is the number of those units |
| HtmlLimits.SafeCutOffset | src/notify/html_limits.py:90-113 | The loop computes the safe offset and ends |
| HtmlLimits.TagCutIsLargestClosed | src/notify/html_limits.py:104-112 | The tag cut is the largest offset that leaves no tag open |
| HtmlLimits.CutsEntityIff | src/notify/html_limits.py:98-113 | The offset lands inside an entity exactly when the requested one lies more than 8 characters into it and no tag is open there |
| HtmlLimits.LongEntityIsCut | src/notify/html_limits.py:98-103 | An entity of ten characters that a limit of 9 cuts |
| HtmlLimits.OpenTags | src/notify/html_limits.py:116-147 | The scan computes the tags left open |
| HtmlLimits.PopLast | src/notify/html_limits.py:138-141 | A closing tag closes the innermost open tag of its name |
| HtmlLimits.TagDoes | src/notify/html_limits.py:116-147 | What a tag does, attributes or not: a paired name is opened, a name after a slash closed, anything else nothing |
| HtmlLimits.CloseTakesInnermost | src/notify/html_limits.py:138-141 | Closing takes the innermost open tag of the name and leaves all others |
| HtmlLimits.OpenAfterConcat | src/notify/html_limits.py:116-147 | After a prefix that leaves no tag open the scan goes on with the rest |
| HtmlLimits.ClosingClosesAll | src/notify/html_limits.py:177-178 | The closing tags close all that is open |
| HtmlLimits.TruncateHtmlSafe | src/notify/html_limits.py:150-184 | The shrinking loop ends and computes the first attempt that fits |
| HtmlLimits.ShrinkToFit | src/notify/html_limits.py:175-184 | Shrinking by the overflow, attempt by attempt |
| HtmlLimits.AttemptIsBalanced | src/notify/html_limits.py:176-178 | Every attempt, fitting or not, leaves no tag open |
| HtmlLimits.TruncationIsSafe | src/notify/html_limits.py:150-184 | A truncated message fits the limit, leaves no tag open, and its text is a prefix that ends inside no tag, nor inside an entity when entities are short |
| HtmlLimits.PrefixAvoidsEntity | src/notify/html_limits.py:98-103 | With short entities the prefix ends inside none, after white space is stripped too |
| HtmlLimits.PrefixDropsWhiteSpaceOnly | src/notify/html_limits.py:175-176 | The kept prefix is what comes before the safe offset without the white space at its end, and ends in none |
| HtmlLimits.FittingIsUnchanged | src/notify/html_limits.py:164-165 | A message that fits is not changed |
| HtmlKept.TruncationIsEmptyIff | src/notify/html_limits.py:150-184 | Every message of more than limit units, whatever tags, entities, white space and characters it holds, is lost entirely exactly when its first attempt costs limit plus the first cut or more; up to 20000 characters that is twice the limit |
| HtmlKept.UntaggedIsEmptyIff | src/notify/html_limits.py:175-184 | A message without tags is lost entirely exactly when the text of its first cut takes limit plus that cut minus 3 units or more, from a limit of 7 on |
| HtmlKept.SmallLimitLosesMore | src/notify/html_limits.py:175-184 | At a limit of 8 the condition fails: a bold emoji is lost in the second step, though its first attempt costs 12 |
| HtmlLost.AllEmojiIsLostIff | src/notify/html_limits.py:164-184 | From a limit of 7 on, a message of at least limit emoji and nothing else is lost exactly when it has at most 20000 of them; past that the scaled first cut saves it |
| HtmlLost.AllBoldIsLost | src/notify/html_limits.py:164-184 | From a limit of 9 on, a run of `<b>` longer than the limit is lost, however long it is |
| HtmlKept.ShrinkIsEmptyIff | src/notify/html_limits.py:175-184 | The shrinking ends empty exactly when its first step passes zero; no later one does |
| HtmlKept.ScanBounds | src/notify/html_limits.py:116-147 | A text with the closing tags it leaves costs no less than those open before it, and at most seven units for three characters more |
| HtmlKept.CostMonotone | src/notify/html_limits.py:175-178 | A larger cut never makes a cheaper attempt: a closing tag in the text saves no more than it takes |
| HtmlKept.PrefixMonotone | src/notify/html_limits.py:90-113 | A larger cut keeps at least as much text |
| HtmlKept.FittingCutIsKept | src/notify/html_limits.py:175-184 | Inside the BMP and with short entities a cut that fits is never passed over, tags or not, unless more is open at some larger cut |
| HtmlKept.BmpTruncationIsMaximal | src/notify/html_limits.py:150-184 | Inside the BMP, without tags and with short entities, the result is the longest that fits among all cuts, white space or not |
| Base64.DecodeEncode | src/aggregator/output.py:200-207 | Decoding undoes encoding, for all bytes (section 4 of RFC 4648) |
| Base64.EncodeShape | src/aggregator/output.py:200-207 | The encoding uses its alphabet only and comes in groups of four |
| Base64.SameNumber | src/aggregator/output.py:200-207 | Three bytes and their four groups are one 24-bit number |
| Base64.ShortGroups | src/aggregator/output.py:200-207 | One, two or three bytes alone: which symbols are padding |
| Base64.SymbolTable | src/aggregator/output.py:200-207 | The alphabet, in table 1 of RFC 4648 |
| Subscription.GeneratePlain | src/aggregator/output.py:178-197 | The plain file: the watermark line and then, in order, the links that PublishedIff and StampedIff describe |
| Subscription.StampedIff | src/aggregator/output.py:142-175 | A link is stamped exactly when its config has a country that the remark does not name; outside vmess it then ends with the code of the country, in its fragment |
| Subscription.PublishedIff | src/aggregator/output.py:91-107 | A config contributes its stamped link exactly when it is not dead and the link is not empty and holds no control character |
| Subscription.LinksConcat | src/aggregator/output.py:190-197 | Every config contributes on its own and in order |
| Subscription.ReadPublished | src/scheduler/runner.py:566-578 | The links of a published file |
| Subscription.OtherSchemesAreLinks | src/scheduler/runner.py:574-578 | Outside vmess a line counts as a link exactly when it contains :// |
| Subscription.RoundTripIff | src/scheduler/runner.py:559-578 | In both formats, plain and base64, publish then reread is the identity on the published links exactly when each is one line, has no white space around it and counts as a link |
| Subscription.CleanLinksRoundTrip | src/scheduler/runner.py:559-578 | In both formats links without white space that contain :// and are no watermarks come back, all of them and in order, without the watermark |
| Subscription.RereadGoodLinks | src/scheduler/runner.py:559-578 | The direction of the round trip that holds for republishable links |
| Subscription.WhiteSpaceFreeIsRepublishable | src/scheduler/runner.py:574-578 | A link without white space is republishable exactly when it counts as a link |
| Subscription.SafeLinkBoundaryIff | src/aggregator/output.py:91-107 | A link that passes the filter is one line exactly when it holds none of U+0085, U+2028 and U+2029 |
| Subscription.SafeLinkMayHoldBoundary | src/aggregator/output.py:91-107 | A link that passes the filter and is published but not read back: it holds U+0085, U+2028 or U+2029 |
| Subscription.WatermarkIsRecognised | src/aggregator/output.py:51-88 | The watermark is recognised whatever it names |
| Subscription.WatermarkWithTail | src/aggregator/output.py:63-88 | It is recognised with a fragment or a query behind it as well |
| Subscription.NoiseIsIgnored | src/aggregator/output.py:75-79 | White space, zero-width and direction marks in the payload make no difference |
| Subscription.AlphabetsAreOne | src/aggregator/output.py:80-81 | Both base64 alphabets are read, and missing padding is added |
| Subscription.SplitJoin | src/scheduler/runner.py:574-577 | Lines that are not empty and hold no boundary come back from being joined |
| Subscription.StampKeepsHead | src/aggregator/output.py:142-175 | Outside vmess stamping leaves everything before the fragment unchanged |
| Subscription.StampedFragmentEndsWithCode | src/aggregator/output.py:163-175 | The stamped fragment ends with the code, keeps a prefix of the old one, and stays within 256 characters if the code does |
| Merger.Deduplicate | src/aggregator/merger.py:48-88 | The loop over the dictionary computes the survivors, None entries left out |
| Merger.BestIsEarliestMinimal | src/aggregator/merger.py:32-88 | The survivor of a key is its earliest config of minimal rank |
| Merger.DedupKeepsBest | src/aggregator/merger.py:48-88 | One config for each key, in first-seen order, the earliest of minimal rank: not dead when one of them is not, and of its kind the fastest |
| Merger.DedupIdempotent | src/aggregator/merger.py:48-88 | Deduplicating twice changes nothing more |
| Merger.DedupInParts | src/aggregator/merger.py:48-88 | Deduplicating the parts first changes nothing |
| Merger.CountAndLimit | src/aggregator/merger.py:149-158 | The counting loop computes the limit |
| Merger.LimitKeepsFirst | src/aggregator/merger.py:126-158 | The limit keeps exactly the first cap configs of each country, in order |
| Merger.LimitKeepsPairwise | src/aggregator/merger.py:126-158 | What the limit leaves is still in order |
| Merger.MergeAndFilterKeepsLimits | src/aggregator/merger.py:161-187 | The whole pipeline: sorted, no key twice, survivors only, no country over its cap, no more than the total |
| Merger.MergeAndFilterOrder | src/aggregator/merger.py:81-120 | The result in the terms of its configs: by latency, missing ones last; or by country, unknown ones last, then by latency; an unknown mode changes nothing |
| Merger.OneBucketIff | src/aggregator/merger.py:153-153 | Two configs share a country limit exactly when their countries are one but for case, or neither has any |
| Merger.MergeAndFilterDropsNoMore | src/aggregator/merger.py:161-187 | Nothing is dropped without need: a survivor that is left out met a full total or a full country |
| Sorting.SortByOrders | src/aggregator/merger.py:91-123 | The sort orders |
| Sorting.SortByStable | src/aggregator/merger.py:91-123 | The sort is stable: what is equal to it keeps its order |
| RoundRobin.TakeInRounds | src/scheduler/stages/aggregate.py:136-154 | The loop emits exactly the first max_total items in (round, country) order |
| RoundRobin.TakeRound | src/scheduler/stages/aggregate.py:140-152 | One round takes at most one item from each bucket, and reports whether it took any |
| RoundRobin.ItemOfSlot | src/scheduler/stages/aggregate.py:136-152 | The n-th item emitted is that of the n-th slot: its bucket and its round |
| RoundRobin.SlotsInOrder | src/scheduler/stages/aggregate.py:136-152 | The slots come in strictly increasing (round, country) order |
| RoundRobin.FilledIsSlot | src/scheduler/stages/aggregate.py:136-152 | Every item of every bucket has a slot |
| RoundRobin.RoundRobinIsFair | src/scheduler/stages/aggregate.py:136-152 | For every limit there is a level L and a country: each bucket gives its first min(size, L) items, or min(size, L + 1) before that country |
| RoundRobin.FirstItemsCount | src/scheduler/stages/aggregate.py:136-152 | min(max_total, all items) are emitted |
| Aggregate.Group | src/scheduler/stages/aggregate.py:94-111 | The buckets: the first cap configs of each country in the sorted order, the unknown ones apart |
| Aggregate.GroupedTogetherIff | src/scheduler/stages/aggregate.py:95-110 | Two configs are in one bucket exactly when their countries are one but for case, or both are unknown |
| Aggregate.CapKeepsFirst | src/scheduler/stages/aggregate.py:95-114 | The cap leaves the first configs of a bucket |
| Aggregate.SortBuckets | src/scheduler/stages/aggregate.py:112-134 | Each bucket best first, the unknown bucket under its fallback name |
| Aggregate.BestFirst | src/scheduler/stages/aggregate.py:117-134 | In a bucket the higher quality comes first, and of equal ones the lower latency, missing ones last |
| Aggregate.CountryBalancedLimit | src/scheduler/stages/aggregate.py:48-154 | With a positive limit the first max_total bucket items in (round, country) order; otherwise the configs as they came |
| Aggregate.CountryOrderUnique | src/scheduler/stages/aggregate.py:136 | The order of the countries is determined by their set |
| Aggregate.UnknownComesLast | src/scheduler/stages/aggregate.py:99-101 | The bucket of unknown countries comes after every code in capital letters |
| Aggregate.BalancedLimitUnique | src/scheduler/stages/aggregate.py:48-154 | The configs, the limit, the sort mode and the cap determine the result |
| Aggregate.LimitKeepsAllItCan | src/scheduler/stages/aggregate.py:48-154 | Without a cap, when every config has a country, min(max_total, all) configs are kept |
| Aggregate.ItemsAreConfigs | src/scheduler/stages/aggregate.py:48-154 | Only configs of the input are emitted |
| Aggregate.Borrow | src/scheduler/stages/aggregate.py:173-210 | Each list gives a prefix of its balanced configs, as many as the quotas and the borrowing say |
| Aggregate.SharesTotal | src/scheduler/stages/aggregate.py:173-210 | All the quotas can give: everything up to max_total, and no EU config when the EU quota is zero; neither list gets less than its quota while it has candidates |
| Aggregate.RuTargetIsShare | src/scheduler/stages/aggregate.py:156-173 | The RU quota is max_total times the ratio, rounded down, the ratio held within 0 and 1 |
| Aggregate.WhitelistBalance | src/scheduler/stages/aggregate.py:156-220 | The size above for all inputs, RU part before EU part, each from its own countries; and the whole result: the shares above of the two pools as the country-balanced limit leaves them |
| Aggregate.WhitelistUnique | src/scheduler/stages/aggregate.py:156-220 | The configs, the total, the ratio, the countries and the sort mode determine the result |
| Aggregate.UniqueIsUnique | src/scheduler/stages/aggregate.py:310-328 | No key twice, none that was used, and no room left while an unused key is there |
| Aggregate.TakeUnique | src/scheduler/stages/aggregate.py:310-328 | In place: the configs taken, and the caller's set grown by exactly their keys |
| Aggregate.BlacklistPart | src/scheduler/stages/aggregate.py:263-270 | The blacklist part of the mix: the first configs of the balanced blacklist with distinct unused keys, within its target |
| Aggregate.WhitelistPart | src/scheduler/stages/aggregate.py:272-285 | The whitelist part of the mix: the first configs with distinct unused keys, within its target, of the whitelist balance of the configs whose keys are not used |
| Aggregate.BuildMixedOutput | src/scheduler/stages/aggregate.py:222-308 | The mix is the first new configs of the balanced blacklist and after them those of the whitelist balance of the rest; a part short of its target leaves no candidate with an unused key; no key twice, both targets kept, each part from its own list |
| Identity.DecodeEncode | src/parsers/base.py:135-137 | The identity text can be read back: the fields that are not empty, and the malformed port, whatever characters they hold |
| Identity.EncodeEqualIff | src/parsers/base.py:190-223 | Two texts are equal exactly when the sequences of non-empty fields and the malformed ports are |
| Identity.SameFieldsIff | src/parsers/base.py:135-137 | Field by field the encoding is injective exactly as far as the same fields are empty |
| Identity.KeysEqualIff | src/parsers/base.py:89-234 | Two configs without lone surrogates have one key exactly when protocol, address, port and the non-empty normalised fields agree |
| Identity.FieldsEqualIff | src/parsers/base.py:166-215 | The fields of two configs are equal exactly when each of the named ones is, eight of them but for case and white space around them |
| Identity.PartsOfProtocol | src/parsers/base.py:148-207 | The credential is normalised for vless and vmess only, and a range in the link counts for hysteria2 only |
| Identity.PathMeetsHost | src/parsers/base.py:190-195 | The path "x" without a host and the host "x" without a path have one key |
| Identity.SurrogateIsLost | src/parsers/base.py:217-223 | Replacing a lone surrogate by another changes the fields but not what is hashed |
| Identity.CleanMayMeetUnclean | src/parsers/base.py:217-223 | Fields without surrogates and other fields with two of them share the hashed text |
| Decimals.NumberOfDecimal | src/parsers/base.py:135-137 | The decimal length prefix, and the decimal suffix of a proxy name, can be read back |
| RateLimiter.RateLimiter.Acquire | src/validators/geoip.py:150-162 | Each call adds its slot to the schedule and sleeps until then |
| RateLimiter.IntervalIs | src/validators/geoip.py:141-141 | The interval is a minute shared among the requests of one, and at most a minute |
| RateLimiter.SlotsAreSpaced | src/validators/geoip.py:134-162 | Whatever the arrival times, slots i and j are at least j - i intervals apart |
| RateLimiter.SlotsAreEarliest | src/validators/geoip.py:150-162 | Of all schedules that keep the spacing and the order the limiter's is the earliest throughout |
| RateLimiter.SlotsServe | src/validators/geoip.py:150-162 | It is such a schedule |
| RateLimiter.MinuteIsCapped | src/validators/geoip.py:134-162 | Any half-open minute holds at most ceil(max(1, rpm)) slots |
| RateLimiter.BusyMinuteIsFull | src/validators/geoip.py:134-162 | Callers that all come at once reach that number |
| Crawl.GitHubClient.FetchDirectory | src/sources/github.py:854-1042 | The recursion returns the files of the account, and the requests it sends, each counted where it is made, are exactly as many as the account says |
| Crawl.GitHubClient.FetchLevel | src/sources/github.py:909-1000 | One directory: one listing, as many fetches as files it tries, the files they bring and the budgets it passes on |
| Crawl.GitHubClient.FetchSubdirectories | src/sources/github.py:1002-1032 | The subdirectories with a budget in order, those that raise bringing nothing, and exactly the requests of their accounts |
| Crawl.SplitIsExact | src/sources/github.py:997-1000 | The split gives away the whole budget, and no more |
| Crawl.SplitIsEven | src/sources/github.py:997-1000 | No share is more than one file larger than another, and the earlier ones are the larger |
| Crawl.CrawlIsBounded | src/sources/github.py:898-1042 | The bounds below, for any way of bringing and passing on files within a budget |
| Crawl.EveryCrawlIsBounded | src/sources/github.py:898-1042 | Whatever the tree, cyclic ones included, and whatever fails: at most max_files files, 1 + (max_depth - 1) * max_files listings and max_depth * max_files fetches |
| Crawl.BoundsAreReached | src/sources/github.py:955-1042 | For every depth and budget there is a tree that takes all the listings and all the fetches |
| Crawl.FilesAreReached | src/sources/github.py:955-1042 | For every depth and budget there is a tree that returns max_files files |
| Crawl.FilesAreServed | src/sources/github.py:921-953 | Every file returned was served, not empty, by some directory of the tree within the depth |
| Crawl.FirstFilesAreBrought | src/sources/github.py:921-953 | The first max_files files of a directory are tried, and each that is served and not empty is returned |
| Crawl.FilesInOrder | src/sources/github.py:1002-1042 | The files of a directory come before those below it, and the subdirectories in order |
| Crawl.RaisesIff | src/sources/github.py:898-920 | The call raises exactly when the listing of its own directory does |
| ClashNames.NameRegistry.Reserve | src/aggregator/clash.py:39-50 | The suffix search ends, and reserves the least-numbered name that is free |
| ClashNames.SomeNameIsFree | src/aggregator/clash.py:45-48 | Pigeonhole: the search looks at no more than one name beyond those in use |
| ClashNames.NumberedInjective | src/aggregator/clash.py:47 | Different numbers give different names |
| ClashNames.NumberedExamples | src/aggregator/clash.py:44-49 | The second of a name is "name #2" |
| ClashNames.ConfigsToClash | src/aggregator/clash.py:318-342 | The entries are those of the expressible live configs, in order, each with the name its turn gives it |
| ClashNames.ListedIff | src/aggregator/clash.py:327-342 | A config comes in exactly when it has a link, is not dead and can be expressed |
| ClashNames.BaseIs | src/aggregator/clash.py:39-43 | The base of a name is the stripped remark, or else the address and the port, with line breaks as spaces |
| ClashNames.NamesAreDistinct | src/aggregator/clash.py:318-342 | No two proxies have one name |
| ClashNames.NamesAreDetermined | src/aggregator/clash.py:165-185 | The names depend on the listed configs alone: rejected, raising, dead and linkless ones reserve none |
| ClashNames.OwnNameIff | src/aggregator/clash.py:39-50 | A config keeps its own remark as its name exactly when no proxy before it has that name |
| ClashNames.NameIsOneLine | src/aggregator/clash.py:39-50 | No name holds a CR or an LF |

## Left out

- Publisher: the endpoint check, headers, TLS and logging; the endpoint check is a free answer, and path
  cleaning and the UTF-8 encoding of the content are done before `PublishFile`.
- Publisher: cancellation of a call, and exceptions other than the two that end it.
- HealthHistory.HealthHistory.Load: a corrupt or partly invalid file, and the sanitising of its records,
  are not modelled; the file holds well-formed records or is missing.
- HealthHistory.HealthHistory.Update: the settings that switch the history off, and the scores computed
  from a record, are not modelled.
- HealthHistory.HealthHistory.IsConfigBanned: the source's own ban, which `is_banned` adds, is not part of it.
- HealthHistory: records are values, so a record dict shared between the cache and a caller is not modelled.
- ProbeStage: cancellation of the whole stage from outside, latencies and their median, the rotation of
  dial proxies, and the subprocess; a probe answers that it passed, failed, has no verdict or raised.
- ProbeStage: the configs of one stage are distinct objects.
- HtmlLimits: `str.lower` is a parameter that keeps the names of the paired tags; the arithmetic of the
  first cut is exact, where the program divides in floating point.
- HtmlKept.TruncationIsEmptyIff: for limits of at least 9, below which it is false
  (`HtmlKept.SmallLimitLosesMore`); the program passes 4096. Of `str.lower` it uses that a word which
  becomes the name of a paired tag has as many characters, one unit each.
- HtmlKept.BmpTruncationIsMaximal: not for tagged text, where a step back over an opening tag also saves
  its closing tag and so may be longer than needed; `HtmlKept.FittingCutIsKept` says when it is not.
- Subscription: the JSON inside vmess links, country detection, the UTF-8 codec and lenient base64
  decoding are parameters, with what is assumed of them in `Outside.Sound`.
- Subscription: the strings hold no lone surrogates, on which the encoding of the file raises.
- Subscription.ReadPublished: one file; which split files are read, and what an unreadable or linkless one
  leads to, is not modelled.
- Merger: NaN and missing latencies are one value, None; latencies and qualities are reals.
- Merger.Deduplicate: why a `dedup_key` raises is not modelled; the key of such a config is the fallback
  key that the loop builds for it, and both kinds are one value here.
- Aggregate.SortBuckets: a NaN latency counts as a missing one, where the program sorts these buckets on the
  NaN itself and their order is then not determined.
- Aggregate.TakeUnique: a `dedup_key` that raises ends the program's loop, and is not modelled.
- Aggregate: `str.upper` is a parameter; the settings are parameters already coerced.
- Aggregate.WhitelistBalance: for a total that is not negative, which is what its callers pass; the
  product of total and ratio is exact, where the program multiplies in floating point.
- Aggregate.BuildMixedOutput: how short each part falls is only logged, and not modelled.
- Identity: lower-casing, stripping, the spelling of addresses and the search for a hopping range in the
  link are parameters; SHA-256 is injective; UTF-8 tells texts without surrogates apart.
- RateLimiter: what is spaced is the claimed slots; a sleep that takes too long can bring two requests
  closer than that. Times are reals, where the program has floats.
- Crawl.GitHubClient.FetchDirectory: it counts one listing per directory and one fetch per file, though either
  may take more than one HTTP request (a listing of 1000 entries is read again through the Trees API);
  the concurrency of the fetches is not modelled, as their answers do not depend on their order here.
- ClashNames: the fields of a proxy entry are a parameter, and the YAML writer is not modelled.
- Regular expressions, the protocol parsers, the Telegram report, the CLI, settings coercion and the
  other pipeline stages: no part of this model.
