# Models and proofs for the gateway's self-contained algorithms

The gateway forwards LLM requests to upstream *channels*. Most of it is plumbing, but some
pieces carry an algorithm or a protocol whose promises span many calls. Each piece is one Dafny module
here, modelled branch by branch, with its promises proved for all inputs and all runs.

| module | what it models |
|---|---|
| `ChannelTestPool` | the worker pool that tests channels: feeder, workers, closer and collector over two unbuffered channels, with cancellation, as one transition system |
| `PricingDifferences` | the multi-pass comparison of local prices with those of upstream channels |
| `ModelsDevSelection` | choosing one price per model from the models.dev catalogue |
| `ModelNames`, `UpstreamModels` | the ordered-set algebra of model names, and detecting, adopting, applying and ignoring upstream model changes |
| `UpstreamRuns`, `UpstreamIgnoring` | runs of such checks and applies, each of which may store what it made of an older state of the row; which names can be ignored for good |
| `ChannelScan` | the id-ordered batch scan over enabled channels |
| `RateLimiter` | the in-memory sliding-window rate limiter and its janitor |
| `ObservationLimiter` | admission in four counted scopes with rollback and once-only release |
| `MultiKey` | multi-key channels: disabling, enabling and deleting keys, with three index-keyed maps |
| `BodyStorage` | request bodies in memory or in a cache file, and the usage counters |
| `OggScan` | the resynchronising Ogg page scan (section 6 of RFC 3533) |
| `Quota` | rounding, saturation, strict conversion and the charge for a channel test |
| `Text` | trimming, and lists kept as one delimited text |
| `Basics` | types shared by the others |

`dafny verify dfyconfig.toml` checks the whole project.

Code that updates fields is a class whose methods are proved against a function of the old state;
loops are loops with invariants; the goroutines of the pool and everything said about whole runs use
sequences of events, of any length, and a function giving the state after them. Clocks, query
answers, fetched lists, regular-expression matching, JSON reading, faults and the test of a single
channel are parameters and can be anything.

## Where the code does not do what one would expect

The models follow the code. Where an expected property fails, a lemma gives inputs for which it
fails and another one the exact condition under which it holds.

- Model names are stored in one text separated by commas, so a name with a comma falls apart
  (`UpstreamModels.StoredNames`). A list is read back as stored if and only if no name has one
  (`StoreIffStorable`). So applying "x,y" while "x" stays pending makes the pending lists contradict
  the model list (`CommaBreaksConsistency`), and an ignored model can come to be served as a piece of
  an adopted one (`IgnoredCanBeServed`).
- Nothing is locked between loading a channel, fetching its upstream list and storing the outcome,
  which overwrites all settings. A check that read the row before an apply or an adoption was stored
  leaves models pending that are served already (`UpstreamRuns.OldCheckClashes`,
  `OldCheckAfterAdoption`), and takes back what was ignored in between (`OldCheckForgets`).
  `RunConsistentIff`, `RunUnproposedIff` and `UnservedIff` say for every run, with readings as old as
  one likes, exactly when the lists stay consistent, an ignored model stays unproposed and stays
  unserved; `QuietConsistentIff` says what remains when nothing is overwritten that way.
- Adding a model strikes its name from the ignore list, even if the entry is a `regex:` pattern of
  that name which kept other models out. A round of check, apply all and check again comes to rest if
  and only if no name has a comma and no pattern still needed was struck (`RoundConverges`,
  `PatternLost`). So an entry can be lost, and with it what it kept out. A name is proposed in no run if
  and only if some entries that are not pending ignore it and one another
  (`UpstreamIgnoring.NeverProposedIff`).
- `delete_disabled_keys` on a channel whose keys are all automatically disabled reports success,
  deletes none of them and enables them all (`MultiKey.DeletingAllEnablesAll`), because an empty key
  text means "keep the stored one".
- Deleting keys writes the others one a line. They are read back if and only if there are some, none
  holds a line end, neither end is empty and the lines do not happen to be a JSON array
  (`MultiKey.DeleteFilters`): deleting the first of "a" and "[1,2]" leaves two keys (`ArrayAppears`).
  An empty array holds no key but is counted as one (`EmptyArrayMiscounts`). `RunInBoundsIff` says for which key texts the
  indices stay below the number of keys in every run, `RobustIff` how to check that, and
  `LinesRobustIff` what it means for ordinary lines: at most one key, or no empty one.
- A rate limit of 0 admits one request per window (`RateLimiter.Capacity`). The janitor forgets
  nothing that matters if and only if there is none, or the duration exceeds its expiry by at most one
  second (`ExpirySuffices`, `ExpiryNecessary`); the rule noted at `common/constants.go:205` implies this.
- An upstream value that is null or the text "same" is taken for one of the passes' own marks, and of
  two channels with one name only the last counts. `PricingDifferences.KeptIff` says what is kept in
  every case; `OneChannelExact` and `DuplicateNameHides` show the differences that are lost.
- Comparing prices up to an epsilon is not transitive. The bound of `SelectedPrice` rests on visiting
  providers in ascending order; in descending order prices drift (`UnsortedDrifts`).
- With `maxBytes` equal to the largest int64, `maxBytes + 1` wraps and every streamed body becomes
  empty (`BodyStorage.TakenExact`). Reading zero bytes at the end is an error in memory and a success
  on disk, and that is the only difference (`BackendsAgree`).
- The room on disk is checked when a body arrives, but its bytes are counted when it has been written.
  Two honest uploads side by side break the limit (`BodyStorage.TwoBreakLimit`), k of them by up to
  k - 1 times their size and no more (`CrowdBound`, `CrowdReached`), and a stream longer than its
  declared length breaks it alone (`UnderstatedBreaksLimit`). Usage stays within the limit if and only
  if nothing is counted that overruns the room left at that moment (`DiskLimitIff`).

## Model

| member | source | states |
|---|---|---|
| `ChannelTestPool.HealthCheck` | controller/channel-test.go:918-954 | exactly when a health check counts as tested, failed, disabling or enabling; the summary is always balanced: tested = succeeded + failed, disabled <= failed, disabled + enabled <= tested |
| `ChannelTestPool.NormalizeConcurrency` | setting/operation_setting/monitor_setting.go:67-75 | the concurrency asked for if it is between 1 and 32, otherwise 1 below and 32 above |
| `ChannelTestPool.ConservedStep` | controller/channel-test.go:974-1033 | every step of the pool moves entries from place to place: entries, each single entry and (until cancellation) each summary column are conserved |
| `ChannelTestPool.Conservation` | controller/channel-test.go:974-1033 | the same for every schedule: what was handed out is running, being sent, held by the collector or collected |
| `ChannelTestPool.Reachable` | controller/channel-test.go:974-1035 | every schedule keeps the control, ledger and progress invariants |
| `ChannelTestPool.ExactlyOnce` | controller/channel-test.go:984-1013 | under every schedule, cancelled anywhere, each entry handed out is in exactly one place and no other entry is anywhere: nothing runs or is collected twice |
| `ChannelTestPool.ProcessedBound` | controller/channel-test.go:1019-1033 | processed entries never exceed those handed out, nor these the list |
| `ChannelTestPool.SummarySafety` | controller/channel-test.go:1019-1029 | at all times the summary is the sum over exactly the collected entries, and balanced |
| `ChannelTestPool.ProgressSafety` | controller/channel-test.go:1030-1032 | reported progress strictly increases and never passes the total |
| `ChannelTestPool.NoSendOnClosed` | controller/channel-test.go:974-1017 | while a worker runs or sends, the results channel is open and cannot be closed; at most `workerCount` entries run at once |
| `ChannelTestPool.MeasureDecreases` | controller/channel-test.go:974-1035 | a natural number decreases with every step |
| `ChannelTestPool.Terminates` | controller/channel-test.go:974-1035 | no schedule is longer than the measure of the start state |
| `ChannelTestPool.NoDeadlock` | controller/channel-test.go:974-1035 | in every reachable unfinished state some goroutine can step without the environment's help, cancelled or not |
| `ChannelTestPool.FinishedColumn` | controller/channel-test.go:1019-1035 | a finished uncancelled run has, in each column, the sum of the verdicts of the whole list |
| `ChannelTestPool.Completion` | controller/channel-test.go:956-1036 | a schedule nobody can continue has finished with no goroutine left, each entry handed out collected exactly once; uncancelled, the whole list, with the same summary whatever the schedule and reports 0, 1, ..., total |
| `ChannelTestPool.Totals` | controller/channel-test.go:991-1029 | without cancellation each of the five totals is that column summed over the entries that are run, whatever the schedule |
| `ChannelTestPool.SkippedDoNotMatter` | controller/channel-test.go:991-993 | two lists that agree on the entries that are run give the same totals under any two schedules: what a skipped entry would have yielded never shows |
| `ChannelTestPool.TestedOnceEach` | controller/channel-test.go:991-1029 | if every run tests one channel, the total tested is the number of entries that are neither missing nor manually disabled |
| `ChannelTestPool.WorkersExact` | controller/channel-test.go:974-979 | the workers are as many as asked for, within 1 to 32, but no more than entries |
| `ChannelTestPool.NoReportAfterCancel` | controller/channel-test.go:1030-1032 | from a cancellation on nothing is reported |
| `PricingDifferences.AllModels` | controller/ratio_sync.go:560-574 | the models considered are exactly those priced in some field, locally or by some channel |
| `PricingDifferences.FieldsExact` | controller/ratio_sync.go:65-133 | the ten fields by name, and the eight of them whose numbers are read as floats |
| `PricingDifferences.SuppliedExact` | controller/ratio_sync.go:126-133 | a value is supplied if and only if the field's map has the model; it is the value there, in numeric fields as a float where it is a number |
| `PricingDifferences.EqualExact` | controller/ratio_sync.go:49-63 | two numbers are equal if and only if they are less than 0.000000001 apart, and other values if they are the same |
| `PricingDifferences.ConfidencePass` | controller/ratio_sync.go:576-609 | per channel name and model, whether the prices are trusted, the later of equal names winning |
| `PricingDifferences.ChannelConfidence` | controller/ratio_sync.go:582-608 | one channel's models are untrusted exactly at model ratio 37.5 with completion ratio 1 |
| `PricingDifferences.TrustedExact` | controller/ratio_sync.go:588-603 | untrusted if and only if both ratios are numbers, the model ratio within 0.000000001 of 37.5 and the completion ratio of 1 |
| `PricingDifferences.LabelChannel` | controller/ratio_sync.go:624-642 | a channel is marked with its value where it differs, "same" where it agrees or neither side has one, nil where only the local side has one |
| `PricingDifferences.LabelAll` | controller/ratio_sync.go:618-647 | all channels' marks by name, whether any supplies a value, and whether any differs |
| `PricingDifferences.Inspect` | controller/ratio_sync.go:613-670 | one model and field: the item, and whether it is shown at first |
| `PricingDifferences.Collect` | controller/ratio_sync.go:611-672 | the first result holds exactly the shown items, and no model without items |
| `PricingDifferences.DifferingChannels` | controller/ratio_sync.go:674-683 | exactly the channel names with a difference in some item |
| `PricingDifferences.PruneItem` | controller/ratio_sync.go:687-692 | an item without the other channels' marks and confidences |
| `PricingDifferences.PruneModel` | controller/ratio_sync.go:686-706 | in-place deletion while iterating leaves exactly the restricted items that are not "same" throughout |
| `PricingDifferences.Prune` | controller/ratio_sync.go:685-711 | the same for all models, emptied models being removed |
| `PricingDifferences.BuildDifferences` | controller/ratio_sync.go:554-714 | all passes together: the shown items, restricted to the channels that differ somewhere, without those that are "same" throughout |
| `PricingDifferences.KeptDiffers` | controller/ratio_sync.go:611-713 | whatever the input, what is kept is a model and field where some channel supplies a value not equal to the local one |
| `PricingDifferences.KeptIff` | controller/ratio_sync.go:611-713 | whatever the input: kept if and only if some channel differs there (its value is not equal to the local one, or only one side has a value), and some channel that counts, differs visibly somewhere and is not "same" here remains |
| `PricingDifferences.CleanKeptIff` | controller/ratio_sync.go:611-713 | for distinct channel names and values that are no marks: kept if and only if some channel supplies a value not equal to the local one |
| `PricingDifferences.KeptItem` | controller/ratio_sync.go:611-713 | a kept item shows the local value and exactly the channels that differ somewhere, each with its confidence and, spelled out, its own mark: its value where it differs, "same" where it agrees or neither side has one, null where only the local side has one |
| `PricingDifferences.KeptNames` | controller/ratio_sync.go:623-647 | a kept item shows nothing but such channels |
| `PricingDifferences.OneChannelExact` | controller/ratio_sync.go:636-642 | with one channel, exactly the differences that are "same", or null from a channel without visible difference, are lost |
| `PricingDifferences.DuplicateNameHides` | controller/ratio_sync.go:644-646 | of two channels with one name the first one's difference is lost when the second agrees |
| `ModelsDevSelection.BuildCandidate` | controller/ratio_sync.go:863-897 | a candidate exactly for usable costs, with that provider, input, output and cache-read price; a positive output price needs a positive input price |
| `ModelsDevSelection.LessTotal` | controller/ratio_sync.go:910 | the order on provider names is total |
| `ModelsDevSelection.SortedKeys` | controller/ratio_sync.go:933-937 | keys met in any order come out as the ascending list of the set |
| `ModelsDevSelection.SortsUnique` | controller/ratio_sync.go:933-937 | a set has only one ascending list, so map iteration order cannot matter |
| `ModelsDevSelection.VisitModels` | controller/ratio_sync.go:940-961 | one provider offers each of its models exactly once to the selection |
| `ModelsDevSelection.Select` | controller/ratio_sync.go:924-966 | the error cases exactly, and otherwise, for every model, the fold over the ascending list of providers |
| `ModelsDevSelection.FoldOffered` | controller/ratio_sync.go:933-962 | the selected price is one of the valid candidates |
| `ModelsDevSelection.PickCovers` | controller/ratio_sync.go:899-911 | choosing between two candidates in provider order keeps the bound for both, and for all candidates covered before |
| `ModelsDevSelection.FoldCovers` | controller/ratio_sync.go:899-962 | although the comparison is not transitive, the selected price is less than epsilon above every non-zero offer, and zero only if all offers are |
| `ModelsDevSelection.SelectedPrice` | controller/ratio_sync.go:924-962 | the same in terms of the whole catalogue: less than 0.000000001 above the cheapest positive price |
| `ModelsDevSelection.OfferedExact` | controller/ratio_sync.go:952-956 | a provider's candidate is made from its own costs of the model, if it lists it |
| `ModelsDevSelection.FirstStays` | controller/ratio_sync.go:899-962 | a positive price of the first provider stays selected when all others are zero or less than 0.000000001 away |
| `ModelsDevSelection.UnsortedDrifts` | controller/ratio_sync.go:899-911 | visited in descending order, prices drift to 1.8 epsilon above the cheapest |
| `ModelNames.MergeModelNames` | controller/channel_upstream_update.go:108-122 | the loop computes the normalized base followed by what the normalized rest adds |
| `ModelNames.SubtractModelNames` | controller/channel_upstream_update.go:124-133 | the normalized base without the removed names, in order |
| `ModelNames.IntersectModelNames` | controller/channel_upstream_update.go:135-144 | the normalized base restricted to the allowed names, in order |
| `ModelNames.NormalizeNormal` | controller/channel_upstream_update.go:101-106 | normalizing gives trimmed, non-blank names without duplicates |
| `ModelNames.NormalizeFixed` | controller/channel_upstream_update.go:101-106 | and changes nothing in such a list |
| `ModelNames.NormalizeInOrder` | controller/channel_upstream_update.go:101-106 | normalizing a beginning of a list gives a beginning of what normalizing the list gives: names keep their order, by first occurrence |
| `ModelNames.MergedNormal` | controller/channel_upstream_update.go:108-122 | merging is normal and holds exactly the names of both lists |
| `ModelNames.SubtractedNormal` | controller/channel_upstream_update.go:124-133 | subtracting is normal and holds exactly the names of the first list not in the second |
| `ModelNames.IntersectedNormal` | controller/channel_upstream_update.go:135-144 | intersecting is normal and holds exactly the common names |
| `ModelNames.AllInOrder` | controller/channel_upstream_update.go:108-144 | merging, subtracting and intersecting keep the order of the base, and merging puts it first |
| `ModelNames.AppliedNames` | controller/channel_upstream_update.go:146-151 | applying holds the added names and the old ones not removed; adding wins over removing |
| `UpstreamModels.NewNames` | controller/channel_upstream_update.go:214-228 | pending additions are exactly the upstream names neither local, nor a mapping target, nor ignored |
| `UpstreamModels.GoneNames` | controller/channel_upstream_update.go:229-237 | pending removals are exactly the local names that are no alias and not served upstream |
| `UpstreamModels.CollectPending` | controller/channel_upstream_update.go:180-239 | the loops compute these two lists, in order |
| `UpstreamModels.DetectedNormal` | controller/channel_upstream_update.go:180-239 | both are normal |
| `UpstreamModels.NormalizedFrom` | controller/channel_upstream_update.go:101-106 | a normalized list holds exactly what its items are once trimmed, blanks excepted |
| `UpstreamModels.EntryExact` | controller/channel_upstream_update.go:217-223 | an entry starting with "regex:" is a pattern, trimmed behind that; any other ignores the name equal to it and no other |
| `UpstreamModels.DetectedExact` | controller/channel_upstream_update.go:180-239 | in terms of the lists as given: a name is to be added if and only if the upstream lists it, the channel does not, no alias leads to it and no entry ignores it; to be removed if and only if the channel lists it, it is no alias and the upstream does not list it |
| `UpstreamModels.Converges` | controller/channel_upstream_update.go:146-239 | for every local, upstream and ignore list and mapping: detecting again on the list with all changes applied finds nothing |
| `UpstreamModels.Channel.CheckAndPersist` | controller/channel_upstream_update.go:510-557 | the stored row after a check that is early, fails to fetch, fails to store, adopts or only records, computed from the row as it was loaded and stored onto the row there is by then; the counts, and failure exactly when it was due and fetching or storing failed |
| `UpstreamModels.CheckEffect` | controller/channel_upstream_update.go:516-548 | a check takes place if and only if it is forced, none was recorded, or the interval since the last is over; it then records its time, the pending removals, and either the pending additions or their adoption; otherwise nothing changes |
| `UpstreamModels.StoredAtOnce` | controller/channel_upstream_update.go:499-508 | stored onto the row that was read, checks and applies have their plain effect |
| `UpstreamModels.MergeGrows` | controller/channel_upstream_update.go:534-541 | adoption grows the list by exactly the number of detected names |
| `UpstreamModels.Channel.Apply` | controller/channel_upstream_update.go:955-1003 | the same for a partial apply: what was chosen and what remains; nothing changes when storing fails |
| `UpstreamModels.StoreEffect` | controller/channel_upstream_update.go:499-508 | stored onto a newer row, a check or apply overwrites all settings with its own, and the models if and only if it changed them |
| `UpstreamModels.ApplyEffect` | controller/channel_upstream_update.go:983-1003 | a stored apply records its time and keeps the auto-sync switch; one not stored changes nothing |
| `UpstreamModels.StoreIffStorable` | model/channel.go:294-299 | a normal list is read back as stored if and only if no name has a comma |
| `UpstreamModels.StoredNames` | model/channel.go:294-299 | any list is read back as the pieces its names fall into |
| `UpstreamModels.ApplySplits` | controller/channel_upstream_update.go:968-990 | each apply splits the pending lists into chosen and remaining, losing nothing and sharing nothing |
| `UpstreamModels.ServedAfterCheck` | controller/channel_upstream_update.go:534-541 | after automatic adoption the channel serves the old names and the pieces of the adopted ones |
| `UpstreamModels.ServedAfterApply` | controller/channel_upstream_update.go:976-981 | after an apply it serves the old names not removed and the pieces of the added ones |
| `UpstreamModels.CheckConsistent` | controller/channel_upstream_update.go:510-557 | no check makes the pending lists of the row it read inconsistent with its model list |
| `UpstreamModels.ApplyConsistentIff` | controller/channel_upstream_update.go:968-990 | an apply keeps them consistent if and only if no name left pending is a piece of a chosen one |
| `UpstreamRuns.StepConsistentIff` | controller/channel_upstream_update.go:499-1003 | what a check or apply stores is consistent with the models by then if and only if it leaves no piece pending and its pending lists fit those models |
| `UpstreamRuns.RunConsistentIff` | controller/channel_upstream_update.go:510-1003 | for every run, each event having read any earlier state: all states are consistent (pending lists normal, additions outside the model list, removals inside) if and only if no event is of that kind; a normal ignore list stays normal in every run |
| `UpstreamRuns.QuietConsistentIff` | controller/channel_upstream_update.go:510-1003 | when no event stores over an apply or adoption later than its reading: if and only if no apply leaves a piece pending |
| `UpstreamRuns.IgnoreListNormalIff` | controller/channel_upstream_update.go:983-986 | in such a run the ignore list is normal if and only if it was at first or an apply was stored |
| `UpstreamRuns.RunConsistent` | controller/channel_upstream_update.go:510-1003 | in particular every such run against upstreams without commas in names is consistent, all lists staying normal |
| `UpstreamRuns.TakesEffectIff` | controller/channel_upstream_update.go:516-548 | in every run a check has that effect if and only if the interval is over in the row it had read |
| `UpstreamRuns.ChecksApart` | controller/channel_upstream_update.go:516-523 | after a check at time t, the next one that is not forced has an effect if and only if it is at t + interval or later |
| `UpstreamRuns.OldCheckClashes` | controller/channel_upstream_update.go:716-753 | a check that read the row before an apply leaves an added model pending, without any comma |
| `UpstreamRuns.OldCheckAfterAdoption` | controller/channel_upstream_update.go:716-753 | so does one that read it before an adoption |
| `UpstreamModels.CommaBreaksConsistency` | controller/channel_upstream_update.go:978-990 | applying "x,y" while "x" stays pending breaks it |
| `UpstreamRuns.RunUnproposedIff` | controller/channel_upstream_update.go:214-1003 | from a state in which m is ignored by its own entry and not pending, it stays so in all later states if and only if every outcome stored from then on goes back to a row that remembers it |
| `UpstreamRuns.StaysUnproposed` | controller/channel_upstream_update.go:214-1003 | in particular when nothing stored from then on had read an earlier state |
| `UpstreamRuns.IgnoredForGood` | controller/channel_upstream_update.go:971-990 | so a pending model that a request ignores and does not add is never proposed again nor dropped from the list, if nothing stored later had read the row before |
| `UpstreamRuns.OldCheckForgets` | controller/channel_upstream_update.go:525-548 | a check that had proposes it again and takes it off the ignore list |
| `UpstreamRuns.UnservedIff` | controller/channel_upstream_update.go:534-541 | from a state that does not serve m, no later state does, if and only if no event writes a list that does |
| `UpstreamRuns.IgnoredStaysUnserved` | controller/channel_upstream_update.go:971-990 | whatever its name, an ignored model is served in no later state if and only if neither that event nor a later one brings it |
| `UpstreamModels.IgnoredCanBeServed` | controller/channel_upstream_update.go:534-541 | with automatic adoption, a check against an upstream serving "m,y" makes the channel serve the ignored m |
| `UpstreamRuns.StaysSuppressed` | controller/channel_upstream_update.go:534-541 | against upstreams without commas in names, an ignored, unproposed and unserved model stays all that, if nothing goes back to an earlier state |
| `UpstreamModels.RoundConverges` | controller/channel_upstream_update.go:955-1003 | check, apply all, check again, through storage: nothing is pending if and only if no detected name has a comma and no pattern still needed was struck |
| `UpstreamModels.NoPatternAdded` | controller/channel_upstream_update.go:984-986 | no pattern is struck when no detected name looks like one |
| `UpstreamModels.PatternLost` | controller/channel_upstream_update.go:984-986 | adding a model named like a pattern strikes the pattern, and a model it kept out comes back |
| `UpstreamModels.ProposedAgain` | controller/channel_upstream_update.go:214-228 | a name that no entry ignores and that is not served is proposed by some check |
| `UpstreamIgnoring.StaysInForce` | controller/channel_upstream_update.go:214-1003 | entries on the ignore list that ignore m and one another, and are not pending, stay on it in every run and keep m from being proposed |
| `UpstreamIgnoring.UnguardedProposed` | controller/channel_upstream_update.go:971-990 | without such entries some run strikes what ignores m and proposes m |
| `UpstreamIgnoring.NeverProposedIff` | controller/channel_upstream_update.go:214-1003 | a name that is not pending is proposed in no run if and only if there are such entries |
| `UpstreamIgnoring.OnlyEntryIff` | controller/channel_upstream_update.go:218-224 | with m as the only entry: if and only if the entry m ignores the name m |
| `ChannelScan.Scan` | controller/channel_upstream_update.go:709-797 | the scan ends, visits ids in strictly ascending order (so none twice), only ids enabled in some snapshot, and passes over none enabled in all of them, however the table changes, a query fails or the scan is cancelled; undisturbed, it visits them all; each query yields at most 100 |
| `ChannelScan.VisitPage` | controller/channel_upstream_update.go:734-792 | one batch is visited whole, or up to a cancellation, keeping all this |
| `ChannelScan.Extends` | controller/channel_upstream_update.go:1029-1084 | any first part of a batch extends the visited ids without gap or repetition |
| `ChannelScan.CompleteAtEnd` | controller/channel_upstream_update.go:1081-1083 | a batch that is not full completes the scan |
| `RateLimiter.InMemoryRateLimiter.constructor` | common/rate-limit.go:14-26 | starts empty, with the given expiration, and with a janitor if and only if that is positive |
| `RateLimiter.InMemoryRateLimiter.Request` | common/rate-limit.go:45-70 | the decision and the new queues as functions of the old ones; no queue is ever empty |
| `RateLimiter.InMemoryRateLimiter.ClearExpiredItems` | common/rate-limit.go:31-40 | one sweep forgets exactly the keys idle for longer than the expiry |
| `RateLimiter.SecondsExact` | common/rate-limit.go:36 | an expiry of s seconds and less than 10^9 nanoseconds more counts as s seconds |
| `RateLimiter.ShiftAgrees` | common/rate-limit.go:56-59 | displacing the oldest entry of a full queue keeps queue and log in agreement |
| `RateLimiter.SweepAgrees` | common/rate-limit.go:33-39 | so does a sweep, when the expiry suffices |
| `RateLimiter.RunAgrees` | common/rate-limit.go:28-70 | every run of requests and sweeps with a clock that does not run backwards keeps the queue a tail of the full log, missing only what has left the window |
| `RateLimiter.AdmitsIffRoom` | common/rate-limit.go:45-70 | a request is admitted if and only if fewer than the limit admitted requests of the full log lie in the last `duration` seconds |
| `RateLimiter.WindowBound` | common/rate-limit.go:45-70 | no window of `duration` seconds ever holds more than the limit |
| `RateLimiter.ExpiryNecessary` | common/rate-limit.go:20-42 | for every other expiry there is a run that admits a request without room |
| `ObservationLimiter.Limiter.constructor` | controller/plugin_protocol_limiter.go:56-63 | starts with no place taken |
| `ObservationLimiter.Limiter.Acquire` | controller/plugin_protocol_limiter.go:65-157 | the stepwise acquisition with rollback refines the simple decision; a refusal restores every counter |
| `ObservationLimiter.Limiter.TakePlaces` | controller/plugin_protocol_limiter.go:80-131 | the four scopes in turn, each failure giving back what was taken |
| `ObservationLimiter.Limiter.Release` | controller/plugin_protocol_limiter.go:133-156 | the first release gives all four places back, any later one does nothing |
| `ObservationLimiter.CountersExact` | controller/plugin_protocol_limiter.go:65-157 | after every run each counter of each scope is the number of held leases in it and within its limit |
| `ObservationLimiter.AlwaysTidy` | controller/plugin_protocol_limiter.go:65-157 | no map ever keeps a zero or negative entry |
| `ObservationLimiter.AcquireIffRoom` | controller/plugin_protocol_limiter.go:65-131 | acquisition succeeds if and only if the identity is valid and, counting held leases, all four scopes have room; otherwise nothing changes |
| `ObservationLimiter.RefusalExact` | controller/plugin_protocol_limiter.go:80-131 | after every run, which scope refuses and with which limit, in terms of the leases held: the first full one of global, plugin, user and token |
| `ObservationLimiter.IdentityRefused` | controller/plugin_protocol_limiter.go:70-78 | each of the three identity errors exactly in its case, in that order |
| `ObservationLimiter.ReleaseOnce` | controller/plugin_protocol_limiter.go:133-156 | releasing twice is releasing once |
| `Text.RoundTrip` | model/channel.go:294-299 | a list is read back from its text if and only if it is empty, or no item holds the separator and neither end is empty |
| `Text.ReadBackShorter` | model/channel.go:200 | with an empty end it is read back shorter |
| `Text.JoinSplit` | model/channel.go:200 | joining the pieces of a text gives the text back |
| `Text.SpaceExact` | controller/channel_upstream_update.go:101-106 | the 25 characters that are trimmed |
| `Text.TrimExact` | controller/channel_upstream_update.go:101-106 | trimming cuts out the part of a text that has only blanks around it and does not begin or end with one |
| `Text.JoinPieces` | model/channel.go:294-299 | any list falls apart into what its items fall apart into |
| `MultiKey.StartsWithBracket` | model/channel.go:187-189 | which texts are tried as JSON arrays |
| `MultiKey.Channel.GetKeyStatus` | controller/channel.go:1578-1690 | the asked page of the entries with the asked status, with defaults and clamping, their number, and the three counts over all keys |
| `MultiKey.WithStatusExact` | controller/channel.go:1641-1651 | the filter keeps exactly the entries with that status, as many as are counted |
| `MultiKey.EntryShows` | controller/channel.go:1605-1640 | the entry of each key: its status (1 if none is recorded), the recorded time and reason unless it is enabled, the key or its first ten characters and "..." |
| `MultiKey.AnswerExact` | controller/channel.go:1596-1690 | the answer: how many entries have the asked status, pages of the asked size or 50, the asked page held within 1 and the last, its stretch of entries, and the counts of statuses 1, 2 and 3 |
| `MultiKey.PageCountExact` | controller/channel.go:1653-1657 | the number of pages is the smallest, but at least 1, that holds all entries |
| `MultiKey.PagesCover` | controller/channel.go:1653-1674 | whatever the page size, the pages together are the whole list, in order |
| `MultiKey.Channel.Disable` | controller/channel.go:1692-1733 | the result and stored row of disable_key |
| `MultiKey.Channel.Enable` | controller/channel.go:1735-1775 | the result and stored row of enable_key |
| `MultiKey.Channel.EnableAll` | controller/channel.go:1777-1799 | the result and stored row of enable_all_keys |
| `MultiKey.Channel.DisableAll` | controller/channel.go:1801-1846 | the result and stored row of disable_all_keys: exactly the enabled keys become disabled, and it fails if there are none |
| `MultiKey.DisableEffect` | controller/channel.go:1692-1733 | disable_key succeeds if and only if the index is that of a key; in the status list that entry alone then becomes status 2, and no key changes |
| `MultiKey.EnableEffect` | controller/channel.go:1735-1775 | enable_key likewise makes that entry alone status 1, forgetting its time and reason |
| `MultiKey.EnableAllEffect` | controller/channel.go:1777-1799 | enable_all_keys makes every entry status 1 and forgets all times and reasons |
| `MultiKey.DisableAllEffect` | controller/channel.go:1801-1846 | disable_all_keys succeeds if and only if some key is enabled, and makes exactly the enabled ones status 2 |
| `MultiKey.MarkedShown` | model/channel.go:698-710 | a key marked by the relay is shown with that status, time and reason, and no other entry changes |
| `MultiKey.Channel.RebuildWithout` | controller/channel.go:1866-1898 | the loop renumbers keys, statuses, times and reasons of all keys but one |
| `MultiKey.Channel.Delete` | controller/channel.go:1848-1926 | the result and stored row of delete_key |
| `MultiKey.Channel.RebuildEnabled` | controller/channel.go:1929-1966 | the loop renumbers the keys not automatically disabled and counts the others |
| `MultiKey.Channel.DeleteDisabled` | controller/channel.go:1928-1995 | the result and stored row of delete_disabled_keys |
| `MultiKey.SurvivorsExact` | controller/channel.go:1873-1898 | the renumbered keys are exactly those not deleted, in order |
| `MultiKey.UpdateKeeps` | model/channel.go:556-595 | storing a row whose key text is counted right changes nothing in it |
| `MultiKey.UpdateCuts` | model/channel.go:558-592 | storing keeps the old key text if none is given, counts the keys again and drops exactly the status entries beyond their number |
| `MultiKey.ReadBack` | model/channel.go:180-202 | readable keys are read back, and counted, from one line each |
| `MultiKey.NotReadBack` | model/channel.go:180-202 | no others are |
| `MultiKey.DeleteFilters` | controller/channel.go:1866-1913 | deleting any keys leaves the keys and the status list equal to the earlier ones with exactly those filtered out and renumbered, if and only if the rest is readable |
| `MultiKey.DeleteKeyFilters` | controller/channel.go:1848-1926 | delete_key refuses the last key, and otherwise loses exactly that key if and only if the rest is readable |
| `MultiKey.DeleteDisabledFilters` | controller/channel.go:1928-1995 | delete_disabled_keys loses exactly the automatically disabled keys, if there are any, if and only if the rest is readable |
| `MultiKey.ArrayAppears` | model/channel.go:187-198 | a second line that is an array by itself becomes several keys when the first line is deleted |
| `MultiKey.EmptyArrayMiscounts` | model/channel.go:568-583 | an empty array holds no key but is counted as at least one, so its text is not steady |
| `MultiKey.DeletingAllEnablesAll` | controller/channel.go:1976-1983 | when all keys are automatically disabled it deletes none and enables all |
| `MultiKey.StepInBounds` | controller/channel.go:1692-1995 | a request on a steady key text, leading to a steady one, keeps size and indices in bounds |
| `MultiKey.RunInBoundsIff` | controller/channel.go:1692-1995 | every run of requests, with any entries recorded in between, keeps the size equal to the key count and all status, time and reason indices below it, if and only if the key text is robust |
| `MultiKey.NotRobustBreaks` | controller/channel.go:1937-1983 | for every other key text there is a run that leaves an index or the size out of bounds |
| `MultiKey.ShortenedShorter` | controller/channel.go:1909 | every deletion that changes the key text shortens it |
| `MultiKey.RobustIff` | model/channel.go:180-202 | a key text is robust if and only if it passes a check that tries all choices of keys and goes on with the shorter texts |
| `MultiKey.PlainRobust` | model/channel.go:180-202 | a text with at most one key, or with keys of which none is empty, holds a line end or starts like an array, is robust |
| `MultiKey.LinesRobustIff` | model/channel.go:200 | keys on lines that do not start like arrays are robust if and only if there is at most one or none is empty |
| `MultiKey.PlainDeleteKey` | controller/channel.go:1848-1926 | after any run of a channel with plain keys, deleting one of several loses exactly that key |
| `MultiKey.PlainDeleteDisabledIff` | controller/channel.go:1928-1995 | and delete_disabled_keys loses exactly the automatically disabled ones if and only if there is no key or some key is not one of them |
| `BodyStorage.MemoryStorage.constructor` | common/body_storage.go:52-60 | a fresh store of the data, counted once |
| `BodyStorage.MemoryStorage.Read` | common/body_storage.go:62-69 | refines reading of the one byte store |
| `BodyStorage.MemoryStorage.Seek` | common/body_storage.go:71-78 | refines its seeking |
| `BodyStorage.MemoryStorage.Bytes` | common/body_storage.go:89-96 | the whole content, the cursor staying where it is |
| `BodyStorage.MemoryStorage.NewReader` | common/body_storage.go:98-108 | refines opening a reader: a new cursor at 0 over the same content, counted among the readers |
| `BodyStorage.MemoryStorage.ReadFrom` | common/body_storage.go:107 | a read on one of the readers handed out refines reading from that reader, also after closing |
| `BodyStorage.MemoryStorage.Close` | common/body_storage.go:80-87 | closes once, uncounting once |
| `BodyStorage.DiskStorage.constructor` | common/body_storage.go:134-156 | a fresh store of what was written, counted once |
| `BodyStorage.DiskStorage.Read` | common/body_storage.go:196-203 | refines reading of the one byte store |
| `BodyStorage.DiskStorage.Seek` | common/body_storage.go:205-212 | refines its seeking |
| `BodyStorage.DiskStorage.Bytes` | common/body_storage.go:225-257 | the whole content by seeking, reading and seeking back; from outside the cursor has not moved |
| `BodyStorage.DiskStorage.NewReader` | common/body_storage.go:259-275 | refines opening a reader: a new cursor at 0 over the same content, counted among the readers |
| `BodyStorage.DiskStorage.ReadFrom` | common/body_storage.go:265-274 | a read on one of the readers handed out refines reading from that reader, also after closing |
| `BodyStorage.DiskStorage.Close` | common/body_storage.go:214-223 | closes once, uncounting once |
| `BodyStorage.Cache.IncrementDiskFiles` | common/disk_cache_config.go:109-112 | one more file and its bytes |
| `BodyStorage.Cache.DecrementDiskFiles` | common/disk_cache_config.go:115-122 | one file and its bytes less, clamped at zero |
| `BodyStorage.Cache.IncrementMemoryBuffers` | common/disk_cache_config.go:125-128 | one more buffer and its bytes |
| `BodyStorage.Cache.DecrementMemoryBuffers` | common/disk_cache_config.go:131-134 | one buffer and its bytes less |
| `BodyStorage.BackendsAgree` | common/body_storage.go:62-283 | under every sequence of operations both storages pass through the same states, with the same outcomes if and only if there is no empty read at the end |
| `BodyStorage.SameContent` | common/body_storage.go:62-275 | no operation changes the content |
| `BodyStorage.BytesAreContent` | common/body_storage.go:89-257 | after any operations that leave the storage open, its bytes are the content created, and asking for them moves nothing |
| `BodyStorage.SeekExact` | common/body_storage.go:71-212 | a seek goes to the place counted from the start, the position or the end, unless that is negative or above the largest int64; it then fails and moves nothing |
| `BodyStorage.ReadExact` | common/body_storage.go:62-203 | a read gives the next bytes, up to the number asked for, and moves behind them; at the end it fails and moves nothing |
| `BodyStorage.SeekThenRead` | common/body_storage.go:62-212 | after any operations that leave the storage open, seeking and then reading gives the bytes of the content created from the place sought on |
| `BodyStorage.ClosedForGood` | common/body_storage.go:62-275 | once closed, every use of the storage fails, for good |
| `BodyStorage.ReadersIndependent` | common/body_storage.go:98-275 | whatever is done to the storage, closing included, or to other readers, a reader's position depends on its own reads alone |
| `BodyStorage.DrainedAll` | common/body_storage.go:259-275 | reading to the end in chunks of any size gives the body back |
| `BodyStorage.TakenExact` | common/body_storage.go:167-178 | a stream is taken whole or refused for its length if and only if `maxBytes + 1` does not overflow or there is nothing to take |
| `BodyStorage.CreateBodyStorage` | common/body_storage.go:286-304 | the data goes to disk if and only if the cache is enabled, its size reaches the threshold, usage and size are within the limit and there is no fault, else to memory; it is held unread and counted once |
| `BodyStorage.CreateFromReader` | common/body_storage.go:307-348 | absent disk faults, acceptance and content depend on stream and maxBytes alone, not on the backend; a refusal counts nothing |
| `BodyStorage.DiskExact` | common/body_storage.go:286-326 | in numbers: data goes to disk if and only if the cache is enabled, the size reaches the threshold, usage and size are within the limit and there is no fault; a stream also by its declared length, if positive |
| `BodyStorage.AloneAgrees` | common/body_storage.go:307-348 | with no other request in between, the steps of a stream count what creating it from a reader counts |
| `BodyStorage.CountersExact` | common/body_storage.go:52-348 | after every run of creations side by side, successful or refused, cached files and repeated closes, each counter is the number or total size of the open holders of its kind |
| `BodyStorage.HitsExact` | common/body_storage.go:323-346 | after every run the hits of disk and of memory are the numbers of streams that ended up there |
| `BodyStorage.ClampsNeverFire` | common/disk_cache_config.go:115-122 | in no such run does closing meet the clamps |
| `BodyStorage.DiskLimitIff` | common/body_storage.go:293-314 | disk usage is within the limit in all states of a run if and only if the limit is not negative and nothing is counted that overruns the room left at that moment |
| `BodyStorage.DiskBound` | common/body_storage.go:159-194 | if every admission to disk finds at most `others` bytes under way, counted and coming bytes exceed the limit by at most that, no stream being longer than declared |
| `BodyStorage.CrowdBound` | common/disk_cache_config.go:170-177 | so with at most k creations of at most m bytes under way, usage is at most the limit plus (k - 1) * m |
| `BodyStorage.CrowdReached` | common/body_storage.go:311-326 | k honest uploads of n bytes can all be admitted and then all be counted, which reaches that bound |
| `BodyStorage.TwoBreakLimit` | common/body_storage.go:311-326 | two honest uploads side by side break the limit |
| `BodyStorage.DiskLimit` | common/body_storage.go:286-326 | creations to disk one after the other, with no stream longer than declared, stay within the limit |
| `BodyStorage.UnderstatedBreaksLimit` | common/body_storage.go:311-326 | a longer one exceeds it alone |
| `OggScan.OpusGranules` | common/audio.go:196-249 | the loop ends on every byte string, having read exactly the page starts and the largest granule position the simple scan finds |
| `OggScan.ReadPage` | common/audio.go:228-248 | one page: its granule position is taken and its body skipped, unless its table is cut off |
| `OggScan.TableSum` | common/audio.go:241-245 | the sum of the segment sizes |
| `OggScan.NoStraddle` | common/audio.go:219-226 | no capture pattern straddles the end of a prefix free of it |
| `OggScan.ScanPages` | common/audio.go:207-249 | a concatenation of well-formed pages is read page by page |
| `OggScan.ScanFindsPages` | common/audio.go:203-249 | after any prefix free of the capture pattern, exactly the page starts are read, and the maximum of zero and all granule positions is found |
| `OggScan.LargestIsMaximum` | common/audio.go:228-232 | that value is reached and not exceeded |
| `OggScan.GranuleRead` | common/audio.go:229 | for every n from -2^63 to 2^63 - 1, the eight base-256 digits of n modulo 2^64, lowest first, are read as n |
| `OggScan.ScanFindsPositions` | common/audio.go:203-249 | pages written with given 64-bit positions, after any prefix free of "OggS": the total is the largest of zero and these positions, and one page is read at each offset, 27 bytes, table and body apart |
| `OggScan.ScanCutFile` | common/audio.go:203-249 | the same for such a file cut short at any byte: the page cut is read if and only if its 27-byte header is whole |
| `Quota.Truncate` | common/quota_math.go:103-104 | truncation toward zero |
| `Quota.Round` | common/quota_math.go:148-150 | the nearest integer, halves away from zero |
| `Quota.SaturateRange` | common/quota_math.go:90-108 | any float64 becomes a 32-bit quota, unclamped exactly when in range, and then truncated |
| `Quota.SaturateOutside` | common/quota_math.go:94-108 | not a number becomes 0, and what is beyond 2147483647 or -2147483648, infinity included, that bound, each with its own kind of clamp |
| `Quota.RoundQuotaMonotone` | common/quota_math.go:141-150 | a larger charge never becomes a smaller quota |
| `Quota.StrictDecides` | common/quota_math.go:94-115 | bounds below 2^53 are decided exactly, and with the right error, although large integers convert inexactly |
| `Quota.WalletStrictExact` | common/quota_math.go:180-183 | the strict wallet conversion succeeds if and only if the rounded decimal is within 2^53 - 1 in magnitude, and then returns it |
| `Quota.RequestStrictExact` | common/quota_math.go:167-176 | the strict single-request conversion does the same at the 32-bit bounds |
| `Quota.SettleTestQuota` | controller/channel-test.go:550-562 | the charge, by ratio or by price |
| `Quota.PriceCharge` | controller/channel-test.go:561 | by price: 500000 times the price truncated toward zero, held within 32 bits, and never less for a higher price |
| `Quota.ChargeMonotone` | controller/channel-test.go:550-559 | more tokens never cost less; a charge is within 0 and the 32-bit maximum, and at least 1 for a ratio other than 0 |
| `Quota.ChargeIsRound` | controller/channel-test.go:550-559 | when nothing clamps, the charge is two nested roundings |
| `Quota.ChargeError` | controller/channel-test.go:550-559 | and differs from the exact charge by at most (ModelRatio + 1) / 2 |

## Left out

- HTTP handlers, request binding, JSON, logging, notifications, audit records and progress texts: plumbing around the modelled cores.
- Database, Redis, object store, mail, login and payment code: foreign calls without visible semantics.
- Encryption, signing and password helpers: thin wrappers over libraries.
- Plugin-protocol streaming, Midjourney refunds and RelayKit format conversion: they rest on code outside this repository's modelled parts.
- Tiered billing, and IEEE rounding of products and quotients: charges are computed over exact reals, float64 special values and integer conversion excepted.
- The ratios computed from a selected models.dev price, and the OpenRouter conversion.
- Nested maps and lists as pricing values: values are scalars.
- The duration in seconds (granule position over 48000) and read errors other than the end of the stream in the Ogg scan; the other audio formats.
- `CleanupOldDiskCacheFiles`, `ResetDiskCacheUsage` and `SyncDiskCacheStats`: they overwrite the counters without regard to open storages.
- Faults of an open cache file, closing an independent reader, a whence outside the three constants, and overflow of the 64-bit counters; cache files allow every 63-bit offset.
- Changes of the cache configuration during a run, and the closing of a file of the file service, which is taken to uncount it once.
- Two requests at once on one multi-key channel: requests are modelled one after the other.
- The byte length of a key preview (a preview counts characters), and the key list that a cached channel carries besides its key text.
- The channel status that the relay changes when it marks keys.
- MultiKey.RunInBoundsIff: between two requests any entries for keys there are may be recorded. The relay itself marks one key at a time, and of equal keys the first, so where keys repeat the converse can use entries that only an edit of the key text leaves behind.
- MultiKey.Channel.GetKeyStatus: page number and page size are far from the 64-bit limit, so that their product does not wrap.
- MultiKey.DeleteFilters: JSON reading is any partial function for which an array's text is longer than its items on one line each, as the brackets make it.
- The difference between an absent and an empty map in a multi-key channel: both read the same.
- The abilities table refreshed after a model list changed, and an error while doing so.
- What is done with each visited channel there: `CheckAndPersist` and `Apply` are modelled on their own.
- Regular expressions and the parsing of the alias mapping: any matching predicate and any mapping are allowed.
- Goroutine scheduling is nondeterministic, but `run` and `report` always return; a nil context or report function is the special case without cancellation or reports.
- RateLimiter.AdmitsIffRoom: each key is requested with one limit and duration, and the clock does not run backwards.
- RateLimiter.InMemoryRateLimiter.constructor: a second initialisation, which the code ignores, and float64 rounding of an expiry in seconds.
