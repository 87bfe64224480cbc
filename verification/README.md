# Verified model of Jaull's discovery, evidence and storage logic

Jaull looks on a model hub for language models that can run on one machine, decides which of them deserve a
closer inspection, evaluates some of them and keeps the evidence. This project models, in Dafny, the parts of
it where a mistake would be hardest to see, and proves what they promise. `dafny verify dfyconfig.toml` checks
everything.

- **Placement and sizing** (`Placement.dfy`, `Sizing.dfy`). The byte estimate of a model, the split of its
  weights between a device and RAM, the bisection for the largest model a machine can hold, and the bands it is
  searched in. The placement has a meaning with no search in it (some split of at least a tenth fits both
  pools); the code, which tries only the largest device share found by binary search, is proved to have exactly
  that meaning, and the meaning is proved monotone in every pool of memory.
- **The inspection shortlist** (`Ordering.dfy`, `ShortlistSpec.dfy`, `ShortlistRun.dfy`,
  `ShortlistCoverage.dfy`, `Shortlist.dfy`, `ShortlistMeaning.dfy`). The run (size-class coverage, relevance with bounded exploration,
  too-large fallback) is specified as a function of a SET of entries. What every run keeps is proved about that
  function; the code, which sorts, pops and extends lists and three growing sets, is proved to compute it. So
  arrival order plays no part and a recorded run can be replayed. `ShortlistMeaning.dfy` restates the results in
  the caller's terms: ranks of placements, billions of parameters, downloads and scores.
- **Evidence reconciliation** (`HttpCoverage.dfy`, `GenerationHttp.dfy`, `ContinuationGroups.dfy`,
  `BaselineMetrics.dfy`). Saved scores and replies against the captured HTTP exchanges, in both directions: what
  is accepted is one to one, and every honest run is accepted. The segmentation recovered from prompt lengths is
  right exactly when its group count is, and the answers chosen from the scores survive a change exactly up to
  half their margin.
- **The artifact store** (`ArtifactStore.dfy`). Downloads, verifications and deletions as a state machine in
  which any step of a download or deletion may fail and leave what it had done.
- **Case bundles** (`CaseBundle.dfy`), **re-uploads** (`Reuploads.dfy`), **inherited tags** (`Lineage.dfy`) and
  the **speed schedule** (`SpeedSchedule.dfy`).
- `Common.dfy` and `Sorting.dfy` hold what several of these share: text, digests and sorting.

Code that works by changing things step by step is modelled by methods with loops, or by classes with fields
(`ArtifactStorage`, `ArtifactService`, `ExportSite`), proved against functions of their inputs or of the old
state; what the repository promises is proved about those functions.

Three statements one might expect turned out false of the code. Each has a concrete input and the exact
condition under which it holds:

- A coverage pick of unknown size need not declare text use, although the bucket was sorted to put such an
  entry first (`UnknownSizePickWithoutSignal`, and from the repositories and the machine on,
  `UnknownSizePickWithoutSignalIsReal`). It does if and only if nothing in the tie is of a family not selected
  yet, or something of such a family does (`UnknownSizePickSignals`).
- Downloading a file that is itself named like a sidecar can certify another model's bytes falsely
  (`SidecarNameBreaks`); no other name can (`SafeNamesExactly`).
- Looking up a kept copy's alternatives by its case-folded id can return another copy's
  (`LookupFindsAnothersCopy`). All lookups are exact if and only if no two kept copies share a folded id, unless
  neither of them has anything set aside (`LookupIsExactIff`); different folded ids are always enough
  (`DistinctFoldedIdsSuffice`).

The code and its own words differ in two places, and the model follows the code: `_pop_bucket_candidate` says its
bucket is sorted best score first, which is not so for the bucket of unknown sizes
(`src/jaull/discovery/candidate_filter.py:663-666`, `:907-932`); and the alternatives of re-uploads are described
as the most downloaded first, while likes and then names break ties
(`src/jaull/discovery/candidate_filter.py:223`, `:257-258`).

## Model

| member | source | states |
|---|---|---|
| `Placement.MarginIsLeastCover` | src/jaull/discovery/candidate_filter.py:1167-1171 | the margin is the least whole number of bytes covering the size plus its percentage |
| `Placement.SplitMonotone` | src/jaull/discovery/candidate_filter.py:1174-1177 | the proportional share stays between nothing and the total, grows with the part, and is the total for the whole |
| `Placement.SplitIsFloor` | src/jaull/discovery/candidate_filter.py:1174-1177 | the share is exactly the proportional one rounded down |
| `Placement.NeedsTradeOff` | src/jaull/discovery/candidate_filter.py:862-865 | a larger device share needs strictly more device bytes and strictly fewer RAM bytes |
| `Placement.MaxGpuWeightBytes` | src/jaull/discovery/candidate_filter.py:1180-1197 | the binary search returns the largest device share that fits: it fits unless it is zero, and no larger one does |
| `Placement.LargestShareSuffices` | src/jaull/discovery/candidate_filter.py:852-865 | if any split of at least a tenth fits both pools, the largest device share is one that does |
| `Placement.CoarseOffloadHint` | src/jaull/discovery/candidate_filter.py:840-877 | an offload is found if and only if the model is not resident and some split fits; it is the largest split, at least a tenth of the weights, within both pools, and every byte is on one side |
| `Placement.UnifiedMeansNoDevice` | src/jaull/discovery/candidate_filter.py:1204-1213 | a machine judged one shared pool offers no device to any candidate, so testing both is consistent |
| `Placement.CoarsePlacementHint` | src/jaull/discovery/candidate_filter.py:439-554 | the mode is the declared one (resident, else some split, else RAM, else too large; too large without the backend; unknown without a size), and every byte field is determined |
| `Placement.CandidateVramGrows` | src/jaull/discovery/candidate_filter.py:1077-1107 | growing any pool never shrinks the device a candidate can use, and never changes whether its backend is missing |
| `Placement.CandidateVramIsOneDevice` | src/jaull/discovery/candidate_filter.py:1077-1107 | the device memory of a candidate is some amount if and only if one eligible device has it (dedicated, not shared, with a working backend its format can use; or an entry of the NVML list when no accelerator is listed) and no eligible one has more: memory of several devices is never added up |
| `Placement.PlanningVramIsOneDevice` | src/jaull/domain/hardware.py:128-147 | the planning memory is some amount if and only if one discrete device of either list has it and none has more |
| `Placement.BlockedIff` | src/jaull/discovery/candidate_filter.py:470-474 | AWQ and GPTQ weights are out of reach exactly when no device that is not software has a working CUDA backend, and the NVML list is not all that is known |
| `Placement.SplitNeedsTheWhole` | src/jaull/discovery/candidate_filter.py:862-865 | a split needs as many bytes in total as the whole model on the device, give or take one byte of rounding |
| `Placement.SevenBillion` | src/jaull/discovery/candidate_filter.py:461-464 | the bytes a 4-bit 7B model is assumed to need, in full: weights, cache at two contexts and user counts, overhead, and the needs with their margin |
| `Placement.DeclaredModeMonotone` | src/jaull/discovery/candidate_filter.py:511-554 | more device memory or more RAM never gives a worse placement |
| `Placement.PlacementMonotoneInMemory` | src/jaull/discovery/candidate_filter.py:439-554 | growing any pool of a machine never moves a candidate to a worse placement |
| `Placement.LargestShareGrowsWithVram` | src/jaull/discovery/candidate_filter.py:1180-1197 | the largest fitting share grows with device memory and is everything only when the model is resident |
| `Sizing.LargestFittingBillions` | src/jaull/discovery/candidate_filter.py:1110-1141 | the loop is forty halvings of the interval up to 1000 |
| `Sizing.NeededMonotone` | src/jaull/discovery/candidate_filter.py:1125-1132 | cache, reserve, weights, overhead and margin together never shrink as the size grows |
| `Sizing.BisectBracket` | src/jaull/discovery/candidate_filter.py:1134-1141 | the answer fits or is the lower end; one final width above it does not fit or is the upper end |
| `Sizing.LargestFittingIsTheThreshold` | src/jaull/discovery/candidate_filter.py:1110-1141 | every size up to a positive answer fits, and none from 1000 / 2^40 above it does |
| `Sizing.PoolIs` | src/jaull/discovery/candidate_filter.py:1119-1121 | the pool is the largest discrete device when there is one and its size is not zero, else system memory |
| `Sizing.NeededIsResident` | src/jaull/discovery/candidate_filter.py:1125-1132 | the bisection needs for a size exactly what placement needs to keep a 4-bit model of that size on the device |
| `Sizing.SizeBandsTile` | src/jaull/discovery/candidate_filter.py:137-155 | the bands touch, are not empty, run from zero (from 4 when the ceiling is above 14) to the ceiling, meet only at 1, 2, 4, 14 and 32, and never mix two size classes or, where small models are covered, the two sides of their split |
| `Sizing.SizeBandsCoverOnce` | src/jaull/discovery/candidate_filter.py:137-155 | every size in between belongs to exactly one band |
| `Shortlist.FindPreferred` | src/jaull/discovery/candidate_filter.py:916-931 | the scan of a tie finds the best entry new in size class and family, else new in size class, else the best |
| `Shortlist.PopBucketCandidate` | src/jaull/discovery/candidate_filter.py:902-934 | what is popped is the preferred entry among those tied with the head, and only it leaves the bucket |
| `Shortlist.GroupShortlistBuckets` | src/jaull/discovery/candidate_filter.py:880-899 | each bucket holds exactly the entries of its class, and no bucket is empty |
| `Shortlist.BestClassOf` | src/jaull/discovery/candidate_filter.py:641-654 | reading only the bucket heads finds the best placement class on offer and whether it has anything larger than small |
| `Shortlist.VisitBucket` | src/jaull/discovery/candidate_filter.py:655-677 | one bucket yields the specified pick or none, and keeps everything else |
| `Shortlist.CoveragePass` | src/jaull/discovery/candidate_filter.py:655-677 | the pass over mutable buckets selects what the specification selects from the set, and leaves the rest in its buckets |
| `Shortlist.DecideStep` | src/jaull/discovery/candidate_filter.py:700-784 | sorting and filtering the remaining list takes the decision specified on the remaining set |
| `Shortlist.RelevancePass` | src/jaull/discovery/candidate_filter.py:700-786 | the loop over a shrinking list ends in the specified state |
| `Shortlist.FallbackPass` | src/jaull/discovery/candidate_filter.py:788-798 | at most two too-large entries, best score first, are appended within the limit |
| `Shortlist.HardwareAwareShortlist` | src/jaull/discovery/candidate_filter.py:557-800 | selection and trace are those of the run on the SET of candidates; nothing for a limit of zero or less |
| `Shortlist.ReplayShortlist` | scripts/replay_inspection_shortlist.py:25-44 | the recorded rows, in any order, with the recorded flags, give the same selection and the same trace |
| `ShortlistRun.DecisionIsOk` | src/jaull/discovery/candidate_filter.py:700-784 | one decision: the leader is the best-scored entry of the least placement class, smallness and other-task flag, and everything else is measured from it; the eligible novel entries are exactly the new ones of the exploration group within the evidence gap of the leader, and exploration happens exactly when budget and one of them are left; a relevance pick has a score within the tie distance of the best version not yet selected, an exploration pick that of the largest, at the leader's priority unless Quality looks across the accelerator; a represented version only when the whole group is represented |
| `ShortlistRun.AdvanceKeepsRunOk` | src/jaull/discovery/candidate_filter.py:700-786 | one step keeps the invariant of the run |
| `ShortlistRun.LoopFillsTheLimit` | src/jaull/discovery/candidate_filter.py:700-786 | the loop stops with the limit filled or with every plausible entry selected |
| `ShortlistRun.EveryRunIsOk` | src/jaull/discovery/candidate_filter.py:679-800 | over a whole run every step was right when taken, with the best-scored entry of the least-priority group as its leader and with the budget that earlier explorations left; leaders' priorities never fall, nothing repeats, and exploration stays within a quarter (or half) of the limit |
| `ShortlistRun.RunStages` | src/jaull/discovery/candidate_filter.py:655-800 | the trace is the coverage picks, then one loop step for every further plausible entry, then the fallback |
| `ShortlistRun.RunShape` | src/jaull/discovery/candidate_filter.py:655-800 | exactly min(limit, plausible + min(2, too large)) distinct entries of the input, the too-large ones last and only after every plausible one |
| `ShortlistRun.FallbackIsTheBest` | src/jaull/discovery/candidate_filter.py:788-798 | a too-large entry left out comes after every too-large entry taken, by score and then name |
| `ShortlistRun.RelevancePicksAscend` | src/jaull/discovery/candidate_filter.py:700-786 | between two relevance picks the priority never falls, so diversity only broke ties |
| `ShortlistCoverage.PickedIffEligible` | src/jaull/discovery/candidate_filter.py:655-677 | a size class gets a pick if and only if it is in the best class on offer (or declares text use), and is not small where larger ones exist |
| `ShortlistCoverage.KnownSizePickIsBest` | src/jaull/discovery/candidate_filter.py:902-934 | a pick of known size has the best other-task flag of its class and a top score among those that share it |
| `ShortlistCoverage.CoverageRepresentsEveryClass` | src/jaull/discovery/candidate_filter.py:636-677 | unless the limit cuts it short, every eligible class gets one slot, no class two, in class order |
| `ShortlistCoverage.SameBucketIff` | src/jaull/discovery/candidate_filter.py:880-899 | two entries share a bucket if and only if they share placement and size class and, where small models are covered, the side of the split |
| `ShortlistCoverage.CoverageTakesLargerFirst` | src/jaull/discovery/candidate_filter.py:630-635 | coverage goes through the placement classes in order and, where small models are covered, takes larger ones before small ones |
| `Shortlist.EntriesAreSized` | src/jaull/discovery/candidate_filter.py:452-459 | an entry's placement is unknown exactly when its size is, which the unknown-size result relies on |
| `ShortlistCoverage.CoverageIsPicks` | src/jaull/discovery/candidate_filter.py:655-677 | every slot of the coverage pass holds the pick of its bucket, given exactly what was selected before it |
| `ShortlistCoverage.UnknownSizePickSignals` | src/jaull/discovery/candidate_filter.py:661-677 | an unknown-size slot of the coverage pass declares text use if and only if nothing in the tie is of a family not selected yet, or something of such a family does |
| `ShortlistMeaning.SetupMeans` | src/jaull/discovery/candidate_filter.py:128-134 | RAM comes first exactly on machines with no discrete device, small models are covered exactly when the largest fitting size is positive and at most 14, Quality changes the exploration exactly elsewhere; there nothing is placed on a device, and every score is the desirability and the bonus of the placement |
| `ShortlistMeaning.EntriesAre` | src/jaull/discovery/candidate_filter.py:575-586 | one entry per candidate, with the placement of that candidate on that machine and its other-task flag |
| `ShortlistMeaning.CoverageTakesTheBestPlaced` | src/jaull/discovery/candidate_filter.py:640-677 | a coverage slot of known size has the least placement rank among all plausible entries of known size, and is small only if all of that placement are; a slot of unknown size exists only if something of unknown size is GGUF or declares a text pipeline |
| `ShortlistMeaning.CoverageGoesBySize` | src/jaull/discovery/candidate_filter.py:623-635 | coverage slots go from better to worse placement and, within one, strictly up in size, larger than small first where small ones are covered |
| `ShortlistMeaning.PickIsFresh` | src/jaull/discovery/candidate_filter.py:916-931 | among ties the pick is of a new option (family, size class, placement) and family if one of them is, else of a new option if one is |
| `ShortlistMeaning.RelevancePickIsFirst` | src/jaull/discovery/candidate_filter.py:700-784 | nothing still open comes before a relevance pick by placement rank, then larger before small, then no other task; and nothing in its place in line scores better, except versions of models already selected, which wait |
| `ShortlistMeaning.RelevanceNeverGoesBack` | src/jaull/discovery/candidate_filter.py:700-786 | from one relevance pick to a later one the placement rank never falls, and an unknown size is only followed by unknown sizes |
| `ShortlistMeaning.ExplorationPickIsLargest` | src/jaull/discovery/candidate_filter.py:724-784 | an exploration pick is new, has the leader's task flag, at least a hundredth of its downloads (Quality) or a desirability within the gap, and its place in line (or, for Quality beside a resident leader, any larger model on the device); it has the score of the largest such model |
| `ShortlistMeaning.ExploresIff` | src/jaull/discovery/candidate_filter.py:724-768 | a step explores if and only if budget is left and something may be explored |
| `ShortlistMeaning.ExplorationIsBounded` | src/jaull/discovery/candidate_filter.py:690-694 | at most a quarter of the limit is explored, for Quality where small models are not covered half |
| `ShortlistMeaning.FallbackGoesByScore` | src/jaull/discovery/candidate_filter.py:788-798 | a too-large entry that was taken has a better score than one left out, or the same score and an earlier name |
| `ShortlistCoverage.UnknownSizePickWithoutSignal` | src/jaull/discovery/candidate_filter.py:661-677 | a whole run that selects an entry without a text-use signal in place of the one the test looked at |
| `Shortlist.UnknownSizePickWithoutSignalIsReal` | src/jaull/discovery/candidate_filter.py:557-677 | the same run from three repositories, a machine with one 24 GiB card and default requirements |
| `HttpCoverage.TableIsTheAnswers` | pilot/quality_eval/records.py:133-136 | in an accepted log the table holds exactly the tokenizer answers of the log |
| `HttpCoverage.LogOkIff` | pilot/quality_eval/records.py:109-138 | the first pass accepts a log if and only if every exchange is valid and no text was tokenized in two ways |
| `HttpCoverage.ReadLog` | pilot/quality_eval/records.py:109-138 | the first pass succeeds exactly on valid, consistent logs, and leaves one queue per position, in capture order |
| `HttpCoverage.ConsumePositions` | pilot/quality_eval/records.py:148-153 | popping the queues takes, position by position, the first unread exchange that scored it, and adds up what was taken |
| `HttpCoverage.CheckContinuation` | pilot/quality_eval/records.py:140-159 | a continuation passes exactly when its boundary, positions and both saved scores are reconstructed |
| `HttpCoverage.ValidateHttpCoverage` | pilot/quality_eval/records.py:102-162 | accepts if and only if the log is valid, scored something, and reconciles to nothing left over; the answer is the expected fingerprint |
| `HttpCoverage.AcceptanceIsOneToOne` | pilot/quality_eval/records.py:139-162 | acceptance matches every token of every continuation with one log index of its own, in capture order for one position, no scoring exchange left: its prompt is the tokens before, the forced and answered token is that token, and the log-probabilities of the answered tokens add up to both saved scores |
| `HttpCoverage.AcceptedIff` | pilot/quality_eval/records.py:102-162 | a log is accepted if and only if every exchange is valid, no text was tokenized in two ways, something was scored, and the scoring exchanges can be matched with the tokens as above |
| `HttpCoverage.MigrationIsTransparent` | pilot/quality_eval/evaluate.py:311-318 | the evaluator's white-space move keeps the whole text and yields the prefix the validator looks up |
| `HttpCoverage.PreflightImpliesRequestsOk` | pilot/quality_eval/evaluate.py:317-320 | every request of a continuation that passed the evaluator's own check passes the validator's |
| `HttpCoverage.HonestRunIsAccepted` | pilot/quality_eval/records.py:139-162 | a run with one tokenizer, one log index per demanded token and saved scores that are the sums of the answers is accepted if and only if it scored at least one; exchanges of different positions may come in any order, repeats of one position in sample order |
| `GenerationHttp.ReadLog` | pilot/quality_eval/records.py:170-188 | the first pass succeeds exactly on valid exchanges with distinct prompts, and keeps the reply and finish of each |
| `GenerationHttp.PairingIsForced` | pilot/quality_eval/records.py:184-194 | distinct prompts leave one possible partner for every sample |
| `GenerationHttp.ValidateGenerationHttp` | pilot/quality_eval/records.py:165-202 | accepts if and only if samples and exchanges are in bijection with equal texts; counts every reply, and as truncated exactly those that finished for length |
| `GenerationHttp.AcceptedIsExact` | pilot/quality_eval/records.py:165-202 | acceptance means that every exchange is one audited turn (pinned model, budget, seed and build, nothing cached) kept word for word by a sample, and every sample what some exchange returned, for a prompt of its own |
| `GenerationHttp.KeptRepliesAreAccepted` | pilot/quality_eval/records.py:165-202 | samples that keep what audited exchanges with different prompts returned are accepted in any order |
| `ContinuationGroups.FindGroups` | scripts/quality_eval_placement_replay.py:79-90 | the loop computes the grouping by "+1 prompt length" |
| `ContinuationGroups.AppendRun` | scripts/quality_eval_placement_replay.py:79-90 | a whole continuation either joins the group before it as a whole or forms a group of its own |
| `ContinuationGroups.GroupsOfTruth` | scripts/quality_eval_placement_replay.py:79-90 | never more groups than continuations; as many exactly when none is empty and none starts one token after the last prompt of the one before |
| `ContinuationGroups.SegmentationIsExact` | scripts/quality_eval_placement_replay.py:144-150 | the group count matches the recorded one if and only if the segmentation is the true one |
| `ContinuationGroups.NeverSplits` | scripts/quality_eval_placement_replay.py:79-90 | a wrong grouping can only have merged continuations |
| `ContinuationGroups.GroupsPartition` | scripts/quality_eval_placement_replay.py:79-90 | the groups are not empty and list every request once, in order |
| `ContinuationGroups.TotalScorePreserved` | scripts/quality_eval_placement_replay.py:93-94 | the sums of the groups add up to the sum of the scores |
| `ContinuationGroups.VerifyBaselineSums` | scripts/quality_eval_placement_replay.py:144-150 | passes if and only if there are as many sums as recorded scores, each within the tolerance |
| `ContinuationGroups.PassingBaselineIsTrue` | scripts/quality_eval_placement_replay.py:139-150 | a baseline that passes was segmented as it was scored |
| `BaselineMetrics.AnswerFor` | scripts/quality_eval_placement_replay.py:109-125 | both answers are first maxima, both margins the distance to the best other answer, both hits equality with the target |
| `BaselineMetrics.HalfTheMarginIsTheThreshold` | scripts/quality_eval_placement_replay.py:117-119 | an answer survives every change of less than d per score if and only if d is at most half its margin |
| `BaselineMetrics.NormalisedAnswerSurvives` | scripts/quality_eval_placement_replay.py:109-125 | dividing by answer lengths never magnifies a change, so the normalised margin protects the normalised answer |
| `BaselineMetrics.NormalisedIsPerLength` | scripts/quality_eval_placement_replay.py:109-125 | each score is divided by its own answer's length: the normalised answer is the first that no other beats with the lengths multiplied across |
| `BaselineMetrics.Metrics` | scripts/quality_eval_placement_replay.py:97-136 | defined exactly when the continuations cover the samples and every sample has two or more non-empty answers; the accuracies are hits over samples |
| `BaselineMetrics.HitsAreCounted` | scripts/quality_eval_placement_replay.py:126-136 | the hits of a report are the number of samples that hit |
| `BaselineMetrics.RecordedAreInPlace` | scripts/quality_eval_placement_replay.py:139-150 | the recorded scores of a sample stand where its own recomputed sums stand |
| `BaselineMetrics.VerifyBaseline` | scripts/quality_eval_placement_replay.py:139-157 | passes only when scores, coverage and both accuracies are reproduced, and fails only when one of them is not |
| `BaselineMetrics.ReproducedAnswerIsRecorded` | scripts/quality_eval_placement_replay.py:139-150 | a reproduced score picks the recorded answer as soon as that won by more than twice the tolerance |
| `ArtifactStore.ArtifactStorage.SaveSha256` | src/jaull/artifacts/storage.py:64-84 | a digest that was saved is read back as itself; where there was no sidecar, a save that failed is read as that digest, as none, or refused; no other file changes |
| `ArtifactStore.ArtifactStorage.Delete` | src/jaull/artifacts/storage.py:107-126 | succeeds if and only if the path is valid, its folder exists and no step fails; files, folders and result are those of the deletion step, at whatever point it fails, and the folder goes only when nothing is left in it |
| `ArtifactStore.ArtifactService.Download` | src/jaull/artifacts/service.py:65-125 | succeeds if and only if the path is valid, no step fails, the target holds bytes afterwards and the published digest, if any, is theirs in lower case; then the file holds them and sidecar and result their digest; other bytes are refused and left without a sidecar; files and folders are those of the download step wherever it fails |
| `ArtifactStore.DownloadOkIff` | src/jaull/artifacts/service.py:78-96 | the same of the download step |
| `ArtifactStore.PathForIff` | src/jaull/artifacts/storage.py:130-169 | a path is given if and only if the repository is owner/repo and none of owner, repo and file name is empty, a dot name, or holds a slash, backslash or NUL |
| `ArtifactStore.ArtifactService.Verify` | src/jaull/artifacts/service.py:127-175 | where the sidecar certifies its bytes, quick or full, it succeeds if and only if the file is present, of the declared size, has the published digest and a recorded one, and it reports the digest of the bytes; the full form succeeds only where the sidecar certifies |
| `ArtifactStore.PartialSidecarNeverLies` | src/jaull/artifacts/storage.py:64-84 | whatever part of a sidecar reached the disk, reading it gives the digest or no digest |
| `ArtifactStore.ReadDigestIff` | src/jaull/artifacts/storage.py:72-84 | a sidecar is read as a digest if and only if it is ASCII and, without white space around it, 64 hex digits; the digest is those in lower case |
| `ArtifactStore.DownloadKeepsCertified` | src/jaull/artifacts/service.py:78-96 | no download, failing anywhere and leaving any bytes, makes a sidecar certify bytes it was not computed from |
| `ArtifactStore.SidecarNameBreaks` | src/jaull/artifacts/storage.py:171-173 | a file named like another model's sidecar can |
| `ArtifactStore.SafeNamesExactly` | src/jaull/artifacts/storage.py:158-173 | the invariant survives every download of a name if and only if the name is not a sidecar name |
| `ArtifactStore.DeleteSparesOtherModels` | src/jaull/artifacts/storage.py:107-126 | a deletion never removes or changes another model, however far it gets |
| `ArtifactStore.DeleteFreesTheFile` | src/jaull/artifacts/storage.py:107-126 | a deletion that succeeds reports the bytes of the file, leaves neither it nor its sidecar, spares every other folder, and spares everything else in the folder as long as a model is left there |
| `ArtifactStore.EveryReachableStateIsCertified` | src/jaull/artifacts/service.py:78-96 | after any sequence of downloads, verifications and deletions every accepted sidecar has the digest of its file |
| `ArtifactStore.QuickVerifyIsFullVerify` | src/jaull/artifacts/service.py:127-175 | in every reachable state the quick and the full verification agree, and a verified digest is the digest of the bytes |
| `ArtifactStore.PromotedDigestIsGenuine` | src/jaull/artifacts/service.py:180-193 | after any run, resolving a stored artifact with an accepted sidecar succeeds if and only if the published digest, if any, is that of the bytes; what it then reports is theirs |
| `ArtifactStore.PromoteWithoutDigest` | src/jaull/artifacts/service.py:180-193 | resolving leaves an artifact that is not stored as it was, and only marks one without a sidecar as stored |
| `ArtifactStore.DownloadThenVerifies` | src/jaull/artifacts/service.py:118-175 | what a successful download returns passes both verifications, unless its declared size differs |
| `CaseBundle.ApartWritesAreKept` | src/jaull/cases/bundle.py:99-126 | writes to paths that stay apart all succeed, and none clobbers another |
| `CaseBundle.RolesApart` | src/jaull/cases/bundle.py:99-126 | records never meet each other or the evidence; evidence files meet exactly when their references do |
| `CaseBundle.PartsOfJoined` | src/jaull/cases/bundle.py:116-127 | a reference path written with slashes is read back as its parts |
| `CaseBundle.ManifestOkIff` | src/jaull/domain/cases.py:217-235 | the manifest's validator refuses exactly repeated paths |
| `CaseBundle.ExportableIff` | src/jaull/cases/bundle.py:249-299 | an export needs exactly: records with the ids the case names, evidence with the size and digest the case published, and no evidence path that is another or a directory of it |
| `CaseBundle.PlanIsSound` | src/jaull/cases/bundle.py:98-137 | every check made while writing passes if and only if no two evidence paths are in each other's way |
| `CaseBundle.ExportSite.Export` | src/jaull/cases/bundle.py:67-146 | all of the bundle or an untouched destination; success needs a free destination and inputs as referenced, and without a fault those suffice |
| `CaseBundle.Load` | src/jaull/cases/bundle.py:148-186 | succeeds exactly on directories that are bundles, with their content: every digest, size and relationship holds |
| `CaseBundle.OnlyOneContent` | src/jaull/cases/bundle.py:154-176 | a directory is a bundle of one content only |
| `CaseBundle.ExportThenLoad` | src/jaull/cases/bundle.py:67-186 | what an export wrote is a bundle of the case, experiment and benchmarks it was given |
| `CaseBundle.RoundTrip` | src/jaull/cases/bundle.py:67-186 | exporting and loading returns the identical case, experiment and benchmarks, and evidence with the bytes of its source and the size and digest the case published; or leaves the destination as it was |
| `CaseBundle.ExportedEvidenceHolds` | src/jaull/cases/bundle.py:116-127 | every exported evidence file is at its own path, with the bytes of its source, the digest and size the case published for it, and those the manifest declares |
| `CaseBundle.NoSilentTampering` | src/jaull/cases/bundle.py:345-364 | without a hash collision, a bundle that still loads under the same manifest has the same content |
| `CaseBundle.DamageIsRefused` | src/jaull/cases/bundle.py:345-364 | a listed file that is missing, or has another size or digest, is enough to refuse a directory |
| `CaseBundle.StrangersAreRefused` | src/jaull/cases/bundle.py:301-322 | what loads has the experiment, the benchmarks in order and the evidence references of its case, in the manifest too |
| `Reuploads.PopularityIsTotal` | src/jaull/discovery/candidate_filter.py:276-279 | of two different repositories exactly one is more popular |
| `Reuploads.BestPerBase` | src/jaull/discovery/candidate_filter.py:241-248 | the running maximum ends with the most popular copy of every base, whatever the order |
| `Reuploads.HeadHasMost` | src/jaull/discovery/candidate_filter.py:276-279 | no copy of its base has more downloads than the head, nor as many and more likes, nor as many of both and an earlier name |
| `Text.FirstDifferenceDecides` | src/jaull/discovery/candidate_filter.py:276-279 | names are ordered by their first different character, or by which one ends first |
| `Reuploads.CollapseQuantizedReuploads` | src/jaull/discovery/candidate_filter.py:227-259 | kept copies are the heads and the copies without a base, in the input's order; the alternatives of a key are the kept copies' siblings, most popular first |
| `Reuploads.HeadExists` | src/jaull/discovery/candidate_filter.py:241-248 | every declared base has a most popular copy |
| `Reuploads.EveryCopyIsPlacedOnce` | src/jaull/discovery/candidate_filter.py:249-259 | every copy is kept or is the sibling of exactly one kept copy, which is the more popular |
| `Reuploads.LookupIsExactIff` | src/jaull/discovery/candidate_filter.py:254-259 | the folded-id key gives every kept copy exactly its own siblings if and only if no two kept copies share a key unless neither has anything set aside |
| `Reuploads.DistinctFoldedIdsSuffice` | src/jaull/discovery/candidate_filter.py:254-259 | it does whenever no two copies share a folded id |
| `Reuploads.LookupFindsAnothersCopy` | src/jaull/discovery/candidate_filter.py:254-259 | two kept repositories that differ in case only: one finds the copy set aside for the other |
| `Lineage.RefillKeepsPoolOk` | src/jaull/discovery/lineage.py:102-106 | refilling keeps queued, pending and found bases a partition, never exceeds the workers, and leaves none idle |
| `Lineage.CompleteKeepsPoolOk` | src/jaull/discovery/lineage.py:109-111 | moving completed lookups over keeps the partition |
| `Lineage.EveryScheduleIsSafe` | src/jaull/discovery/lineage.py:100-116 | under every order of completions, timeouts and cancellation, a normal exit submitted every base once and found all of them |
| `Lineage.ProductiveScheduleFinishes` | src/jaull/discovery/lineage.py:100-113 | as many waits that complete something as there are bases left are enough |
| `Lineage.FetchAll` | src/jaull/discovery/lineage.py:78-116 | the loop has the outcome of its schedule |
| `Lineage.InheritOnlyAppends` | src/jaull/discovery/lineage.py:53-65 | only new tags the base declares are appended; the base still resolves the same and a second pass adds nothing |
| `Lineage.LookupIs` | src/jaull/discovery/lineage.py:68-75 | a base is looked up for a candidate if and only if it has no pipeline tag and the base follows the prefix, in any case, in the first of its tags that has it |
| `Lineage.InheritTaskSignals` | src/jaull/discovery/lineage.py:33-65 | a result is returned exactly when there is nothing to look up or every lookup finished; the lookups are exactly the bases some candidate may inherit from, each once; a candidate with a pipeline tag or no base comes back unchanged, any other with everything its base declares, up to case, and nothing else added |
| `SpeedSchedule.ScheduleIsExact` | src/jaull/advisor/quality_candidates.py:439-460 | every candidate is called exactly as often as it needs, at least once, and then has enough calls to be compared |
| `SpeedSchedule.RoundGoesInOrder` | src/jaull/advisor/quality_candidates.py:450-460 | a round goes through the candidates in order and calls exactly those that still need one |
| `SpeedSchedule.EveryPrefixIsFair` | src/jaull/advisor/quality_candidates.py:450-460 | in every prefix each candidate has all its calls or at most one fewer than any other |
| `SpeedSchedule.RunSpeedCandidates` | src/jaull/advisor/quality_candidates.py:463-515 | one to three candidates, or an error; the outcomes match the first calls of the schedule one for one, and only a cancellation cuts them short; a successful measurement has its stored path, any other call its own error |
| `SpeedSchedule.EverySessionIsFair` | src/jaull/advisor/quality_candidates.py:463-515 | however a session fails or is cancelled, the calls it made are spread as fairly as the schedule |

## Left out

- Floating point: sizes, scores, log-probabilities and the safety margin (10 %) are exact reals and integers, so
  the last-bit behaviour of the estimates and sums is not modelled.
- Shortlist scores: a candidate's desirability (logarithms of downloads and likes, format, query and penalty
  terms) is a given number; its logarithmic evidence gap for Quality is the equivalent hundredfold comparison.
- Names: parameter counts, quantization and family hints, GGUF and text-pipeline signals and declared bases are
  given fields of a candidate; the regular expressions that read them are not part of this model.
- ShortlistRun.EveryRunIsOk: makes no claim that the shortlist for one limit is a prefix of the one for a larger
  limit, because the exploration budget depends on the limit.
- Shortlist.HardwareAwareShortlist: takes distinct repository ids, which `deduplicate` establishes; `deduplicate`
  itself, the rejection rules and penalties of `filter_candidates`, and the path without a hardware profile are
  not modelled.
- The shortlist audit: the trace keeps what each decision was taken from; its further descriptive JSON fields are
  not modelled. The trace is always kept: that switching the audit off changes no selection is not stated, because
  selection never reads the trace. Buckets are visited in ascending order of one number that encodes their key.
- Reuploads.CollapseQuantizedReuploads: takes distinct repository ids, so that object identity is equality.
- HttpCoverage.ValidateHttpCoverage: JSON parsing is not modelled; an exchange arrives with its type checks
  already summed up in flags, and scores of a sample are listed with its arguments.
- GenerationHttp.ValidateGenerationHttp: the same, and the rule that a reply carries no reasoning is one flag.
- BaselineMetrics.Metrics: a slice past the last score is refused at once instead of at the final count.
- Artifact store: one writer, no symbolic links, a case-sensitive file system, no owner-folder removal, no
  `.cache` bookkeeping, reads of existing files that do not fail, and a downloader that writes at its target;
  the kinds of download failure are one error. Any function to hex digests stands for SHA-256.
- Case bundles: JSON printing and parsing are parameters that agree with each other; export time, version and
  commit are one provenance value; path and identifier syntax checks, and the bundle's own `validate`, are left
  out. Paths are given in normal form, so case-insensitive clashes are not modelled.
- Lineage.InheritTaskSignals: a lookup is any function of the base; the task vocabulary it filters by, lower-case
  beyond ASCII, and what threads do after a cancellation are not modelled. A cancelled search returns nothing.
- SpeedSchedule.RunSpeedCandidates: the cool-down between calls and progress messages are not modelled.
- Hub search, HTTP, Docker, device probes, the terminal interface and the command line: effects outside the
  modelled logic, present only as arbitrary inputs.
