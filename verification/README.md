# spate: schema cache, benchmark decisions, schedule and codecs

A Dafny model of four parts of spate, and what they keep.

- **Schema cache.** The compiled-schema cache of the Avro decoder is a copy-on-write map read
  through snapshots that may be stale. Failures expire, are pruned on writes and are capped with the
  oldest evicted first. `SchemaCache` holds the object, `SchemaCacheRuns` every run of it beside a
  reference map that never forgets, `SchemaCacheService` the object and its readers serving requests.
- **Benchmark decisions.** `TQuantile`, `OrderStatistics`, `Bootstrap`, `BootstrapLaws`, `Replicates`
  and `Decision` are the rule: paired samples in, interval, verdict and replicate count out.
  `Inheritance`, `Records`, `CaseCompare` and `Compare` apply it to two legs of records;
  `Fingerprints` holds the guarded fields of a leg. `GuardLaws`, `ReportLaws` and `Summary` say what the
  report then means; `LostWall` is two legs whose report counts one event twice.
- **Schedule and calibration.** `Schedule` is the interleaved two-leg run, cut after any measurement;
  `CutRuns` hands such a run to the comparison. `Calibration` is the loops that choose an iteration
  count and a floor against an arbitrary clock.
- **Generator and codecs.** `SplitMix64` and its published answers (`SplitMix64Vectors`), the hashed byte
  stream (`CorpusStream`), the driver's argument vectors, their parser and what a bench binary answers
  (`Protocol`, `ProtocolLaws`, `Decimal`), and the shell quoter (`ShellQuote`).
  `Sorting`, `Sequences` and `Sets` hold what is used of lists and sets.

Conventions. An `f64` is an exact real or "not finite". A `u64` is a natural number below 2^64, with
wrapping and saturation written out. The square root is any function whose square gives its argument
back; critical values enter the rule through `Numerics`, of which the tabulated ones are an instance.
A clock is a function of the probe. Time in the cache is an integer instant; a method call is one
atomic step, and a call that reads the clock twice carries both readings. An eviction between equal
stamps is left to the map's order, so a run records which entry went. Cases and metrics are visited
in any order and pushed onto two flat lists, which are then sorted; the order sorted by is any total
order on (case, metric) and on disclosures, since the text the source compares is not modelled.
Comparing a case takes the rule as a parameter; results about counts and verdicts in a report name
the rule of `Analyse` (`RuleOf`), over fewer than 2^64 pairs, which a 32-bit replicate index
guarantees. The guarded fields of a leg always hold every name, empty where nothing was recorded;
what the guard does with maps of other names is stated apart. A bench binary raises an iteration count
of 0 to 1. The shell's reader stops at any unquoted character the shell would expand or treat as an
operator, which quoted arguments never hold.

The decision and the printed rule would part where the cuts of the resampled means lie so far to one
side of a mean inside the floor that widening carries both past it (`AnalysisFollowsThePrintedRule`
gives the condition on sample and seed). No such sample is exhibited here.

What is promised and does not hold as said:

- A reader can answer with an older schema than the shared map once an id is published with two
  schemas. `ReaderAnswers` gives the exact condition, that the reader's snapshot holds the id Ready with
  another schema than the shared map, and `RepublishingBreaksAReader` the failing runs. A reader keeps
  the older schema until it looks up an id its snapshot does not hold Ready (`MemoIsTheLastRefresh`).
- One timing event is two findings exactly when both throughputs are significant and the case has no
  wall-time row (`CountedTwiceIff`); `OneEventIsCountedTwice` shows two legs that do it.
- A draw below n consumes one word of the stream exactly when n is not 0, rather than whatever n is
  (`Generator.Below`).

## Model

| member | source | states |
|---|---|---|
| `SchemaCacheRuns.CacheRefinesNaiveMap` | crates/spate-avro/src/cache.rs:106-255 | After every run of publications, clock advances and reads, the pruned and capped cache answers for every id what a map that never prunes and never evicts answers, except Missing for an id evicted and not published since; such an id is never Ready in the reference map |
| `SchemaCacheRuns.HeldNegativesAreTheYoungest` | crates/spate-avro/src/cache.rs:106-255 | In every run at most 1,024 negatives are held, and every failure dropped, by age or for room, is stamped no later than every negative still held; only failures are ever dropped |
| `SchemaCacheRuns.ReadyStaysReady` | crates/spate-avro/src/cache.rs:217-255 | Whatever happens next, a Ready id stays Ready, and keeps its schema unless that id is published again |
| `SchemaCacheRuns.RunsKeepInv` | crates/spate-avro/src/cache.rs:139-255 | Agreement with the reference map, stamp order, the cap, and that no snapshot is Ready where the shared map is not, hold after every run |
| `SchemaCacheRuns.ReaderAgreesWithShared` | crates/spate-avro/src/cache.rs:158-183 | A lookup through any reader's snapshot, however stale, gives the kind of answer the shared lock gives at that moment, with the same reason for a failure |
| `SchemaCacheRuns.MemoIsTheLastRefresh` | crates/spate-avro/src/cache.rs:158-183 | In every run a reader's snapshot is the shared map as it was at that reader's last lookup of an id the snapshot did not then hold Ready, and empty before the first such lookup; no other event changes it |
| `SchemaCacheRuns.ReadLeavesItReady` | crates/spate-avro/src/cache.rs:175-183 | After any run, looking up an id the shared map holds Ready leaves it Ready in the reader's snapshot |
| `SchemaCacheRuns.ReadyMemoNeedsNoLock` | crates/spate-avro/src/cache.rs:120-130 | A snapshot that holds an id Ready answers it with that schema and stays, whatever the shared map holds; a reader that looks up only such ids keeps its snapshot over any run, whatever is published |
| `SchemaCacheRuns.ReaderAnswers` | crates/spate-avro/src/cache.rs:163-183 | In every run a reader answers the schema its snapshot holds Ready and otherwise the shared answer; it is not the shared answer exactly when the shared map has come to hold another schema for the id |
| `SchemaCacheRuns.SnapshotsExactIffOneSchemaPerId` | crates/spate-avro/src/cache.rs:158-222 | Lookups through stale snapshots give exactly the shared answer, for all moments and ids, if and only if no id is published with two schemas |
| `SchemaCacheRuns.ReaderIsExact` | crates/spate-avro/src/cache.rs:163-183 | In every run that published no id with two schemas, a reader's lookup, reading the clock twice, is exactly the shared-lock answer |
| `SchemaCacheRuns.RepublishingBreaksAReader` | crates/spate-avro/src/cache.rs:158-222 | After any run: publish a schema, let a reader that does not hold its id Ready look it up, publish another schema under the id; that reader's next lookup answers the first and the shared lock the second |
| `SchemaCacheRuns.WithinTheCapNothingIsEvicted` | crates/spate-avro/src/cache.rs:205-255 | While no failure is one of more than 1,024 distinct ids failing within its TTL, nothing is evicted and the cache answers as the reference map does |
| `SchemaCacheRuns.FailureLivesExactlyItsTtl` | crates/spate-avro/src/cache.rs:185-255 | In every run, a failure of an id that is not Ready answers Failed with its reason strictly before stamp plus TTL and Missing from then on, until the id is published again; an eviction makes it Missing |
| `SchemaCacheRuns.PublicationsPrune` | crates/spate-avro/src/cache.rs:204-255 | A publication is held at once, every other entry kept is as it was and unexpired, and nothing is added |
| `SchemaCacheService.Replay` | crates/spate-avro/src/cache.rs:115-255 | A cache object with any number of reader snapshots, asked anything in any order, performs one of the runs above and leaves each reader the snapshot of that run; every lookup answers the schema the reader's snapshot holds Ready and otherwise the shared answer, in kind what the shared lock would have, and exactly that where no id had been published with two schemas |
| `SchemaCache.Cache.LookupMemo` | crates/spate-avro/src/cache.rs:175-183 | A snapshot holding the id Ready answers with its schema and stays; otherwise the snapshot becomes the shared map and the answer is the shared one |
| `SchemaCache.Cache.PublishReady` | crates/spate-avro/src/cache.rs:217-222 | The new map is the unexpired old entries with the schema on top |
| `SchemaCache.Cache.PublishFailed` | crates/spate-avro/src/cache.rs:224-255 | A Ready id is left alone; otherwise the oldest live negative makes room exactly when the cap is reached by a new id, and the failure is entered |
| `SchemaCache.OldestNegative` | crates/spate-avro/src/cache.rs:224-255 | The pass over the negatives finds one no younger than any other |
| `TQuantile.QuantileDecreases` | bench/src/stats.rs:151-211 | The critical value falls strictly with the degrees of freedom, through the table, across the seam at 30 and 31 and along the expansion, and stays above the normal value for every count |
| `TQuantile.Seam` | bench/src/stats.rs:187-211 | The last tabulated value lies above the expansion at 31 and every later one |
| `TQuantile.WideningDecreases` | bench/src/stats.rs:213-229 | The widening factor falls strictly with the number of pairs, for every count from 2, and stays above 1 |
| `TQuantile.WideningSquared` | bench/src/stats.rs:213-229 | The widening factor w of n pairs satisfies w^2 z^2 (n-1) = t(n-1)^2 n |
| `TQuantile.QuantileValues` | bench/src/stats.rs:158-211 | The critical values are the tabulated ones up to 30 degrees of freedom, and from 31 on the expansion, given without division as a polynomial in the normal value |
| `TQuantile.SourceNumericsAreValid` | bench/src/stats.rs:151-211 | The tabulated values, the expansion and the normal constant satisfy what the other results assume of the numerics |
| `OrderStatistics.SortDeliversRanks` | bench/src/stats.rs:533-557 | Position k of the sorted means is the value with at most k means below it and more than k up to it |
| `OrderStatistics.RankIsUnique` | bench/src/stats.rs:533-557 | A rank has one value, so the percentile does not depend on how the means are sorted |
| `Bootstrap.CutIndices` | bench/src/stats.rs:552-557 | The two percentile indices over 10,000 sorted means are 500 and 9499, mirror images of each other |
| `Bootstrap.BootstrapCi` | bench/src/stats.rs:517-549 | The loop over 10,000 resamples, one generator drawn on throughout, computes the interval that `BootstrapLaws.IntervalComesFromTheDraws` describes |
| `Bootstrap.DrawMeans` | bench/src/stats.rs:526-534 | The resample means in order, from one generator that ends 10,000 n words further |
| `BootstrapLaws.ResamplesReadTheStreamInOrder` | bench/src/stats.rs:526-534 | With draw i being the sample at floor(word i times n / 2^64), the mean of resample r is the mean of draws n r to n r + n - 1: the first 10,000 n words, each once and in order |
| `BootstrapLaws.IntervalComesFromTheDraws` | bench/src/stats.rs:517-549 | From two pairs on, the interval is the values of rank 500 and 9499 among the 10,000 means of those draws, pushed out about the sample mean by a factor w with w^2 z^2 (n-1) = t(n-1)^2 n |
| `BootstrapLaws.MeanIsTheAverage` | bench/src/stats.rs:505-515 | A mean times the count is the sum, sums add over concatenation, and nothing has mean 0 |
| `BootstrapLaws.IntervalIsAffineEquivariant` | bench/src/stats.rs:517-549 | For every sample and seed, mapping the differences by a*d+b with a > 0 maps both ends the same way |
| `BootstrapLaws.IntervalMirrors` | bench/src/stats.rs:517-549 | For every sample and seed, negating the differences negates and swaps the ends |
| `BootstrapLaws.IntervalWidth` | bench/src/stats.rs:537-548 | The width is the widening factor times the spread between the two cuts |
| `BootstrapLaws.IntervalEndsInOrder` | bench/src/stats.rs:517-549 | The low end never lies above the high end |
| `BootstrapLaws.IntervalOfConstant` | bench/src/stats.rs:517-549 | A sample of one repeated value has that value as both ends, whatever the seed |
| `Replicates.NamedCountIsTheSmallest` | bench/src/stats.rs:470-489 | For a declined metric of half-width h over n pairs the count named is even, from 6 to 200, more than was run; no smaller even count m has h^2 t(m-1)^2 n < f^2 t(n-1)^2 m for its floor f, and every larger one has; none is named exactly when nothing up to 200 has |
| `Replicates.ProjectedSquared` | bench/src/stats.rs:470-489 | The half-width p projected from n pairs to m satisfies p^2 m t(n-1)^2 = h^2 t(m-1)^2 n |
| `Replicates.LargerCountsSuffice` | bench/src/stats.rs:470-489 | Once a count narrows the projected interval under the floor, every larger one does |
| `Replicates.CountsAlreadyRunDoNotSuffice` | bench/src/stats.rs:470-489 | A count no larger than the one measured never narrows an interval already as wide as its floor |
| `Decision.PairDeltas` | bench/src/stats.rs:394-421 | Every pair's relative difference, zero where both legs are zero; otherwise the first pair that is not a number or comes from zero is refused |
| `Decision.Analyse` | bench/src/stats.rs:376-468 | Succeeds exactly on non-empty samples of equal length whose pairs all compare, with the analysis of the specification; otherwise the error names the first thing wrong |
| `Decision.AnalysisIsOfTheSamples` | bench/src/stats.rs:394-468 | An analysis holds the number of pairs, the mean of each leg, the mean of the pairs' relative differences, the interval of those differences under the seed and the floor of the metric |
| `Decision.RefusedIff` | bench/src/stats.rs:394-421 | A pair is refused exactly when a side is not finite or no relative difference exists, the base being zero and the head not |
| `Decision.FloorsPerMetric` | bench/src/stats.rs:231-272 | The floor is 10% for the peak resident set, 1% for the two allocation totals and 5% for every other metric |
| `Decision.DerivedMetrics` | bench/src/stats.rs:246-259 | The two throughputs are derived from the wall time, and nothing else is derived |
| `Decision.DeclinedIff` | bench/src/stats.rs:423-468 | A metric is declined exactly for fewer than 5 pairs, or an interval whose half-width reaches the floor and which is not wholly past it; a count is named exactly when it is declined and some count up to 200 fits the floor |
| `Decision.FlaggedIffPrintedRule` | bench/src/stats.rs:423-455 | For any estimate and interval, the decision agrees with the printed rule except exactly when an interval wholly past the floor has its estimate inside the floor |
| `Decision.AnalysisFollowsThePrintedRule` | bench/src/render.rs:44-62 | For every sample and seed, a metric is flagged exactly when there are 5 pairs, the interval excludes zero, the difference reaches the floor, and the half-width is under the floor or the interval wholly past it, if and only if the cuts do not lose the mean: a mean inside the floor, with both cuts so far to one side of it that widening carries them past the floor; cuts that bracket the mean never do; the direction flagged is the side of zero the mean is on |
| `Decision.AnalysisTakesTheIntervalsSide` | bench/src/stats.rs:423-455 | Where the cuts bracket the mean, the direction flagged is the side of zero the interval lies on |
| `Decision.DirectionIsTheIntervalsSide` | bench/src/stats.rs:423-455 | An interval around its estimate that is flagged lies on one side of zero, and that side is the direction reported |
| `Decision.AnalysisNamesTheSmallestCount` | bench/src/stats.rs:437-489 | An analysis carries a count only without a verdict, and then it is the smallest even count from 6 whose projection fits the floor, with every larger count fitting |
| `Decision.ConstantShiftIsFlaggedAtTheFloor` | bench/src/stats.rs:376-468 | A constant relative shift d is flagged exactly when there are at least 5 pairs and the size of d reaches the floor, for every seed |
| `Decision.IdenticalLegsAreNeverFlagged` | bench/src/stats.rs:376-468 | Identical samples are No change from 5 pairs on and No verdict below, for every seed |
| `Decision.MirroredSamplesAreJudgedAlike` | bench/src/stats.rs:423-455 | Negated differences under the opposite direction of goodness get the same verdict and count, if and only if it is not that 5 or more pairs have an interval wholly past the floor and a mean of exactly zero |
| `Inheritance.InheritDerivedVerdicts` | bench/src/compare.rs:885-905 | The in-place loop over the tail of the vector leaves each derived row there with the verdict, the count and the mark its measured row gives it, every other row of the tail as it was, and everything before the tail untouched |
| `Inheritance.SliceTakesItsOwnCase` | bench/src/compare.rs:704-708 | A row of the tail takes its verdict and count from a row of the tail, its own or its measured metric's, never from an earlier case |
| `Inheritance.DerivedNeverDisagrees` | bench/src/compare.rs:871-905 | After the loop a derived row and its measured row carry one verdict and one count |
| `Inheritance.InheritanceIsIdempotent` | bench/src/compare.rs:885-905 | Running the loop again changes nothing |
| `Inheritance.JudgedRowsStillCarryNoCount` | bench/src/compare.rs:885-905 | If no judged row carried a count before the loop, none does after it |
| `Inheritance.BandsAreWhereFloorsDisagree` | bench/src/stats.rs:246-259 | A wall time changed by d and its rate reach a floor f differently exactly for d in [f, f/(1-f)) and (-f, -f/(1+f)] |
| `Inheritance.JudgedApieceDisagreeExactlyInTheBands` | bench/src/stats.rs:246-259 | Judged apiece, the analyses of a shifted wall time and of the throughput computed from it give different verdicts exactly for a shift in one of the two bands |
| `Records.LoadLeg` | bench/src/compare.rs:134-209 | A leg loads exactly when it has a record, no key twice and one provenance; the error tells which failed and names the first record that repeats a key or is of another run |
| `Records.Group` | bench/src/compare.rs:921-932 | The loop groups non-priming records by case and replicate |
| `Records.GroupHoldsEveryRecord` | bench/src/compare.rs:921-932 | With unique keys every measured record is in its group |
| `Records.GroupHoldsOnlyRecords` | bench/src/compare.rs:921-932 | Everything grouped is a measured record of the leg |
| `Records.GroupingIgnoresOrderAndPriming` | bench/src/compare.rs:172-184 | Legs holding the same measured records group alike, in any order and with any priming records |
| `CaseCompare.CompareCase` | bench/src/compare.rs:483-788 | One case pushed onto the vectors of the cases before it: each of its settled rows once, and exactly the disclosures of the specification |
| `CaseCompare.CompareMetrics` | bench/src/compare.rs:698-786 | Each metric of the case is visited once and pushes its row or its entry |
| `CaseCompare.Collect` | bench/src/compare.rs:711-747 | The values of both legs at the paired replicates, and `missing` exactly when some paired record lacks the metric or disagrees on its shape |
| `CaseCompare.CarriedMetricHasAShape` | bench/src/compare.rs:713-751 | A metric has a seed shape exactly when some record of the case carries it, so the skip for want of a shape is never taken |
| `Compare.CompareCases` | bench/src/compare.rs:446-789 | Every case of either leg is visited once, in any order; the two vectors then hold every row once and every disclosure, and the counters what they count |
| `Compare.PermutedStaysListed` | bench/src/compare.rs:858 | Sorting the rows keeps every row, each at one place |
| `Compare.EntriesSort` | bench/src/compare.rs:859-860 | Sorting and removing neighbouring repeats keeps the set of disclosures and leaves each once, in order |
| `Compare.OneReportPerComparison` | bench/src/compare.rs:858-860 | The sorted lists are determined by what was found |
| `Compare.CompareLegs` | bench/src/compare.rs:435-869 | Refused for one directory, else for a first leg named head with a second named base, else for one leg name, else for two axes, else for the fields that differ, are not waived and are not the feature set on the arm axis, which are named; each of these errors exactly then; else for what holds of all cases; otherwise every row once, sorted by case and metric, and every disclosure once, sorted, under the waivers digest and build as given |
| `ReportLaws.NothingIsDropped` | bench/src/compare.rs:449-481 | Each metric of each measured record of either leg has exactly one place in the sorted rows and no entry of its own, or an entry and no row, or belongs to a disclosed case with neither for any metric |
| `ReportLaws.NothingIsInvented` | bench/src/compare.rs:657-789 | A row or an entry for a metric implies a measured record of that case carrying it |
| `ReportLaws.MetricEntriesAreTrue` | bench/src/compare.rs:709-786 | A metric of a compared case is left out as missing exactly when some common replicate does not carry it in the shape of the first record that does, base leg first, and otherwise because the rule refuses its values |
| `ReportLaws.ReportIgnoresOrderAndPriming` | bench/src/compare.rs:921-932 | The lists reported and the refusals do not depend on record order or on any priming record |
| `ReportLaws.RowSampleIsTheCommonReplicates` | bench/src/compare.rs:654-748 | A row's sample is the values recorded at exactly the replicates measured on both legs, in increasing order and all of the row's unit and direction; its numbers are the rule's on that sample; it is erratic exactly when either leg's first such record is |
| `ReportLaws.RowsComeFromFitCases` | bench/src/compare.rs:483-652 | Every row's case has one corpus digest, one declared build and one count within each leg, waived or not; without a digest waiver the corpora are equal; without a build waiver Commit rows declare equal builds and Arm rows nothing or two different builds |
| `GuardLaws.ReachedIffFit` | bench/src/compare.rs:483-683 | A shared case reaches its metrics if and only if it is constant within each leg, agrees between them as the axis asks or as waived, has one count, and some replicate on both legs |
| `GuardLaws.DisclosuresAreTrue` | bench/src/compare.rs:493-680 | What the guards disclose about a shared case is exactly what is true of its records for each guard asked: which leg is not constant, which declarations differ, agree or are missing on one side for that axis, which replicates are unpaired, with a cause saying whether it was compared anyway; the corpus is always asked, the builds if the corpora pass, the counts if the builds pass too, the pairing if all three pass |
| `GuardLaws.NothingDisclosedIffClean` | bench/src/compare.rs:493-680 | The guards disclose nothing exactly when the legs are constant, agree as the axis asks with no waiver, and hold the same replicates |
| `GuardLaws.FieldsPassIff` | bench/src/compare.rs:1040-1069 | Two builds pass exactly when every field the base records reads alike on the other leg, empty where it is not recorded, or is waived, or is the feature set on the arm axis; a refusal names exactly the others |
| `GuardLaws.LegsDivergeEitherWay` | bench/src/fingerprint.rs:246-299 | The guarded fields of any two legs hold the same names; the guard answers alike whichever leg is the base; a field one leg left empty reads as a difference exactly when the other leg did not, whichever leg it is |
| `Fingerprints.DivergesIffDiffers` | bench/src/fingerprint.rs:246-299 | Two legs diverge in each of the ten guarded names exactly when they differ in what it names, and in no other name |
| `Fingerprints.JoinTellsApart` | bench/src/fingerprint.rs:253 | Two lists of feature names, non-empty and without commas, join to one text only when they are equal |
| `GuardLaws.CommitPassesOnlyTheSameBuild` | bench/src/compare.rs:409-420 | On the commit axis with nothing waived two legs pass exactly when their guarded fields are equal, and exactly when there are no divergences |
| `GuardLaws.CommitPassesIff` | bench/src/compare.rs:1040-1069 | On any two maps, with nothing waived on the commit axis, the guard passes equal maps and ones that differ only in names the second alone holds or empty fields the first alone holds; it passes exactly when there are no divergences |
| `GuardLaws.LostFieldDivergesIff` | bench/src/compare.rs:994-1006 | On maps no leg produces, a name only one map holds reads as a difference exactly when it is the first and the field is not empty |
| `GuardLaws.AxisRulesOutAnAnswer` | bench/src/compare.rs:567-586 | The counter of agreeing builds stays 0 on Commit and the counter of differing builds 0 on Arm |
| `GuardLaws.OneWholesaleAnswer` | bench/src/compare.rs:809-845 | No two of the three wholesale build refusals can apply together |
| `GuardLaws.CountersMeanWhatTheySay` | bench/src/compare.rs:791-856 | The counters refuse a run exactly when the refusal is true of the records of its cases: two shared cases or more all measured on different corpora, two or more whose builds can be compared all declaring on one side only, all differing on the commit axis or all agreeing on the arm axis, or no shared case |
| `GuardLaws.RefusedForOneOrTheOther` | bench/src/compare.rs:435-445 | Legs that pass their own guards are refused exactly for what holds of all cases; legs that do not pass are always refused |
| `Summary.FindingsIffSomethingSignificant` | bench/src/render.rs:92-117 | A report has findings exactly when some row of a case not marked erratic is significant, inherited or not |
| `Summary.EachTimingEventIsCountedOnce` | bench/src/compare.rs:241-254 | Where a case has a wall time it is the one finding for its timing rows, counted exactly when any of them is significant |
| `Summary.CountedTwiceIff` | bench/src/stats.rs:38-42 | One case's timing is counted as two findings if and only if both its throughputs are significant and it has no wall-time row |
| `LostWall.LostWallIsCountedTwice` | bench/src/compare.rs:882-896 | Every compared case whose legs record the wall time in two shapes, and both throughputs changed past their floors at every replicate, is counted twice |
| `LostWall.OneEventIsCountedTwice` | bench/src/compare.rs:435-869 | Two legs of five replicates with one record per key and one provenance each, refused by no guard, whose report counts one timing event twice |
| `Summary.AdvisedCountSettlesEveryRow` | bench/src/compare.rs:388-407 | The count advised is even, from 6 to 200, accepted by the parity guard, and enough for every non-erratic row naming one of its own; it is given exactly when such a row names one, and the flag is raised exactly when one names none; no judged row carries a count |
| `Summary.IdenticalLegsFindNothing` | bench/src/compare.rs:435-869 | Two legs that recorded the same numbers give a report without findings, for every seed |
| `Summary.ShortfallIsStatedOnce` | bench/src/render.rs:119-197 | Rows the rule was not applied to are admitted once, by the sentence or by the shortfall, with their number and one advice, and by neither when there are none |
| `Summary.SentenceIsTrue` | bench/src/render.rs:92-152 | Each sentence is printed exactly when it is true of the rows: no row; every row erratic and judged; every row declined; every row erratic or declined and neither all judged nor all declined; no sentence exactly when some row is flagged |
| `Summary.AdviceIsTrue` | bench/src/render.rs:154-175 | The count advised is the largest a declined row of a case not marked erratic names, with the flag exactly when such a row names none; out of reach exactly when some such row exists and none names a count; silent exactly when there is none |
| `Summary.SilentIffNothingToSettle` | bench/src/render.rs:160-175 | No advice is given exactly when every unjudged row is erratic |
| `Schedule.TwoLegs` | bench/src/ab.rs:432-494 | The loops write, in order, exactly the scheduled measurements up to the first that fails; a finished run leaves cases times (replicates + 1) records on each leg |
| `Schedule.ScheduleInOrder` | bench/src/ab.rs:450-494 | Measurement by measurement: a priming round and then one round per replicate, every case in turn, the base leg first in the priming round and in even replicates and the head first in odd ones, the other leg right after, all at the count pinned for the case |
| `Schedule.FinishedLegHolds` | bench/src/ab.rs:450-494 | After a finished run a leg holds a key exactly when its case is planned and it is the priming pass 0 or a measured replicate below the count asked for |
| `Schedule.FinishedRunPairs` | bench/src/ab.rs:605-617 | A finished run pairs as many replicates of every case as were asked for, an even number if and only if the parity guard accepts the plan |
| `Schedule.KeysAreUniquePerLeg` | bench/src/ab.rs:446-494 | After any number of measurements no key is twice in one leg |
| `Schedule.OneCountPerCase` | bench/src/ab.rs:429-494 | After any number of measurements all records of a case, on either leg, share one iteration count |
| `Schedule.AtMostOneKeyIsUnpaired` | bench/src/ab.rs:446-494 | After any number of measurements a key lacks its partner exactly when it is the last one written and the number is odd |
| `Schedule.LegsShareTheLead` | bench/src/ab.rs:576-589 | Of n replicates of a case the base goes first in (n+1)/2, half of an even count |
| `Schedule.OrderEffectCancelsAtEvenCounts` | bench/src/ab.rs:591-608 | A cost e of running second shifts the mean difference by 0 at an even count and by e/n at an odd one |
| `CutRuns.CutRunLoads` | bench/src/ab.rs:446-500 | Both files of a run cut anywhere have unique keys, as loading asks |
| `CutRuns.CutRunDiscloses` | bench/src/ab.rs:446-500 | Comparing a run cut anywhere: a case cut inside its first measured pair is disclosed as present on one leg only and nothing else; every other case is on both legs, never left out for its iteration counts, and has an unpaired replicate disclosed only if the cut fell inside one of its pairs, that one, whenever its corpora and builds let it be compared |
| `Calibration.Calibrate` | bench/src/case.rs:477-508 | The probing loop ends for every timing oracle with the count or the refusal of the specification and its number of probes, a pinned count returned without any |
| `Calibration.CalibrationSettles` | bench/src/case.rs:477-508 | For every timing oracle at most 8 probes are made, whether or not one refuses, and a count given lies from 1 to the ceiling |
| `Calibration.EightProbesAreReached` | bench/src/case.rs:477-508 | The bound is met: a clock that always reads 99,999 ns takes all 8 probes |
| `Calibration.StepsGrowTenfold` | bench/src/case.rs:487-502 | A probe that was too short is followed by one at least ten times and at most twenty times as long, or by the ceiling |
| `Calibration.CountFillsTheTarget` | bench/src/case.rs:503-507 | Where the bounds leave it alone, the count is the largest whose cost at the measured rate fits the target |
| `Calibration.LinearRoutineFillsTheTarget` | bench/src/case.rs:477-508 | For a routine of exactly c ns and a target t of a million ns for each millisecond, at least one and saturating at 64 bits, the result is t/c clamped to 1 and ten million, and where unclamped k satisfies c*k <= t < c*(k+1) |
| `Calibration.CalibratedFromTheLastProbe` | bench/src/case.rs:477-508 | For every clock the probes start at one iteration, each is followed by one as many times longer as the target is, 20 at most, up to ten million, until one refuses, reads a tenth of the target or is at the ceiling; a refusal is passed on, and the count is the target over the last rate, rounded down and clamped; a pinned count is returned |
| `Calibration.RoundsGrowEightfold` | bench/src/case.rs:155-194 | The first empty loop is as long as the count, at least 1, and each next one eight times as long up to 4,194,304 |
| `Calibration.EmptyLoopFloor` | bench/src/case.rs:155-194 | The floor is the least per-iteration time of the first round the clock resolves, found within 9 rounds; none is given only when every round up to the longest loop read zero |
| `Calibration.MeasureRegion` | bench/src/case.rs:773-873 | A routine is measured exactly when it marks one region, with that region's time and kind; none or several are refused |
| `SplitMix64.OutputsRepeatExactlyAtThePeriod` | bench/src/rng.rs:25-41 | Two outputs of one seed are equal exactly when their positions differ by a multiple of 2^64 |
| `SplitMix64.FirstOutputsAreDistinct` | bench/src/rng.rs:25-41 | The first 2^64 outputs from any seed are pairwise distinct |
| `SplitMix64.MixInjective` | bench/src/rng.rs:35-41 | The output mix maps no two states to one word |
| `SplitMix64.DrawIsUniformToOneWord` | bench/src/rng.rs:43-53 | For every n > 0 and every v below n, the words drawn as v number floor or ceiling of 2^64/n |
| `SplitMix64.DrawPreimageIsAnInterval` | bench/src/rng.rs:43-53 | The words drawn as v are those from the ceiling of v 2^64 / n up to the ceiling of (v+1) 2^64 / n |
| `SplitMix64.BytesAreLittleEndian` | bench/src/rng.rs:55-61 | Byte i of a filled buffer is byte i mod 8, from the low end, of word i / 8 |
| `SplitMix64.TextIsSixBitsACharacter` | bench/src/rng.rs:63-81 | Character i of a text is the alphabet at six bits of word i / 8, counted from the low end |
| `SplitMix64Vectors.KnownAnswers` | bench/src/rng.rs:25-41 | The first three words of seed 0 are the published ones |
| `SplitMix64.Generator.Below` | bench/src/rng.rs:43-53 | A bound of 0 answers 0; any other gives the reduction of one word; one word is consumed if and only if the bound is not 0 |
| `SplitMix64.Generator.FillBytes` | bench/src/rng.rs:55-61 | The buffer is the first bytes of the little-endian word stream, ragged tail included, and the state advances one word per started eight bytes |
| `SplitMix64.Generator.Ascii` | bench/src/rng.rs:63-81 | The text is eight characters per word, six bits each from the low end, and the state advances one word per started eight |
| `CorpusStream.StreamsAreUniquelyDecodable` | bench/src/corpus.rs:133-148 | The byte streams of two lists of labelled inputs are equal exactly when the lists are |
| `CorpusStream.DecodeReadsTheInputsBack` | bench/src/corpus.rs:133-148 | Decoding the stream of any list gives the list back |
| `CorpusStream.DecodedStreamsAreStreams` | bench/src/corpus.rs:133-148 | Whatever decodes is the stream of what it decodes to |
| `CorpusStream.FoldLayout` | bench/src/corpus.rs:133-148 | An input is hashed as the length of its label in eight bytes low end first, the label, the length of its contents likewise, the contents |
| `CorpusStream.StreamsJoin` | bench/src/corpus.rs:78-101 | Feeding lists one after the other feeds their streams end to end, and their sizes add |
| `CorpusStream.ChannelsHearTheirOwn` | bench/src/corpus.rs:78-101 | Each further call adds its input to its own channel and nothing to the other |
| `CorpusStream.RunSetup` | bench/src/corpus.rs:78-101 | Under any interleaving of absorbing and declaring, each hasher has been fed exactly its own calls in order, and no build stream exists unless something was declared |
| `Protocol.Parse` | bench/src/protocol.rs:264-348 | The index walk answers what folding the flag groups answers |
| `Protocol.MeasurementSurvivesTheWire` | bench/src/protocol.rs:131-226 | The vector printed for a measurement makes the binary run exactly that measurement, for every case id and every number, with an iteration count of at least one |
| `Protocol.CalibrationSurvivesTheWire` | bench/src/protocol.rs:131-226 | The vector printed for a calibration makes the binary calibrate exactly that case, seed and target |
| `Protocol.MeasureArgs` | bench/src/runner.rs:143-158 | The vector built by pushing is the rendering of the measurement's flag groups |
| `Protocol.CalibrateArgs` | bench/src/runner.rs:125-134 | The vector is the rendering of the calibration's flag groups |
| `Protocol.AcceptedVectorHoldsOneMode` | bench/src/protocol.rs:287-348 | Every accepted vector splits into flag groups of which exactly one names a mode, or none where no mode was found |
| `Protocol.ReorderedVectorsParseAlike` | bench/src/protocol.rs:287-340 | Permuting groups of distinct flags gives the same arguments, or a refusal both times |
| `ProtocolLaws.VectorsAcceptedIff` | bench/src/protocol.rs:264-348 | A vector is accepted exactly when it is a list of flags with their values, at most one of them a mode and every number readable |
| `ProtocolLaws.FirstFaultIsNamed` | bench/src/protocol.rs:264-348 | After any acceptable flags, an argument that is no flag, a last flag without its value, a second mode or an unreadable number is refused by name |
| `ProtocolLaws.LastNumberIsRead` | bench/src/protocol.rs:287-340 | A number given more than once is read where it is given last, and one not given is not set |
| `ProtocolLaws.PlainVectors` | bench/src/protocol.rs:131-175 | The version flag alone answers the version, the listing flag the listing, and no argument or either of the flags cargo sends prints the usage |
| `ProtocolLaws.DispatchWithoutACase` | bench/src/protocol.rs:131-175 | Any accepted vector asking for the version or the listing gets it; one that names no mode prints the usage if cargo sent it and is refused otherwise |
| `ProtocolLaws.DispatchOfCalibration` | bench/src/protocol.rs:176-180 | Any accepted vector asking to calibrate needs a known case and then a seed, and calibrates for the target given or 50 ms |
| `ProtocolLaws.DispatchOfRun` | bench/src/protocol.rs:181-226 | Any accepted vector asking to run needs a known case, then a seed, a count and a replicate below 2^32, and runs at least one iteration, priming if told, with the warm-up given or 50 ms |
| `Decimal.PrintReadsBack` | bench/src/protocol.rs:287-340 | Parsing the decimal print of any 64-bit number gives the number |
| `Decimal.NumbersReadIff` | bench/src/protocol.rs:287-340 | A string reads as a 64-bit number exactly when it is the print of that number after any zeros, with at most one plus before them |
| `Decimal.PrintIsDecimal` | bench/src/runner.rs:143-158 | A number prints as its decimal digits, most significant first, without leading zeros |
| `ShellQuote.DisplayedArgumentsReadBack` | xtask/src/run.rs:86-104 | Reading the printed arguments by the shell's rules gives back the argument list, for every list, empty strings and embedded quotes included |
| `ShellQuote.DisplayIsInjective` | xtask/src/run.rs:86-104 | Two argument lists print alike only when they are equal |
| `ShellQuote.QuoteReadsBack` | xtask/src/run.rs:347-356 | One quoted argument reads back as one word, whatever follows it |
| `ShellQuote.QuotesOnlyWhenNeeded` | xtask/src/run.rs:347-356 | An argument is printed as it is exactly when it is non-empty and holds only ASCII letters, digits and the nine characters - _ = / . : , + @ |
| `ShellQuote.DisplayArgs` | xtask/src/run.rs:95-98 | The loop prints each argument after one space, quoted |

## Left out

- Floating-point rounding: arithmetic is over exact reals, so nothing is said about the last bits of a result.
- Hash functions and the seeds made from them: a hasher is the stream it was fed, a seed is any word.
- Schema compilation, the registry fetcher and decoding: a schema is an opaque value with an id.
- Interleavings inside one cache call: `lookup` evaluates after releasing the lock, and a call here is one step.
- The report's wording, tables and JSON: presentation of the two lists.
- The reason shown for an erratic case, and which side a lone case was on: text only.
- Reading and writing record files, and the parts of provenance that are not guarded: input and output.
- The environment and directory parts of a printed step: the model prints the arguments.
- Suite set-up, warm-up, resource counters and the degenerate-case refusal beyond the empty-loop floor: measurement of a real process.
- Selecting the shared cases, building the legs and interrupting by signal: a run is any prefix of the schedule.
- Configuration validation, allocators and fuzz targets: each settled by reading one branch or outside the code at hand.
