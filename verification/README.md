# GIST selection, metrics-log parsing and the gistselect command, in Dafny

This project models three parts of a Go code base.

**The GIST selector (`pkg/gistselect`).** It picks a diverse, high-utility subset of
dictionary entries (word, IPA transcription, extra column). Candidates are built
in input order, with a tie-break key that is the position for seed 0 and a random
draw otherwise. With coverage utility, each candidate also caches a feature map of
prefixed character n-grams. For every distance threshold, the selector runs a greedy
independent-set search: each round takes the eligible candidate of largest marginal
gain, comparing gains up to a tolerance and breaking ties by key. Candidates closer
than the threshold to an already selected one are skipped. The thresholds are
either configured, or derived from the sorted and de-duplicated pairwise distances.
Each trial is scored as utility plus lambda times the least pairwise distance of the
picks, and the selector keeps the best trial: higher score, then higher utility,
then lower threshold.

**The metrics log parser (`pkg/metricsextract`).**
- Each log line yields records (epoch, metric, split, value, language).
- The epoch comes from an epoch marker, or else from an automatic counter.
- The split comes from the key's own prefix (`train_acc`), or else from the nearest
  preceding split word on the line. Evaluation aliases (`valid`, `dev`, …) become
  `eval`.
- The metric name is the key with the split prefix and separator characters
  trimmed.

**The gistselect command's helpers (`cmd/gistselect`).**
- Reading and writing two- or three-column TSV rows.
- Mode-name normalisation.
- Choosing distance and utility presets from mode names.
- The `-max-candidates` cut.

The pure parts are functions with lemmas. Code that works by updating state is
modelled as imperative Dafny, proved equal to a specification function:
- the Levenshtein rows over arrays;
- the greedy loop with its `used` array and tracker objects;
- the coverage state's covered set;
- the parser's automatic-epoch counter;
- the threshold measuring loop;
- the TSV reading and writing loops.

Go's `float64` is modelled as `real`, and Go maps as association lists in insertion
order. Three things become explicit parameters or inputs:
- the random source is a parameter `draw(seed, i)`, the i-th draw of the seeded
  generator;
- the regular-expression matches of a log line arrive as a `LineMatches` value;
- so do the results of `strconv.Atoi` and `strconv.ParseFloat` on the matched text.

`pkg/gistselect/select.go:13` declares `defaultNGramMax = 3`, but `withDefaults`
never reads it: an unset maximum is only raised to the minimum
(`select.go:72-74`). The default n-gram range is therefore 2..2, and the model
follows that (`DefaultNGramRange`).

## Model

| member | source | states |
|---|---|---|
| GistTypes.EmptyResult | pkg/gistselect/types.go:51-57 | the zero Result: no entries, utility, distance, threshold and score all 0 |
| Distance.Min3 | pkg/gistselect/distance.go:72-80 | the minimum of three values is one of them and below all of them |
| Distance.EditDistanceSymmetric | pkg/gistselect/distance.go:37-70 | the edit distance is symmetric in its arguments |
| Distance.EditDistanceZeroIff | pkg/gistselect/distance.go:37-70 | the edit distance is 0 exactly when the strings are equal |
| Distance.EditDistanceBound | pkg/gistselect/distance.go:37-70 | the edit distance is at most the longer length |
| Distance.EditDistancePrefixStep | pkg/gistselect/distance.go:55-66 | the distance of two prefixes satisfies the recurrence the inner loop computes (delete, insert, substitute) |
| Distance.CellIsEditDistance | pkg/gistselect/distance.go:55-66 | the cell computed with minInt over the three moves is the edit distance of the prefixes |
| Distance.MinInt | pkg/gistselect/distance.go:72-80 | the result is at most MaxInt, at most every value, and is MaxInt or one of the values |
| Distance.Max | pkg/gistselect/distance.go:82-87 | the result is one of the two arguments and at least both |
| Distance.Levenshtein | pkg/gistselect/distance.go:37-70 | the two-row dynamic programme (shorter string inner, empty-string shortcuts) returns the edit distance |
| Distance.NextRow | pkg/gistselect/distance.go:51-67 | one outer iteration turns the row for a[..i-1] into the row for a[..i] |
| Distance.NormalizedLevenshtein | pkg/gistselect/distance.go:25-35 | the ratio of edit distance to longer length lies in [0, 1] and is 0 exactly for equal strings (both empty gives 0) |
| Distance.NormalizedLevenshteinSymmetric | pkg/gistselect/distance.go:25-35 | the normalised distance is symmetric |
| Distance.DefaultDistance | pkg/gistselect/distance.go:6-8 | the default distance is in [0, 1] and 0 exactly when word+IPA keys agree |
| Distance.WordLevenshtein | pkg/gistselect/distance.go:11-13 | word distance is in [0, 1] and 0 exactly for equal words |
| Distance.IPALevenshtein | pkg/gistselect/distance.go:16-18 | IPA distance is in [0, 1] and 0 exactly for equal IPA |
| Distance.JointLevenshtein | pkg/gistselect/distance.go:21-23 | joint distance is in [0, 1] and 0 exactly when the joined word and IPA agree |
| Distance.DistanceFieldsAndSymmetry | pkg/gistselect/distance.go:6-23 | word and IPA distances look only at their own field; every distance is symmetric; the default is the joint distance |
| Distance.LibraryDistancesNonNegative | pkg/gistselect/types.go:10-11 | every library distance keeps the [0, +inf) promise of DistanceFunc |
| Coverage.UncoveredWeightNonNegative | pkg/gistselect/coverage.go:20-28 | with non-negative weights a gain is never negative |
| Coverage.UncoveredWeightOfCovered | pkg/gistselect/coverage.go:20-28 | a candidate whose features are all covered gains 0 |
| Coverage.DiminishingReturns | pkg/gistselect/coverage.go:3-5 | covering more never raises a candidate's gain (submodularity) |
| Coverage.CoverageState.Init | pkg/gistselect/coverage.go:8-13 | a fresh state covers nothing and has value 0 |
| Coverage.CoverageState.Gain | pkg/gistselect/coverage.go:20-28 | the gain is the total weight of the candidate's uncovered features |
| Coverage.CoverageState.Add | pkg/gistselect/coverage.go:30-37 | the candidate's features become covered and the value grows by exactly the gain before the call |
| Coverage.Insert | pkg/gistselect/coverage.go:67-69 | inserting a key adds it to the key set and never overwrites an existing weight |
| Coverage.InsertWindowsKeys | pkg/gistselect/coverage.go:65-70 | inserting the windows of one length adds exactly those prefixed n-grams |
| Coverage.InsertWindowsExtends | pkg/gistselect/coverage.go:65-70 | existing features keep their weights; new ones get the given weight |
| Coverage.InsertLengthsKeys | pkg/gistselect/coverage.go:61-71 | the keys after every length up to hi are the old keys plus all n-grams of those lengths |
| Coverage.LengthKeysUpToSpec | pkg/gistselect/coverage.go:61-64 | lengths beyond the text contribute nothing; the recursive key set equals the plain one |
| Coverage.InsertLengthsExtends | pkg/gistselect/coverage.go:61-71 | the length loop keeps existing weights and gives new keys the weight |
| Coverage.NGramFeaturesSpec | pkg/gistselect/coverage.go:50-72 | addNGrams adds exactly the n-grams for n in the clamped range (min at least 1, max at least min), none for empty text, without overwriting |
| Coverage.AddNGrams | pkg/gistselect/coverage.go:50-72 | the nested loop computes NGramFeatures |
| Coverage.AddWindows | pkg/gistselect/coverage.go:65-70 | the inner window loop inserts every n-gram of one length |
| Coverage.ExtractFeatures | pkg/gistselect/coverage.go:43-48 | the feature map is the word n-grams ("w:") then the IPA n-grams ("i:") |
| Coverage.FieldKeysPrefix | pkg/gistselect/coverage.go:45-46 | every key of a field starts with that field's prefix |
| Coverage.EntryFeaturesSpec | pkg/gistselect/coverage.go:43-48 | keys are word keys plus IPA keys, the two disjoint; each carries its field's weight; non-negative weights give non-negative features |
| CountUtility.CountState.Init | pkg/gistselect/gistselect_test.go:11-13 | the count utility starts at 0 |
| CountUtility.CountState.Gain | pkg/gistselect/gistselect_test.go:15-17 | the count utility's gain is always 1 |
| CountUtility.CountState.Add | pkg/gistselect/gistselect_test.go:19-21 | adding raises the count by 1 |
| Utility.Fresh | pkg/gistselect/types.go:13-17 | a freshly initialised utility has value 0 |
| Utility.UtilityMonotone | pkg/gistselect/types.go:13-24 | gains are non-negative, Add raises the value by the gain, so Value never decreases |
| Utility.CoverageAddIdempotent | pkg/gistselect/coverage.go:30-37 | after adding a candidate its features are covered, it gains 0 and adding it again changes nothing |
| Utility.CoverageSubmodular | pkg/gistselect/coverage.go:3-5 | a larger covered set never gives a larger gain |
| Utility.CountUtilityContract | pkg/gistselect/gistselect_test.go:11-25 | the count utility gains 1 and adds 1 |
| Utility.Tracker.Init | pkg/gistselect/select.go:147 | Init creates the state of the chosen utility, value 0 |
| Utility.Tracker.Gain | pkg/gistselect/types.go:19-24 | the tracker's gain is the abstract gain of its state |
| Utility.Tracker.Add | pkg/gistselect/types.go:19-24 | the tracker's state moves to the abstract AddTo of the old state |
| Utility.Tracker.Value | pkg/gistselect/types.go:19-24 | Value reports the state's value |
| Greedy.TieBreakStrictOrder | pkg/gistselect/select.go:218-223 | tieBreak is irreflexive, asymmetric, transitive and total on distinct positions |
| Greedy.CheckThreshold | pkg/gistselect/select.go:179-189 | the loop returns true exactly when the threshold is not positive, nothing is selected, or no selected entry is closer than the threshold |
| Greedy.Selected | pkg/gistselect/select.go:171 | the selected slice holds the picked candidates in pick order |
| Greedy.Scan | pkg/gistselect/select.go:152-166 | a best pick found among the first n candidates has a position below n |
| Greedy.GreedyFrom | pkg/gistselect/select.go:151-174 | the rounds only ever pick valid positions |
| Greedy.GreedyPicks | pkg/gistselect/select.go:146-177 | the greedy picks are valid positions |
| Greedy.ScanRound | pkg/gistselect/select.go:152-166 | the inner loop over candidates returns -1 exactly when no eligible candidate exists, otherwise the scan's best index and gain |
| Greedy.GreedyIndependentSet | pkg/gistselect/select.go:146-177 | the loop with used flags and the tracker returns the candidates and utility of GreedyPicks |
| GreedyFacts.ScanChoice | pkg/gistselect/select.go:154-166 | a best pick is unused, meets the threshold and carries its gain; no pick exactly when nothing is eligible |
| GreedyFacts.ScanStepBounds | pkg/gistselect/select.go:162-165 | each step loses at most epsilon of the best gain, and an eligible candidate is at most epsilon above the best after its step |
| GreedyFacts.ScanNearMaximal | pkg/gistselect/select.go:162-165 | no eligible candidate's gain exceeds the pick's by more than n times epsilon |
| GreedyFacts.ScanWithinEpsilon | pkg/gistselect/select.go:162-165 | with candidates in position order (seed 0) no eligible gain exceeds the pick's by more than epsilon |
| GreedyFacts.DistinctBelow | pkg/gistselect/select.go:149 | distinct positions below n number at most n |
| GreedyFacts.GreedyStep | pkg/gistselect/select.go:168-173 | one round keeps the picks distinct and pairwise separated by the threshold |
| GreedyFacts.GreedyFromKeeps | pkg/gistselect/select.go:151-174 | the rounds keep the invariant, extend the picks, and stop at K |
| GreedyFacts.GreedyFromPrefix | pkg/gistselect/select.go:151-174 | later rounds only append to the picks |
| GreedyFacts.GreedyFromReplays | pkg/gistselect/select.go:151-176 | the final utility is the start state with each pick added in order, every added pick had a positive gain in the state it was added to, and the utility strictly grows when anything is picked |
| GreedyFacts.GreedyPicksSpec | pkg/gistselect/select.go:146-177 | the picks are distinct, pairwise at least the threshold apart, at most K and the number of candidates; the utility is their replay, each pick had a positive gain when it was taken, and the utility is positive when any pick is made |
| GreedyFacts.GreedyFromStops | pkg/gistselect/select.go:168-170 | below K the loop stops only when no candidate is eligible or the best gain is not positive; running it again changes nothing |
| GreedyFacts.GreedyMaximal | pkg/gistselect/select.go:158-160 | when the loop ends below K for lack of candidates, every unpicked candidate violates the threshold |
| GreedyFacts.Without | pkg/gistselect/select.go:149 | removing a position from distinct picks leaves distinct picks without it |
| Thresholds.RowPairsSpec | pkg/gistselect/select.go:123-130 | the inner loop visits (i, j) for j from its start to n in increasing order |
| Thresholds.PairsFromSpec | pkg/gistselect/select.go:122-134 | the nested loops from row i visit exactly the pairs i <= a < b < n, lexicographically |
| Thresholds.AllPairsSpec | pkg/gistselect/select.go:122-134 | the nested loops visit every pair a < b exactly in lexicographic order |
| Thresholds.AllPairsNonEmpty | pkg/gistselect/select.go:115-117 | with two or more candidates there is at least one pair |
| Thresholds.InsertRealCounts | pkg/gistselect/select.go:136 | inserting adds exactly the one element, so sorting is a permutation |
| Thresholds.InsertRealSorted | pkg/gistselect/select.go:136 | inserting into an ascending list keeps it ascending |
| Thresholds.SortReals | pkg/gistselect/select.go:136 | sort.Float64s gives a sorted permutation |
| Thresholds.DeriveThresholds | pkg/gistselect/select.go:114-144 | the method computes DerivedThresholds: [0] for fewer than two candidates, otherwise 0 and the first maxPairs pair distances, sorted and de-duplicated |
| Thresholds.MeasurePairs | pkg/gistselect/select.go:118-134 | the loops collect 0 followed by the distances of the first min(maxPairs, all) pairs in loop order, the break firing as soon as the cap is reached |
| Thresholds.CapReached | pkg/gistselect/select.go:127-133 | stopping when pairs reaches maxPairs or the pairs run out measures exactly the capped prefix |
| Thresholds.MeasureRow | pkg/gistselect/select.go:123-130 | one inner loop appends the distances of its row until the cap |
| Thresholds.PairStep | pkg/gistselect/select.go:124-126 | measuring pair (i, j) appends its distance and advances the loop position |
| Thresholds.DedupScan | pkg/gistselect/select.go:137-142 | the loop keeps a value only when it is more than epsilon from the last kept one |
| Thresholds.DedupBasics | pkg/gistselect/select.go:137-142 | de-duplication keeps the first value, only input values, and no more of them |
| Thresholds.DedupSpread | pkg/gistselect/select.go:137-142 | on sorted input, kept values are pairwise more than epsilon apart and the last kept is at most the maximum |
| Thresholds.DedupCovers | pkg/gistselect/select.go:137-142 | every measured value is within epsilon above some kept threshold |
| Thresholds.DedupKeepsSpread | pkg/gistselect/select.go:137-142 | an already spread sorted list is unchanged |
| Thresholds.DedupIdempotent | pkg/gistselect/select.go:137-142 | de-duplicating twice is de-duplicating once |
| Thresholds.DedupSorted | pkg/gistselect/select.go:137-142 | de-duplication keeps the order |
| Thresholds.MeasuredValues | pkg/gistselect/select.go:120-125 | every measured value is 0 or the distance of some pair |
| Thresholds.DerivedThresholdsSpec | pkg/gistselect/select.go:114-144 | derived thresholds are non-empty, [0] for fewer than two candidates, sorted, more than epsilon apart, each 0 or a pair distance, starting at 0 for a non-negative distance |
| Thresholds.DerivedThresholdsCover | pkg/gistselect/select.go:114-144 | every measured distance lies within epsilon above a derived threshold |
| Gist.WithDefaults | pkg/gistselect/select.go:53-87 | the resolved config has K defaulting to the entry count, positive epsilon and pair cap, 0 < min <= max n-gram, non-negative weights not both 0; lambda, thresholds and seed unchanged |
| Gist.WithDefaultsKeepsSettings | pkg/gistselect/select.go:53-87 | every setting already in range is kept as given |
| Gist.WithDefaultsFillsUnset | pkg/gistselect/select.go:9-16 | unset settings receive the package defaults (DefaultDistance, coverage, 1e-6, 10000, n-gram min 2) |
| Gist.WithDefaultsIdempotent | pkg/gistselect/select.go:53-87 | filling defaults twice is filling them once |
| Gist.DefaultWeights | pkg/gistselect/select.go:75-85 | both-zero weights become 1 and 1; negative ones become 1; valid ones are kept |
| Gist.MakeCandidates | pkg/gistselect/select.go:89-112 | the two passes build the candidates: entry, position, the position or the seeded draw as key, features only for coverage utility |
| Gist.MinSeqSpec | pkg/gistselect/select.go:195-203 | the running minimum is one of the values and at most all of them |
| Gist.MinDistanceOfSpec | pkg/gistselect/select.go:191-208 | fewer than two entries give 0; otherwise the least pairwise distance, attained by some pair |
| Gist.MinPairDistanceUnique | pkg/gistselect/select.go:191-208 | the least pairwise distance is unique |
| Gist.MinDistance | pkg/gistselect/select.go:191-208 | the nested loop with the infinite sentinel returns MinDistanceOf |
| Gist.EntriesFromCandidates | pkg/gistselect/select.go:210-216 | the entries of the candidates, in order |
| Gist.IsBetterScore | pkg/gistselect/select.go:225-238 | no best yet always replaces; a score more than 1e-6 higher wins and more than 1e-6 lower loses; on a score tie higher utility wins, lower loses; on both ties the lower threshold wins |
| Gist.Sweep | pkg/gistselect/select.go:34-48 | after at least one threshold the sweep holds a best result |
| Gist.RunThreshold | pkg/gistselect/select.go:36-38 | greedy run, least distance and score of one threshold agree with the trial of that threshold |
| Gist.Select | pkg/gistselect/select.go:19-51 | the method returns SelectSpec: empty for no entries or K = 0, otherwise the best trial over the configured, derived or [0] thresholds |
| GistFacts.CandidatesSpec | pkg/gistselect/select.go:89-103 | candidate i wraps entry i at position i; seed 0 makes the keys the positions, otherwise the i-th draw |
| GistFacts.TrialShape | pkg/gistselect/select.go:36-46 | a trial holds the greedy entries, utility, least distance, threshold and score = utility + lambda * distance |
| GistFacts.TrialSpec | pkg/gistselect/select.go:36-46 | a trial's entries are distinct candidates, at most K, pairwise at least the threshold apart, with their replayed utility and least pairwise distance |
| GistFacts.SelectionFacts | pkg/gistselect/select.go:36-46 | the chosen entries are the picked candidates in order; with a positive threshold no later entry is nearer than the threshold to an earlier one; with two or more entries the reported minimum is attained by one pair and bounds all others |
| GistFacts.SweepPicksATrial | pkg/gistselect/select.go:35-48 | the sweep's result is the trial of one swept threshold |
| GistFacts.SweepNearBest | pkg/gistselect/select.go:35-48 | no swept trial scores more than the result plus one tolerance per threshold |
| GistFacts.SelectSpecProps | pkg/gistselect/select.go:19-51 | Select's entries are input entries at distinct positions, at most K, threshold-separated, with positive utility when non-empty and their least distance; empty for no entries or K = 0 |
| GistFacts.SelectScore | pkg/gistselect/select.go:38 | the score is utility plus lambda times the least distance |
| GistFacts.SelectIsTrial | pkg/gistselect/select.go:26-48 | Select's result is the trial of one swept threshold |
| GistFacts.SweepNearBestAll | pkg/gistselect/select.go:35-48 | no swept threshold's trial scores more than the sweep's result plus the number of thresholds times 1e-6 |
| GistFacts.SelectNearBest | pkg/gistselect/select.go:34-48 | no swept threshold's trial scores more than the number of thresholds times 1e-6 above Select's result |
| GistExamples.PairDistance | pkg/gistselect/gistselect_test.go:79-92 | the test's lookup distance is in [0, 1] and 0 exactly for equal words |
| GistExamples.ThresholdGreedy | pkg/gistselect/gistselect_test.go:73-107 | at threshold 0.5 the greedy run picks a and c with count 2 |
| GistExamples.ThresholdConstraint | pkg/gistselect/gistselect_test.go:73-107 | Select with threshold 0.5 returns [a, c] with utility 2 |
| GistExamples.CoverageGreedy | pkg/gistselect/gistselect_test.go:27-46 | the unigram coverage run picks both entries, covering a, b, c with value 3 |
| GistExamples.SelectCoverageUtility | pkg/gistselect/gistselect_test.go:27-46 | Select returns [ab, bc] with utility 3 |
| GistExamples.TwinGreedy | pkg/gistselect/gistselect_test.go:48-71 | of two identical entries with K = 1 the greedy run picks the one the tie-break prefers |
| GistExamples.SelectDeterministicOrdering | pkg/gistselect/gistselect_test.go:48-71 | Select's single pick is a function of seed and draws alone: the first entry for seed 0 |
| GistExamples.DistanceModes | pkg/gistselect/distance_test.go:5-23 | cat/bat with equal IPA: word distance positive, IPA distance 0, joint distance positive |
| GistExamples.DefaultNGramRange | pkg/gistselect/select.go:69-74 | an all-zero config resolves to n-gram range 2..2 and K = entry count |
| GoStrings.ToLower | cmd/gistselect/main.go:206 | lower-casing keeps the length, maps each upper-case ASCII letter to its lower-case letter (code point + 32) and keeps every other character |
| GoStrings.ToLowerAppend | cmd/gistselect/main.go:206 | lower-casing works character by character, so it distributes over concatenation |
| GoStrings.ToLowerIdempotent | cmd/gistselect/main.go:206 | lower-casing twice is lower-casing once |
| GoStrings.Split | cmd/gistselect/main.go:101 | a split has at least one field and no field contains the separator |
| GoStrings.JoinSplit | cmd/gistselect/main.go:101 | joining the fields of a split gives the line back |
| GoStrings.SplitJoin | cmd/gistselect/main.go:101 | splitting a join of separator-free fields gives the fields back |
| GoStrings.SplitCount | cmd/gistselect/main.go:101-102 | the number of columns is the number of tabs plus one |
| GoStrings.SplitField | cmd/gistselect/main.go:101 | a separator-free field followed by a separator splits off as one field |
| GoStrings.SplitNone | cmd/gistselect/main.go:101 | a string without the separator is one field |
| GoStrings.JoinAvoids | cmd/gistselect/main.go:129-139 | a character in no field, other than the separator, is not in the joined row |
| GistCli.RemoveChar | cmd/gistselect/main.go:207-208 | ReplaceAll with "" removes every occurrence, keeps every other character exactly as often as it occurs, and changes nothing when the character is absent |
| GistCli.RemoveCharAppend | cmd/gistselect/main.go:207-208 | removal works piece by piece, so the kept characters stay in order |
| GistCli.NormalizeMode | cmd/gistselect/main.go:205-210 | the result has no upper case, '-' or '_'; it holds every other character of the lower-cased mode exactly as often; an already normal mode is unchanged |
| GistCli.NormalizeModeAppend | cmd/gistselect/main.go:205-210 | normalisation works piece by piece, so what it keeps stays in order |
| GistCli.NormalizeModeDropsSeparator | cmd/gistselect/main.go:207-208 | a '-' or '_' anywhere in a mode does not change its normal form |
| GistCli.NormalizeModeIgnoresCase | cmd/gistselect/main.go:206 | lower-casing a mode first does not change its normal form |
| GistCli.NormalizeModeIdempotent | cmd/gistselect/main.go:205-210 | normalising twice is normalising once |
| GistCli.ParseDistance | cmd/gistselect/main.go:168-179 | succeeds exactly for the five normalised mode names, mapping word/ipa/joint to the matching distance; otherwise an error |
| GistCli.ParseDistanceSpec | cmd/gistselect/main.go:168-179 | the mode is parsed after normalisation; every chosen distance is in [0, 1] and 0 on equal entries |
| GistCli.ParseDistanceSpelling | cmd/gistselect/main.go:168-179 | "IPA_Levenshtein" selects the IPA distance |
| GistCli.UtilityPreset | cmd/gistselect/main.go:183-201 | wordtrigram is 3..3 word-only, ipangram 2..3 IPA-only, joint 2..3 both; nothing else is accepted |
| GistCli.ApplyUtility | cmd/gistselect/main.go:181-203 | coverage utility is set in every case; a known mode applies its preset, an unknown one reports an error with nothing else changed |
| GistCli.PresetSurvivesDefaults | cmd/gistselect/main.go:181-203 | each preset's n-gram range and weights pass through withDefaults unchanged |
| GistCli.ParseRow | cmd/gistselect/main.go:96-113 | blank lines are skipped; a row is an error exactly when it has other than two or three columns |
| GistCli.ParseRowFields | cmd/gistselect/main.go:101-111 | a parsed entry's fields are the row's columns: word and IPA from the first two, extra from a third, and extra empty when there are only two |
| GistCli.RowRoundTrip | cmd/gistselect/main.go:129-139 | a written row reads back as the same entry |
| GistCli.ReadRowsSpec | cmd/gistselect/main.go:96-117 | reading succeeds exactly when every line parses, giving at most one entry per line |
| GistCli.ReadRowsErrorSticks | cmd/gistselect/main.go:102-104 | the first bad row decides the result, whatever follows |
| GistCli.ReadLines | cmd/gistselect/main.go:96-113 | the scan loop computes ReadRows |
| GistCli.RenderIsJoin | cmd/gistselect/main.go:129-139 | the written file is the rows joined by newlines, each ended by a newline |
| GistCli.RenderSplits | cmd/gistselect/main.go:129-139 | splitting the written file at newlines gives its rows and one empty trailing field |
| GistCli.JoinAppend | cmd/gistselect/main.go:129-139 | writing one more row appends that row and a newline |
| GistCli.RowIsOneLine | cmd/gistselect/main.go:129-139 | a written row holds no newline and loses nothing to carriage-return stripping |
| GistCli.ScanRendered | cmd/gistselect/main.go:93-97 | scanning the written file gives back its rows |
| GistCli.ScanOfLines | cmd/gistselect/main.go:93-97 | a text whose newline fields are carriage-return-free lines plus an empty tail scans to exactly those lines |
| GistCli.RowsRoundTrip | cmd/gistselect/main.go:96-113 | reading the written rows gives the entries back |
| GistCli.FileRoundTrip | cmd/gistselect/main.go:84-144 | readTSV of what writeTSV wrote is the original entries, for tab- and newline-free fields |
| GistCli.WriteRows | cmd/gistselect/main.go:120-144 | the write loop produces the rendered file |
| GistCli.LimitCandidates | cmd/gistselect/main.go:46-48 | the result is a prefix of the entries of length max-candidates when that is positive and smaller, otherwise all |
| MetricsParser.NormalizeSplit | pkg/metricsextract/parser.go:223-230 | the result is "eval" exactly for eval and its four aliases; anything else is unchanged |
| MetricsParser.NormalizeSplitIdempotent | pkg/metricsextract/parser.go:223-230 | normalising twice is normalising once |
| MetricsParser.SplitFromKey | pkg/metricsextract/parser.go:201-211 | the key's split is "", "train" or "eval" |
| MetricsParser.SplitFromKeyInRange | pkg/metricsextract/parser.go:201-211 | the result is empty or the normalised form of one of the names tried |
| MetricsParser.SplitFromKeyInSpec | pkg/metricsextract/parser.go:201-211 | the first name the key equals or starts with (plus '_', '-' or '.') decides the split; none gives "" |
| MetricsParser.SplitFromKeySpec | pkg/metricsextract/parser.go:201-211 | "" exactly when no split name prefixes the key; "train" exactly when train does |
| MetricsParser.TrimSplitPrefix | pkg/metricsextract/parser.go:213-221 | a key made of split, separator and rest gives the rest; any other key is returned as it is |
| MetricsParser.SplitSearchSpec | pkg/metricsextract/parser.go:189-199 | the loop takes the last token of the leading run at or before the position and stops at the first later one |
| MetricsParser.SplitFromPositionSpec | pkg/metricsextract/parser.go:189-199 | on position-sorted tokens the split is that of the last token at or before the position, "" when there is none |
| MetricsParser.SplitTokenPositions | pkg/metricsextract/parser.go:158-166 | one token per match, at the match's offset, with the lower-cased and normalised text |
| MetricsParser.TrimLeftSpec | pkg/metricsextract/parser.go:135 | left trimming drops exactly the leading run of '_', '.', '-' |
| MetricsParser.TrimRightSpec | pkg/metricsextract/parser.go:135 | right trimming drops exactly the trailing run of '_', '.', '-' |
| MetricsParser.TrimCutsetSpec | pkg/metricsextract/parser.go:135 | strings.Trim with "_.-" returns the middle slice, which neither starts nor ends with those characters |
| MetricsParser.TrimTwice | pkg/metricsextract/parser.go:135 | trimming twice is trimming once |
| MetricsParser.ExtractLanguage | pkg/metricsextract/parser.go:168-182 | "" exactly when every group is empty; otherwise the first non-empty group, lower-cased |
| MetricsParser.Resolve | pkg/metricsextract/parser.go:114-138 | a match is dropped exactly when neither key nor position gives a split; a kept one has the key's split when the key names one, and otherwise the normalised split token in force at the match's offset; its metric is trimmed, "value" instead of empty or the split |
| MetricsParser.ResolveMetric | pkg/metricsextract/parser.go:115-138 | a kept match's metric is the part of the lower-cased key after the split prefix and its separator (when the key starts with them), between the leading and trailing runs of '_', '.' and '-'; it is "value" when that part is empty or equals the split |
| MetricsParser.ResolutionsSound | pkg/metricsextract/parser.go:114-138 | every match of a line resolves soundly |
| MetricsParser.RecordsOfSpec | pkg/metricsextract/parser.go:132-152 | a match yields at most one record, none exactly when dropped, with its value, epoch and language |
| MetricsParser.EmitSpec | pkg/metricsextract/parser.go:112-155 | a line yields at most one record per match, none exactly when all are dropped, all with the line's epoch and language |
| MetricsParser.PairStepSpec | pkg/metricsextract/parser.go:114-153 | one match appends its record; the first record of a line without an epoch advances the counter once and fixes the line's epoch |
| MetricsParser.PairsFoldSpec | pkg/metricsextract/parser.go:112-155 | the loop fails exactly when some value does not parse; otherwise it emits the line's records, advancing the counter at most once |
| MetricsParser.FailureSticks | pkg/metricsextract/parser.go:117-119 | after a value fails to parse the rest of the line changes nothing |
| MetricsParser.ErrorSticks | pkg/metricsextract/parser.go:76-79 | the first failing line decides the result of Parse |
| MetricsParser.ParseLineEpochs | pkg/metricsextract/parser.go:88-156 | the counter never decreases; a bad epoch fails without change; a stated epoch raises the counter to it and labels every record; otherwise the first record advances the counter by one and all records get it |
| MetricsParser.ParseLineRecords | pkg/metricsextract/parser.go:88-156 | a line fails exactly for a bad epoch or an unparsable value; its records are the emitted ones; with a configured language every record has it |
| MetricsParser.ParseMonotone | pkg/metricsextract/parser.go:70-86 | parsing never lowers the automatic epoch |
| MetricsParser.Parser.constructor | pkg/metricsextract/parser.go:49-68 | a new parser keeps its language and starts the counter at 0 |
| MetricsParser.Parser.ParseLine | pkg/metricsextract/parser.go:88-156 | the method's records and new counter are ParseLineSpec's |
| MetricsParser.Parser.CollectRecords | pkg/metricsextract/parser.go:112-155 | the match loop computes the fold and leaves its counter in the parser |
| MetricsParser.Parser.Parse | pkg/metricsextract/parser.go:70-86 | the line loop returns ParseSpec's records and counter, stopping at the first error |
| MetricsExamples.PlainKey | pkg/metricsextract/parser.go:122-138 | a lower-case, already trimmed key that names no split is kept whole as the metric, under the split token in force at its offset |
| MetricsExamples.LetterDiffers | pkg/metricsextract/parser.go:206 | a key that differs from a split name at a shared position does not start with it |
| MetricsExamples.NoSplitName | pkg/metricsextract/parser.go:201-211 | a key starting with none of t, e, v, d has no split |
| MetricsExamples.ParserEpochTrainEvalLine | pkg/metricsextract/parser_test.go:8-26 | "Epoch 3 train loss … eval loss …" yields four records at epoch 3, two train and two eval |
| MetricsExamples.ParserAutoEpochFallback | pkg/metricsextract/parser_test.go:28-48 | two lines without epoch markers get epochs 1 and 2, for any values |
| MetricsExamples.ParserSplitPrefixMetrics | pkg/metricsextract/parser_test.go:50-65 | "epoch=5 train_acc=… eval_acc=…" yields acc for train and eval at epoch 5; the epoch key is dropped |
| MetricsExamples.AliasPrefixKept | pkg/metricsextract/parser.go:122-125 | a key with an alias prefix such as valid_acc gets split eval but keeps its whole name as metric |

## Left out

- Utilities: Go's `Utility` and `UtilityFunc` interfaces are open, but the model closes them to two kinds. These are the library's coverage utility and the unit-count utility of its tests. So the greedy and selection facts (`GreedyPicksSpec`, `SelectSpecProps`, `UtilityMonotone` and the rest) are proved for those two utilities only, not for an arbitrary caller-supplied tracker.

- Random tie-break keys: `rand.New(rand.NewSource(seed)).Int63()` is not modelled. The i-th draw is the parameter `draw(seed, i)`, so same seed and same draws give the same result by construction.
- Floating point: `float64` is modelled as exact `real`, so rounding in sums, ratios and comparisons is not captured. The +Inf sentinels of `minDistance` and of the initial best score become an explicit "no value yet".
- Map iteration order: Go's randomised iteration over the feature map is replaced by insertion order. The coverage sums are order-independent only under exact arithmetic.
- Distances: `levenshtein` works on runes; the model works on Dafny characters. Go's 64-bit `int` is modelled as unbounded, so overflow is not captured: not at `autoEpoch++` (`parser.go:141`) when the counter is at `math.MaxInt`, and not in `levenshtein`, whose model requires both lengths below `math.MaxInt`. The `math.MaxInt` starting value of `minInt` is kept.
- Regular expressions: the epoch, split, key/value and language patterns are not modelled; their matches on a line are the input `LineMatches`. So are the results of `strconv.Atoi` and `strconv.ParseFloat`, and error texts are reduced to a tag.
- Metrics parser behaviour: all matches of a line are resolved before the loop over them. Resolution is pure, so the records are the same.
- I/O: `bufio.Scanner` is modelled as line splitting with one trailing carriage return dropped. Its buffer limits, the read and write error paths, `openInput`/`openOutput`, the flag parsing of `main`, the summary printed and the timings are not modelled.
- GoStrings.ToLower: lower-cases ASCII letters only, not the whole of Unicode.
- `DefaultOptions` and the regular expressions they compile are not modelled; `NewParser` is the `Parser` constructor.
- The `metrics_extract` and `analysis2` commands are not part of this model.
- GistExamples.SelectDeterministicOrdering: states that the outcome depends only on the seed and the draws, not that the Go generator yields a particular order for the seed used in the test.
