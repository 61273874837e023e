/**
 * The selector's test cases, stated over the model: the threshold
 * constraint with a hand-written distance and the unit-count utility, the
 * coverage utility on two overlapping words, the position tie-break on
 * identical entries, and the three Levenshtein distance modes.
 */
module GistExamples {
  import opened Wrappers
  import opened GistTypes
  import opened Distance
  import opened Coverage
  import opened Utility
  import opened Greedy
  import opened Gist

  /** An entry with only a word. */
  function WordEntry(w: string): Entry
  {
    Entry(w, "", "")
  }

  /** The test distance: 0 on equal words, 0.2 between "a" and "b", 0.9 from "c" to either, 1 otherwise. */
  function PairDistance(a: Entry, b: Entry): (d: real)
    ensures 0.0 <= d <= 1.0 && (d == 0.0 <==> a.word == b.word)
  {
    var pair := a.word + b.word;
    if a.word == b.word then 0.0
    else if pair == "ab" || pair == "ba" then 0.2
    else if pair == "ac" || pair == "ca" || pair == "bc" || pair == "cb" then 0.9
    else 1.0
  }

  /** The two distances the second round consults. */
  lemma PairDistanceValues()
    ensures PairDistance(WordEntry("b"), WordEntry("a")) == 0.2
    ensures PairDistance(WordEntry("c"), WordEntry("a")) == 0.9
  {
    assert "b" + "a" == "ba" && "c" + "a" == "ca";
  }

  /** K = 2, one threshold 0.5, lambda 0, the test distance and the unit-count utility; the rest unset. */
  function ThresholdConfig(): Config
  {
    Config(2, 0.0, 0.0, [0.5], 0, Some(PairDistance), Some(CountUtility), 0, 0, 0, 0.0, 0.0)
  }

  /**
   * Select with one configured threshold t and something to select: the
   * entries and utility of the greedy run at t.
   */
  lemma SelectSingleThreshold(entries: seq<Entry>, config: Config, draw: (int, nat) -> int, t: real,
                              picks: seq<nat>, state: UtilityState)
    requires |entries| > 0 && config.k > 0 && config.thresholds == [t]
    requires var cfg := WithDefaults(config, |entries|);
             GreedyPicks(Candidates(entries, cfg, draw), cfg, t) == (picks, state)
    ensures var cfg := WithDefaults(config, |entries|);
            var r := SelectSpec(entries, config, draw);
            && r.entries == EntriesOf(Selected(Candidates(entries, cfg, draw), picks))
            && r.utility == state.value && r.threshold == t
  {
  }

  /** The entries of one picked position. */
  lemma PickedEntry(cands: seq<Candidate>, i: nat)
    requires i < |cands|
    ensures EntriesOf(Selected(cands, [i])) == [cands[i].entry]
  {
    assert Selected(cands, [i]) == [cands[i]];
  }

  /** The entries of two picked positions, in pick order. */
  lemma PickedEntries(cands: seq<Candidate>, i: nat, j: nat)
    requires i < |cands| && j < |cands|
    ensures EntriesOf(Selected(cands, [i, j])) == [cands[i].entry, cands[j].entry]
  {
    assert Selected(cands, [i, j]) == [cands[i], cands[j]];
  }

  /** The three candidates: words "a", "b", "c" at their positions, without features. */
  lemma ThresholdCandidates(draw: (int, nat) -> int)
    ensures var entries := [WordEntry("a"), WordEntry("b"), WordEntry("c")];
            var cfg := WithDefaults(ThresholdConfig(), 3);
            Candidates(entries, cfg, draw) == ThresholdCands() && ThresholdSettings(cfg)
  {
  }

  /** The candidates of the threshold test. */
  function ThresholdCands(): seq<Candidate>
  {
    [Candidate(WordEntry("a"), 0, 0, []), Candidate(WordEntry("b"), 1, 1, []), Candidate(WordEntry("c"), 2, 2, [])]
  }

  /** A resolved configuration as the threshold test's WithDefaults leaves it. */
  ghost predicate ThresholdSettings(cfg: Config)
  {
    && cfg.k == 2 && cfg.epsilon >= 0.0 && cfg.utility == Some(CountUtility) && cfg.distance.Some?
    && forall a, b :: cfg.distance.value(a, b) == PairDistance(a, b)
  }

  /** First round: every candidate gains 1, so the tie-break takes position 0. */
  lemma ThresholdFirstRound(cands: seq<Candidate>, cfg: Config)
    requires cands == ThresholdCands() && ThresholdSettings(cfg)
    ensures Scan(cands, cfg, 0.5, [], CountValue(0.0), 3) == Best(0, 1.0)
  {
    var s0 := CountValue(0.0);
    assert Selected(cands, []) == [];
    assert Scan(cands, cfg, 0.5, [], s0, 1) == Best(0, 1.0);
    assert Scan(cands, cfg, 0.5, [], s0, 2) == Best(0, 1.0);
  }

  /** Second round: "b" is 0.2 from "a", under the threshold; "c" is 0.9 away and is taken. */
  lemma ThresholdSecondRound(cands: seq<Candidate>, cfg: Config)
    requires cands == ThresholdCands() && ThresholdSettings(cfg)
    ensures Scan(cands, cfg, 0.5, [0], CountValue(1.0), 3) == Best(2, 1.0)
  {
    var s1 := CountValue(1.0);
    var dist := cfg.distance.value;
    var sel := Selected(cands, [0]);
    assert sel == [cands[0]];
    PairDistanceValues();
    assert dist(cands[1].entry, sel[0].entry) == 0.2;
    assert !MeetsThreshold(cands[1], sel, dist, 0.5);
    assert dist(cands[2].entry, sel[0].entry) == 0.9;
    assert MeetsThreshold(cands[2], sel, dist, 0.5);
    assert Scan(cands, cfg, 0.5, [0], s1, 1) == NoPick;
    assert Scan(cands, cfg, 0.5, [0], s1, 2) == NoPick;
  }

  /** The greedy run at 0.5 picks positions 0 and 2, and K = 2 stops it there. */
  lemma ThresholdGreedy(cands: seq<Candidate>, cfg: Config)
    requires cands == ThresholdCands() && ThresholdSettings(cfg)
    ensures GreedyPicks(cands, cfg, 0.5) == ([0, 2], CountValue(2.0))
  {
    ThresholdFirstRound(cands, cfg);
    ThresholdSecondRound(cands, cfg);
    assert |cands| == 3 && [] + [0] == [0] && [0] + [2] == [0, 2];
    assert GreedyFrom(cands, cfg, 0.5, [0, 2], CountValue(2.0)) == ([0, 2], CountValue(2.0));
    assert AddTo(CountValue(1.0), cands[2]) == CountValue(2.0);
    assert GreedyFrom(cands, cfg, 0.5, [0], CountValue(1.0)) == ([0, 2], CountValue(2.0));
    assert AddTo(CountValue(0.0), cands[0]) == CountValue(1.0);
  }

  /** Select keeps "a" and "c": "b" is within 0.5 of "a". */
  lemma ThresholdConstraint(draw: (int, nat) -> int)
    ensures var r := SelectSpec([WordEntry("a"), WordEntry("b"), WordEntry("c")], ThresholdConfig(), draw);
            r.entries == [WordEntry("a"), WordEntry("c")] && r.utility == 2.0 && r.threshold == 0.5
  {
    var entries := [WordEntry("a"), WordEntry("b"), WordEntry("c")];
    var cfg := WithDefaults(ThresholdConfig(), 3);
    var cands := Candidates(entries, cfg, draw);
    ThresholdCandidates(draw);
    ThresholdGreedy(cands, cfg);
    SelectSingleThreshold(entries, ThresholdConfig(), draw, 0.5, [0, 2], CountValue(2.0));
    PickedEntries(cands, 0, 2);
  }

  /** Unigrams of words, K and seed as given, one threshold 0, lambda 0; distance and utility left to their defaults. */
  function UnigramConfig(k: int, seed: int): Config
  {
    Config(k, 0.0, 0.0, [0.0], seed, None, None, 0, 1, 1, 0.0, 0.0)
  }

  /** The settings WithDefaults leaves for the unigram tests. */
  ghost predicate UnigramSettings(cfg: Config, k: int, seed: int)
  {
    && cfg.k == k && cfg.epsilon == DefaultEpsilon && cfg.utility == Some(CoverageUtility) && cfg.distance.Some?
    && cfg.nGramMin == 1 && cfg.nGramMax == 1 && cfg.wordFeatureWeight == 1.0 && cfg.ipaFeatureWeight == 1.0
    && cfg.seed == seed && cfg.thresholds == [0.0] && cfg.lambda == 0.0
  }

  lemma UnigramDefaults(k: int, seed: int, n: int)
    requires k > 0
    ensures UnigramSettings(WithDefaults(UnigramConfig(k, seed), n), k, seed)
  {
  }

  /** The unigram features of a two-letter word without pronunciation: one "w:" key per letter, in order. */
  lemma TwoLetterFeatures(e: Entry, cfg: Config)
    requires |e.word| == 2 && e.ipa == ""
    requires cfg.nGramMin == 1 && cfg.nGramMax == 1 && cfg.wordFeatureWeight == 1.0
    ensures EntryFeatures(e, cfg) ==
            if e.word[0] == e.word[1] then [Feature("w:" + [e.word[0]], 1.0)]
            else [Feature("w:" + [e.word[0]], 1.0), Feature("w:" + [e.word[1]], 1.0)]
  {
    var w := e.word;
    assert Window("w:", w, 0, 1) == "w:" + [w[0]];
    assert Window("w:", w, 1, 1) == "w:" + [w[1]];
    var one := InsertWindows([], "w:", w, 1, 1, 1.0);
    assert InsertWindows([], "w:", w, 1, 0, 1.0) == [];
    assert Keys([]) == {};
    assert one == [] + [Feature("w:" + [w[0]], 1.0)];
    assert Keys(one) == {"w:" + [w[0]]};
    assert ("w:" + [w[0]] == "w:" + [w[1]]) <==> w[0] == w[1] by {
      assert ("w:" + [w[0]])[2] == w[0] && ("w:" + [w[1]])[2] == w[1];
    }
    assert InsertLengths([], "w:", w, 1, 2, 1.0) == InsertWindows([], "w:", w, 1, 2, 1.0);
  }

  /** The gain of a two-feature candidate: the weights of its uncovered keys. */
  lemma UncoveredTwo(f: Feature, g: Feature, covered: set<string>)
    ensures UncoveredWeight([f, g], covered) ==
            (if f.key in covered then 0.0 else f.weight) + (if g.key in covered then 0.0 else g.weight)
  {
    assert [f, g][..1] == [f] && [f][..0] == [];
    assert UncoveredWeight([f], covered) == 0.0 + (if f.key in covered then 0.0 else f.weight);
  }

  /** The keys of a two-feature candidate. */
  lemma KeysTwo(f: Feature, g: Feature)
    ensures Keys([f, g]) == {f.key, g.key}
  {
    assert [f, g][0] == f && [f, g][1] == g;
    assert forall i :: 0 <= i < 2 ==> [f, g][i].key in {f.key, g.key};
  }

  /** The candidates of the coverage test: "ab" with keys w:a, w:b and "bc" with w:b, w:c. */
  function CoverageCands(): seq<Candidate>
  {
    [Candidate(WordEntry("ab"), 0, 0, [Feature("w:a", 1.0), Feature("w:b", 1.0)]),
     Candidate(WordEntry("bc"), 1, 1, [Feature("w:b", 1.0), Feature("w:c", 1.0)])]
  }

  /** The unigram keys of the test words. */
  lemma UnigramKeys()
    ensures "w:" + ['a'] == "w:a" && "w:" + ['b'] == "w:b" && "w:" + ['c'] == "w:c"
  {
  }

  /** Two entries make the two candidates built at their positions. */
  lemma TwoCandidates(entries: seq<Entry>, cfg: Config, draw: (int, nat) -> int, c0: Candidate, c1: Candidate)
    requires |entries| == 2 && CandidateAt(entries, cfg, draw, 0) == c0 && CandidateAt(entries, cfg, draw, 1) == c1
    ensures Candidates(entries, cfg, draw) == [c0, c1]
  {
  }

  /** With coverage utility, the candidate at position i carries its tie-break key and the entry's features. */
  lemma CoverageCandidateAt(entries: seq<Entry>, cfg: Config, draw: (int, nat) -> int, i: nat, k: int, seed: int)
    requires i < |entries| && UnigramSettings(cfg, k, seed)
    ensures CandidateAt(entries, cfg, draw, i) ==
            Candidate(entries[i], i, TieBreakKey(seed, i, draw), EntryFeatures(entries[i], cfg))
  {
  }

  lemma CoverageCandidates(entries: seq<Entry>, cfg: Config, draw: (int, nat) -> int)
    requires entries == [WordEntry("ab"), WordEntry("bc")] && UnigramSettings(cfg, 2, 0)
    ensures Candidates(entries, cfg, draw) == CoverageCands()
  {
    TwoLetterFeatures(entries[0], cfg);
    TwoLetterFeatures(entries[1], cfg);
    UnigramKeys();
    CoverageCandidateAt(entries, cfg, draw, 0, 2, 0);
    CoverageCandidateAt(entries, cfg, draw, 1, 2, 0);
    TwoCandidates(entries, cfg, draw, CoverageCands()[0], CoverageCands()[1]);
  }

  /** First round: both words gain 2 from nothing covered; the tie-break takes "ab". */
  lemma CoverageFirstRound(cands: seq<Candidate>, cfg: Config)
    requires cands == CoverageCands() && UnigramSettings(cfg, 2, 0)
    ensures Scan(cands, cfg, 0.0, [], CoverageValue({}, 0.0), 2) == Best(0, 2.0)
  {
    var s0 := CoverageValue({}, 0.0);
    UncoveredTwo(cands[0].features[0], cands[0].features[1], {});
    UncoveredTwo(cands[1].features[0], cands[1].features[1], {});
    assert GainOf(s0, cands[0]) == 2.0 && GainOf(s0, cands[1]) == 2.0;
    assert Scan(cands, cfg, 0.0, [], s0, 1) == Best(0, 2.0);
  }

  /** Second round: with w:a and w:b covered, "bc" gains 1 for w:c. */
  lemma CoverageSecondRound(cands: seq<Candidate>, cfg: Config)
    requires cands == CoverageCands() && UnigramSettings(cfg, 2, 0)
    ensures AddTo(CoverageValue({}, 0.0), cands[0]) == CoverageValue({"w:a", "w:b"}, 2.0)
    ensures Scan(cands, cfg, 0.0, [0], CoverageValue({"w:a", "w:b"}, 2.0), 2) == Best(1, 1.0)
    ensures AddTo(CoverageValue({"w:a", "w:b"}, 2.0), cands[1]) == CoverageValue({"w:a", "w:b", "w:c"}, 3.0)
  {
    var s1 := CoverageValue({"w:a", "w:b"}, 2.0);
    UncoveredTwo(cands[0].features[0], cands[0].features[1], {});
    KeysTwo(cands[0].features[0], cands[0].features[1]);
    KeysTwo(cands[1].features[0], cands[1].features[1]);
    assert "w:c" != "w:a" && "w:c" != "w:b";
    UncoveredTwo(cands[1].features[0], cands[1].features[1], s1.covered);
    assert GainOf(s1, cands[1]) == 1.0;
    assert Scan(cands, cfg, 0.0, [0], s1, 1) == NoPick;
  }

  /**
   * The greedy run takes "ab" and then "bc"; K = 2 stops it with all
   * three keys covered and utility 3.
   */
  lemma CoverageGreedy(cands: seq<Candidate>, cfg: Config)
    requires cands == CoverageCands() && UnigramSettings(cfg, 2, 0)
    ensures GreedyPicks(cands, cfg, 0.0) == ([0, 1], CoverageValue({"w:a", "w:b", "w:c"}, 3.0))
  {
    CoverageFirstRound(cands, cfg);
    CoverageSecondRound(cands, cfg);
    var s2 := CoverageValue({"w:a", "w:b", "w:c"}, 3.0);
    assert |cands| == 2 && [] + [0] == [0] && [0] + [1] == [0, 1];
    assert GreedyFrom(cands, cfg, 0.0, [0, 1], s2) == ([0, 1], s2);
    assert GreedyFrom(cands, cfg, 0.0, [0], CoverageValue({"w:a", "w:b"}, 2.0)) == ([0, 1], s2);
  }

  /** Select on "ab" and "bc" with unigram coverage keeps both, with utility 3. */
  lemma SelectCoverageUtility(draw: (int, nat) -> int)
    ensures var r := SelectSpec([WordEntry("ab"), WordEntry("bc")], UnigramConfig(2, 0), draw);
            r.entries == [WordEntry("ab"), WordEntry("bc")] && r.utility == 3.0
  {
    var entries := [WordEntry("ab"), WordEntry("bc")];
    var cfg := WithDefaults(UnigramConfig(2, 0), 2);
    var cands := Candidates(entries, cfg, draw);
    UnigramDefaults(2, 0, 2);
    CoverageCandidates(entries, cfg, draw);
    CoverageGreedy(cands, cfg);
    SelectSingleThreshold(entries, UnigramConfig(2, 0), draw, 0.0, [0, 1], CoverageValue({"w:a", "w:b", "w:c"}, 3.0));
    PickedEntries(cands, 0, 1);
  }

  /** The tie-break test's entries: the same word twice, told apart only by their metadata. */
  function TwinEntries(): seq<Entry>
  {
    [Entry("aa", "", "first"), Entry("aa", "", "second")]
  }

  /** Both twins have the single feature w:a. */
  lemma TwinCandidates(cfg: Config, seed: int, draw: (int, nat) -> int)
    requires UnigramSettings(cfg, 1, seed)
    ensures Candidates(TwinEntries(), cfg, draw) ==
            [Candidate(TwinEntries()[0], 0, TieBreakKey(seed, 0, draw), [Feature("w:a", 1.0)]),
             Candidate(TwinEntries()[1], 1, TieBreakKey(seed, 1, draw), [Feature("w:a", 1.0)])]
  {
    var entries := TwinEntries();
    TwoLetterFeatures(entries[0], cfg);
    TwoLetterFeatures(entries[1], cfg);
    UnigramKeys();
    CoverageCandidateAt(entries, cfg, draw, 0, 1, seed);
    CoverageCandidateAt(entries, cfg, draw, 1, 1, seed);
    TwoCandidates(entries, cfg, draw,
                  Candidate(entries[0], 0, TieBreakKey(seed, 0, draw), [Feature("w:a", 1.0)]),
                  Candidate(entries[1], 1, TieBreakKey(seed, 1, draw), [Feature("w:a", 1.0)]));
  }

  /**
   * Two candidates with equal gains: the greedy run with K = 1 takes the
   * one that comes first under the tie-break order, and stops.
   */
  lemma TwinGreedy(cands: seq<Candidate>, cfg: Config, seed: int)
    requires |cands| == 2 && cands[0].index == 0 && cands[1].index == 1
    requires cands[0].features == [Feature("w:a", 1.0)] && cands[1].features == [Feature("w:a", 1.0)]
    requires UnigramSettings(cfg, 1, seed)
    ensures GreedyPicks(cands, cfg, 0.0).0 == [if TieBreak(cands[1], cands[0]) then 1 else 0]
  {
    var s0 := CoverageValue({}, 0.0);
    var f := Feature("w:a", 1.0);
    assert [f][..0] == [];
    assert UncoveredWeight([f], {}) == 0.0 + 1.0;
    assert GainOf(s0, cands[0]) == 1.0 && GainOf(s0, cands[1]) == 1.0;
    assert Scan(cands, cfg, 0.0, [], s0, 1) == Best(0, 1.0);
    var w := if TieBreak(cands[1], cands[0]) then 1 else 0;
    assert Scan(cands, cfg, 0.0, [], s0, 2) == Best(w, 1.0);
    assert [] + [w] == [w];
    assert GreedyFrom(cands, cfg, 0.0, [w], AddTo(s0, cands[w])).0 == [w];
  }

  /**
   * With seed 0 the first of two identical entries is selected; with any
   * other seed, the one whose random draw is smaller (the first on a tie).
   * Select is a function of its inputs and the draws, so equal calls
   * select equally.
   */
  lemma SelectDeterministicOrdering(seed: int, draw: (int, nat) -> int)
    ensures var r := SelectSpec(TwinEntries(), UnigramConfig(1, seed), draw);
            var first := seed == 0 || draw(seed, 0) <= draw(seed, 1);
            r.entries == [TwinEntries()[if first then 0 else 1]]
  {
    var entries := TwinEntries();
    var cfg := WithDefaults(UnigramConfig(1, seed), 2);
    UnigramDefaults(1, seed, 2);
    var cands := Candidates(entries, cfg, draw);
    TwinCandidates(cfg, seed, draw);
    TwinGreedy(cands, cfg, seed);
    var w := if TieBreak(cands[1], cands[0]) then 1 else 0;
    SelectSingleThreshold(entries, UnigramConfig(1, seed), draw, 0.0, [w], GreedyPicks(cands, cfg, 0.0).1);
    PickedEntry(cands, w);
  }

  /** "cat" and "bat" share the pronunciation /kæt/: only the word and joint distances see them apart. */
  lemma DistanceModes()
    ensures var a := Entry("cat", "kæt", "");
            var b := Entry("bat", "kæt", "");
            && WordLevenshtein(a, b) > 0.0
            && IPALevenshtein(a, b) == 0.0
            && JointLevenshtein(a, b) > 0.0
  {
    var a := Entry("cat", "kæt", "");
    var b := Entry("bat", "kæt", "");
    assert a.word[0] != b.word[0];
    assert JointKey(a)[0] != JointKey(b)[0];
  }

  /** Left unset, the n-gram range becomes 2..2: the minimum defaults to 2 and the maximum is raised to it. */
  lemma DefaultNGramRange(entryCount: int)
    ensures var cfg := WithDefaults(Config(0, 0.0, 0.0, [], 0, None, None, 0, 0, 0, 0.0, 0.0), entryCount);
            cfg.nGramMin == 2 && cfg.nGramMax == 2 && cfg.k == entryCount
  {
  }
}
