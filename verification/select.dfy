/**
 * The top level of the selector: fill in configuration defaults, wrap the
 * entries as candidates, sweep the thresholds, run the greedy builder at
 * each, score every run as utility plus lambda times the smallest pairwise
 * distance of its selection, and keep the best-scoring run.
 */
module Gist {
  import opened Wrappers
  import opened GistTypes
  import opened Distance
  import opened Coverage
  import opened Greedy
  import opened Thresholds

  const DefaultEpsilon: real := 0.000001
  const DefaultMaxThresholdPairs: int := 10000
  const DefaultNGramMin: int := 2
  const DefaultWordWeight: real := 1.0
  const DefaultIPAWeight: real := 1.0

  /**
   * The configuration with every unset or out-of-range setting replaced by
   * its default. K defaults to the number of entries; the n-gram maximum
   * is only raised to the minimum, never set to a default of its own.
   */
  function WithDefaults(cfg: Config, entryCount: int): (r: Config)
    ensures Resolved(r)
    ensures r.k == (if cfg.k > 0 then cfg.k else entryCount)
    ensures r.epsilon > 0.0 && r.maxThresholdPairs > 0
    ensures 0 < r.nGramMin <= r.nGramMax
    ensures 0.0 <= r.wordFeatureWeight && 0.0 <= r.ipaFeatureWeight
    ensures r.wordFeatureWeight != 0.0 || r.ipaFeatureWeight != 0.0
    ensures r.lambda == cfg.lambda && r.thresholds == cfg.thresholds && r.seed == cfg.seed
  {
    var nMin := if cfg.nGramMin <= 0 then DefaultNGramMin else cfg.nGramMin;
    var weights := DefaultWeights(cfg.wordFeatureWeight, cfg.ipaFeatureWeight);
    Config(
      if cfg.k <= 0 then entryCount else cfg.k,
      cfg.lambda,
      if cfg.epsilon <= 0.0 then DefaultEpsilon else cfg.epsilon,
      cfg.thresholds,
      cfg.seed,
      if cfg.distance.None? then Some(DefaultDistance) else cfg.distance,
      if cfg.utility.None? then Some(CoverageUtility) else cfg.utility,
      if cfg.maxThresholdPairs <= 0 then DefaultMaxThresholdPairs else cfg.maxThresholdPairs,
      nMin,
      if cfg.nGramMax < nMin then nMin else cfg.nGramMax,
      weights.0,
      weights.1)
  }

  /** A setting the caller made, and that is in range, survives WithDefaults unchanged. */
  lemma WithDefaultsKeepsSettings(cfg: Config, entryCount: int)
    ensures var r := WithDefaults(cfg, entryCount);
            && (cfg.distance.Some? ==> r.distance == cfg.distance)
            && (cfg.utility.Some? ==> r.utility == cfg.utility)
            && (cfg.epsilon > 0.0 ==> r.epsilon == cfg.epsilon)
            && (cfg.maxThresholdPairs > 0 ==> r.maxThresholdPairs == cfg.maxThresholdPairs)
            && (cfg.nGramMin > 0 ==> r.nGramMin == cfg.nGramMin)
            && (cfg.nGramMax >= r.nGramMin ==> r.nGramMax == cfg.nGramMax)
    ensures var r := WithDefaults(cfg, entryCount);
            0.0 <= cfg.wordFeatureWeight && 0.0 <= cfg.ipaFeatureWeight &&
            (cfg.wordFeatureWeight != 0.0 || cfg.ipaFeatureWeight != 0.0) ==>
              r.wordFeatureWeight == cfg.wordFeatureWeight && r.ipaFeatureWeight == cfg.ipaFeatureWeight
  {
  }

  /** An unset distance or utility gets the library default. */
  lemma WithDefaultsFillsUnset(cfg: Config, entryCount: int)
    ensures var r := WithDefaults(cfg, entryCount);
            && (cfg.distance.None? ==> r.distance == Some(DefaultDistance))
            && (cfg.utility.None? ==> r.utility == Some(CoverageUtility))
            && (cfg.epsilon <= 0.0 ==> r.epsilon == DefaultEpsilon)
            && (cfg.maxThresholdPairs <= 0 ==> r.maxThresholdPairs == DefaultMaxThresholdPairs)
            && (cfg.nGramMin <= 0 ==> r.nGramMin == DefaultNGramMin)
  {
  }

  /** Filling in defaults twice changes nothing more. */
  lemma WithDefaultsIdempotent(cfg: Config, entryCount: int)
    ensures WithDefaults(WithDefaults(cfg, entryCount), entryCount) == WithDefaults(cfg, entryCount)
  {
  }

  /**
   * The feature weights after defaults: both 0 means both default; otherwise
   * only a negative weight is replaced.
   */
  function DefaultWeights(word: real, ipa: real): (r: (real, real))
    ensures 0.0 <= r.0 && 0.0 <= r.1 && (r.0 != 0.0 || r.1 != 0.0)
    ensures 0.0 <= word && 0.0 <= ipa && (word != 0.0 || ipa != 0.0) ==> r == (word, ipa)
    ensures word == 0.0 && ipa == 0.0 ==> r == (DefaultWordWeight, DefaultIPAWeight)
  {
    if word == 0.0 && ipa == 0.0 then (DefaultWordWeight, DefaultIPAWeight)
    else (if word < 0.0 then DefaultWordWeight else word, if ipa < 0.0 then DefaultIPAWeight else ipa)
  }

  /** Seed 0 orders candidates by position; any other seed by its i-th random draw. */
  function TieBreakKey(seed: int, i: nat, draw: (int, nat) -> int): int
  {
    if seed == 0 then i else draw(seed, i)
  }

  /** The candidate built for the i-th entry; features are cached only for coverage utility. */
  function CandidateAt(entries: seq<Entry>, cfg: Config, draw: (int, nat) -> int, i: nat): Candidate
    requires i < |entries|
  {
    var features := if cfg.utility == Some(CoverageUtility) then EntryFeatures(entries[i], cfg) else [];
    Candidate(entries[i], i, TieBreakKey(cfg.seed, i, draw), features)
  }

  /** The candidates of makeCandidates, one per entry in input order. */
  function Candidates(entries: seq<Entry>, cfg: Config, draw: (int, nat) -> int): (cands: seq<Candidate>)
  {
    seq(|entries|, i requires 0 <= i < |entries| => CandidateAt(entries, cfg, draw, i))
  }

  /**
   * makeCandidates: a first pass stores entry, position and tie-break key;
   * a second pass, for coverage utility only, fills in the features.
   */
  method MakeCandidates(entries: seq<Entry>, cfg: Config, draw: (int, nat) -> int)
    returns (cands: seq<Candidate>)
    ensures cands == Candidates(entries, cfg, draw)
  {
    var n := |entries|;
    var a := new Candidate[n];
    for i := 0 to n
      invariant forall k :: 0 <= k < i ==>
        a[k] == CandidateAt(entries, cfg, draw, k).(features := [])
    {
      a[i] := Candidate(entries[i], i, TieBreakKey(cfg.seed, i, draw), []);
    }
    if cfg.utility == Some(CoverageUtility) {
      for i := 0 to n
        invariant forall k :: 0 <= k < i ==> a[k] == CandidateAt(entries, cfg, draw, k)
        invariant forall k :: i <= k < n ==> a[k] == CandidateAt(entries, cfg, draw, k).(features := [])
      {
        var features := ExtractFeatures(a[i], cfg);
        a[i] := a[i].(features := features);
      }
    }
    cands := a[..];
  }

  /** The smaller of two reals. */
  function MinReal(x: real, y: real): real
  {
    if y < x then y else x
  }

  /** The smallest element of a nonempty sequence, folded from the left. */
  function MinSeq(s: seq<real>): real
    requires |s| > 0
  {
    if |s| == 1 then s[0] else MinReal(MinSeq(s[..|s| - 1]), s[|s| - 1])
  }

  /** MinSeq is a lower bound of the sequence and one of its elements (at w). */
  lemma {:induction false} MinSeqSpec(s: seq<real>) returns (w: nat)
    requires |s| > 0
    ensures w < |s| && MinSeq(s) == s[w]
    ensures forall k :: 0 <= k < |s| ==> MinSeq(s) <= s[k]
  {
    if |s| == 1 {
      w := 0;
    } else {
      var init := s[..|s| - 1];
      var v := MinSeqSpec(init);
      assert forall k :: 0 <= k < |init| ==> init[k] == s[k];
      w := if s[|s| - 1] < MinSeq(init) then |s| - 1 else v;
    }
  }

  /** The distance between positions a and b of a selection. */
  function SelDistance(sel: seq<Candidate>, dist: DistanceFunc, a: nat, b: nat): real
    requires a < |sel| && b < |sel|
  {
    dist(sel[a].entry, sel[b].entry)
  }

  /** m is the least distance over the pairs a < b of the selection, and some pair has it. */
  ghost predicate IsMinPairDistance(sel: seq<Candidate>, dist: DistanceFunc, m: real)
  {
    && (forall a, b :: 0 <= a < b < |sel| ==> m <= SelDistance(sel, dist, a, b))
    && (exists a, b :: 0 <= a < b < |sel| && m == SelDistance(sel, dist, a, b))
  }

  /** minDistance: 0 for fewer than two entries, else the least pairwise distance. */
  function MinDistanceOf(sel: seq<Candidate>, dist: DistanceFunc): real
  {
    if |sel| < 2 then 0.0 else MinSeq(PairDistances(sel, dist, AllPairs(|sel|)))
  }

  /** The least pairwise distance is characterised by IsMinPairDistance. */
  lemma MinDistanceOfSpec(sel: seq<Candidate>, dist: DistanceFunc)
    ensures |sel| < 2 ==> MinDistanceOf(sel, dist) == 0.0
    ensures |sel| >= 2 ==> IsMinPairDistance(sel, dist, MinDistanceOf(sel, dist))
  {
    if |sel| >= 2 {
      var n := |sel|;
      var ps := AllPairs(n);
      var ds := PairDistances(sel, dist, ps);
      AllPairsSpec(n);
      assert (0, 1) in ps;
      var w := MinSeqSpec(ds);
      var m := MinDistanceOf(sel, dist);
      assert m == SelDistance(sel, dist, ps[w].0, ps[w].1);
      forall a, b | 0 <= a < b < n
        ensures m <= SelDistance(sel, dist, a, b)
      {
        assert (a, b) in ps;
        var k :| 0 <= k < |ps| && ps[k] == (a, b);
        assert ds[k] == SelDistance(sel, dist, a, b);
      }
    }
  }

  /** Two least pairwise distances are equal. */
  lemma MinPairDistanceUnique(sel: seq<Candidate>, dist: DistanceFunc, m: real, m': real)
    requires IsMinPairDistance(sel, dist, m) && IsMinPairDistance(sel, dist, m')
    ensures m == m'
  {
    var a, b :| 0 <= a < b < |sel| && m == SelDistance(sel, dist, a, b);
    var a', b' :| 0 <= a' < b' < |sel| && m' == SelDistance(sel, dist, a', b');
    assert m' <= m && m <= m';
  }

  /**
   * minDistance: the nested loop over pairs i < j keeps the least distance
   * seen; None stands for the +Inf the loop starts from.
   */
  method MinDistance(selected: seq<Candidate>, dist: DistanceFunc) returns (m: real)
    ensures m == MinDistanceOf(selected, dist)
  {
    if |selected| < 2 {
      return 0.0;
    }
    var n := |selected|;
    var min: Option<real> := None;
    ghost var wa, wb := 0, 1;
    for i := 0 to n
      invariant min.None? <==> i == 0
      invariant min.Some? ==> 0 <= wa < wb < n && min.value == SelDistance(selected, dist, wa, wb)
      invariant min.Some? ==> forall a, b :: 0 <= a < i && a < b < n ==> min.value <= SelDistance(selected, dist, a, b)
    {
      for j := i + 1 to n
        invariant min.None? <==> i == 0 && j == 1
        invariant min.Some? ==> 0 <= wa < wb < n && min.value == SelDistance(selected, dist, wa, wb)
        invariant min.Some? ==> forall a, b :: 0 <= a < b < n && (a < i || (a == i && b < j)) ==>
                                  min.value <= SelDistance(selected, dist, a, b)
      {
        var d := dist(selected[i].entry, selected[j].entry);
        if min.None? || d < min.value {
          min := Some(d);
          wa, wb := i, j;
        }
      }
    }
    m := min.value;
    MinDistanceOfSpec(selected, dist);
    MinPairDistanceUnique(selected, dist, m, MinDistanceOf(selected, dist));
  }

  /** The entries of a selection, in selection order. */
  function EntriesOf(sel: seq<Candidate>): seq<Entry>
  {
    seq(|sel|, i requires 0 <= i < |sel| => sel[i].entry)
  }

  /** entriesFromCandidates: one entry per selected candidate, in order. */
  method EntriesFromCandidates(selected: seq<Candidate>) returns (entries: seq<Entry>)
    ensures |entries| == |selected|
    ensures forall i :: 0 <= i < |selected| ==> entries[i] == selected[i].entry
  {
    var a := new Entry[|selected|];
    for i := 0 to |selected|
      invariant forall k :: 0 <= k < i ==> a[k] == selected[k].entry
    {
      a[i] := selected[i].entry;
    }
    entries := a[..];
  }

  /**
   * isBetterScore: a clearly higher score wins; within the tolerance a
   * clearly higher utility wins; within both, the smaller threshold wins.
   * None is the initial best, whose score is -Inf.
   */
  function IsBetterScore(score: real, utility: real, threshold: real, best: Option<SelectResult>): (r: bool)
    ensures best.None? ==> r
    ensures best.Some? && score > best.value.score + DefaultEpsilon ==> r
    ensures best.Some? && score < best.value.score - DefaultEpsilon ==> !r
    ensures best.Some? && Abs(score - best.value.score) <= DefaultEpsilon ==>
              (utility > best.value.utility + DefaultEpsilon ==> r) &&
              (utility < best.value.utility - DefaultEpsilon ==> !r)
    ensures (best.Some? && Abs(score - best.value.score) <= DefaultEpsilon &&
             Abs(utility - best.value.utility) <= DefaultEpsilon) ==> (r <==> threshold < best.value.threshold)
  {
    if best.None? then true
    else if score > best.value.score + DefaultEpsilon then true
    else if Abs(score - best.value.score) <= DefaultEpsilon then
      if utility > best.value.utility + DefaultEpsilon then true
      else if Abs(utility - best.value.utility) <= DefaultEpsilon then threshold < best.value.threshold
      else false
    else false
  }

  /** The thresholds swept: the configured ones, else the derived ones, else just 0. */
  function SweptThresholds(cands: seq<Candidate>, cfg: Config): seq<real>
    requires Resolved(cfg)
  {
    var ts := if |cfg.thresholds| == 0
      then DerivedThresholds(cands, cfg.distance.value, cfg.maxThresholdPairs, cfg.epsilon)
      else cfg.thresholds;
    if |ts| == 0 then [0.0] else ts
  }

  /** A run's score: its utility plus lambda times its least pairwise distance. */
  function Score(utility: real, lambda: real, minDist: real): real
  {
    utility + lambda * minDist
  }

  /** The scored outcome of one greedy run at threshold t. */
  function Trial(cands: seq<Candidate>, cfg: Config, t: real): SelectResult
    requires Resolved(cfg)
  {
    var r := GreedyPicks(cands, cfg, t);
    var sel := Selected(cands, r.0);
    var minDist := MinDistanceOf(sel, cfg.distance.value);
    SelectResult(EntriesOf(sel), r.1.value, minDist, t, Score(r.1.value, cfg.lambda, minDist))
  }

  /** The best trial over the first m thresholds, under IsBetterScore; None before the first. */
  function Sweep(cands: seq<Candidate>, cfg: Config, ts: seq<real>, m: nat): (r: Option<SelectResult>)
    requires Resolved(cfg) && m <= |ts|
    ensures r.Some? <==> m > 0
  {
    if m == 0 then None
    else
      var best := Sweep(cands, cfg, ts, m - 1);
      var trial := Trial(cands, cfg, ts[m - 1]);
      if IsBetterScore(trial.score, trial.utility, trial.threshold, best) then Some(trial) else best
  }

  /** What Select returns. */
  function SelectSpec(entries: seq<Entry>, config: Config, draw: (int, nat) -> int): SelectResult
  {
    var cfg := WithDefaults(config, |entries|);
    if |entries| == 0 || cfg.k == 0 then EmptyResult()
    else
      var cands := Candidates(entries, cfg, draw);
      var ts := SweptThresholds(cands, cfg);
      Sweep(cands, cfg, ts, |ts|).value
  }

  /** One iteration of the sweep: the greedy run at a threshold and its score. */
  method RunThreshold(cands: seq<Candidate>, cfg: Config, threshold: real)
    returns (selected: seq<Candidate>, utility: real, minDist: real, score: real)
    requires Resolved(cfg)
    ensures var trial := Trial(cands, cfg, threshold);
            && trial.entries == EntriesOf(selected) && trial.utility == utility
            && trial.minDistance == minDist && trial.score == score
  {
    selected, utility := GreedyIndependentSet(cands, cfg, threshold);
    minDist := MinDistance(selected, cfg.distance.value);
    score := utility + cfg.lambda * minDist;
  }

  /** Select: run the sweep and keep the best-scoring selection. */
  method Select(entries: seq<Entry>, config: Config, draw: (int, nat) -> int) returns (result: SelectResult)
    ensures result == SelectSpec(entries, config, draw)
  {
    var cfg := WithDefaults(config, |entries|);
    if |entries| == 0 || cfg.k == 0 {
      return EmptyResult();
    }
    var cands := MakeCandidates(entries, cfg, draw);
    var thresholds := cfg.thresholds;
    if |thresholds| == 0 {
      thresholds := DeriveThresholds(cands, cfg);
    }
    if |thresholds| == 0 {
      thresholds := [0.0];
    }
    assert thresholds == SweptThresholds(cands, cfg);
    var best: Option<SelectResult> := None;
    for i := 0 to |thresholds|
      invariant best == Sweep(cands, cfg, thresholds, i)
    {
      var threshold := thresholds[i];
      var selected, utility, minDist, score := RunThreshold(cands, cfg, threshold);
      if IsBetterScore(score, utility, threshold, best) {
        var chosen := EntriesFromCandidates(selected);
        assert chosen == EntriesOf(selected);
        best := Some(SelectResult(chosen, utility, minDist, threshold, score));
      }
    }
    result := best.value;
  }
}
