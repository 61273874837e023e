/**
 * What Select guarantees: the result is the trial of one of the swept
 * thresholds; no swept threshold scores more than the sweep's accumulated
 * tolerance above it; its entries are input entries at distinct positions,
 * at most K of them; for a positive threshold they keep that distance
 * pairwise; its score is utility plus lambda times its least pairwise
 * distance; and with seed 0 candidates are ordered by position.
 */
module GistFacts {
  import opened Wrappers
  import opened GistTypes
  import opened Utility
  import opened Greedy
  import opened GreedyFacts
  import opened Gist

  /** m is the least distance over the pairs a < b of es, and some pair has it. */
  ghost predicate MinOverEntries(es: seq<Entry>, dist: DistanceFunc, m: real)
  {
    && (forall a, b :: 0 <= a < b < |es| ==> m <= dist(es[a], es[b]))
    && (exists a, b :: 0 <= a < b < |es| && m == dist(es[a], es[b]))
  }

  /** Candidate i wraps entry i at position i; seed 0 uses the position as tie-break key. */
  lemma CandidatesSpec(entries: seq<Entry>, cfg: Config, draw: (int, nat) -> int)
    ensures var cands := Candidates(entries, cfg, draw);
            && |cands| == |entries|
            && (forall i :: 0 <= i < |cands| ==> cands[i].entry == entries[i] && cands[i].index == i)
            && (cfg.seed == 0 ==> PositionOrdered(cands))
            && (cfg.seed != 0 ==> forall i :: 0 <= i < |cands| ==> cands[i].tieBreak == draw(cfg.seed, i))
  {
  }

  /** A trial's fields, its score being utility plus lambda times its least pairwise distance. */
  lemma TrialShape(cands: seq<Candidate>, cfg: Config, t: real)
    requires Resolved(cfg)
    ensures var trial := Trial(cands, cfg, t);
            var sel := Selected(cands, GreedyPicks(cands, cfg, t).0);
            && trial.entries == EntriesOf(sel)
            && trial.utility == GreedyPicks(cands, cfg, t).1.value
            && trial.minDistance == MinDistanceOf(sel, cfg.distance.value)
            && trial.threshold == t
            && trial.score == Score(trial.utility, cfg.lambda, trial.minDistance)
  {
  }

  /** The trial at one threshold: the greedy picks, their entries, utility and score. */
  lemma TrialSpec(cands: seq<Candidate>, cfg: Config, t: real) returns (picks: seq<nat>)
    requires Resolved(cfg)
    ensures ValidPicks(cands, picks) && Distinct(picks)
    ensures |picks| <= |cands| && (|picks| <= cfg.k || picks == [])
    ensures var trial := Trial(cands, cfg, t);
            && |trial.entries| == |picks|
            && (forall k :: 0 <= k < |picks| ==> trial.entries[k] == cands[picks[k]].entry)
            && trial.threshold == t
            && trial.utility == Replay(Fresh(cfg.utility.value), cands, picks).value
            && (picks != [] ==> trial.utility > 0.0)
    ensures var trial := Trial(cands, cfg, t);
            && (t > 0.0 ==> forall a, b :: 0 <= a < b < |picks| ==>
                  !(cfg.distance.value(trial.entries[b], trial.entries[a]) < t))
            && (|picks| < 2 ==> trial.minDistance == 0.0)
            && (|picks| >= 2 ==> MinOverEntries(trial.entries, cfg.distance.value, trial.minDistance))
  {
    picks := GreedyPicks(cands, cfg, t).0;
    GreedyPicksSpec(cands, cfg, t);
    var dist := cfg.distance.value;
    var sel := Selected(cands, picks);
    var trial := Trial(cands, cfg, t);
    TrialShape(cands, cfg, t);
    MinDistanceOfSpec(sel, dist);
    SelectionFacts(cands, picks, dist, t, trial.entries, trial.minDistance);
  }

  /**
   * The entries of separated picks, in pick order: the threshold holds
   * between them and the selection's least pairwise distance is theirs.
   */
  lemma SelectionFacts(cands: seq<Candidate>, picks: seq<nat>, dist: DistanceFunc, t: real, es: seq<Entry>, m: real)
    requires ValidPicks(cands, picks) && es == EntriesOf(Selected(cands, picks))
    requires Separated(cands, dist, t, picks)
    requires |picks| >= 2 ==> IsMinPairDistance(Selected(cands, picks), dist, m)
    ensures |es| == |picks| && forall k :: 0 <= k < |picks| ==> es[k] == cands[picks[k]].entry
    ensures t > 0.0 ==> forall a, b :: 0 <= a < b < |picks| ==> !(dist(es[b], es[a]) < t)
    ensures |picks| >= 2 ==> MinOverEntries(es, dist, m)
  {
    var sel := Selected(cands, picks);
    EntriesOfSelected(cands, picks);
    if t > 0.0 {
      forall a, b | 0 <= a < b < |picks|
        ensures !(dist(es[b], es[a]) < t)
      {
        assert es[b] == cands[picks[b]].entry && es[a] == cands[picks[a]].entry;
      }
    }
    if |picks| >= 2 {
      var a, b :| 0 <= a < b < |sel| && m == SelDistance(sel, dist, a, b);
      assert m == dist(es[a], es[b]);
      forall a', b' | 0 <= a' < b' < |picks|
        ensures m <= dist(es[a'], es[b'])
      {
        assert m <= SelDistance(sel, dist, a', b');
      }
    }
  }

  /** The entries of the picked candidates, in pick order. */
  lemma EntriesOfSelected(cands: seq<Candidate>, picks: seq<nat>)
    requires ValidPicks(cands, picks)
    ensures var es := EntriesOf(Selected(cands, picks));
            |es| == |picks| && forall k :: 0 <= k < |picks| ==> es[k] == cands[picks[k]].entry
  {
  }

  /** The sweep's result is the trial of one of the thresholds swept so far. */
  lemma {:induction false} SweepPicksATrial(cands: seq<Candidate>, cfg: Config, ts: seq<real>, m: nat)
    returns (j: nat)
    requires Resolved(cfg) && 0 < m <= |ts|
    ensures j < m && Sweep(cands, cfg, ts, m).value == Trial(cands, cfg, ts[j])
  {
    var best := Sweep(cands, cfg, ts, m - 1);
    var trial := Trial(cands, cfg, ts[m - 1]);
    if IsBetterScore(trial.score, trial.utility, trial.threshold, best) {
      j := m - 1;
    } else {
      j := SweepPicksATrial(cands, cfg, ts, m - 1);
    }
  }

  /**
   * No swept threshold's trial scores more than the sweep's result plus one
   * tolerance per threshold: a replacement can lose at most one tolerance,
   * and a rejected trial is at most one tolerance above the kept one.
   */
  lemma {:induction false} SweepNearBest(cands: seq<Candidate>, cfg: Config, ts: seq<real>, m: nat)
    requires Resolved(cfg) && 0 < m <= |ts|
    ensures forall j :: 0 <= j < m ==>
              Trial(cands, cfg, ts[j]).score <= Sweep(cands, cfg, ts, m).value.score + Drift(m, DefaultEpsilon)
  {
    var best := Sweep(cands, cfg, ts, m - 1);
    var trial := Trial(cands, cfg, ts[m - 1]);
    var result := Sweep(cands, cfg, ts, m).value;
    DriftNonNegative(m, DefaultEpsilon);
    if m > 1 {
      SweepNearBest(cands, cfg, ts, m - 1);
      if IsBetterScore(trial.score, trial.utility, trial.threshold, best) {
        assert result == trial && trial.score >= best.value.score - DefaultEpsilon;
      } else {
        assert result == best.value && trial.score <= best.value.score + DefaultEpsilon;
        DriftNonNegative(m - 1, DefaultEpsilon);
      }
    }
  }

  /**
   * What Select returns: the empty result when there is nothing to select;
   * otherwise the trial of a swept threshold, whose entries are input
   * entries at distinct positions, at most K, separated by the threshold
   * when it is positive, with their least pairwise distance and a positive
   * utility when anything is selected.
   */
  lemma SelectSpecProps(entries: seq<Entry>, config: Config, draw: (int, nat) -> int) returns (picks: seq<nat>)
    ensures var cfg := WithDefaults(config, |entries|);
            (|entries| == 0 || cfg.k == 0) ==> SelectSpec(entries, config, draw) == EmptyResult()
    ensures Distinct(picks) && forall k :: 0 <= k < |picks| ==> picks[k] < |entries|
    ensures var r := SelectSpec(entries, config, draw);
            && |r.entries| == |picks|
            && (forall k :: 0 <= k < |picks| ==> r.entries[k] == entries[picks[k]])
            && |r.entries| <= |entries|
            && |r.entries| <= WithDefaults(config, |entries|).k
            && (r.entries != [] ==> r.utility > 0.0)
    ensures var r := SelectSpec(entries, config, draw);
            var dist := WithDefaults(config, |entries|).distance.value;
            && (r.threshold > 0.0 ==> forall a, b :: 0 <= a < b < |r.entries| ==>
                  !(dist(r.entries[b], r.entries[a]) < r.threshold))
            && (|r.entries| < 2 ==> r.minDistance == 0.0)
            && (|r.entries| >= 2 ==> MinOverEntries(r.entries, dist, r.minDistance))
    ensures var cfg := WithDefaults(config, |entries|);
            !(|entries| == 0 || cfg.k == 0) ==>
              SelectSpec(entries, config, draw).threshold in SweptThresholds(Candidates(entries, cfg, draw), cfg)
  {
    var cfg := WithDefaults(config, |entries|);
    var r := SelectSpec(entries, config, draw);
    if |entries| == 0 || cfg.k == 0 {
      picks := [];
    } else {
      var cands := Candidates(entries, cfg, draw);
      var ts := SweptThresholds(cands, cfg);
      var t := SelectIsTrial(entries, config, draw);
      picks := TrialSpec(cands, cfg, t);
      CandidatesSpec(entries, cfg, draw);
      forall k | 0 <= k < |picks|
        ensures r.entries[k] == entries[picks[k]]
      {
        assert r.entries[k] == cands[picks[k]].entry;
      }
    }
  }

  /** Select's score is its utility plus lambda times its least pairwise distance. */
  lemma SelectScore(entries: seq<Entry>, config: Config, draw: (int, nat) -> int)
    ensures var r := SelectSpec(entries, config, draw);
            r.score == Score(r.utility, config.lambda, r.minDistance)
  {
    var cfg := WithDefaults(config, |entries|);
    var r := SelectSpec(entries, config, draw);
    if |entries| == 0 || cfg.k == 0 {
      assert r == EmptyResult();
      assert r.score == Score(r.utility, config.lambda, r.minDistance) by {
        assert config.lambda * 0.0 == 0.0;
      }
    } else {
      var cands := Candidates(entries, cfg, draw);
      var t := SelectIsTrial(entries, config, draw);
      var trial := Trial(cands, cfg, t);
      TrialShape(cands, cfg, t);
      assert r == trial && cfg.lambda == config.lambda;
    }
  }

  /** When there is something to select, Select's result is the trial of a swept threshold t. */
  lemma SelectIsTrial(entries: seq<Entry>, config: Config, draw: (int, nat) -> int) returns (t: real)
    requires var cfg := WithDefaults(config, |entries|); !(|entries| == 0 || cfg.k == 0)
    ensures var cfg := WithDefaults(config, |entries|);
            var cands := Candidates(entries, cfg, draw);
            && t in SweptThresholds(cands, cfg)
            && SelectSpec(entries, config, draw) == Trial(cands, cfg, t)
  {
    var cfg := WithDefaults(config, |entries|);
    var cands := Candidates(entries, cfg, draw);
    var ts := SweptThresholds(cands, cfg);
    assert SelectSpec(entries, config, draw) == Sweep(cands, cfg, ts, |ts|).value;
    var j := SweepPicksATrial(cands, cfg, ts, |ts|);
    t := ts[j];
  }

  /** Over the whole sweep: no swept threshold's trial scores more than |ts| tolerances above the result. */
  lemma SweepNearBestAll(cands: seq<Candidate>, cfg: Config, ts: seq<real>)
    requires Resolved(cfg) && 0 < |ts|
    ensures forall t :: t in ts ==>
              Trial(cands, cfg, t).score <= Sweep(cands, cfg, ts, |ts|).value.score + |ts| as real * DefaultEpsilon
  {
    var bound := Sweep(cands, cfg, ts, |ts|).value.score + |ts| as real * DefaultEpsilon;
    SweepNearBest(cands, cfg, ts, |ts|);
    DriftIsProduct(|ts|, DefaultEpsilon);
    forall t | t in ts
      ensures Trial(cands, cfg, t).score <= bound
    {
      var j :| 0 <= j < |ts| && ts[j] == t;
    }
  }

  /**
   * Select's result scores, up to one tolerance per swept threshold, at
   * least as high as the greedy run at any swept threshold.
   */
  lemma SelectNearBest(entries: seq<Entry>, config: Config, draw: (int, nat) -> int)
    ensures var cfg := WithDefaults(config, |entries|);
            var cands := Candidates(entries, cfg, draw);
            var ts := SweptThresholds(cands, cfg);
            !(|entries| == 0 || cfg.k == 0) ==>
              forall t :: t in ts ==>
                Trial(cands, cfg, t).score <= SelectSpec(entries, config, draw).score + |ts| as real * DefaultEpsilon
  {
    var cfg := WithDefaults(config, |entries|);
    if !(|entries| == 0 || cfg.k == 0) {
      var cands := Candidates(entries, cfg, draw);
      var ts := SweptThresholds(cands, cfg);
      assert SelectSpec(entries, config, draw) == Sweep(cands, cfg, ts, |ts|).value;
      SweepNearBestAll(cands, cfg, ts);
    }
  }
}
