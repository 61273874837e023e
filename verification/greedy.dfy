/**
 * The greedy independent-set builder run once per threshold: repeatedly
 * scan the unused candidates that keep the distance threshold to everything
 * already selected, and take the one with the largest marginal gain under
 * an epsilon-tolerant comparison with deterministic tie-breaking.
 */
module Greedy {
  import opened GistTypes
  import opened Coverage
  import opened Utility

  /** A configuration whose distance and utility are set (as after defaults). */
  predicate Resolved(cfg: Config)
  {
    cfg.distance.Some? && cfg.utility.Some?
  }

  /** `a` precedes `b`: smaller tie-break key first, then smaller index. */
  predicate TieBreak(a: Candidate, b: Candidate)
  {
    if a.tieBreak == b.tieBreak then a.index < b.index else a.tieBreak < b.tieBreak
  }

  /** TieBreak is a strict total order on candidates with distinct indices. */
  lemma TieBreakStrictOrder(a: Candidate, b: Candidate, c: Candidate)
    ensures !TieBreak(a, a)
    ensures TieBreak(a, b) ==> !TieBreak(b, a)
    ensures TieBreak(a, b) && TieBreak(b, c) ==> TieBreak(a, c)
    ensures a.index != b.index ==> TieBreak(a, b) || TieBreak(b, a)
  {
  }

  /**
   * A candidate may join the selection when the threshold is not positive,
   * when nothing is selected, or when it is at distance at least the
   * threshold from every selected candidate.
   */
  predicate MeetsThreshold(c: Candidate, selected: seq<Candidate>, dist: DistanceFunc, t: real)
  {
    t <= 0.0 || |selected| == 0 ||
    forall j :: 0 <= j < |selected| ==> !(dist(c.entry, selected[j].entry) < t)
  }

  /** meetsThreshold: the early-exit scan over the selection. */
  method CheckThreshold(c: Candidate, selected: seq<Candidate>, dist: DistanceFunc, t: real) returns (ok: bool)
    ensures ok <==> MeetsThreshold(c, selected, dist, t)
  {
    if t <= 0.0 || |selected| == 0 {
      return true;
    }
    for j := 0 to |selected|
      invariant forall k :: 0 <= k < j ==> !(dist(c.entry, selected[k].entry) < t)
    {
      if dist(c.entry, selected[j].entry) < t {
        return false;
      }
    }
    return true;
  }

  /** Every pick is a position in the candidate list. */
  predicate ValidPicks(cands: seq<Candidate>, picks: seq<nat>)
  {
    forall k :: 0 <= k < |picks| ==> picks[k] < |cands|
  }

  /** The candidates at the picked positions, in pick order. */
  function Selected(cands: seq<Candidate>, picks: seq<nat>): (sel: seq<Candidate>)
    requires ValidPicks(cands, picks)
    ensures |sel| == |picks|
    ensures forall k :: 0 <= k < |picks| ==> sel[k] == cands[picks[k]]
  {
    if picks == [] then [] else Selected(cands, picks[..|picks| - 1]) + [cands[picks[|picks| - 1]]]
  }

  /** The scan's running choice: none yet (bestIdx == -1) or a position and its gain. */
  datatype Pick = NoPick | Best(idx: nat, gain: real)

  /** Whether position i may be picked: unused and within the threshold. */
  predicate Eligible(cands: seq<Candidate>, cfg: Config, t: real, picks: seq<nat>, i: nat)
    requires Resolved(cfg) && ValidPicks(cands, picks) && i < |cands|
  {
    i !in picks && MeetsThreshold(cands[i], Selected(cands, picks), cfg.distance.value, t)
  }

  /** One step of the inner scan, at position i. */
  function ScanStep(cands: seq<Candidate>, cfg: Config, t: real, picks: seq<nat>, s: UtilityState,
                    best: Pick, i: nat): Pick
    requires Resolved(cfg) && ValidPicks(cands, picks) && i < |cands|
    requires best.Best? ==> best.idx < |cands|
  {
    if !Eligible(cands, cfg, t, picks, i) then best
    else
      var g := GainOf(s, cands[i]);
      if best.NoPick? || g > best.gain + cfg.epsilon ||
         (Abs(g - best.gain) <= cfg.epsilon && TieBreak(cands[i], cands[best.idx]))
      then Best(i, g)
      else best
  }

  /** The scan over the first n positions. */
  function Scan(cands: seq<Candidate>, cfg: Config, t: real, picks: seq<nat>, s: UtilityState, n: nat): (p: Pick)
    requires Resolved(cfg) && ValidPicks(cands, picks) && n <= |cands|
    ensures p.Best? ==> p.idx < n
  {
    if n == 0 then NoPick
    else ScanStep(cands, cfg, t, picks, s, Scan(cands, cfg, t, picks, s, n - 1), n - 1)
  }

  /** The outer loop from a partial selection: pick until K is reached or no gain is possible. */
  function GreedyFrom(cands: seq<Candidate>, cfg: Config, t: real, picks: seq<nat>, s: UtilityState)
    : (r: (seq<nat>, UtilityState))
    requires Resolved(cfg) && ValidPicks(cands, picks)
    ensures ValidPicks(cands, r.0)
    decreases cfg.k - |picks|
  {
    if |picks| >= cfg.k then (picks, s)
    else
      var p := Scan(cands, cfg, t, picks, s, |cands|);
      if p.NoPick? || p.gain <= 0.0 then (picks, s)
      else GreedyFrom(cands, cfg, t, picks + [p.idx], AddTo(s, cands[p.idx]))
  }

  /** The picks (positions, in pick order) and final state of one greedy run. */
  function GreedyPicks(cands: seq<Candidate>, cfg: Config, t: real): (r: (seq<nat>, UtilityState))
    requires Resolved(cfg)
    ensures ValidPicks(cands, r.0)
  {
    GreedyFrom(cands, cfg, t, [], Fresh(cfg.utility.value))
  }

  /**
   * The inner scan of one round of greedyIndependentSet: bestIdx stays -1
   * when no unused candidate meets the threshold.
   */
  method ScanRound(cands: seq<Candidate>, cfg: Config, t: real, selected: seq<Candidate>,
                   used: array<bool>, tracker: Tracker, ghost picks: seq<nat>)
    returns (bestIdx: int, bestGain: real)
    requires Resolved(cfg) && ValidPicks(cands, picks) && selected == Selected(cands, picks)
    requires used.Length == |cands|
    requires forall i :: 0 <= i < |cands| ==> (used[i] <==> i in picks)
    ensures -1 <= bestIdx < |cands|
    ensures bestIdx == -1 <==> Scan(cands, cfg, t, picks, tracker.State(), |cands|) == NoPick
    ensures bestIdx != -1 ==> Scan(cands, cfg, t, picks, tracker.State(), |cands|) == Best(bestIdx, bestGain)
  {
    ghost var state := tracker.State();
    bestIdx := -1;
    bestGain := 0.0;
    for i := 0 to |cands|
      invariant -1 <= bestIdx < |cands|
      invariant bestIdx == -1 ==> Scan(cands, cfg, t, picks, state, i) == NoPick
      invariant bestIdx != -1 ==> Scan(cands, cfg, t, picks, state, i) == Best(bestIdx, bestGain)
    {
      if used[i] {
        continue;
      }
      var ok := CheckThreshold(cands[i], selected, cfg.distance.value, t);
      if !ok {
        continue;
      }
      var gain := tracker.Gain(cands[i]);
      if bestIdx == -1 || gain > bestGain + cfg.epsilon ||
         (Abs(gain - bestGain) <= cfg.epsilon && TieBreak(cands[i], cands[bestIdx])) {
        bestIdx := i;
        bestGain := gain;
      }
    }
  }

  /**
   * greedyIndependentSet: the selected candidates in pick order and the
   * final utility value. A fresh tracker and `used` array per call.
   */
  method GreedyIndependentSet(cands: seq<Candidate>, cfg: Config, t: real)
    returns (selected: seq<Candidate>, utility: real)
    requires Resolved(cfg)
    ensures selected == Selected(cands, GreedyPicks(cands, cfg, t).0)
    ensures utility == GreedyPicks(cands, cfg, t).1.value
  {
    var tracker := new Tracker.Init(cfg.utility.value);
    selected := [];
    var used := new bool[|cands|](_ => false);
    ghost var picks: seq<nat> := [];

    while |selected| < cfg.k
      invariant ValidPicks(cands, picks)
      invariant selected == Selected(cands, picks)
      invariant forall i :: 0 <= i < |cands| ==> (used[i] <==> i in picks)
      invariant GreedyFrom(cands, cfg, t, picks, tracker.State()) == GreedyPicks(cands, cfg, t)
      decreases cfg.k - |selected|
    {
      var bestIdx, bestGain := ScanRound(cands, cfg, t, selected, used, tracker, picks);
      if bestIdx == -1 || bestGain <= 0.0 {
        break;
      }
      ghost var state := tracker.State();
      selected := selected + [cands[bestIdx]];
      used[bestIdx] := true;
      tracker.Add(cands[bestIdx]);
      picks := picks + [bestIdx];
      assert tracker.State() == AddTo(state, cands[bestIdx]);
    }
    utility := tracker.Value();
  }
}
