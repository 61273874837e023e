/**
 * What one greedy run guarantees: the scan picks an eligible candidate with
 * its true gain, and only when one exists; the picks are distinct positions,
 * at most K and at most the number of candidates; for a positive threshold
 * every later pick is at distance at least the threshold from every earlier
 * one; the final utility state is the replay of the picks; every pick had a
 * positive gain; and a run that stops short of K stops because no eligible
 * candidate has a positive gain.
 */
module GreedyFacts {
  import opened GistTypes
  import opened Utility
  import opened Greedy

  /** No position is picked twice. */
  predicate Distinct(picks: seq<nat>)
  {
    forall a, b :: 0 <= a < b < |picks| ==> picks[a] != picks[b]
  }

  /**
   * For a positive threshold, every pick is at distance at least the
   * threshold from every pick before it (measured as the scan measures it:
   * from the newcomer to the one already selected).
   */
  predicate Separated(cands: seq<Candidate>, dist: DistanceFunc, t: real, picks: seq<nat>)
    requires ValidPicks(cands, picks)
  {
    t <= 0.0 ||
    forall a, b :: 0 <= a < b < |picks| ==> !(dist(cands[picks[b]].entry, cands[picks[a]].entry) < t)
  }

  /** The utility state reached by adding the picked candidates in order. */
  function Replay(s: UtilityState, cands: seq<Candidate>, picks: seq<nat>): UtilityState
    requires ValidPicks(cands, picks)
  {
    if picks == [] then s
    else AddTo(Replay(s, cands, picks[..|picks| - 1]), cands[picks[|picks| - 1]])
  }

  /**
   * The scan's choice: a pick is an eligible position reported with its
   * true gain, and there is no pick exactly when no position is eligible.
   */
  lemma {:induction false} ScanChoice(cands: seq<Candidate>, cfg: Config, t: real, picks: seq<nat>,
                                      s: UtilityState, n: nat)
    requires Resolved(cfg) && ValidPicks(cands, picks) && n <= |cands|
    ensures var p := Scan(cands, cfg, t, picks, s, n);
            p.Best? ==> Eligible(cands, cfg, t, picks, p.idx) && p.gain == GainOf(s, cands[p.idx])
    ensures Scan(cands, cfg, t, picks, s, n).NoPick? <==>
            forall i :: 0 <= i < n ==> !Eligible(cands, cfg, t, picks, i)
  {
    if n > 0 {
      ScanChoice(cands, cfg, t, picks, s, n - 1);
    }
  }

  /**
   * One scan step: a current pick survives or is replaced by one whose gain
   * is at most epsilon lower (and not lower at all unless the newcomer wins
   * the tie-break); the newcomer, when eligible, is within epsilon of the
   * resulting pick.
   */
  lemma ScanStepBounds(cands: seq<Candidate>, cfg: Config, t: real, picks: seq<nat>, s: UtilityState, n: nat)
    requires Resolved(cfg) && ValidPicks(cands, picks) && 0 < n <= |cands| && 0.0 <= cfg.epsilon
    ensures var prev := Scan(cands, cfg, t, picks, s, n - 1);
            var p := Scan(cands, cfg, t, picks, s, n);
            prev.Best? ==> p.Best? && p.gain >= prev.gain - cfg.epsilon &&
                           (!TieBreak(cands[n - 1], cands[prev.idx]) ==> p.gain >= prev.gain)
    ensures var p := Scan(cands, cfg, t, picks, s, n);
            Eligible(cands, cfg, t, picks, n - 1) ==> p.Best? && GainOf(s, cands[n - 1]) <= p.gain + cfg.epsilon
  {
  }

  /** n tolerances of e, added one at a time. */
  function Drift(n: nat, e: real): real
  {
    if n == 0 then 0.0 else Drift(n - 1, e) + e
  }

  /** The drift of n steps is n times the tolerance. */
  lemma {:induction false} DriftIsProduct(n: nat, e: real)
    ensures Drift(n, e) == n as real * e
  {
    if n > 0 {
      DriftIsProduct(n - 1, e);
    }
  }

  /**
   * The epsilon-tolerant comparison may let a chain of near-ties drift
   * down: the pick's gain is within n * epsilon of every eligible gain
   * among the first n positions.
   */
  lemma {:induction false} ScanNearMaximal(cands: seq<Candidate>, cfg: Config, t: real, picks: seq<nat>,
                                           s: UtilityState, n: nat, i: nat)
    requires Resolved(cfg) && ValidPicks(cands, picks) && n <= |cands| && 0.0 <= cfg.epsilon
    requires i < n && Eligible(cands, cfg, t, picks, i)
    ensures var p := Scan(cands, cfg, t, picks, s, n);
            p.Best? && GainOf(s, cands[i]) <= p.gain + n as real * cfg.epsilon
  {
    ScanDrift(cands, cfg, t, picks, s, n, i);
    DriftIsProduct(n, cfg.epsilon);
  }

  /** ScanNearMaximal with the tolerance accumulated one step at a time. */
  lemma {:induction false} ScanDrift(cands: seq<Candidate>, cfg: Config, t: real, picks: seq<nat>,
                                     s: UtilityState, n: nat, i: nat)
    requires Resolved(cfg) && ValidPicks(cands, picks) && n <= |cands| && 0.0 <= cfg.epsilon
    requires i < n && Eligible(cands, cfg, t, picks, i)
    ensures var p := Scan(cands, cfg, t, picks, s, n);
            p.Best? && GainOf(s, cands[i]) <= p.gain + Drift(n, cfg.epsilon)
  {
    ScanStepBounds(cands, cfg, t, picks, s, n);
    DriftNonNegative(n - 1, cfg.epsilon);
    if i < n - 1 {
      ScanDrift(cands, cfg, t, picks, s, n - 1, i);
    }
  }

  lemma {:induction false} DriftNonNegative(n: nat, e: real)
    requires 0.0 <= e
    ensures 0.0 <= Drift(n, e)
  {
    if n > 0 {
      DriftNonNegative(n - 1, e);
    }
  }

  /**
   * Candidates in input order with tie-break key equal to their position
   * (the unseeded configuration).
   */
  predicate PositionOrdered(cands: seq<Candidate>)
  {
    forall i :: 0 <= i < |cands| ==> cands[i].index == i && cands[i].tieBreak == i
  }

  /**
   * With position-ordered candidates a later position never wins a near-tie,
   * so there is no drift: the pick is within epsilon of every eligible gain.
   */
  lemma {:induction false} ScanWithinEpsilon(cands: seq<Candidate>, cfg: Config, t: real, picks: seq<nat>,
                                             s: UtilityState, n: nat, i: nat)
    requires Resolved(cfg) && ValidPicks(cands, picks) && n <= |cands| && 0.0 <= cfg.epsilon
    requires PositionOrdered(cands)
    requires i < n && Eligible(cands, cfg, t, picks, i)
    ensures var p := Scan(cands, cfg, t, picks, s, n);
            p.Best? && GainOf(s, cands[i]) <= p.gain + cfg.epsilon
  {
    ScanStepBounds(cands, cfg, t, picks, s, n);
    var prev := Scan(cands, cfg, t, picks, s, n - 1);
    if i < n - 1 {
      ScanWithinEpsilon(cands, cfg, t, picks, s, n - 1, i);
      assert cands[n - 1].tieBreak == n - 1 && cands[prev.idx].tieBreak == prev.idx;
    }
  }

  /** A distinct sequence of positions below n has at most n elements. */
  lemma {:induction false} DistinctBelow(picks: seq<nat>, n: nat)
    requires Distinct(picks)
    requires forall k :: 0 <= k < |picks| ==> picks[k] < n
    ensures |picks| <= n
    decreases n
  {
    if picks != [] {
      assert picks[0] < n;
      var rest := Without(picks, n - 1);
      DistinctBelow(rest, n - 1);
    }
  }

  /** The sequence without the value v, for a distinct sequence. */
  function Without(picks: seq<nat>, v: nat): (r: seq<nat>)
    requires Distinct(picks)
    ensures Distinct(r) && |r| >= |picks| - 1
    ensures forall k :: 0 <= k < |r| ==> r[k] != v && r[k] in picks
  {
    if picks == [] then []
    else if picks[0] == v then
      assert forall k :: 0 <= k < |picks[1..]| ==> picks[1..][k] != v;
      picks[1..]
    else
      var tail := Without(picks[1..], v);
      assert forall k :: 0 <= k < |tail| ==> tail[k] in picks[1..];
      [picks[0]] + tail
  }

  /** The invariant a greedy run keeps. */
  predicate GreedyInvariant(cands: seq<Candidate>, cfg: Config, t: real, picks: seq<nat>)
    requires Resolved(cfg)
  {
    ValidPicks(cands, picks) && Distinct(picks) && Separated(cands, cfg.distance.value, t, picks)
  }

  /** One round: a positive-gain pick keeps the invariant and lengthens the picks by one. */
  lemma GreedyStep(cands: seq<Candidate>, cfg: Config, t: real, picks: seq<nat>, s: UtilityState)
    requires Resolved(cfg) && GreedyInvariant(cands, cfg, t, picks)
    requires Scan(cands, cfg, t, picks, s, |cands|).Best?
    ensures var p := Scan(cands, cfg, t, picks, s, |cands|);
            GreedyInvariant(cands, cfg, t, picks + [p.idx])
  {
    var p := Scan(cands, cfg, t, picks, s, |cands|);
    ScanChoice(cands, cfg, t, picks, s, |cands|);
    var next := picks + [p.idx];
    assert Eligible(cands, cfg, t, picks, p.idx);
    var sel := Selected(cands, picks);
    if t > 0.0 {
      forall a, b | 0 <= a < b < |next|
        ensures !(cfg.distance.value(cands[next[b]].entry, cands[next[a]].entry) < t)
      {
        if b == |picks| {
          assert sel[a] == cands[picks[a]];
        }
      }
    }
  }

  /**
   * The run from an invariant-respecting partial selection: the picks only
   * grow, keep the invariant and stay within K (unless already past it).
   */
  lemma {:induction false} GreedyFromKeeps(cands: seq<Candidate>, cfg: Config, t: real, picks: seq<nat>,
                                           s: UtilityState)
    requires Resolved(cfg) && GreedyInvariant(cands, cfg, t, picks)
    ensures var r := GreedyFrom(cands, cfg, t, picks, s);
            && GreedyInvariant(cands, cfg, t, r.0)
            && |picks| <= |r.0| && r.0[..|picks|] == picks
            && (|r.0| <= cfg.k || r.0 == picks)
    decreases cfg.k - |picks|
  {
    if |picks| < cfg.k {
      var p := Scan(cands, cfg, t, picks, s, |cands|);
      if p.Best? && p.gain > 0.0 {
        GreedyStep(cands, cfg, t, picks, s);
        var next := picks + [p.idx];
        GreedyFromKeeps(cands, cfg, t, next, AddTo(s, cands[p.idx]));
        var r := GreedyFrom(cands, cfg, t, next, AddTo(s, cands[p.idx]));
        assert r.0[..|picks|] == r.0[..|next|][..|picks|];
      }
    }
  }

  /** A run keeps the picks it starts from as a prefix. */
  lemma {:induction false} GreedyFromPrefix(cands: seq<Candidate>, cfg: Config, t: real, picks: seq<nat>,
                                            s: UtilityState)
    requires Resolved(cfg) && ValidPicks(cands, picks)
    ensures var r := GreedyFrom(cands, cfg, t, picks, s);
            |picks| <= |r.0| && r.0[..|picks|] == picks
    decreases cfg.k - |picks|
  {
    if |picks| < cfg.k {
      var p := Scan(cands, cfg, t, picks, s, |cands|);
      if p.Best? && p.gain > 0.0 {
        var next := picks + [p.idx];
        GreedyFromPrefix(cands, cfg, t, next, AddTo(s, cands[p.idx]));
        var r := GreedyFrom(cands, cfg, t, next, AddTo(s, cands[p.idx]));
        assert r.0[..|picks|] == r.0[..|next|][..|picks|];
      }
    }
  }

  /** Replayed from s in order, every pick had a positive gain when it was added. */
  predicate GainsPositive(s: UtilityState, cands: seq<Candidate>, added: seq<nat>)
    requires ValidPicks(cands, added)
  {
    forall k :: 0 <= k < |added| ==> GainOf(Replay(s, cands, added[..k]), cands[added[k]]) > 0.0
  }

  /** A first pick with a positive gain, followed by picks with positive gains from the state after it. */
  lemma GainsPositiveCons(s: UtilityState, cands: seq<Candidate>, added: seq<nat>)
    requires ValidPicks(cands, added) && added != []
    requires GainOf(s, cands[added[0]]) > 0.0
    requires GainsPositive(AddTo(s, cands[added[0]]), cands, added[1..])
    ensures GainsPositive(s, cands, added)
  {
    forall k | 0 <= k < |added|
      ensures GainOf(Replay(s, cands, added[..k]), cands[added[k]]) > 0.0
    {
      if k > 0 {
        ReplayCons(s, cands, added[..k]);
        assert added[..k][1..] == added[1..][..k - 1];
        assert added[k] == added[1..][k - 1];
      }
    }
  }

  /**
   * The final state of a run is the replay of the picks it added, and every
   * added pick had a positive gain when it was taken: the value never falls,
   * and rises when anything was added.
   */
  lemma {:induction false} GreedyFromReplays(cands: seq<Candidate>, cfg: Config, t: real, picks: seq<nat>,
                                             s: UtilityState)
    requires Resolved(cfg) && ValidPicks(cands, picks)
    ensures var r := GreedyFrom(cands, cfg, t, picks, s);
            && |picks| <= |r.0|
            && r.1 == Replay(s, cands, r.0[|picks|..])
            && GainsPositive(s, cands, r.0[|picks|..])
            && s.value <= r.1.value
            && (|r.0| > |picks| ==> r.1.value > s.value)
    decreases cfg.k - |picks|
  {
    GreedyFromPrefix(cands, cfg, t, picks, s);
    var r := GreedyFrom(cands, cfg, t, picks, s);
    if |picks| < cfg.k {
      var p := Scan(cands, cfg, t, picks, s, |cands|);
      if p.Best? && p.gain > 0.0 {
        ScanChoice(cands, cfg, t, picks, s, |cands|);
        var next := picks + [p.idx];
        var s' := AddTo(s, cands[p.idx]);
        assert r == GreedyFrom(cands, cfg, t, next, s');
        assert s'.value == s.value + p.gain;
        GreedyFromReplays(cands, cfg, t, next, s');
        GreedyFromPrefix(cands, cfg, t, next, s');
        SuffixAfter(r.0, picks, p.idx);
        ReplayCons(s, cands, r.0[|picks|..]);
        GainsPositiveCons(s, cands, r.0[|picks|..]);
      } else {
        assert r.0[|picks|..] == [];
      }
    } else {
      assert r.0[|picks|..] == [];
    }
  }

  /** What follows a prefix picks + [x] starts with x, then what follows picks + [x]. */
  lemma SuffixAfter(r: seq<nat>, picks: seq<nat>, x: nat)
    requires |picks| + 1 <= |r| && r[..|picks| + 1] == picks + [x]
    ensures var added := r[|picks|..]; added != [] && added[0] == x && added[1..] == r[|picks| + 1..]
  {
    assert r[|picks|] == (picks + [x])[|picks|];
  }

  /** Replaying a non-empty list adds its head first. */
  lemma {:induction false} ReplayCons(s: UtilityState, cands: seq<Candidate>, picks: seq<nat>)
    requires ValidPicks(cands, picks) && picks != []
    ensures Replay(s, cands, picks) == Replay(AddTo(s, cands[picks[0]]), cands, picks[1..])
    decreases |picks|
  {
    if |picks| > 1 {
      ReplayCons(s, cands, picks[..|picks| - 1]);
      assert picks[..|picks| - 1][1..] == picks[1..][..|picks[1..]| - 1];
    }
  }

  /**
   * A whole greedy run: distinct picks, at most K of them and at most one per
   * candidate, threshold-separated, the final state the replay of the picks
   * from a fresh tracker, each pick with a positive gain when it was taken,
   * and a positive final value when anything was picked.
   */
  lemma GreedyPicksSpec(cands: seq<Candidate>, cfg: Config, t: real)
    requires Resolved(cfg)
    ensures var r := GreedyPicks(cands, cfg, t);
            && Distinct(r.0)
            && Separated(cands, cfg.distance.value, t, r.0)
            && (|r.0| <= cfg.k || r.0 == [])
    ensures var r := GreedyPicks(cands, cfg, t);
            && |r.0| <= |cands|
            && r.1 == Replay(Fresh(cfg.utility.value), cands, r.0)
            && GainsPositive(Fresh(cfg.utility.value), cands, r.0)
            && (r.0 != [] ==> r.1.value > 0.0)
  {
    var r := GreedyPicks(cands, cfg, t);
    GreedyFromKeeps(cands, cfg, t, [], Fresh(cfg.utility.value));
    GreedyFromReplays(cands, cfg, t, [], Fresh(cfg.utility.value));
    assert r.0[0..] == r.0;
    DistinctBelow(r.0, |cands|);
  }

  /**
   * A run that stops short of K stops because the scan finds no eligible
   * candidate or only a non-positive best gain; it is a fixpoint of the
   * outer loop.
   */
  lemma {:induction false} GreedyFromStops(cands: seq<Candidate>, cfg: Config, t: real, picks: seq<nat>,
                                           s: UtilityState)
    requires Resolved(cfg) && ValidPicks(cands, picks)
    ensures var r := GreedyFrom(cands, cfg, t, picks, s);
            |r.0| < cfg.k ==>
              var p := Scan(cands, cfg, t, r.0, r.1, |cands|);
              p.NoPick? || p.gain <= 0.0
    ensures var r := GreedyFrom(cands, cfg, t, picks, s);
            GreedyFrom(cands, cfg, t, r.0, r.1) == r
    decreases cfg.k - |picks|
  {
    if |picks| < cfg.k {
      var p := Scan(cands, cfg, t, picks, s, |cands|);
      if !(p.NoPick? || p.gain <= 0.0) {
        GreedyFromStops(cands, cfg, t, picks + [p.idx], AddTo(s, cands[p.idx]));
      }
    }
  }

  /**
   * A run that stops short of K with no pick in its last scan is maximal:
   * every unpicked candidate is within the threshold of some selected one.
   */
  lemma GreedyMaximal(cands: seq<Candidate>, cfg: Config, t: real, i: nat)
    requires Resolved(cfg) && i < |cands|
    requires var r := GreedyPicks(cands, cfg, t);
             |r.0| < cfg.k && Scan(cands, cfg, t, r.0, r.1, |cands|).NoPick?
    ensures var r := GreedyPicks(cands, cfg, t);
            i in r.0 || !MeetsThreshold(cands[i], Selected(cands, r.0), cfg.distance.value, t)
  {
    var r := GreedyPicks(cands, cfg, t);
    ScanChoice(cands, cfg, t, r.0, r.1, |cands|);
    assert !Eligible(cands, cfg, t, r.0, i);
  }
}
