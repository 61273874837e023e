/**
 * deriveThresholds: the candidate distance thresholds when a configuration
 * lists none. Zero, then the distances of the first pairs (i, j) with
 * i < j in row order, capped at MaxThresholdPairs; sorted ascending and
 * thinned so that consecutive thresholds differ by more than epsilon.
 */
module Thresholds {
  import opened GistTypes

  type Pair = (int, int)

  /** The pairs (i, j), (i, j + 1), ..., (i, n - 1). */
  function RowPairs(i: nat, j: nat, n: nat): seq<Pair>
    decreases n - j
  {
    if j >= n then [] else [(i, j)] + RowPairs(i, j + 1, n)
  }

  /** The pairs of rows i .. n - 1, each row (i, i + 1 .. n - 1). */
  function PairsFrom(i: nat, n: nat): seq<Pair>
    decreases n - i
  {
    if i >= n then [] else RowPairs(i, i + 1, n) + PairsFrom(i + 1, n)
  }

  /** Every pair i < j < n, in the order the nested loops visit them. */
  function AllPairs(n: nat): seq<Pair>
  {
    PairsFrom(0, n)
  }

  /** Lexicographic order on pairs. */
  predicate LexLess(p: Pair, q: Pair)
  {
    p.0 < q.0 || (p.0 == q.0 && p.1 < q.1)
  }

  predicate LexIncreasing(ps: seq<Pair>)
  {
    forall a, b :: 0 <= a < b < |ps| ==> LexLess(ps[a], ps[b])
  }

  lemma {:induction false} RowPairsSpec(i: nat, j: nat, n: nat)
    ensures forall p :: p in RowPairs(i, j, n) <==> p.0 == i && j <= p.1 < n
    ensures LexIncreasing(RowPairs(i, j, n))
    decreases n - j
  {
    if j < n {
      RowPairsSpec(i, j + 1, n);
      var rest := RowPairs(i, j + 1, n);
      assert RowPairs(i, j, n) == [(i, j)] + rest;
      forall a, b | 0 <= a < b < |RowPairs(i, j, n)|
        ensures LexLess(RowPairs(i, j, n)[a], RowPairs(i, j, n)[b])
      {
        if a > 0 {
          assert RowPairs(i, j, n)[a] == rest[a - 1];
        }
        assert RowPairs(i, j, n)[b] == rest[b - 1] && rest[b - 1] in rest;
      }
    }
  }

  /** Concatenating two increasing runs, all of the first below all of the second. */
  lemma ConcatIncreasing(xs: seq<Pair>, ys: seq<Pair>)
    requires LexIncreasing(xs) && LexIncreasing(ys)
    requires forall p, q :: p in xs && q in ys ==> LexLess(p, q)
    ensures LexIncreasing(xs + ys)
  {
    var zs := xs + ys;
    forall a, b | 0 <= a < b < |zs|
      ensures LexLess(zs[a], zs[b])
    {
      if b >= |xs| && a < |xs| {
        assert zs[a] in xs && zs[b] == ys[b - |xs|] && ys[b - |xs|] in ys;
      } else if a >= |xs| {
        assert zs[a] == ys[a - |xs|] && zs[b] == ys[b - |xs|];
      }
    }
  }

  lemma {:induction false} PairsFromSpec(i: nat, n: nat)
    ensures forall p :: p in PairsFrom(i, n) <==> i <= p.0 < p.1 < n
    ensures LexIncreasing(PairsFrom(i, n))
    decreases n - i
  {
    if i < n {
      PairsFromSpec(i + 1, n);
      RowPairsSpec(i, i + 1, n);
      ConcatIncreasing(RowPairs(i, i + 1, n), PairsFrom(i + 1, n));
    }
  }

  /**
   * The pair sequence lists exactly the pairs i < j < n, each once, in
   * lexicographic order.
   */
  lemma AllPairsSpec(n: nat)
    ensures forall p :: p in AllPairs(n) <==> 0 <= p.0 < p.1 < n
    ensures LexIncreasing(AllPairs(n))
  {
    PairsFromSpec(0, n);
  }

  /** With two or more candidates there is at least one pair. */
  lemma AllPairsNonEmpty(n: nat)
    requires 2 <= n
    ensures 1 <= |AllPairs(n)|
  {
    AllPairsSpec(n);
    assert (0, 1) in AllPairs(n);
  }

  /** The distance of a pair of candidate positions (0 for a position out of range, which no listed pair has). */
  function PairDistance(cands: seq<Candidate>, dist: DistanceFunc, p: Pair): real
  {
    if 0 <= p.0 < |cands| && 0 <= p.1 < |cands| then dist(cands[p.0].entry, cands[p.1].entry) else 0.0
  }

  /** The distance of each listed pair of candidates. */
  function PairDistances(cands: seq<Candidate>, dist: DistanceFunc, ps: seq<Pair>): (ds: seq<real>)
  {
    seq(|ps|, k requires 0 <= k < |ps| => PairDistance(cands, dist, ps[k]))
  }

  /** How many pairs are measured: at least one (the cap is checked after a pair), at most all. */
  function PairCap(n: nat, maxPairs: int): nat
  {
    var all := |AllPairs(n)|;
    if maxPairs <= 1 then Min(1, all) else Min(maxPairs, all)
  }

  function Min(x: int, y: int): int
  {
    if x <= y then x else y
  }

  /** Ascending order. */
  predicate SortedReals(s: seq<real>)
  {
    forall a, b :: 0 <= a < b < |s| ==> s[a] <= s[b]
  }

  /** Inserts x before the first element not smaller than it. */
  function InsertReal(x: real, s: seq<real>): seq<real>
  {
    if s == [] || x <= s[0] then [x] + s
    else [s[0]] + InsertReal(x, s[1..])
  }

  /** Insertion adds exactly x and starts with x or the old head. */
  lemma {:induction false} InsertRealCounts(x: real, s: seq<real>)
    ensures multiset(InsertReal(x, s)) == multiset(s) + multiset{x}
    ensures |InsertReal(x, s)| == |s| + 1
    ensures InsertReal(x, s)[0] == x || InsertReal(x, s)[0] == s[0]
  {
    if s != [] && x > s[0] {
      InsertRealCounts(x, s[1..]);
      assert s == [s[0]] + s[1..];
    }
  }

  /** Insertion into an ascending sequence keeps it ascending. */
  lemma {:induction false} InsertRealSorted(x: real, s: seq<real>)
    requires SortedReals(s)
    ensures SortedReals(InsertReal(x, s))
  {
    if s != [] && x > s[0] {
      var tail := InsertReal(x, s[1..]);
      assert SortedReals(s[1..]);
      InsertRealSorted(x, s[1..]);
      InsertRealCounts(x, s[1..]);
      assert tail[0] == x || tail[0] == s[1];
      var r := [s[0]] + tail;
      forall a, b | 0 <= a < b < |r|
        ensures r[a] <= r[b]
      {
        if a == 0 {
          assert r[b] == tail[b - 1] && tail[0] <= tail[b - 1];
        } else {
          assert r[a] == tail[a - 1] && r[b] == tail[b - 1];
        }
      }
    }
  }

  /** sort.Float64s, as an insertion sort: the result is ascending and a permutation. */
  function SortReals(s: seq<real>): (r: seq<real>)
    ensures SortedReals(r)
    ensures multiset(r) == multiset(s)
  {
    if s == [] then []
    else
      var rest := SortReals(s[1..]);
      InsertRealCounts(s[0], rest);
      InsertRealSorted(s[0], rest);
      assert s == [s[0]] + s[1..];
      assert multiset(s) == multiset(s[1..]) + multiset{s[0]};
      InsertReal(s[0], rest)
  }

  /** The kept values: a value is kept when it differs from the last kept one by more than eps. */
  function Dedup(s: seq<real>, eps: real): seq<real>
  {
    if s == [] then []
    else
      var kept := Dedup(s[..|s| - 1], eps);
      var d := s[|s| - 1];
      if |kept| == 0 || Abs(d - kept[|kept| - 1]) > eps then kept + [d] else kept
  }

  /** The thresholds deriveThresholds returns. */
  function DerivedThresholds(cands: seq<Candidate>, dist: DistanceFunc, maxPairs: int, eps: real): seq<real>
  {
    if |cands| < 2 then [0.0]
    else
      var n := |cands|;
      var ps := AllPairs(n)[..PairCap(n, maxPairs)];
      Dedup(SortReals([0.0] + PairDistances(cands, dist, ps)), eps)
  }

  /**
   * deriveThresholds: the nested loops over pairs stop as soon as the pair
   * count reaches the cap (checked after each pair); the distances are then
   * sorted and thinned.
   */
  method DeriveThresholds(cands: seq<Candidate>, cfg: Config) returns (unique: seq<real>)
    requires cfg.distance.Some?
    ensures unique == DerivedThresholds(cands, cfg.distance.value, cfg.maxThresholdPairs, cfg.epsilon)
  {
    if |cands| < 2 {
      return [0.0];
    }
    var distances := MeasurePairs(cands, cfg.distance.value, cfg.maxThresholdPairs);
    var sorted := SortReals(distances);
    unique := DedupScan(sorted, cfg.epsilon);
  }

  /** The nested pair loops of deriveThresholds: zero, then the distances of the first PairCap pairs. */
  method MeasurePairs(cands: seq<Candidate>, dist: DistanceFunc, maxPairs: int) returns (distances: seq<real>)
    requires 2 <= |cands|
    ensures distances == [0.0] + PairDistances(cands, dist, AllPairs(|cands|)[..PairCap(|cands|, maxPairs)])
  {
    var n := |cands|;
    distances := [0.0];
    var pairs := 0;
    ghost var done: seq<Pair> := [];
    ghost var rest := PairsFrom(0, n);
    var i := 0;
    while i < n
      invariant i <= n
      invariant done + rest == AllPairs(n) && rest == PairsFrom(i, n)
      invariant distances == [0.0] + PairDistances(cands, dist, done)
      invariant pairs == |done| && (pairs == 0 || pairs < maxPairs) && (i > 0 ==> pairs > 0)
    {
      distances, pairs, done, rest := MeasureRow(cands, dist, maxPairs, i, distances, pairs, done);
      if pairs >= maxPairs {
        break;
      }
      i := i + 1;
    }
    CapReached(n, maxPairs, done, rest);
  }

  /**
   * The pair count after the loops is the cap: either every pair was
   * measured below the cap, or the count reached the cap on its last pair.
   */
  lemma CapReached(n: nat, maxPairs: int, done: seq<Pair>, rest: seq<Pair>)
    requires done + rest == AllPairs(n) && 0 < |done|
    requires (rest == [] && |done| < maxPairs) ||
             (|done| >= maxPairs && (|done| - 1 == 0 || |done| - 1 < maxPairs))
    ensures |done| == PairCap(n, maxPairs) && done == AllPairs(n)[..PairCap(n, maxPairs)]
  {
    assert done == AllPairs(n)[..|done|];
  }

  /**
   * One row of the pair loops: the pairs (i, i + 1 .. n - 1), stopping as
   * soon as the count reaches the cap.
   */
  method MeasureRow(cands: seq<Candidate>, dist: DistanceFunc, maxPairs: int, i: nat,
                    distances: seq<real>, pairs: nat, ghost done: seq<Pair>)
    returns (distances': seq<real>, pairs': nat, ghost done': seq<Pair>, ghost rest': seq<Pair>)
    requires 2 <= |cands| && i < |cands|
    requires done + PairsFrom(i, |cands|) == AllPairs(|cands|)
    requires distances == [0.0] + PairDistances(cands, dist, done)
    requires pairs == |done| && (pairs == 0 || pairs < maxPairs) && (i > 0 ==> pairs > 0)
    ensures done' + rest' == AllPairs(|cands|)
    ensures distances' == [0.0] + PairDistances(cands, dist, done')
    ensures pairs' == |done'| && 0 < pairs'
    ensures pairs' < maxPairs ==> rest' == PairsFrom(i + 1, |cands|)
    ensures pairs' >= maxPairs ==> pairs' - 1 == 0 || pairs' - 1 < maxPairs
  {
    var n := |cands|;
    distances', pairs', done' := distances, pairs, done;
    rest' := RowPairs(i, i + 1, n) + PairsFrom(i + 1, n);
    assert rest' == PairsFrom(i, n);
    var j := i + 1;
    while j < n
      invariant i + 1 <= j <= n
      invariant done' + rest' == AllPairs(n) && rest' == RowPairs(i, j, n) + PairsFrom(i + 1, n)
      invariant distances' == [0.0] + PairDistances(cands, dist, done')
      invariant pairs' == |done'| && (pairs' == 0 || pairs' < maxPairs) && (i > 0 || j > i + 1 ==> pairs' > 0)
    {
      var d := dist(cands[i].entry, cands[j].entry);
      PairStep(cands, dist, done', rest', i, j, distances');
      distances' := distances' + [d];
      done' := done' + [(i, j)];
      rest' := RowPairs(i, j + 1, n) + PairsFrom(i + 1, n);
      pairs' := pairs' + 1;
      if pairs' >= maxPairs {
        return;
      }
      j := j + 1;
    }
    assert RowPairs(i, j, n) == [];
  }

  /** Measuring pair (i, j) moves it from the pairs still to do to the pairs done. */
  lemma PairStep(cands: seq<Candidate>, dist: DistanceFunc, done: seq<Pair>, rest: seq<Pair>, i: nat, j: nat,
                  distances: seq<real>)
    requires i < j < |cands|
    requires done + rest == AllPairs(|cands|) && rest == RowPairs(i, j, |cands|) + PairsFrom(i + 1, |cands|)
    requires distances == [0.0] + PairDistances(cands, dist, done)
    ensures (done + [(i, j)]) + (RowPairs(i, j + 1, |cands|) + PairsFrom(i + 1, |cands|)) == AllPairs(|cands|)
    ensures distances + [dist(cands[i].entry, cands[j].entry)] == [0.0] + PairDistances(cands, dist, done + [(i, j)])
  {
    var row := RowPairs(i, j + 1, |cands|);
    assert RowPairs(i, j, |cands|) == [(i, j)] + row;
    MoveHead(done, (i, j), row, PairsFrom(i + 1, |cands|), AllPairs(|cands|));
    var d := dist(cands[i].entry, cands[j].entry);
    assert PairDistances(cands, dist, done + [(i, j)]) == PairDistances(cands, dist, done) + [d];
  }

  /** Moving the head of the remainder to the end of the prefix keeps the whole. */
  lemma MoveHead<T>(done: seq<T>, x: T, row: seq<T>, later: seq<T>, all: seq<T>)
    requires done + (([x] + row) + later) == all
    ensures (done + [x]) + (row + later) == all
  {
    assert done + (([x] + row) + later) == (done + [x]) + (row + later);
  }

  /** The thinning loop of deriveThresholds. */
  method DedupScan(sorted: seq<real>, eps: real) returns (unique: seq<real>)
    ensures unique == Dedup(sorted, eps)
  {
    unique := [];
    for k := 0 to |sorted|
      invariant unique == Dedup(sorted[..k], eps)
    {
      var d := sorted[k];
      assert sorted[..k + 1][..k] == sorted[..k];
      if |unique| == 0 || Abs(d - unique[|unique| - 1]) > eps {
        unique := unique + [d];
      }
    }
    assert sorted[..|sorted|] == sorted;
  }

  /** Thinning keeps the first value, keeps only input values and never lengthens. */
  lemma {:induction false} DedupBasics(s: seq<real>, eps: real)
    ensures |Dedup(s, eps)| <= |s|
    ensures s != [] ==> Dedup(s, eps) != [] && Dedup(s, eps)[0] == s[0]
    ensures forall k :: 0 <= k < |Dedup(s, eps)| ==> Dedup(s, eps)[k] in s
  {
    if s != [] {
      var init := s[..|s| - 1];
      DedupBasics(init, eps);
      if init != [] {
        assert init[0] == s[0];
      }
      forall k | 0 <= k < |Dedup(init, eps)|
        ensures Dedup(init, eps)[k] in s
      {
        assert Dedup(init, eps)[k] in init;
      }
    }
  }

  /** Consecutive values differ by more than eps. */
  predicate Spread(s: seq<real>, eps: real)
  {
    forall k :: 0 <= k < |s| - 1 ==> s[k] + eps < s[k + 1]
  }

  /** On ascending input, consecutive kept values differ by more than eps. */
  lemma {:induction false} DedupSpread(s: seq<real>, eps: real)
    requires SortedReals(s)
    ensures Spread(Dedup(s, eps), eps)
    ensures s != [] ==> Dedup(s, eps)[|Dedup(s, eps)| - 1] <= s[|s| - 1]
  {
    if s != [] {
      var init := s[..|s| - 1];
      assert SortedReals(init);
      DedupSpread(init, eps);
      DedupBasics(init, eps);
      var kept := Dedup(init, eps);
      if kept != [] {
        assert kept[|kept| - 1] <= init[|init| - 1] <= s[|s| - 1];
      }
    }
  }

  /**
   * On ascending input with a non-negative eps, every input value lies
   * within eps above some kept value.
   */
  lemma {:induction false} DedupCovers(s: seq<real>, eps: real, v: real)
    requires SortedReals(s) && 0.0 <= eps && v in s
    ensures exists k :: 0 <= k < |Dedup(s, eps)| && Dedup(s, eps)[k] <= v <= Dedup(s, eps)[k] + eps
  {
    var init := s[..|s| - 1];
    var kept := Dedup(init, eps);
    var r := Dedup(s, eps);
    assert SortedReals(init);
    if v in init {
      DedupCovers(init, eps, v);
      var k :| 0 <= k < |kept| && kept[k] <= v <= kept[k] + eps;
      assert r[k] == kept[k];
    } else {
      assert v == s[|s| - 1];
      if kept == [] || Abs(v - kept[|kept| - 1]) > eps {
        assert r[|r| - 1] == v;
      } else {
        DedupSpread(init, eps);
        assert kept[|kept| - 1] <= init[|init| - 1] <= v;
        assert r[|kept| - 1] == kept[|kept| - 1];
      }
    }
  }

  /** Values already spread by more than eps are all kept. */
  lemma {:induction false} DedupKeepsSpread(s: seq<real>, eps: real)
    requires SortedReals(s) && Spread(s, eps)
    ensures Dedup(s, eps) == s
  {
    if s != [] {
      var init := s[..|s| - 1];
      assert SortedReals(init) && Spread(init, eps);
      DedupKeepsSpread(init, eps);
      if init != [] {
        assert init[|init| - 1] + eps < s[|s| - 1];
      }
      assert init + [s[|s| - 1]] == s;
    }
  }

  /** Thinning an ascending sequence twice is thinning it once. */
  lemma DedupIdempotent(s: seq<real>, eps: real)
    requires SortedReals(s)
    ensures Dedup(Dedup(s, eps), eps) == Dedup(s, eps)
  {
    var r := Dedup(s, eps);
    DedupSpread(s, eps);
    DedupSorted(s, eps);
    DedupKeepsSpread(r, eps);
  }

  /** On ascending input the kept values are ascending. */
  lemma {:induction false} DedupSorted(s: seq<real>, eps: real)
    requires SortedReals(s)
    ensures SortedReals(Dedup(s, eps))
  {
    if s != [] {
      var init := s[..|s| - 1];
      assert SortedReals(init);
      DedupSorted(init, eps);
      DedupBasics(init, eps);
      var kept := Dedup(init, eps);
      var r := Dedup(s, eps);
      if r != kept {
        forall a | 0 <= a < |kept|
          ensures kept[a] <= s[|s| - 1]
        {
          assert kept[a] in init;
        }
      }
    }
  }

  /** v is the distance between two different candidates, the first before the second. */
  ghost predicate IsPairDistance(cands: seq<Candidate>, dist: DistanceFunc, v: real)
  {
    exists p: Pair :: 0 <= p.0 < p.1 < |cands| && v == PairDistance(cands, dist, p)
  }

  /** The values the pair loops collect: zero and pair distances only. */
  lemma MeasuredValues(cands: seq<Candidate>, dist: DistanceFunc, maxPairs: int, v: real)
    requires 2 <= |cands|
    requires v in [0.0] + PairDistances(cands, dist, AllPairs(|cands|)[..PairCap(|cands|, maxPairs)])
    ensures v == 0.0 || IsPairDistance(cands, dist, v)
  {
    var ps := AllPairs(|cands|)[..PairCap(|cands|, maxPairs)];
    if v != 0.0 {
      var k :| 0 <= k < |ps| && v == PairDistances(cands, dist, ps)[k];
      AllPairsSpec(|cands|);
      assert ps[k] in AllPairs(|cands|);
    }
  }

  /**
   * The thresholds of deriveThresholds: never empty; just zero for fewer
   * than two candidates; ascending with consecutive thresholds more than
   * epsilon apart; each one zero or the distance of a pair of candidates;
   * and, with non-negative distances, starting at zero.
   */
  lemma DerivedThresholdsSpec(cands: seq<Candidate>, dist: DistanceFunc, maxPairs: int, eps: real)
    ensures var r := DerivedThresholds(cands, dist, maxPairs, eps);
            && r != []
            && (|cands| < 2 ==> r == [0.0])
            && SortedReals(r) && Spread(r, eps)
            && (forall k :: 0 <= k < |r| ==> r[k] == 0.0 || IsPairDistance(cands, dist, r[k]))
            && (NonNegativeDistance(dist) ==> r[0] == 0.0)
  {
    var r := DerivedThresholds(cands, dist, maxPairs, eps);
    if |cands| >= 2 {
      var measured := [0.0] + PairDistances(cands, dist, AllPairs(|cands|)[..PairCap(|cands|, maxPairs)]);
      var sorted := SortReals(measured);
      DedupBasics(sorted, eps);
      DedupSpread(sorted, eps);
      DedupSorted(sorted, eps);
      forall k | 0 <= k < |r|
        ensures r[k] == 0.0 || IsPairDistance(cands, dist, r[k])
      {
        assert r[k] in sorted;
        assert r[k] in multiset(measured);
        MeasuredValues(cands, dist, maxPairs, r[k]);
      }
      if NonNegativeDistance(dist) {
        assert 0.0 in multiset(sorted);
        var z :| 0 <= z < |sorted| && sorted[z] == 0.0;
        assert sorted[0] <= 0.0;
        assert sorted[0] in multiset(measured);
      }
    }
  }

  /**
   * Every measured value, zero included, lies within epsilon above one of
   * the derived thresholds (for a non-negative epsilon).
   */
  lemma DerivedThresholdsCover(cands: seq<Candidate>, dist: DistanceFunc, maxPairs: int, eps: real, v: real)
    requires 2 <= |cands| && 0.0 <= eps
    requires v in [0.0] + PairDistances(cands, dist, AllPairs(|cands|)[..PairCap(|cands|, maxPairs)])
    ensures var r := DerivedThresholds(cands, dist, maxPairs, eps);
            exists k :: 0 <= k < |r| && r[k] <= v <= r[k] + eps
  {
    var measured := [0.0] + PairDistances(cands, dist, AllPairs(|cands|)[..PairCap(|cands|, maxPairs)]);
    var sorted := SortReals(measured);
    assert DerivedThresholds(cands, dist, maxPairs, eps) == Dedup(sorted, eps);
    assert v in multiset(sorted);
    DedupCovers(sorted, eps, v);
  }
}
