/**
 * The Utility contract: a stateful tracker with Gain, Add and Value, and the
 * two implementations a configuration can name. Traits are not used: a
 * Tracker holds one state of each implementation and its kind selects which
 * one answers.
 */
module Utility {
  import opened GistTypes
  import opened Coverage
  import opened CountUtility

  /** The abstract state of a tracker. */
  datatype UtilityState =
    | CoverageValue(covered: set<string>, value: real)
    | CountValue(value: real)

  /** The state `Init` creates: nothing covered, value 0. */
  function Fresh(kind: UtilityKind): (s: UtilityState)
    ensures s.value == 0.0
  {
    match kind
    case CoverageUtility => CoverageValue({}, 0.0)
    case CountUtility => CountValue(0.0)
  }

  /** The marginal gain of a candidate in a state. */
  function GainOf(s: UtilityState, c: Candidate): real
  {
    match s
    case CoverageValue(covered, _) => UncoveredWeight(c.features, covered)
    case CountValue(_) => 1.0
  }

  /** The state after adding a candidate. */
  function AddTo(s: UtilityState, c: Candidate): UtilityState
  {
    match s
    case CoverageValue(covered, value) =>
      CoverageValue(covered + Keys(c.features), value + UncoveredWeight(c.features, covered))
    case CountValue(value) => CountValue(value + 1.0)
  }

  /**
   * The Utility contract: with non-negative feature weights a gain is never
   * negative, Add raises Value by exactly the gain measured before it, so
   * Value never decreases; Add keeps the kind of state.
   */
  lemma UtilityMonotone(s: UtilityState, c: Candidate)
    requires NonNegativeWeights(c.features)
    ensures 0.0 <= GainOf(s, c)
    ensures AddTo(s, c).value == s.value + GainOf(s, c)
    ensures s.value <= AddTo(s, c).value
    ensures AddTo(s, c).CoverageValue? == s.CoverageValue?
  {
    if s.CoverageValue? {
      UncoveredWeightNonNegative(c.features, s.covered);
    }
  }

  /**
   * Adding is idempotent for the coverage utility: after Add(c) the gain of c
   * is 0 and a second Add(c) changes nothing; every feature of c is covered.
   */
  lemma CoverageAddIdempotent(s: UtilityState, c: Candidate)
    requires s.CoverageValue?
    ensures Keys(c.features) <= AddTo(s, c).covered
    ensures GainOf(AddTo(s, c), c) == 0.0
    ensures AddTo(AddTo(s, c), c) == AddTo(s, c)
  {
    UncoveredWeightOfCovered(c.features, AddTo(s, c).covered);
  }

  /**
   * Submodularity of the coverage utility: the gain with respect to a
   * superset of covered features is at most the gain with respect to the
   * subset.
   */
  lemma CoverageSubmodular(small: UtilityState, large: UtilityState, c: Candidate)
    requires small.CoverageValue? && large.CoverageValue?
    requires small.covered <= large.covered
    requires NonNegativeWeights(c.features)
    ensures GainOf(large, c) <= GainOf(small, c)
  {
    DiminishingReturns(c.features, small.covered, large.covered);
  }

  /** The unit-count utility gains exactly 1 per addition. */
  lemma CountUtilityContract(s: UtilityState, c: Candidate)
    requires s.CountValue?
    ensures GainOf(s, c) == 1.0 && AddTo(s, c) == CountValue(s.value + 1.0)
  {
  }

  /** A utility tracker created by the utility factory of a configuration. */
  class Tracker {
    const kind: UtilityKind
    const coverage: CoverageState
    const count: CountState

    /** The abstract state of the implementation the kind selects. */
    ghost function State(): UtilityState
      reads coverage, count
    {
      match kind
      case CoverageUtility => CoverageValue(coverage.covered, coverage.value)
      case CountUtility => CountValue(count.value)
    }

    /** `Init` of the utility factory: a fresh state of the given kind. */
    constructor Init(kind: UtilityKind)
      ensures this.kind == kind && State() == Fresh(kind)
      ensures fresh(coverage) && fresh(count)
    {
      this.kind := kind;
      coverage := new CoverageState.Init();
      count := new CountState.Init();
    }

    method Gain(c: Candidate) returns (g: real)
      ensures g == GainOf(State(), c)
    {
      match kind
      case CoverageUtility => g := coverage.Gain(c);
      case CountUtility => g := count.Gain(c);
    }

    method Add(c: Candidate)
      modifies coverage, count
      ensures State() == AddTo(old(State()), c)
    {
      match kind
      case CoverageUtility => coverage.Add(c);
      case CountUtility => count.Add(c);
    }

    function Value(): (v: real)
      reads coverage, count
      ensures v == State().value
    {
      match kind
      case CoverageUtility => coverage.Value()
      case CountUtility => count.Value()
    }
  }
}
