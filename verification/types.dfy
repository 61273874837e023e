/**
 * The data model of the GIST selector: dictionary entries, candidates,
 * the selection configuration and the selection result.
 *
 * Floating-point numbers are modelled as `real`; strings are sequences of
 * runes (`seq<char>`).
 */
module GistTypes {
  import opened Wrappers

  /** One dictionary row: a word, its pronunciation and opaque metadata. */
  datatype Entry = Entry(word: string, ipa: string, extra: string)

  /**
   * A distance between two entries. Every distance of the library lies in
   * [0, +inf) and larger means more diverse.
   */
  type DistanceFunc = (Entry, Entry) -> real

  /** Holds when a distance function keeps the library-wide contract. */
  ghost predicate NonNegativeDistance(d: DistanceFunc)
  {
    forall a, b :: 0.0 <= d(a, b)
  }

  /** One weighted feature of a candidate's coverage set. */
  datatype Feature = Feature(key: string, weight: real)

  /** No key occurs twice. */
  predicate DistinctKeys(fs: seq<Feature>)
  {
    forall i, j :: 0 <= i < j < |fs| ==> fs[i].key != fs[j].key
  }

  /**
   * A feature map: keys to weights. The map is kept as an association list
   * in insertion order; its keys are distinct, as in a map.
   */
  type FeatureMap = fs: seq<Feature> | DistinctKeys(fs) witness []

  /** The set of keys of a feature map. */
  function Keys(fs: seq<Feature>): set<string>
  {
    set i | 0 <= i < |fs| :: fs[i].key
  }

  /** The two utilities this model covers: the coverage utility of the
      library, and the unit-count utility of the library's tests. Go's
      Utility interface is open; other implementations are not modelled. */
  datatype UtilityKind = CoverageUtility | CountUtility

  /** An entry with its ordering keys and its cached coverage features. */
  datatype Candidate = Candidate(entry: Entry, index: int, tieBreak: int, features: FeatureMap)

  /**
   * Selection settings. `distance` and `utility` are None when the caller
   * left them unset (nil); defaults are filled in by `WithDefaults`.
   */
  datatype Config = Config(
    k: int,
    lambda: real,
    epsilon: real,
    thresholds: seq<real>,
    seed: int,
    distance: Option<DistanceFunc>,
    utility: Option<UtilityKind>,
    maxThresholdPairs: int,
    nGramMin: int,
    nGramMax: int,
    wordFeatureWeight: real,
    ipaFeatureWeight: real)

  /** The selected entries and the components of their score. */
  datatype SelectResult = SelectResult(
    entries: seq<Entry>,
    utility: real,
    minDistance: real,
    threshold: real,
    score: real)

  /** The zero result: no entries and every number 0. */
  function EmptyResult(): (r: SelectResult)
    ensures r.entries == [] && r.utility == 0.0 && r.minDistance == 0.0
    ensures r.threshold == 0.0 && r.score == 0.0
  {
    SelectResult([], 0.0, 0.0, 0.0, 0.0)
  }

  /** math.Abs on reals. */
  function Abs(x: real): real
  {
    if x < 0.0 then -x else x
  }
}
