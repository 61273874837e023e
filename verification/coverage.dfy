/**
 * The coverage utility: a monotone submodular objective over weighted
 * character n-gram features, and the extraction of those features.
 */
module Coverage {
  import opened GistTypes

  /** Every feature weight is non-negative. */
  predicate NonNegativeWeights(fs: seq<Feature>)
  {
    forall i :: 0 <= i < |fs| ==> 0.0 <= fs[i].weight
  }

  /** The sum of the weights of the features whose key is not covered. */
  function UncoveredWeight(fs: seq<Feature>, covered: set<string>): real
  {
    if fs == [] then 0.0
    else
      var last := fs[|fs| - 1];
      UncoveredWeight(fs[..|fs| - 1], covered) + (if last.key in covered then 0.0 else last.weight)
  }

  /** A marginal gain is never negative when the weights are not. */
  lemma {:induction false} UncoveredWeightNonNegative(fs: seq<Feature>, covered: set<string>)
    requires NonNegativeWeights(fs)
    ensures 0.0 <= UncoveredWeight(fs, covered)
  {
    if fs != [] {
      UncoveredWeightNonNegative(fs[..|fs| - 1], covered);
    }
  }

  /** Nothing is gained from features that are all covered already. */
  lemma {:induction false} UncoveredWeightOfCovered(fs: seq<Feature>, covered: set<string>)
    requires Keys(fs) <= covered
    ensures UncoveredWeight(fs, covered) == 0.0
  {
    if fs != [] {
      assert fs[|fs| - 1].key in Keys(fs);
      assert Keys(fs[..|fs| - 1]) <= Keys(fs);
      UncoveredWeightOfCovered(fs[..|fs| - 1], covered);
    }
  }

  /**
   * Diminishing returns: the gain of a candidate with respect to a larger
   * covered set is at most its gain with respect to a smaller one.
   */
  lemma {:induction false} DiminishingReturns(fs: seq<Feature>, small: set<string>, large: set<string>)
    requires NonNegativeWeights(fs)
    requires small <= large
    ensures UncoveredWeight(fs, large) <= UncoveredWeight(fs, small)
  {
    if fs != [] {
      DiminishingReturns(fs[..|fs| - 1], small, large);
    }
  }

  /** The keys of a one-longer prefix. */
  lemma KeysOfPrefix(fs: seq<Feature>, k: nat)
    requires k < |fs|
    ensures Keys(fs[..k + 1]) == Keys(fs[..k]) + {fs[k].key}
  {
    assert fs[..k + 1][k] == fs[k];
  }

  /** The state of the coverage utility: the covered keys and the value. */
  class CoverageState {
    var covered: set<string>
    var value: real

    /** A fresh state: nothing covered, value 0. */
    constructor Init()
      ensures covered == {} && value == 0.0
    {
      covered := {};
      value := 0.0;
    }

    /** The summed weight of the candidate's features not yet covered. */
    method Gain(c: Candidate) returns (g: real)
      ensures g == UncoveredWeight(c.features, covered)
    {
      var fs := c.features;
      g := 0.0;
      for k := 0 to |fs|
        invariant g == UncoveredWeight(fs[..k], covered)
      {
        assert fs[..k + 1][..k] == fs[..k];
        if fs[k].key !in covered {
          g := g + fs[k].weight;
        }
      }
      assert fs[..|fs|] == fs;
    }

    /**
     * Covers the candidate's features. The value rises by exactly the gain
     * measured just before, because the keys of a feature map are distinct.
     */
    method Add(c: Candidate)
      modifies this
      ensures covered == old(covered) + Keys(c.features)
      ensures value == old(value) + UncoveredWeight(c.features, old(covered))
    {
      var fs := c.features;
      ghost var covered0 := covered;
      ghost var value0 := value;
      for k := 0 to |fs|
        invariant covered == covered0 + Keys(fs[..k])
        invariant value == value0 + UncoveredWeight(fs[..k], covered0)
      {
        assert fs[..k + 1][..k] == fs[..k];
        KeysOfPrefix(fs, k);
        assert fs[k].key !in Keys(fs[..k]);
        if fs[k].key !in covered {
          covered := covered + {fs[k].key};
          value := value + fs[k].weight;
        }
      }
      assert fs[..|fs|] == fs;
    }

    function Value(): real
      reads this
    {
      value
    }
  }

  // ---------------------------------------------------------------------
  // Feature extraction
  // ---------------------------------------------------------------------

  lemma KeysAppend(fs: seq<Feature>, f: Feature)
    ensures Keys(fs + [f]) == Keys(fs) + {f.key}
  {
    assert (fs + [f])[|fs|] == f;
    forall k | k in Keys(fs) ensures k in Keys(fs + [f]) {
      var i :| 0 <= i < |fs| && fs[i].key == k;
      assert (fs + [f])[i] == fs[i];
    }
  }

  /** Inserts a key with a weight unless the key is present already. */
  function Insert(fs: FeatureMap, key: string, w: real): (r: FeatureMap)
    ensures Keys(r) == Keys(fs) + {key}
    ensures Extends(fs, r, w)
  {
    if key in Keys(fs) then fs
    else
      KeysAppend(fs, Feature(key, w));
      assert (fs + [Feature(key, w)])[..|fs|] == fs;
      fs + [Feature(key, w)]
  }

  /** `r` keeps `fs` as its prefix and every entry it adds has weight `w`. */
  predicate Extends(fs: seq<Feature>, r: seq<Feature>, w: real)
  {
    |fs| <= |r| && r[..|fs|] == fs && forall j :: |fs| <= j < |r| ==> r[j].weight == w
  }

  /** The number of windows of length n in a text of the given length. */
  function WindowCount(len: nat, n: nat): nat
  {
    if n > len then 0 else len - n + 1
  }

  /** The key of the window of n runes at position i, tagged with prefix. */
  function Window(prefix: string, text: string, i: nat, n: nat): string
    requires i + n <= |text|
  {
    prefix + text[i..i + n]
  }

  /** The window keys of length n at the first `count` positions. */
  function WindowKeys(prefix: string, text: string, n: nat, count: nat): set<string>
    requires count <= WindowCount(|text|, n)
  {
    set i | 0 <= i < count :: Window(prefix, text, i, n)
  }

  /** The window keys of every length n with lo <= n < hi. */
  function LengthKeys(prefix: string, text: string, lo: nat, hi: nat): set<string>
  {
    set n: nat, i: nat | lo <= n < hi && i <= |text| - n :: Window(prefix, text, i, n)
  }

  /** Inserts the windows of length n at positions 0 .. count-1, in order. */
  function InsertWindows(fs: FeatureMap, prefix: string, text: string, n: nat, count: nat, w: real): FeatureMap
    requires count <= WindowCount(|text|, n)
  {
    if count == 0 then fs
    else Insert(InsertWindows(fs, prefix, text, n, count - 1, w), Window(prefix, text, count - 1, n), w)
  }

  /** Inserts the windows of every length lo <= n < hi, shortest first. */
  function InsertLengths(fs: FeatureMap, prefix: string, text: string, lo: nat, hi: nat, w: real): FeatureMap
    decreases hi
  {
    if hi <= lo then fs
    else
      InsertWindows(InsertLengths(fs, prefix, text, lo, hi - 1, w), prefix, text, hi - 1,
                    WindowCount(|text|, hi - 1), w)
  }

  /** The n-gram bounds after clamping: minN at least 1, maxN at least minN. */
  function ClampedMin(minN: int): nat
  {
    if minN < 1 then 1 else minN
  }

  function ClampedMax(minN: int, maxN: int): nat
  {
    if maxN < ClampedMin(minN) then ClampedMin(minN) else maxN
  }

  /** What `addNGrams` leaves in the feature map. */
  function NGramFeatures(fs: FeatureMap, prefix: string, text: string, minN: int, maxN: int, w: real): FeatureMap
  {
    if |text| == 0 then fs
    else InsertLengths(fs, prefix, text, ClampedMin(minN), ClampedMax(minN, maxN) + 1, w)
  }

  lemma ExtendsTransitive(a: seq<Feature>, b: seq<Feature>, c: seq<Feature>, w: real)
    requires Extends(a, b, w) && Extends(b, c, w)
    ensures Extends(a, c, w)
  {
    assert c[..|b|][..|a|] == c[..|a|];
  }

  lemma WindowKeysStep(prefix: string, text: string, n: nat, count: nat)
    requires 0 < count <= WindowCount(|text|, n)
    ensures WindowKeys(prefix, text, n, count) ==
            WindowKeys(prefix, text, n, count - 1) + {Window(prefix, text, count - 1, n)}
  {
  }

  lemma {:induction false} InsertWindowsKeys(fs: FeatureMap, prefix: string, text: string, n: nat, count: nat, w: real)
    requires count <= WindowCount(|text|, n)
    ensures Keys(InsertWindows(fs, prefix, text, n, count, w)) == Keys(fs) + WindowKeys(prefix, text, n, count)
  {
    if count == 0 {
      assert WindowKeys(prefix, text, n, count) == {};
    } else {
      InsertWindowsKeys(fs, prefix, text, n, count - 1, w);
      WindowKeysStep(prefix, text, n, count);
    }
  }

  lemma {:induction false} InsertWindowsExtends(fs: FeatureMap, prefix: string, text: string, n: nat, count: nat, w: real)
    requires count <= WindowCount(|text|, n)
    ensures Extends(fs, InsertWindows(fs, prefix, text, n, count, w), w)
  {
    if count == 0 {
      assert fs[..|fs|] == fs;
    } else {
      InsertWindowsExtends(fs, prefix, text, n, count - 1, w);
      var before := InsertWindows(fs, prefix, text, n, count - 1, w);
      ExtendsTransitive(fs, before, InsertWindows(fs, prefix, text, n, count, w), w);
    }
  }

  /** The window keys of every length lo <= n < hi, as the union built one length at a time. */
  function LengthKeysUpTo(prefix: string, text: string, lo: nat, hi: nat): set<string>
    decreases hi
  {
    if hi <= lo then {}
    else LengthKeysUpTo(prefix, text, lo, hi - 1) + WindowKeys(prefix, text, hi - 1, WindowCount(|text|, hi - 1))
  }

  lemma {:induction false} InsertLengthsKeys(fs: FeatureMap, prefix: string, text: string, lo: nat, hi: nat, w: real)
    ensures Keys(InsertLengths(fs, prefix, text, lo, hi, w)) == Keys(fs) + LengthKeysUpTo(prefix, text, lo, hi)
    decreases hi
  {
    if hi > lo {
      var before := InsertLengths(fs, prefix, text, lo, hi - 1, w);
      var after := InsertLengths(fs, prefix, text, lo, hi, w);
      var windows := WindowKeys(prefix, text, hi - 1, WindowCount(|text|, hi - 1));
      assert Keys(before) == Keys(fs) + LengthKeysUpTo(prefix, text, lo, hi - 1) by {
        InsertLengthsKeys(fs, prefix, text, lo, hi - 1, w);
      }
      assert Keys(after) == Keys(before) + windows by {
        assert after == InsertWindows(before, prefix, text, hi - 1, WindowCount(|text|, hi - 1), w);
        InsertWindowsKeys(before, prefix, text, hi - 1, WindowCount(|text|, hi - 1), w);
      }
      UnionRegroup(Keys(after), Keys(before), Keys(fs), LengthKeysUpTo(prefix, text, lo, hi - 1),
                   windows, LengthKeysUpTo(prefix, text, lo, hi));
    }
  }

  /** Regrouping of unions, kept apart so the set comprehensions stay folded. */
  lemma UnionRegroup<T>(all: set<T>, before: set<T>, base: set<T>, earlier: set<T>, last: set<T>, joined: set<T>)
    requires all == before + last && before == base + earlier && joined == earlier + last
    ensures all == base + joined
  {
  }

  lemma {:induction false} LengthKeysUpToSpec(prefix: string, text: string, lo: nat, hi: nat)
    ensures LengthKeysUpTo(prefix, text, lo, hi) == LengthKeys(prefix, text, lo, hi)
    decreases hi
  {
    if hi <= lo {
      assert LengthKeys(prefix, text, lo, hi) == {};
    } else {
      LengthKeysUpToSpec(prefix, text, lo, hi - 1);
      LengthKeysStep(prefix, text, lo, hi);
    }
  }

  lemma {:induction false} InsertLengthsExtends(fs: FeatureMap, prefix: string, text: string, lo: nat, hi: nat, w: real)
    ensures Extends(fs, InsertLengths(fs, prefix, text, lo, hi, w), w)
    decreases hi
  {
    if hi <= lo {
      assert fs[..|fs|] == fs;
    } else {
      InsertLengthsExtends(fs, prefix, text, lo, hi - 1, w);
      var before := InsertLengths(fs, prefix, text, lo, hi - 1, w);
      InsertWindowsExtends(before, prefix, text, hi - 1, WindowCount(|text|, hi - 1), w);
      ExtendsTransitive(fs, before, InsertLengths(fs, prefix, text, lo, hi, w), w);
    }
  }

  lemma LengthKeysStep(prefix: string, text: string, lo: nat, hi: nat)
    requires lo < hi
    ensures LengthKeys(prefix, text, lo, hi) ==
            LengthKeys(prefix, text, lo, hi - 1) + WindowKeys(prefix, text, hi - 1, WindowCount(|text|, hi - 1))
  {
    var n := hi - 1;
    forall k | k in WindowKeys(prefix, text, n, WindowCount(|text|, n))
      ensures k in LengthKeys(prefix, text, lo, hi)
    {
      var i :| 0 <= i < WindowCount(|text|, n) && k == Window(prefix, text, i, n);
      assert lo <= n < hi && i <= |text| - n;
    }
    forall k | k in LengthKeys(prefix, text, lo, hi)
      ensures k in LengthKeys(prefix, text, lo, hi - 1) + WindowKeys(prefix, text, n, WindowCount(|text|, n))
    {
      var m: nat, i: nat :| lo <= m < hi && i <= |text| - m && k == Window(prefix, text, i, m);
      if m == n {
        assert i < WindowCount(|text|, n);
      } else {
        assert k in LengthKeys(prefix, text, lo, hi - 1);
      }
    }
  }

  /**
   * `addNGrams` adds, for every length n between the clamped bounds and
   * every window of n runes of a non-empty text, the key `prefix + window`,
   * and nothing else. Keys already present keep their first weight; every
   * new entry carries `w`.
   */
  lemma NGramFeaturesSpec(fs: FeatureMap, prefix: string, text: string, minN: int, maxN: int, w: real)
    ensures Keys(NGramFeatures(fs, prefix, text, minN, maxN, w)) ==
            Keys(fs) + (if |text| == 0 then {} else LengthKeys(prefix, text, ClampedMin(minN), ClampedMax(minN, maxN) + 1))
    ensures Extends(fs, NGramFeatures(fs, prefix, text, minN, maxN, w), w)
    ensures 1 <= ClampedMin(minN) <= ClampedMax(minN, maxN)
  {
    if |text| > 0 {
      InsertLengthsKeys(fs, prefix, text, ClampedMin(minN), ClampedMax(minN, maxN) + 1, w);
      LengthKeysUpToSpec(prefix, text, ClampedMin(minN), ClampedMax(minN, maxN) + 1);
      InsertLengthsExtends(fs, prefix, text, ClampedMin(minN), ClampedMax(minN, maxN) + 1, w);
    } else {
      assert fs[..|fs|] == fs;
    }
  }

  /**
   * Adds the n-gram features of `text`, tagged with `prefix`, to the map.
   * The map is a Go map passed by reference; here the updated map is
   * returned.
   */
  method AddNGrams(features: FeatureMap, prefix: string, text: string, minN: int, maxN: int, w: real)
    returns (out: FeatureMap)
    ensures out == NGramFeatures(features, prefix, text, minN, maxN, w)
  {
    out := features;
    var runes := text;
    if |runes| == 0 {
      return;
    }
    var lo := minN;
    var hi := maxN;
    if lo < 1 {
      lo := 1;
    }
    if hi < lo {
      hi := lo;
    }
    assert lo == ClampedMin(minN) && hi == ClampedMax(minN, maxN);
    for n := lo to hi + 1
      invariant out == InsertLengths(features, prefix, runes, lo, n, w)
    {
      if n > |runes| {
        assert InsertLengths(features, prefix, runes, lo, n + 1, w) == out;
        continue;
      }
      out := AddWindows(out, prefix, runes, n, w);
    }
  }

  /** One pass of addNGrams' inner loop: every window of n runes, left to right. */
  method AddWindows(features: FeatureMap, prefix: string, runes: string, n: nat, w: real)
    returns (out: FeatureMap)
    requires n <= |runes|
    ensures out == InsertWindows(features, prefix, runes, n, WindowCount(|runes|, n), w)
  {
    out := features;
    // i runs over every start with i + n <= |runes|
    for i := 0 to |runes| - n + 1
      invariant out == InsertWindows(features, prefix, runes, n, i, w)
    {
      // a key already present keeps its first weight
      out := Insert(out, Window(prefix, runes, i, n), w);
    }
  }

  /** The features of an entry: word n-grams tagged "w:", then IPA n-grams tagged "i:". */
  function EntryFeatures(e: Entry, cfg: Config): FeatureMap
  {
    var words := NGramFeatures([], "w:", e.word, cfg.nGramMin, cfg.nGramMax, cfg.wordFeatureWeight);
    NGramFeatures(words, "i:", e.ipa, cfg.nGramMin, cfg.nGramMax, cfg.ipaFeatureWeight)
  }

  method ExtractFeatures(c: Candidate, cfg: Config) returns (features: FeatureMap)
    ensures features == EntryFeatures(c.entry, cfg)
  {
    features := [];
    features := AddNGrams(features, "w:", c.entry.word, cfg.nGramMin, cfg.nGramMax, cfg.wordFeatureWeight);
    features := AddNGrams(features, "i:", c.entry.ipa, cfg.nGramMin, cfg.nGramMax, cfg.ipaFeatureWeight);
  }

  /** The keys contributed by one field. */
  function FieldKeys(prefix: string, text: string, cfg: Config): set<string>
  {
    if |text| == 0 then {} else LengthKeys(prefix, text, ClampedMin(cfg.nGramMin), ClampedMax(cfg.nGramMin, cfg.nGramMax) + 1)
  }

  lemma FieldKeysPrefix(prefix: string, text: string, cfg: Config, k: string)
    requires k in FieldKeys(prefix, text, cfg)
    ensures |prefix| <= |k| && k[..|prefix|] == prefix
  {
    var n: nat, i: nat :| i + n <= |text| && k == Window(prefix, text, i, n);
  }

  /**
   * The features of an entry are the word keys, all tagged "w:" and
   * weighted with the word weight, followed by the IPA keys, all tagged
   * "i:" and weighted with the IPA weight; the two fields never share a
   * key. Non-negative field weights give non-negative feature weights.
   */
  lemma EntryFeaturesSpec(e: Entry, cfg: Config)
    ensures var fs := EntryFeatures(e, cfg);
      && Keys(fs) == FieldKeys("w:", e.word, cfg) + FieldKeys("i:", e.ipa, cfg)
      && FieldKeys("w:", e.word, cfg) !! FieldKeys("i:", e.ipa, cfg)
      && (forall j :: 0 <= j < |fs| ==>
            if fs[j].key in FieldKeys("w:", e.word, cfg) then fs[j].weight == cfg.wordFeatureWeight
            else fs[j].weight == cfg.ipaFeatureWeight)
      && (0.0 <= cfg.wordFeatureWeight && 0.0 <= cfg.ipaFeatureWeight ==> NonNegativeWeights(fs))
  {
    var words := NGramFeatures([], "w:", e.word, cfg.nGramMin, cfg.nGramMax, cfg.wordFeatureWeight);
    var fs := EntryFeatures(e, cfg);
    NGramFeaturesSpec([], "w:", e.word, cfg.nGramMin, cfg.nGramMax, cfg.wordFeatureWeight);
    NGramFeaturesSpec(words, "i:", e.ipa, cfg.nGramMin, cfg.nGramMax, cfg.ipaFeatureWeight);
    var wk := FieldKeys("w:", e.word, cfg);
    var ik := FieldKeys("i:", e.ipa, cfg);
    forall k | k in wk && k in ik ensures false {
      FieldKeysPrefix("w:", e.word, cfg, k);
      FieldKeysPrefix("i:", e.ipa, cfg, k);
    }
    forall j | 0 <= j < |fs|
      ensures if fs[j].key in wk then fs[j].weight == cfg.wordFeatureWeight
              else fs[j].weight == cfg.ipaFeatureWeight
    {
      if j < |words| {
        assert fs[j] == words[j];
        assert words[j].key in Keys(words);
      } else {
        assert fs[j].key !in Keys(words);
      }
    }
  }
}
