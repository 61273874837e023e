/**
 * Normalised Levenshtein distances between entries. Lengths and comparisons
 * are over runes (`char`), never over bytes.
 */
module Distance {
  import opened GistTypes

  /** The largest value of Go's `int` on a 64-bit platform (math.MaxInt). */
  const MaxInt: int := 0x7fff_ffff_ffff_ffff

  /** The substitution cost of the dynamic programme. */
  function Cost(x: char, y: char): nat
  {
    if x == y then 0 else 1
  }

  function Min3(x: int, y: int, z: int): (m: int)
    ensures m <= x && m <= y && m <= z
    ensures m == x || m == y || m == z
  {
    if x <= y && x <= z then x else if y <= z then y else z
  }

  /**
   * The edit distance: the least number of rune insertions, deletions and
   * substitutions that turn `a` into `b`, by the Wagner-Fischer recurrence
   * on the last runes of both strings.
   */
  function EditDistance(a: string, b: string): nat
    decreases |a| + |b|
  {
    if |a| == 0 then |b|
    else if |b| == 0 then |a|
    else Min3(EditDistance(a[..|a| - 1], b) + 1,
              EditDistance(a, b[..|b| - 1]) + 1,
              EditDistance(a[..|a| - 1], b[..|b| - 1]) + Cost(a[|a| - 1], b[|b| - 1]))
  }

  /** The edit distance does not depend on the order of its arguments. */
  lemma {:induction false} EditDistanceSymmetric(a: string, b: string)
    ensures EditDistance(a, b) == EditDistance(b, a)
    decreases |a| + |b|
  {
    if |a| > 0 && |b| > 0 {
      EditDistanceSymmetric(a[..|a| - 1], b);
      EditDistanceSymmetric(a, b[..|b| - 1]);
      EditDistanceSymmetric(a[..|a| - 1], b[..|b| - 1]);
    }
  }

  /** The edit distance is 0 exactly when the two strings are equal. */
  lemma {:induction false} EditDistanceZeroIff(a: string, b: string)
    ensures EditDistance(a, b) == 0 <==> a == b
    decreases |a| + |b|
  {
    if |a| > 0 && |b| > 0 {
      EditDistanceZeroIff(a[..|a| - 1], b[..|b| - 1]);
      if a == b {
        assert a[..|a| - 1] == b[..|b| - 1];
      }
    }
  }

  /** The edit distance never exceeds the longer of the two lengths. */
  lemma {:induction false} EditDistanceBound(a: string, b: string)
    ensures EditDistance(a, b) <= if |a| < |b| then |b| else |a|
    decreases |a| + |b|
  {
    if |a| > 0 && |b| > 0 {
      EditDistanceBound(a[..|a| - 1], b[..|b| - 1]);
    }
  }

  /** One step of the recurrence, stated on prefixes of fixed strings. */
  lemma EditDistancePrefixStep(a: string, b: string, i: nat, j: nat)
    requires 0 < i <= |a| && 0 < j <= |b|
    ensures EditDistance(a[..i], b[..j]) ==
      Min3(EditDistance(a[..i - 1], b[..j]) + 1,
           EditDistance(a[..i], b[..j - 1]) + 1,
           EditDistance(a[..i - 1], b[..j - 1]) + Cost(a[i - 1], b[j - 1]))
  {
    assert a[..i][..i - 1] == a[..i - 1];
    assert b[..j][..j - 1] == b[..j - 1];
  }

  /**
   * A cell of the dynamic programme: the minimum of the three neighbour
   * cells, each below MaxInt, is the edit distance of the two prefixes.
   */
  lemma CellIsEditDistance(a: string, b: string, i: nat, j: nat,
                           left: int, up: int, diag: int, cost: int, values: seq<int>, m: int)
    requires 0 < i <= |a| < MaxInt && 0 < j <= |b| < MaxInt
    requires left == EditDistance(a[..i], b[..j - 1])
    requires up == EditDistance(a[..i - 1], b[..j])
    requires diag == EditDistance(a[..i - 1], b[..j - 1])
    requires cost == Cost(a[i - 1], b[j - 1])
    requires values == [left + 1, up + 1, diag + cost]
    requires m <= MaxInt && forall v :: v in values ==> m <= v
    requires m == MaxInt || m in values
    ensures m == EditDistance(a[..i], b[..j])
  {
    assert values[0] in values && values[1] in values && values[2] in values;
    EditDistanceBound(a[..i - 1], b[..j - 1]);
    EditDistancePrefixStep(a, b, i, j);
  }

  /**
   * Go's variadic minimum: starts from MaxInt and keeps any strictly
   * smaller value.
   */
  method MinInt(values: seq<int>) returns (m: int)
    ensures m <= MaxInt
    ensures forall v :: v in values ==> m <= v
    ensures m == MaxInt || m in values
  {
    m := MaxInt;
    for k := 0 to |values|
      invariant m <= MaxInt
      invariant forall v :: v in values[..k] ==> m <= v
      invariant m == MaxInt || m in values[..k]
    {
      if values[k] < m {
        m := values[k];
      }
      assert values[..k + 1] == values[..k] + [values[k]];
    }
    assert values[..|values|] == values;
  }

  function Max(x: int, y: int): (m: int)
    ensures m >= x && m >= y && (m == x || m == y)
  {
    if x > y then x else y
  }

  /**
   * The two-row dynamic programme. The longer string is put first; the
   * rows are arrays of length |b| + 1 and the current row is copied over
   * the previous one after each step. The lengths are Go `int`s.
   */
  method Levenshtein(a: string, b: string) returns (d: int)
    requires |a| < MaxInt && |b| < MaxInt
    ensures d == EditDistance(a, b)
    decreases if |a| < |b| then 1 else 0
  {
    if |a| == 0 {
      return |b|;
    }
    if |b| == 0 {
      return |a|;
    }
    if |a| < |b| {
      d := Levenshtein(b, a);
      EditDistanceSymmetric(b, a);
      return;
    }

    var previous := new int[|b| + 1];
    var current := new int[|b| + 1];
    for j := 0 to |b| + 1
      invariant forall k :: 0 <= k < j ==> previous[k] == EditDistance(a[..0], b[..k])
    {
      previous[j] := j;
    }

    for i := 1 to |a| + 1
      invariant forall k :: 0 <= k <= |b| ==> previous[k] == EditDistance(a[..i - 1], b[..k])
    {
      NextRow(a, b, i, previous, current);
      forall k | 0 <= k < previous.Length {
        previous[k] := current[k];
      }
    }
    assert a[..|a|] == a && b[..|b|] == b;
    return previous[|b|];
  }

  /** One row of the dynamic programme: row i from row i - 1. */
  method NextRow(a: string, b: string, i: nat, previous: array<int>, current: array<int>)
    requires 1 <= i <= |a| && |a| < MaxInt && |b| < MaxInt
    requires previous.Length == |b| + 1 && current.Length == |b| + 1 && previous != current
    requires forall k :: 0 <= k <= |b| ==> previous[k] == EditDistance(a[..i - 1], b[..k])
    modifies current
    ensures forall k :: 0 <= k <= |b| ==> current[k] == EditDistance(a[..i], b[..k])
  {
    current[0] := i;
    for j := 1 to |b| + 1
      invariant forall k :: 0 <= k < j ==> current[k] == EditDistance(a[..i], b[..k])
    {
      var cost := 0;
      if a[i - 1] != b[j - 1] {
        cost := 1;
      }
      var values := [current[j - 1] + 1, previous[j] + 1, previous[j - 1] + cost];
      var m := MinInt(values);
      CellIsEditDistance(a, b, i, j, current[j - 1], previous[j], previous[j - 1], cost, values, m);
      current[j] := m;
    }
  }

  /**
   * The edit distance divided by the longer rune length; 0 for equal
   * strings and for two empty strings.
   */
  function NormalizedLevenshtein(left: string, right: string): (r: real)
    ensures 0.0 <= r <= 1.0
    ensures r == 0.0 <==> left == right
  {
    if left == right then 0.0
    else
      var maxLen := Max(|left|, |right|);
      if maxLen == 0 then 0.0
      else
        EditDistanceBound(left, right);
        EditDistanceZeroIff(left, right);
        RatioInUnitInterval(EditDistance(left, right), maxLen);
        EditDistance(left, right) as real / maxLen as real
  }

  /** A count divided by a positive bound it does not exceed lies in [0, 1],
      and is 0 only for a zero count. */
  lemma RatioInUnitInterval(x: nat, y: nat)
    requires 0 < y && x <= y
    ensures 0.0 <= x as real / y as real <= 1.0
    ensures x as real / y as real == 0.0 <==> x == 0
  {
    var q := x as real / y as real;
    assert q * y as real == x as real;
  }

  /** The normalised distance does not depend on the order of its arguments. */
  lemma NormalizedLevenshteinSymmetric(left: string, right: string)
    ensures NormalizedLevenshtein(left, right) == NormalizedLevenshtein(right, left)
  {
    EditDistanceSymmetric(left, right);
  }

  /** The joint comparison key `Word|IPA`. */
  function JointKey(e: Entry): string
  {
    e.word + "|" + e.ipa
  }

  /** The default distance: normalised Levenshtein over `Word|IPA`. */
  function DefaultDistance(a: Entry, b: Entry): (r: real)
    ensures 0.0 <= r <= 1.0
    ensures r == 0.0 <==> JointKey(a) == JointKey(b)
  {
    NormalizedLevenshtein(JointKey(a), JointKey(b))
  }

  /** Normalised Levenshtein over words only. */
  function WordLevenshtein(a: Entry, b: Entry): (r: real)
    ensures 0.0 <= r <= 1.0
    ensures r == 0.0 <==> a.word == b.word
  {
    NormalizedLevenshtein(a.word, b.word)
  }

  /** Normalised Levenshtein over pronunciations only. */
  function IPALevenshtein(a: Entry, b: Entry): (r: real)
    ensures 0.0 <= r <= 1.0
    ensures r == 0.0 <==> a.ipa == b.ipa
  {
    NormalizedLevenshtein(a.ipa, b.ipa)
  }

  /** Normalised Levenshtein over `Word|IPA`. */
  function JointLevenshtein(a: Entry, b: Entry): (r: real)
    ensures 0.0 <= r <= 1.0
    ensures r == 0.0 <==> JointKey(a) == JointKey(b)
  {
    NormalizedLevenshtein(JointKey(a), JointKey(b))
  }

  /** The word distance ignores pronunciations and the IPA distance ignores
      words; all four are symmetric. */
  lemma DistanceFieldsAndSymmetry(a: Entry, b: Entry, a': Entry, b': Entry)
    ensures a.word == a'.word && b.word == b'.word ==> WordLevenshtein(a, b) == WordLevenshtein(a', b')
    ensures a.ipa == a'.ipa && b.ipa == b'.ipa ==> IPALevenshtein(a, b) == IPALevenshtein(a', b')
    ensures WordLevenshtein(a, b) == WordLevenshtein(b, a)
    ensures IPALevenshtein(a, b) == IPALevenshtein(b, a)
    ensures JointLevenshtein(a, b) == JointLevenshtein(b, a)
    ensures DefaultDistance(a, b) == JointLevenshtein(a, b)
  {
    NormalizedLevenshteinSymmetric(a.word, b.word);
    NormalizedLevenshteinSymmetric(a.ipa, b.ipa);
    NormalizedLevenshteinSymmetric(JointKey(a), JointKey(b));
  }

  /** Every distance of the library keeps the [0, +inf) contract. */
  lemma LibraryDistancesNonNegative()
    ensures NonNegativeDistance(DefaultDistance) && NonNegativeDistance(WordLevenshtein)
    ensures NonNegativeDistance(IPALevenshtein) && NonNegativeDistance(JointLevenshtein)
  {
  }
}
