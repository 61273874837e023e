/**
 * The metric-line parser of the metrics extractor: each log line yields
 * records (epoch, metric, value, split, language) from its key/value
 * matches. Regular-expression matching, integer and float parsing happen
 * outside this model: a line arrives as its matches, with the parsed numbers
 * (None where parsing failed).
 */
module MetricsParser {
  import opened Wrappers
  import opened GoStrings

  /** One metric entry extracted from a log line. */
  datatype Record = Record(epoch: int, metric: string, value: real, split: string, language: string)

  /** The epoch pattern's outcome on a line: no match, or the captured digits and their parse. */
  datatype EpochMatch = NoEpoch | EpochText(text: string, parsed: Option<int>)

  /** One key/value match: offset of the whole match, raw key, raw value and its parse. */
  datatype KeyValue = KeyValue(start: int, key: string, valueText: string, value: Option<real>)

  /** One match of the split pattern: its offset and the matched text. */
  datatype SplitMatch = SplitMatch(pos: int, text: string)

  /** A split token: offset and normalised lower-case name. */
  datatype SplitToken = SplitToken(pos: int, token: string)

  /** Everything the patterns find on one line; languageGroups are the language pattern's groups. */
  datatype LineMatches = LineMatches(
    epoch: EpochMatch,
    splits: seq<SplitMatch>,
    pairs: seq<KeyValue>,
    languageGroups: seq<string>)

  /** The split names recognised as key prefixes, in the order they are tried. */
  const SplitNames: seq<string> := ["train", "eval", "validation", "valid", "dev", "test"]

  /** normalizeSplit: the evaluation aliases become "eval"; anything else is kept. */
  function NormalizeSplit(split: string): (r: string)
    ensures r == "eval" <==> split in {"eval", "validation", "valid", "dev", "test"}
    ensures r != "eval" ==> r == split
  {
    if split in {"validation", "valid", "dev", "test"} then "eval" else split
  }

  /** Normalising twice is normalising once. */
  lemma NormalizeSplitIdempotent(split: string)
    ensures NormalizeSplit(NormalizeSplit(split)) == NormalizeSplit(split)
  {
  }

  /** The separators allowed between a split name and the metric name. */
  predicate IsSeparator(c: char)
  {
    c == '_' || c == '-' || c == '.'
  }

  /** The key names split `name`: it is the name itself, or the name and a separator start it. */
  predicate KeyHasSplit(key: string, name: string)
  {
    key == name || HasPrefix(key, name + "_") || HasPrefix(key, name + "-") || HasPrefix(key, name + ".")
  }

  /** The first of `names` that the key names, normalised; "" when none. */
  function SplitFromKeyIn(key: string, names: seq<string>): (r: string)
  {
    if names == [] then ""
    else if KeyHasSplit(key, names[0]) then NormalizeSplit(names[0])
    else SplitFromKeyIn(key, names[1..])
  }

  /** splitFromKey: the split a key's prefix names, normalised; "" when it names none. */
  function SplitFromKey(key: string): (r: string)
    ensures r == "" || r == "train" || r == "eval"
  {
    SplitFromKeyInRange(key, SplitNames);
    SplitFromKeyIn(key, SplitNames)
  }

  /** SplitFromKeyIn returns "" or the normalised form of one of the names. */
  lemma {:induction false} SplitFromKeyInRange(key: string, names: seq<string>)
    ensures SplitFromKeyIn(key, names) == "" || exists i :: 0 <= i < |names| && SplitFromKeyIn(key, names) == NormalizeSplit(names[i])
  {
    if names != [] && !KeyHasSplit(key, names[0]) {
      SplitFromKeyInRange(key, names[1..]);
      if SplitFromKeyIn(key, names) != "" {
        var i :| 0 <= i < |names[1..]| && SplitFromKeyIn(key, names) == NormalizeSplit(names[1..][i]);
        assert names[1..][i] == names[i + 1];
      }
    }
  }

  /** SplitFromKeyIn returns the normalised first name the key names, and "" only when it names none. */
  lemma {:induction false} SplitFromKeyInSpec(key: string, names: seq<string>) returns (i: int)
    ensures -1 <= i < |names|
    ensures i == -1 <==> forall j :: 0 <= j < |names| ==> !KeyHasSplit(key, names[j])
    ensures i >= 0 ==> KeyHasSplit(key, names[i]) && SplitFromKeyIn(key, names) == NormalizeSplit(names[i])
    ensures i >= 0 ==> forall j :: 0 <= j < i ==> !KeyHasSplit(key, names[j])
    ensures i == -1 ==> SplitFromKeyIn(key, names) == ""
  {
    if names == [] {
      i := -1;
    } else if KeyHasSplit(key, names[0]) {
      i := 0;
    } else {
      var k := SplitFromKeyInSpec(key, names[1..]);
      i := if k == -1 then -1 else k + 1;
    }
  }

  /** A key yields no split exactly when it names none of the split names. */
  lemma SplitFromKeySpec(key: string)
    ensures SplitFromKey(key) == "" <==> forall j :: 0 <= j < |SplitNames| ==> !KeyHasSplit(key, SplitNames[j])
    ensures SplitFromKey(key) == "train" <==> KeyHasSplit(key, "train")
  {
    var i := SplitFromKeyInSpec(key, SplitNames);
    if i >= 0 {
      assert NormalizeSplit(SplitNames[i]) != "";
    }
    if KeyHasSplit(key, "train") {
      assert SplitNames[0] == "train";
    }
  }

  /** The key starts with the split name and a separator. */
  predicate HasSplitPrefix(key: string, split: string)
  {
    HasPrefix(key, split + "_") || HasPrefix(key, split + "-") || HasPrefix(key, split + ".")
  }

  /** trimSplitPrefix: drop one leading split name and separator, if present. */
  function TrimSplitPrefix(key: string, split: string): (r: string)
    ensures HasSplitPrefix(key, split) ==>
              |key| == |split| + 1 + |r| && key[..|split|] == split &&
              IsSeparator(key[|split|]) && key[|split| + 1..] == r
    ensures !HasSplitPrefix(key, split) ==> r == key
  {
    if HasPrefix(key, split + "_") then key[|split + "_"|..]
    else if HasPrefix(key, split + "-") then key[|split + "-"|..]
    else if HasPrefix(key, split + ".") then key[|split + "."|..]
    else key
  }

  /** The scan of splitFromPosition: keep the latest token at or before pos; stop at the first after it. */
  function SplitSearch(pos: int, tokens: seq<SplitToken>, selected: string): string
  {
    if tokens == [] || tokens[0].pos > pos then selected
    else SplitSearch(pos, tokens[1..], tokens[0].token)
  }

  /** splitFromPosition: the split token in force at offset pos. */
  function SplitFromPosition(pos: int, tokens: seq<SplitToken>): string
  {
    SplitSearch(pos, tokens, "")
  }

  /** Tokens in offset order, as the split pattern reports them. */
  predicate SortedByPos(tokens: seq<SplitToken>)
  {
    forall a, b :: 0 <= a < b < |tokens| ==> tokens[a].pos <= tokens[b].pos
  }

  /** The scan ends at the first token after pos; i is the last token before that (-1: none). */
  lemma {:induction false} SplitSearchSpec(pos: int, tokens: seq<SplitToken>, selected: string) returns (i: int)
    ensures -1 <= i < |tokens|
    ensures forall j :: 0 <= j <= i ==> tokens[j].pos <= pos
    ensures i + 1 < |tokens| ==> tokens[i + 1].pos > pos
    ensures SplitSearch(pos, tokens, selected) == if i == -1 then selected else tokens[i].token
  {
    if tokens == [] || tokens[0].pos > pos {
      i := -1;
    } else {
      var k := SplitSearchSpec(pos, tokens[1..], tokens[0].token);
      i := k + 1;
    }
  }

  /**
   * On tokens in offset order, splitFromPosition returns the token of the
   * last token at or before pos (index i), or "" when every token is after it.
   */
  lemma SplitFromPositionSpec(pos: int, tokens: seq<SplitToken>) returns (i: int)
    requires SortedByPos(tokens)
    ensures -1 <= i < |tokens|
    ensures i == -1 ==> SplitFromPosition(pos, tokens) == "" && forall j :: 0 <= j < |tokens| ==> tokens[j].pos > pos
    ensures i >= 0 ==> SplitFromPosition(pos, tokens) == tokens[i].token && tokens[i].pos <= pos
    ensures forall j :: i < j < |tokens| ==> tokens[j].pos > pos
  {
    i := SplitSearchSpec(pos, tokens, "");
  }

  /** The token recorded for one split-pattern match. */
  function TokenOf(m: SplitMatch): SplitToken
  {
    SplitToken(m.pos, NormalizeSplit(ToLower(m.text)))
  }

  /** splitTokenPositions: every match lower-cased and normalised, in order. */
  method SplitTokenPositions(matches: seq<SplitMatch>) returns (tokens: seq<SplitToken>)
    ensures |tokens| == |matches|
    ensures forall i :: 0 <= i < |matches| ==>
              tokens[i].pos == matches[i].pos && tokens[i].token == NormalizeSplit(ToLower(matches[i].text))
  {
    tokens := [];
    for i := 0 to |matches|
      invariant |tokens| == i
      invariant forall k :: 0 <= k < i ==> tokens[k] == TokenOf(matches[k])
    {
      tokens := tokens + [SplitToken(matches[i].pos, NormalizeSplit(ToLower(matches[i].text)))];
    }
  }

  /** The cut set trimmed from both ends of a metric name. */
  predicate InCutset(c: char)
  {
    c == '_' || c == '.' || c == '-'
  }

  /** Drop leading cut-set characters. */
  function TrimLeft(s: string): string
  {
    if |s| > 0 && InCutset(s[0]) then TrimLeft(s[1..]) else s
  }

  /** Drop trailing cut-set characters. */
  function TrimRight(s: string): string
  {
    if |s| > 0 && InCutset(s[|s| - 1]) then TrimRight(s[..|s| - 1]) else s
  }

  /** strings.Trim(s, "_.-"). */
  function TrimCutset(s: string): string
  {
    TrimRight(TrimLeft(s))
  }

  /** TrimLeft removes a prefix of cut-set characters and leaves a string not starting with one. */
  lemma {:induction false} TrimLeftSpec(s: string) returns (i: nat)
    ensures i <= |s| && TrimLeft(s) == s[i..]
    ensures forall k :: 0 <= k < i ==> InCutset(s[k])
    ensures i < |s| ==> !InCutset(s[i])
  {
    if |s| > 0 && InCutset(s[0]) {
      var k := TrimLeftSpec(s[1..]);
      i := k + 1;
    } else {
      i := 0;
    }
  }

  /** TrimRight removes a suffix of cut-set characters and leaves a string not ending with one. */
  lemma {:induction false} TrimRightSpec(s: string) returns (j: nat)
    ensures j <= |s| && TrimRight(s) == s[..j]
    ensures forall k :: j <= k < |s| ==> InCutset(s[k])
    ensures j > 0 ==> !InCutset(s[j - 1])
  {
    if |s| > 0 && InCutset(s[|s| - 1]) {
      j := TrimRightSpec(s[..|s| - 1]);
    } else {
      j := |s|;
    }
  }

  /**
   * TrimCutset keeps the infix s[i..j]: everything cut is in the cut set,
   * and what is kept neither starts nor ends with a cut-set character.
   */
  lemma TrimCutsetSpec(s: string) returns (i: nat, j: nat)
    ensures i <= j <= |s| && TrimCutset(s) == s[i..j]
    ensures forall k :: 0 <= k < i || j <= k < |s| ==> InCutset(s[k])
    ensures var r := TrimCutset(s); r != [] ==> !InCutset(r[0]) && !InCutset(r[|r| - 1])
  {
    i := TrimLeftSpec(s);
    var j' := TrimRightSpec(s[i..]);
    j := i + j';
    assert s[i..][..j'] == s[i..j];
  }

  /** extractLanguage: the first non-empty group of the language pattern, lower-cased; "" if none. */
  function ExtractLanguage(groups: seq<string>): (r: string)
    ensures r == "" <==> forall i :: 0 <= i < |groups| ==> groups[i] == ""
    ensures r != "" ==>
              exists i :: 0 <= i < |groups| && r == ToLower(groups[i]) && forall j :: 0 <= j < i ==> groups[j] == ""
  {
    if groups == [] then ""
    else if groups[0] != "" then ToLower(groups[0])
    else ExtractLanguage(groups[1..])
  }

  /** What becomes of one key/value match: dropped, or kept with a metric and split. */
  datatype Resolution = Dropped | Kept(metric: string, split: string)

  /**
   * The metric name read from key[p..]: the part between the cut-set runs
   * at its two ends; an empty part, or one equal to the split, reads as
   * "value".
   */
  ghost predicate MetricFromKey(key: string, p: nat, split: string, metric: string)
  {
    p <= |key| &&
    exists i, j :: p <= i <= j <= |key| &&
      (forall k :: p <= k < i || j <= k < |key| ==> InCutset(key[k])) &&
      (i < j ==> !InCutset(key[i]) && !InCutset(key[j - 1])) &&
      metric == (if i == j || key[i..j] == split then "value" else key[i..j])
  }

  /** Trimming the cut set from key[p..] finds the part MetricFromKey describes. */
  lemma TrimmedInfix(key: string, p: nat, split: string)
    requires p <= |key|
    ensures var m := TrimCutset(key[p..]);
            MetricFromKey(key, p, split, if m == "" || m == split then "value" else m)
  {
    var i, j := TrimCutsetSpec(key[p..]);
    InfixOfSuffix(key, p, i, j);
    InfixWitness(key, p, split, p + i, p + j);
  }

  /** Positions in a suffix key[p..] are positions p + k of the key. */
  lemma InfixOfSuffix(key: string, p: nat, i: nat, j: nat)
    requires p <= |key| && i <= j <= |key| - p
    requires forall k :: 0 <= k < i || j <= k < |key| - p ==> InCutset(key[p..][k])
    requires var m := key[p..][i..j]; m != [] ==> !InCutset(m[0]) && !InCutset(m[|m| - 1])
    ensures key[p..][i..j] == key[p + i..p + j]
    ensures forall k :: p <= k < p + i || p + j <= k < |key| ==> InCutset(key[k])
    ensures i < j ==> !InCutset(key[p + i]) && !InCutset(key[p + j - 1])
  {
    forall k | p <= k < p + i || p + j <= k < |key|
      ensures InCutset(key[k])
    {
      assert key[k] == key[p..][k - p];
    }
  }

  /** The part key[i..j] between cut-set runs is the witness MetricFromKey asks for. */
  lemma InfixWitness(key: string, p: nat, split: string, i: nat, j: nat)
    requires p <= i <= j <= |key|
    requires forall k :: p <= k < i || j <= k < |key| ==> InCutset(key[k])
    requires i < j ==> !InCutset(key[i]) && !InCutset(key[j - 1])
    ensures var m := key[i..j]; MetricFromKey(key, p, split, if m == "" || m == split then "value" else m)
  {
  }

  /**
   * The split and metric of one match: the key's own split prefix wins and is
   * trimmed off; otherwise the split token in force at the match applies.
   * A match with no split is dropped; an empty metric, or one equal to the
   * split, becomes "value".
   */
  function Resolve(kv: KeyValue, tokens: seq<SplitToken>): (r: Resolution)
    ensures r.Dropped? <==> SplitFromKey(ToLower(kv.key)) == "" && SplitFromPosition(kv.start, tokens) == ""
    ensures r.Kept? ==> r.split != "" && NormalizeSplit(r.split) == r.split && r.metric != ""
    ensures r.Kept? && SplitFromKey(ToLower(kv.key)) != "" ==> r.split == SplitFromKey(ToLower(kv.key))
    ensures r.Kept? && SplitFromKey(ToLower(kv.key)) == "" ==> r.split == NormalizeSplit(SplitFromPosition(kv.start, tokens))
    ensures r.Kept? ==> r.metric == "value" || (r.metric != r.split && r.metric == TrimCutset(r.metric))
  {
    var key := ToLower(kv.key);
    var fromKey := SplitFromKey(key);
    var metric := if fromKey != "" then TrimSplitPrefix(key, fromKey) else key;
    var split := if fromKey != "" then fromKey
                 else var s := SplitFromPosition(kv.start, tokens); if s != "" then NormalizeSplit(s) else s;
    if split == "" then Dropped
    else
      var trimmed := TrimCutset(metric);
      TrimTwice(metric);
      Kept(if trimmed == "" || trimmed == split then "value" else trimmed, split)
  }

  /**
   * The metric of a kept match is read from the lower-cased key: after the
   * split prefix and its separator when the key starts with them, between
   * the cut-set runs at both ends, and "value" when that part is empty or
   * names the split.
   */
  lemma ResolveMetric(kv: KeyValue, tokens: seq<SplitToken>)
    ensures var r := Resolve(kv, tokens);
            r.Kept? ==> var key := ToLower(kv.key);
              MetricFromKey(key, if SplitFromKey(key) != "" && HasSplitPrefix(key, r.split) then |r.split| + 1 else 0,
                            r.split, r.metric)
  {
    var r := Resolve(kv, tokens);
    if r.Kept? {
      var key := ToLower(kv.key);
      var fromKey := SplitFromKey(key);
      var metric := if fromKey != "" then TrimSplitPrefix(key, fromKey) else key;
      var p := if fromKey != "" && HasSplitPrefix(key, r.split) then |r.split| + 1 else 0;
      RemainderAfterSplit(key, fromKey, r.split, metric, p);
      var trimmed := TrimCutset(metric);
      MetricOfRemainder(key, p, r.split, metric, if trimmed == "" || trimmed == r.split then "value" else trimmed);
    }
  }

  /** What is left of a key once its own split prefix, if any, is trimmed is a suffix of it. */
  lemma RemainderAfterSplit(key: string, fromKey: string, split: string, metric: string, p: int)
    requires fromKey != "" ==> split == fromKey
    requires metric == if fromKey != "" then TrimSplitPrefix(key, fromKey) else key
    requires p == if fromKey != "" && HasSplitPrefix(key, split) then |split| + 1 else 0
    ensures 0 <= p <= |key| && metric == key[p..]
  {
  }

  /** The metric resolved from the suffix key[p..] is trimmed, differs from the split, and is the part MetricFromKey describes. */
  lemma MetricOfRemainder(key: string, p: nat, split: string, metric: string, name: string)
    requires p <= |key| && metric == key[p..]
    requires name == if TrimCutset(metric) == "" || TrimCutset(metric) == split then "value" else TrimCutset(metric)
    ensures MetricFromKey(key, p, split, name)
  {
    TrimmedInfix(key, p, split);
  }

  /** Trimming is idempotent. */
  lemma TrimTwice(s: string)
    ensures TrimCutset(TrimCutset(s)) == TrimCutset(s)
  {
    var i, j := TrimCutsetSpec(s);
    var r := TrimCutset(s);
    var i', j' := TrimCutsetSpec(r);
    if r != [] {
      assert i' == 0 by {
        assert !InCutset(r[0]);
      }
      assert j' == |r| by {
        assert !InCutset(r[|r| - 1]);
      }
    }
  }

  /** The running state of parseLine's loop over key/value matches. */
  datatype LineState = LineState(records: seq<Record>, epoch: int, epochSet: bool, auto: int, failure: Option<string>)

  /** Every match of a line resolved against the line's split tokens. */
  function Resolutions(pairs: seq<KeyValue>, tokens: seq<SplitToken>): seq<Resolution>
  {
    seq(|pairs|, k requires 0 <= k < |pairs| => Resolve(pairs[k], tokens))
  }

  /**
   * One iteration on a match and its resolution: an unparsable value fails
   * the line; a dropped match adds nothing; the first kept match of a line
   * without an epoch advances the automatic epoch, which every record of the
   * line then shares.
   */
  function PairStep(st: LineState, kv: KeyValue, res: Resolution, language: string): LineState
  {
    if st.failure.Some? then st
    else if kv.value.None? then st.(failure := Some("parse value " + kv.valueText))
    else match res
      case Dropped => st
      case Kept(metric, split) =>
        var auto := if st.epochSet then st.auto else st.auto + 1;
        var epoch := if st.epochSet then st.epoch else auto;
        LineState(st.records + [Record(epoch, metric, kv.value.value, split, language)], epoch, true, auto, None)
  }

  /** The loop state after the first n matches, res[k] being the resolution of pairs[k]. */
  function PairsFold(pairs: seq<KeyValue>, res: seq<Resolution>, n: nat, st: LineState, language: string): LineState
    requires n <= |pairs| == |res|
  {
    if n == 0 then st else PairStep(PairsFold(pairs, res, n - 1, st, language), pairs[n - 1], res[n - 1], language)
  }

  /** The language of a line's records: the configured one, else the one the line names. */
  function LineLanguage(configured: string, m: LineMatches): string
  {
    if configured == "" then ExtractLanguage(m.languageGroups) else configured
  }

  /** The split tokens of a line. */
  function LineTokens(m: LineMatches): seq<SplitToken>
  {
    seq(|m.splits|, i requires 0 <= i < |m.splits| => TokenOf(m.splits[i]))
  }

  /** The epoch a line states (-1 if none) and the automatic epoch after reading it. */
  function EpochOf(auto: int, m: LineMatches): (int, int)
    requires !(m.epoch.EpochText? && m.epoch.parsed.None?)
  {
    if m.epoch.EpochText? then
      var p := m.epoch.parsed.value;
      (p, if p > auto then p else auto)
    else (-1, auto)
  }

  /** parseLine: the line's records (or its error) and the automatic epoch afterwards. */
  function ParseLineSpec(auto: int, configured: string, m: LineMatches): (Result<seq<Record>>, int)
  {
    if m.epoch.EpochText? && m.epoch.parsed.None? then (Err("parse epoch " + m.epoch.text), auto)
    else
      var (epoch, auto1) := EpochOf(auto, m);
      if |m.pairs| == 0 then (Ok([]), auto1)
      else
        var st := PairsFold(m.pairs, Resolutions(m.pairs, LineTokens(m)), |m.pairs|,
                            LineState([], epoch, epoch >= 0, auto1, None), LineLanguage(configured, m));
        if st.failure.Some? then (Err(st.failure.value), st.auto) else (Ok(st.records), st.auto)
  }

  /** Parse: the records of all lines in order, stopping at the first failing line. */
  function ParseSpec(auto: int, configured: string, lines: seq<LineMatches>): (Result<seq<Record>>, int)
  {
    if lines == [] then (Ok([]), auto)
    else
      var (before, auto1) := ParseSpec(auto, configured, lines[..|lines| - 1]);
      if before.Err? then (before, auto1)
      else
        var (line, auto2) := ParseLineSpec(auto1, configured, lines[|lines| - 1]);
        if line.Err? then (line, auto2) else (Ok(before.value + line.value), auto2)
  }

  /** Once a match fails the line, the later matches change nothing. */
  lemma {:induction false} FailureSticks(pairs: seq<KeyValue>, res: seq<Resolution>, k: nat, st: LineState, language: string)
    requires k <= |pairs| == |res| && PairsFold(pairs, res, k, st, language).failure.Some?
    ensures PairsFold(pairs, res, |pairs|, st, language) == PairsFold(pairs, res, k, st, language)
    decreases |pairs| - k
  {
    if k < |pairs| {
      FailureSticks(pairs, res, k + 1, st, language);
    }
  }

  /** Once a line fails, Parse's result and counter are those of the failing prefix. */
  lemma {:induction false} ErrorSticks(auto: int, configured: string, lines: seq<LineMatches>, k: nat)
    requires k <= |lines| && ParseSpec(auto, configured, lines[..k]).0.Err?
    ensures ParseSpec(auto, configured, lines) == ParseSpec(auto, configured, lines[..k])
    decreases |lines| - k
  {
    if k < |lines| {
      assert lines[..k + 1][..k] == lines[..k];
      ErrorSticks(auto, configured, lines, k + 1);
    } else {
      assert lines[..k] == lines;
    }
  }

  /** A resolution that keeps a match names a non-empty normalised split and a non-empty metric. */
  predicate SoundResolution(r: Resolution)
  {
    r.Kept? ==> r.split != "" && NormalizeSplit(r.split) == r.split && r.metric != ""
  }

  /** Every resolution of a line is sound, one per match. */
  lemma ResolutionsSound(pairs: seq<KeyValue>, tokens: seq<SplitToken>)
    ensures var res := Resolutions(pairs, tokens);
            |res| == |pairs| && forall k :: 0 <= k < |res| ==> SoundResolution(res[k])
  {
  }

  /** The records one match with resolution res contributes at epoch e: none if it is dropped. */
  function RecordsOf(kv: KeyValue, res: Resolution, e: int, language: string): seq<Record>
    requires kv.value.Some?
  {
    match res
    case Dropped => []
    case Kept(metric, split) => [Record(e, metric, kv.value.value, split, language)]
  }

  /** Every one of the first n values parsed. */
  predicate AllParsed(pairs: seq<KeyValue>, n: nat)
    requires n <= |pairs|
  {
    forall k :: 0 <= k < n ==> pairs[k].value.Some?
  }

  /** The records of the first n matches, every value parsed, all at epoch e: the kept matches in order. */
  function Emit(pairs: seq<KeyValue>, res: seq<Resolution>, n: nat, e: int, language: string): seq<Record>
    requires n <= |pairs| == |res| && AllParsed(pairs, n)
  {
    if n == 0 then []
    else Emit(pairs, res, n - 1, e, language) + RecordsOf(pairs[n - 1], res[n - 1], e, language)
  }

  /** Records that share epoch e and the language, with a normalised non-empty split and a non-empty metric. */
  predicate WellFormed(rs: seq<Record>, e: int, language: string)
  {
    forall i :: 0 <= i < |rs| ==>
      && rs[i].epoch == e && rs[i].language == language
      && rs[i].split != "" && NormalizeSplit(rs[i].split) == rs[i].split
      && rs[i].metric != ""
  }

  /** The record a kept match contributes: the match's metric, value and split at epoch e. */
  lemma RecordsOfSpec(kv: KeyValue, res: Resolution, e: int, language: string)
    requires kv.value.Some? && SoundResolution(res)
    ensures var rs := RecordsOf(kv, res, e, language);
            && |rs| <= 1
            && (rs == [] <==> res.Dropped?)
            && WellFormed(rs, e, language)
            && forall i :: 0 <= i < |rs| ==> rs[i].value == kv.value.value
  {
  }

  /** Every one of the first n resolutions drops its match. */
  predicate AllDropped(res: seq<Resolution>, n: nat)
    requires n <= |res|
  {
    forall k :: 0 <= k < n ==> res[k].Dropped?
  }

  /**
   * Emitted records are WellFormed, there is at most one per match, and
   * there are none exactly when every match is dropped.
   */
  lemma {:induction false} EmitSpec(pairs: seq<KeyValue>, res: seq<Resolution>, n: nat, e: int, language: string)
    requires n <= |pairs| == |res| && AllParsed(pairs, n)
    requires forall k :: 0 <= k < n ==> SoundResolution(res[k])
    ensures var rs := Emit(pairs, res, n, e, language);
            && |rs| <= n
            && (rs == [] <==> AllDropped(res, n))
            && WellFormed(rs, e, language)
  {
    if n > 0 {
      EmitSpec(pairs, res, n - 1, e, language);
      RecordsOfSpec(pairs[n - 1], res[n - 1], e, language);
      var front := Emit(pairs, res, n - 1, e, language);
      var tail := RecordsOf(pairs[n - 1], res[n - 1], e, language);
      assert WellFormed(front + tail, e, language) by {
        assert forall i :: 0 <= i < |front + tail| ==>
          (front + tail)[i] == if i < |front| then front[i] else tail[i - |front|];
      }
    }
  }

  /** One loop step on a state without failure and a parsed value: it appends the match's records. */
  lemma PairStepSpec(st: LineState, kv: KeyValue, res: Resolution, language: string)
    requires st.failure.None? && kv.value.Some?
    ensures var e := if st.epochSet then st.epoch else st.auto + 1;
            var rs := RecordsOf(kv, res, e, language);
            var next := PairStep(st, kv, res, language);
            && next.failure.None?
            && next.records == st.records + rs
            && next.auto == (if st.epochSet || rs == [] then st.auto else st.auto + 1)
            && next.epochSet == (st.epochSet || rs != [])
            && next.epoch == (if rs == [] then st.epoch else e)
  {
  }

  /**
   * The loop over matches from an empty record list: it fails exactly when a
   * value does not parse; otherwise its records are Emit's at the line's
   * epoch (the stated one, else the counter plus one). The counter advances
   * by one exactly when a line without an epoch keeps a record.
   */
  lemma {:induction false} PairsFoldSpec(pairs: seq<KeyValue>, res: seq<Resolution>, n: nat,
                                         e0: int, set0: bool, u0: int, language: string)
    requires n <= |pairs| == |res|
    ensures var f := PairsFold(pairs, res, n, LineState([], e0, set0, u0, None), language);
            var e := if set0 then e0 else u0 + 1;
            && (f.failure.None? <==> AllParsed(pairs, n))
            && (f.failure.None? ==> f.records == Emit(pairs, res, n, e, language))
            && f.auto == (if set0 || f.records == [] then u0 else u0 + 1)
            && f.epochSet == (set0 || f.records != [])
            && (f.epochSet ==> f.epoch == e)
  {
    var st0 := LineState([], e0, set0, u0, None);
    if n > 0 {
      PairsFoldSpec(pairs, res, n - 1, e0, set0, u0, language);
      var prev := PairsFold(pairs, res, n - 1, st0, language);
      var kv := pairs[n - 1];
      var f := PairStep(prev, kv, res[n - 1], language);
      assert AllParsed(pairs, n) <==> AllParsed(pairs, n - 1) && kv.value.Some?;
      if prev.failure.Some? {
        assert f == prev;
      } else if kv.value.None? {
        assert f == prev.(failure := Some("parse value " + kv.valueText));
      } else {
        var e := if set0 then e0 else u0 + 1;
        assert (if prev.epochSet then prev.epoch else prev.auto + 1) == e;
        PairStepSpec(prev, kv, res[n - 1], language);
        assert Emit(pairs, res, n, e, language) ==
               Emit(pairs, res, n - 1, e, language) + RecordsOf(kv, res[n - 1], e, language);
      }
    }
  }

  /**
   * parseLine's epoch rules: the counter never decreases; an unparsable epoch
   * fails the line and leaves the counter; a stated epoch p raises the
   * counter to max(counter, p) and stamps every record; without one, a line
   * that emits records advances the counter by exactly one and stamps them
   * all with it, and a line that emits nothing leaves it unchanged.
   */
  lemma ParseLineEpochs(auto: int, configured: string, m: LineMatches)
    ensures var (r, auto') := ParseLineSpec(auto, configured, m);
            && auto' >= auto
            && (m.epoch.EpochText? && m.epoch.parsed.None? ==> r.Err? && auto' == auto)
            && (m.epoch.EpochText? && m.epoch.parsed.Some? && m.epoch.parsed.value >= 0 && r.Ok? ==>
                  var p := m.epoch.parsed.value;
                  auto' == (if p > auto then p else auto) && forall i :: 0 <= i < |r.value| ==> r.value[i].epoch == p)
            && (m.epoch.NoEpoch? && r.Ok? && r.value == [] ==> auto' == auto)
            && (m.epoch.NoEpoch? && r.Ok? && r.value != [] ==>
                  auto' == auto + 1 && forall i :: 0 <= i < |r.value| ==> r.value[i].epoch == auto + 1)
  {
    if !(m.epoch.EpochText? && m.epoch.parsed.None?) && |m.pairs| > 0 {
      var (epoch, auto1) := EpochOf(auto, m);
      var res := Resolutions(m.pairs, LineTokens(m));
      var language := LineLanguage(configured, m);
      PairsFoldSpec(m.pairs, res, |m.pairs|, epoch, epoch >= 0, auto1, language);
      var f := PairsFold(m.pairs, res, |m.pairs|, LineState([], epoch, epoch >= 0, auto1, None), language);
      if f.failure.None? {
        ResolutionsSound(m.pairs, LineTokens(m));
        EmitSpec(m.pairs, res, |m.pairs|, if epoch >= 0 then epoch else auto1 + 1, language);
      }
    }
  }

  /**
   * parseLine's records: the line fails exactly when its epoch or one of its
   * values does not parse; otherwise its records are the kept matches in
   * order, with the configured language or else the line's own.
   */
  lemma ParseLineRecords(auto: int, configured: string, m: LineMatches)
    ensures var (r, auto') := ParseLineSpec(auto, configured, m);
            && (r.Err? <==> (m.epoch.EpochText? && m.epoch.parsed.None?) || (|m.pairs| > 0 && !AllParsed(m.pairs, |m.pairs|)))
            && (r.Ok? ==> AllParsed(m.pairs, |m.pairs|))
    ensures var (r, auto') := ParseLineSpec(auto, configured, m);
            r.Ok? && m.pairs != [] ==>
              var (epoch, auto1) := EpochOf(auto, m);
              && AllParsed(m.pairs, |m.pairs|)
              && r.value == Emit(m.pairs, Resolutions(m.pairs, LineTokens(m)), |m.pairs|,
                                 if epoch >= 0 then epoch else auto1 + 1, LineLanguage(configured, m))
    ensures var (r, auto') := ParseLineSpec(auto, configured, m);
            r.Ok? ==> forall i :: 0 <= i < |r.value| ==>
              r.value[i].language == LineLanguage(configured, m) &&
              (configured != "" ==> r.value[i].language == configured)
  {
    if !(m.epoch.EpochText? && m.epoch.parsed.None?) && |m.pairs| > 0 {
      var (epoch, auto1) := EpochOf(auto, m);
      var res := Resolutions(m.pairs, LineTokens(m));
      var language := LineLanguage(configured, m);
      PairsFoldSpec(m.pairs, res, |m.pairs|, epoch, epoch >= 0, auto1, language);
      var f := PairsFold(m.pairs, res, |m.pairs|, LineState([], epoch, epoch >= 0, auto1, None), language);
      if f.failure.None? {
        ResolutionsSound(m.pairs, LineTokens(m));
        EmitSpec(m.pairs, res, |m.pairs|, if epoch >= 0 then epoch else auto1 + 1, language);
      }
    }
  }

  /** Across lines the automatic epoch never decreases. */
  lemma {:induction false} ParseMonotone(auto: int, configured: string, lines: seq<LineMatches>)
    ensures ParseSpec(auto, configured, lines).1 >= auto
  {
    if lines != [] {
      ParseMonotone(auto, configured, lines[..|lines| - 1]);
      var (before, auto1) := ParseSpec(auto, configured, lines[..|lines| - 1]);
      ParseLineEpochs(auto1, configured, lines[|lines| - 1]);
    }
  }

  /** The parser: its language override and the automatic epoch counter it carries across lines. */
  class Parser {
    const language: string
    var autoEpoch: int

    /** NewParser: a fresh counter; "" means each line's own language is used. */
    constructor(language: string)
      ensures this.language == language && autoEpoch == 0
    {
      this.language := language;
      autoEpoch := 0;
    }

    /** parseLine on one line's matches. */
    method ParseLine(m: LineMatches) returns (r: Result<seq<Record>>)
      modifies this
      ensures (r, autoEpoch) == ParseLineSpec(old(autoEpoch), language, m)
    {
      ghost var auto0 := autoEpoch;
      var epoch := -1;
      if m.epoch.EpochText? {
        if m.epoch.parsed.None? {
          return Err("parse epoch " + m.epoch.text);
        }
        var parsed := m.epoch.parsed.value;
        epoch := parsed;
        if parsed > autoEpoch {
          autoEpoch := parsed;
        }
      }
      assert (epoch, autoEpoch) == EpochOf(auto0, m);
      ghost var auto1 := autoEpoch;
      var tokens := SplitTokenPositions(m.splits);
      assert tokens == LineTokens(m);
      if |m.pairs| == 0 {
        return Ok([]);
      }
      var lineLanguage := language;
      if lineLanguage == "" {
        lineLanguage := ExtractLanguage(m.languageGroups);
      }
      var resolutions := Resolutions(m.pairs, tokens);
      var st := CollectRecords(m.pairs, resolutions, lineLanguage, epoch);
      ghost var start := LineState([], epoch, epoch >= 0, auto1, None);
      assert st == PairsFold(m.pairs, resolutions, |m.pairs|, start, lineLanguage);
      r := if st.failure.Some? then Err(st.failure.value) else Ok(st.records);
    }

    /**
     * The loop of parseLine over its key/value matches, res[k] being the
     * resolution of pairs[k], from the line's stated epoch (-1: none);
     * returns the loop's final state (records or failure).
     */
    method CollectRecords(pairs: seq<KeyValue>, res: seq<Resolution>, lineLanguage: string, lineEpoch: int)
      returns (st: LineState)
      requires |res| == |pairs|
      modifies this
      ensures st == PairsFold(pairs, res, |pairs|, LineState([], lineEpoch, lineEpoch >= 0, old(autoEpoch), None), lineLanguage)
      ensures autoEpoch == st.auto
    {
      ghost var start := LineState([], lineEpoch, lineEpoch >= 0, autoEpoch, None);
      var results: seq<Record> := [];
      var epoch := lineEpoch;
      var epochSet := lineEpoch >= 0;
      for i := 0 to |pairs|
        invariant PairsFold(pairs, res, i, start, lineLanguage) ==
                  LineState(results, epoch, epochSet, autoEpoch, None)
      {
        var kv := pairs[i];
        if kv.value.None? {
          st := LineState(results, epoch, epochSet, autoEpoch, Some("parse value " + kv.valueText));
          FailureSticks(pairs, res, i + 1, start, lineLanguage);
          return;
        }
        if res[i].Dropped? {
          continue;
        }
        if !epochSet {
          autoEpoch := autoEpoch + 1;
          epoch := autoEpoch;
          epochSet := true;
        }
        results := results + [Record(epoch, res[i].metric, kv.value.value, res[i].split, lineLanguage)];
      }
      st := LineState(results, epoch, epochSet, autoEpoch, None);
    }

    /** Parse: every line in order, concatenating their records. */
    method Parse(lines: seq<LineMatches>) returns (r: Result<seq<Record>>)
      modifies this
      ensures (r, autoEpoch) == ParseSpec(old(autoEpoch), language, lines)
    {
      ghost var auto0 := autoEpoch;
      var records: seq<Record> := [];
      for i := 0 to |lines|
        invariant ParseSpec(auto0, language, lines[..i]) == (Ok(records), autoEpoch)
      {
        assert lines[..i + 1][..i] == lines[..i];
        var lineRecords := ParseLine(lines[i]);
        if lineRecords.Err? {
          ErrorSticks(auto0, language, lines, i + 1);
          return lineRecords;
        }
        records := records + lineRecords.value;
      }
      assert lines[..|lines|] == lines;
      r := Ok(records);
    }
  }
}
