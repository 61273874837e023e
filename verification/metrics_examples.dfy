/**
 * The metric parser's test logs, each line given as the matches the
 * default patterns find on it (offsets in bytes from the line start).
 */
module MetricsExamples {
  import opened Wrappers
  import opened GoStrings
  import opened MetricsParser

  /** A key without a split prefix, kept as the metric under the split token in force at its offset. */
  lemma PlainKey(kv: KeyValue, tokens: seq<SplitToken>, split: string)
    requires ToLower(kv.key) == kv.key && SplitFromKey(kv.key) == "" && TrimCutset(kv.key) == kv.key
    requires kv.key != "" && kv.key != split
    requires SplitFromPosition(kv.start, tokens) == split && split != "" && NormalizeSplit(split) == split
    ensures Resolve(kv, tokens) == Kept(kv.key, split)
  {
  }

  /** A key that differs from a split name in its i-th letter does not name that split. */
  lemma LetterDiffers(key: string, name: string, i: nat)
    requires i < |key| && i < |name| && key[i] != name[i]
    ensures !KeyHasSplit(key, name)
  {
    assert forall p :: |p| > i && HasPrefix(key, p) ==> key[i] == p[i];
  }

  /** A key whose first letter starts none of the split names names no split. */
  lemma NoSplitName(key: string)
    requires |key| > 0 && key[0] !in {'t', 'e', 'v', 'd'}
    ensures SplitFromKey(key) == ""
  {
    SplitFromKeySpec(key);
    forall j | 0 <= j < |SplitNames| ensures !KeyHasSplit(key, SplitNames[j]) {
      LetterDiffers(key, SplitNames[j], 0);
    }
  }

  /** "loss" names no split and needs no lower-casing or trimming. */
  lemma LossKey()
    ensures ToLower("loss") == "loss" && SplitFromKey("loss") == "" && TrimCutset("loss") == "loss"
  {
    NoSplitName("loss");
  }

  /** "acc" names no split and needs no lower-casing or trimming. */
  lemma AccKey()
    ensures ToLower("acc") == "acc" && SplitFromKey("acc") == "" && TrimCutset("acc") == "acc"
  {
    NoSplitName("acc");
  }

  /** The split tokens of the test line: "train" at 8 and "eval" at 32. */
  lemma TrainEvalPositions(tokens: seq<SplitToken>)
    requires tokens == [SplitToken(8, "train"), SplitToken(32, "eval")]
    ensures SplitFromPosition(14, tokens) == "train" && SplitFromPosition(24, tokens) == "train"
    ensures SplitFromPosition(37, tokens) == "eval" && SplitFromPosition(46, tokens) == "eval"
  {
    var rest := [SplitToken(32, "eval")];
    assert tokens[1..] == rest && rest[1..] == [];
    assert SplitSearch(14, rest, "train") == "train" && SplitSearch(24, rest, "train") == "train";
    assert SplitSearch(37, rest, "train") == SplitSearch(37, [], "eval") == "eval";
    assert SplitSearch(46, rest, "train") == SplitSearch(46, [], "eval") == "eval";
  }

  /** The split words of a line are already lower-case and normalised. */
  lemma SplitWords()
    ensures TokenOf(SplitMatch(0, "train")).token == "train" && TokenOf(SplitMatch(0, "eval")).token == "eval"
  {
    assert ToLower("train") == "train";
    assert ToLower("eval") == "eval";
  }

  /** "Epoch 3 train loss=0.25 acc=0.9 eval loss=0.5 acc=0.8" */
  function EpochTrainEvalLine(): LineMatches
  {
    LineMatches(
      EpochText("3", Some(3)),
      [SplitMatch(8, "train"), SplitMatch(32, "eval")],
      [KeyValue(14, "loss", "0.25", Some(0.25)), KeyValue(24, "acc", "0.9", Some(0.9)),
       KeyValue(37, "loss", "0.5", Some(0.5)), KeyValue(46, "acc", "0.8", Some(0.8))],
      [])
  }

  /** The line's split tokens. */
  lemma EpochTrainEvalTokens()
    ensures LineTokens(EpochTrainEvalLine()) == [SplitToken(8, "train"), SplitToken(32, "eval")]
  {
    SplitWords();
  }

  /** Each match of the line is kept under the split word before it. */
  lemma EpochTrainEvalResolve(k: nat)
    requires k < 4
    ensures var m := EpochTrainEvalLine();
            Resolve(m.pairs[k], LineTokens(m)) == [Kept("loss", "train"), Kept("acc", "train"), Kept("loss", "eval"), Kept("acc", "eval")][k]
  {
    var m := EpochTrainEvalLine();
    EpochTrainEvalTokens();
    var tokens := LineTokens(m);
    TrainEvalPositions(tokens);
    if k == 0 || k == 2 {
      LossKey();
    } else {
      AccKey();
    }
    PlainKey(m.pairs[k], tokens, if k < 2 then "train" else "eval");
  }

  /** The four matches of the line are kept under the split word before them. */
  lemma EpochTrainEvalResolutions()
    ensures var m := EpochTrainEvalLine();
            Resolutions(m.pairs, LineTokens(m)) ==
            [Kept("loss", "train"), Kept("acc", "train"), Kept("loss", "eval"), Kept("acc", "eval")]
  {
    forall k | 0 <= k < 4
      ensures var m := EpochTrainEvalLine();
              (Resolutions(m.pairs, LineTokens(m))[k] ==
               [Kept("loss", "train"), Kept("acc", "train"), Kept("loss", "eval"), Kept("acc", "eval")][k])
    {
      EpochTrainEvalResolve(k);
    }
  }

  /** The records the line's matches emit at epoch 3. */
  lemma EpochTrainEvalEmit(pairs: seq<KeyValue>, res: seq<Resolution>)
    requires pairs == EpochTrainEvalLine().pairs
    requires res == [Kept("loss", "train"), Kept("acc", "train"), Kept("loss", "eval"), Kept("acc", "eval")]
    ensures AllParsed(pairs, 4)
    ensures Emit(pairs, res, 4, 3, "") ==
            [Record(3, "loss", 0.25, "train", ""), Record(3, "acc", 0.9, "train", ""),
             Record(3, "loss", 0.5, "eval", ""), Record(3, "acc", 0.8, "eval", "")]
  {
    assert pairs[0].value == Some(0.25) && pairs[1].value == Some(0.9);
    assert pairs[2].value == Some(0.5) && pairs[3].value == Some(0.8);
    assert Emit(pairs, res, 1, 3, "") == [Record(3, "loss", 0.25, "train", "")];
    assert Emit(pairs, res, 2, 3, "") == [Record(3, "loss", 0.25, "train", ""), Record(3, "acc", 0.9, "train", "")];
    assert Emit(pairs, res, 3, 3, "") == [Record(3, "loss", 0.25, "train", ""), Record(3, "acc", 0.9, "train", ""),
                                         Record(3, "loss", 0.5, "eval", "")];
  }

  /** A key with a split prefix keeps the rest of the key as its metric, under that split. */
  lemma PrefixedKey(kv: KeyValue, tokens: seq<SplitToken>, split: string, metric: string)
    requires ToLower(kv.key) == kv.key && SplitFromKey(kv.key) == split && split != ""
    requires TrimSplitPrefix(kv.key, split) == metric && TrimCutset(metric) == metric
    requires metric != "" && metric != split
    ensures Resolve(kv, tokens) == Kept(metric, split)
  {
  }

  /** A single line parses as that line. */
  lemma ParseOneLine(auto: int, configured: string, m: LineMatches)
    ensures ParseSpec(auto, configured, [m]) == ParseLineSpec(auto, configured, m)
  {
    assert [m][..0] == [];
    var (line, auto') := ParseLineSpec(auto, configured, m);
    if line.Ok? {
      assert [] + line.value == line.value;
    }
  }

  /** A line stating epoch p >= 0, naming no language, whose matches all parse, yields its records at epoch p. */
  lemma ParseStatedEpoch(m: LineMatches, p: int, res: seq<Resolution>, records: seq<Record>)
    requires m.epoch.EpochText? && m.epoch.parsed == Some(p) && p >= 0 && m.languageGroups == [] && m.pairs != []
    requires res == Resolutions(m.pairs, LineTokens(m)) && AllParsed(m.pairs, |m.pairs|)
    requires records == Emit(m.pairs, res, |m.pairs|, p, "")
    ensures ParseSpec(0, "", [m]) == (Ok(records), p)
  {
    ParseOneLine(0, "", m);
    ParseLineRecords(0, "", m);
    ParseLineEpochs(0, "", m);
  }

  /** The stated epoch 3 stamps all four records; keys after "train" and "eval" take those splits. */
  lemma ParserEpochTrainEvalLine()
    ensures ParseSpec(0, "", [EpochTrainEvalLine()]) ==
            (Ok([Record(3, "loss", 0.25, "train", ""), Record(3, "acc", 0.9, "train", ""),
                 Record(3, "loss", 0.5, "eval", ""), Record(3, "acc", 0.8, "eval", "")]), 3)
  {
    var m := EpochTrainEvalLine();
    var res := Resolutions(m.pairs, LineTokens(m));
    EpochTrainEvalResolutions();
    EpochTrainEvalEmit(m.pairs, res);
    ParseStatedEpoch(m, 3, res, Emit(m.pairs, res, 4, 3, ""));
  }

  /** A line with no epoch naming no language, whose matches all parse and emit something, takes the next automatic epoch. */
  lemma ParseAutoLine(auto: int, m: LineMatches, res: seq<Resolution>, records: seq<Record>)
    requires m.epoch == NoEpoch && m.languageGroups == [] && m.pairs != []
    requires res == Resolutions(m.pairs, LineTokens(m)) && AllParsed(m.pairs, |m.pairs|)
    requires records == Emit(m.pairs, res, |m.pairs|, auto + 1, "") && records != []
    ensures ParseLineSpec(auto, "", m) == (Ok(records), auto + 1)
  {
    assert EpochOf(auto, m) == (-1, auto) && LineLanguage("", m) == "";
    PairsFoldSpec(m.pairs, res, |m.pairs|, -1, false, auto, "");
  }

  /** "train loss=<a> eval loss=<b>", with no epoch. */
  function TrainEvalLine(aText: string, a: real, bText: string, b: real): LineMatches
  {
    LineMatches(NoEpoch, [SplitMatch(0, "train"), SplitMatch(15, "eval")],
                [KeyValue(6, "loss", aText, Some(a)), KeyValue(20, "loss", bText, Some(b))], [])
  }

  /** Both losses of such a line are kept, under "train" and "eval". */
  lemma TrainEvalResolutions(aText: string, a: real, bText: string, b: real)
    ensures var m := TrainEvalLine(aText, a, bText, b);
            Resolutions(m.pairs, LineTokens(m)) == [Kept("loss", "train"), Kept("loss", "eval")]
  {
    var m := TrainEvalLine(aText, a, bText, b);
    SplitWords();
    var tokens := LineTokens(m);
    assert tokens == [SplitToken(0, "train"), SplitToken(15, "eval")];
    var rest := [SplitToken(15, "eval")];
    assert tokens[1..] == rest && rest[1..] == [];
    assert SplitSearch(6, rest, "train") == "train";
    assert SplitSearch(20, rest, "train") == SplitSearch(20, [], "eval") == "eval";
    LossKey();
    PlainKey(m.pairs[0], tokens, "train");
    PlainKey(m.pairs[1], tokens, "eval");
  }

  /** The records such a line emits at epoch e. */
  lemma TrainEvalEmit(pairs: seq<KeyValue>, res: seq<Resolution>, e: int, a: real, b: real)
    requires |pairs| == 2 && pairs[0].value == Some(a) && pairs[1].value == Some(b)
    requires res == [Kept("loss", "train"), Kept("loss", "eval")]
    ensures AllParsed(pairs, 2)
    ensures Emit(pairs, res, 2, e, "") == [Record(e, "loss", a, "train", ""), Record(e, "loss", b, "eval", "")]
  {
    assert Emit(pairs, res, 1, e, "") == [Record(e, "loss", a, "train", "")];
  }

  /** Two lines parse as the first followed by the second, started where the first left the automatic epoch. */
  lemma ParseTwoLines(auto: int, configured: string, l1: LineMatches, l2: LineMatches)
    ensures var (r1, auto1) := ParseLineSpec(auto, configured, l1);
            var (r2, auto2) := ParseLineSpec(auto1, configured, l2);
            r1.Ok? && r2.Ok? ==> ParseSpec(auto, configured, [l1, l2]) == (Ok(r1.value + r2.value), auto2)
  {
    assert [l1, l2][..1] == [l1];
    ParseOneLine(auto, configured, l1);
  }

  /** Such a line parsed after automatic epoch e: its two records at epoch e + 1, and e + 1 afterwards. */
  lemma ParseTrainEvalLine(e: int, aText: string, a: real, bText: string, b: real)
    ensures ParseLineSpec(e, "", TrainEvalLine(aText, a, bText, b)) ==
            (Ok([Record(e + 1, "loss", a, "train", ""), Record(e + 1, "loss", b, "eval", "")]), e + 1)
  {
    var m := TrainEvalLine(aText, a, bText, b);
    var res := Resolutions(m.pairs, LineTokens(m));
    TrainEvalResolutions(aText, a, bText, b);
    TrainEvalEmit(m.pairs, res, e + 1, a, b);
    ParseAutoLine(e, m, res, Emit(m.pairs, res, 2, e + 1, ""));
  }

  /**
   * Two lines without epochs, "train loss=<a> eval loss=<b>" and
   * "train loss=<c> eval loss=<d>" (the test log uses 1.2, 1.0, 0.9, 0.7):
   * automatic epochs 1 and 2, two records each.
   */
  lemma ParserAutoEpochFallback(aText: string, a: real, bText: string, b: real,
                                cText: string, c: real, dText: string, d: real)
    ensures ParseSpec(0, "", [TrainEvalLine(aText, a, bText, b), TrainEvalLine(cText, c, dText, d)]) ==
            (Ok([Record(1, "loss", a, "train", ""), Record(1, "loss", b, "eval", ""),
                 Record(2, "loss", c, "train", ""), Record(2, "loss", d, "eval", "")]), 2)
  {
    var l1 := TrainEvalLine(aText, a, bText, b);
    var l2 := TrainEvalLine(cText, c, dText, d);
    ParseTwoLines(0, "", l1, l2);
    ParseTrainEvalLine(0, aText, a, bText, b);
    ParseTrainEvalLine(1, cText, c, dText, d);
    assert [Record(1, "loss", a, "train", ""), Record(1, "loss", b, "eval", "")] +
           [Record(2, "loss", c, "train", ""), Record(2, "loss", d, "eval", "")] ==
           [Record(1, "loss", a, "train", ""), Record(1, "loss", b, "eval", ""),
            Record(2, "loss", c, "train", ""), Record(2, "loss", d, "eval", "")];
  }

  /** "epoch=5 train_acc=0.87 eval_acc=0.81": no split word stands alone, so the line has no split tokens. */
  function SplitPrefixLine(): LineMatches
  {
    LineMatches(EpochText("5", Some(5)), [],
                [KeyValue(0, "epoch", "5", Some(5.0)), KeyValue(8, "train_acc", "0.87", Some(0.87)),
                 KeyValue(23, "eval_acc", "0.81", Some(0.81))], [])
  }

  /** "epoch" names no split and stands under none: it is dropped. */
  lemma EpochKeyDropped(tokens: seq<SplitToken>)
    requires tokens == []
    ensures Resolve(KeyValue(0, "epoch", "5", Some(5.0)), tokens) == Dropped
  {
    assert ToLower("epoch") == "epoch";
    SplitFromKeySpec("epoch");
    forall j | 0 <= j < |SplitNames| ensures !KeyHasSplit("epoch", SplitNames[j]) {
      LetterDiffers("epoch", SplitNames[j], if j == 1 then 1 else 0);
    }
  }

  /** "train_acc" names the train split; its metric is "acc". */
  lemma TrainAccKey(tokens: seq<SplitToken>)
    ensures Resolve(KeyValue(8, "train_acc", "0.87", Some(0.87)), tokens) == Kept("acc", "train")
  {
    assert ToLower("train_acc") == "train_acc";
    assert HasPrefix("train_acc", "train" + "_");
    SplitFromKeySpec("train_acc");
    assert TrimSplitPrefix("train_acc", "train") == "acc";
    assert TrimCutset("acc") == "acc";
    PrefixedKey(KeyValue(8, "train_acc", "0.87", Some(0.87)), tokens, "train", "acc");
  }

  /** "eval_acc" names the eval split; its metric is "acc". */
  lemma EvalAccKey(tokens: seq<SplitToken>)
    ensures Resolve(KeyValue(23, "eval_acc", "0.81", Some(0.81)), tokens) == Kept("acc", "eval")
  {
    var key := "eval_acc";
    assert ToLower(key) == key;
    LetterDiffers(key, "train", 0);
    assert HasPrefix(key, "eval" + "_");
    assert SplitNames[1..][0] == "eval";
    assert SplitFromKeyIn(key, SplitNames) == SplitFromKeyIn(key, SplitNames[1..]) == "eval";
    assert TrimSplitPrefix(key, "eval") == "acc";
    assert TrimCutset("acc") == "acc";
    PrefixedKey(KeyValue(23, key, "0.81", Some(0.81)), tokens, "eval", "acc");
  }

  /** The line's three matches: "epoch" dropped, the two accuracies kept. */
  lemma SplitPrefixResolutions()
    ensures var m := SplitPrefixLine();
            Resolutions(m.pairs, LineTokens(m)) == [Dropped, Kept("acc", "train"), Kept("acc", "eval")]
  {
    forall k | 0 <= k < 3
      ensures var m := SplitPrefixLine();
              Resolutions(m.pairs, LineTokens(m))[k] == [Dropped, Kept("acc", "train"), Kept("acc", "eval")][k]
    {
      var tokens := LineTokens(SplitPrefixLine());
      if k == 0 {
        assert tokens == [];
        EpochKeyDropped(tokens);
      } else if k == 1 {
        TrainAccKey(tokens);
      } else {
        EvalAccKey(tokens);
      }
    }
  }

  /** The records the line's matches emit at epoch 5. */
  lemma SplitPrefixEmit(pairs: seq<KeyValue>, res: seq<Resolution>)
    requires pairs == SplitPrefixLine().pairs
    requires res == [Dropped, Kept("acc", "train"), Kept("acc", "eval")]
    ensures AllParsed(pairs, 3)
    ensures Emit(pairs, res, 3, 5, "") == [Record(5, "acc", 0.87, "train", ""), Record(5, "acc", 0.81, "eval", "")]
  {
    assert pairs[0].value == Some(5.0) && pairs[1].value == Some(0.87) && pairs[2].value == Some(0.81);
    assert Emit(pairs, res, 1, 5, "") == [];
    assert Emit(pairs, res, 2, 5, "") == [Record(5, "acc", 0.87, "train", "")];
  }

  /** The stated epoch 5 line keeps two "acc" records, split by their key prefixes; "epoch" itself is dropped. */
  lemma ParserSplitPrefixMetrics()
    ensures ParseSpec(0, "", [SplitPrefixLine()]) ==
            (Ok([Record(5, "acc", 0.87, "train", ""), Record(5, "acc", 0.81, "eval", "")]), 5)
  {
    var m := SplitPrefixLine();
    var res := Resolutions(m.pairs, LineTokens(m));
    SplitPrefixResolutions();
    SplitPrefixEmit(m.pairs, res);
    ParseStatedEpoch(m, 5, res, Emit(m.pairs, res, 3, 5, ""));
  }

  /** "valid_acc" names the "valid" alias, normalised to "eval". */
  lemma AliasSplit()
    ensures SplitFromKey("valid_acc") == "eval"
  {
    var key := "valid_acc";
    LetterDiffers(key, "train", 0);
    LetterDiffers(key, "eval", 1);
    assert !KeyHasSplit(key, "validation") by {
      assert |"validation" + "_"| > |key| && |"validation" + "-"| > |key| && |"validation" + "."| > |key|;
    }
    assert HasPrefix(key, "valid" + "_");
    var names := SplitNames;
    assert names[1..][1..][1..][0] == "valid";
    assert SplitFromKeyIn(key, names) == SplitFromKeyIn(key, names[1..]) == SplitFromKeyIn(key, names[1..][1..])
           == SplitFromKeyIn(key, names[1..][1..][1..]) == "eval";
  }

  /** "valid_acc" does not start with "eval" and a separator, and has no cut-set characters at its ends. */
  lemma AliasTrim()
    ensures TrimSplitPrefix("valid_acc", "eval") == "valid_acc" && TrimCutset("valid_acc") == "valid_acc"
  {
    var key := "valid_acc";
    LetterDiffers(key, "eval", 1);
    assert TrimLeft(key) == key && TrimRight(key) == key;
  }

  /**
   * A key prefixed with an evaluation alias takes the normalised split, but
   * the prefix is then trimmed with the normalised name, which the key does
   * not start with: "valid_acc" is kept whole, as metric "valid_acc" under
   * split "eval".
   */
  lemma AliasPrefixKept(tokens: seq<SplitToken>)
    ensures Resolve(KeyValue(0, "valid_acc", "0.5", Some(0.5)), tokens) == Kept("valid_acc", "eval")
  {
    assert ToLower("valid_acc") == "valid_acc";
    AliasSplit();
    AliasTrim();
    PrefixedKey(KeyValue(0, "valid_acc", "0.5", Some(0.5)), tokens, "eval", "valid_acc");
  }
}
