/**
 * The text helpers of the gistselect command: mode strings and their
 * dispatch to a distance or a utility preset, the TSV row format of the
 * lexicon files, the line scanner that reads them, and the candidate limit.
 * Opening files, flags, timing and exit codes are outside this model.
 */
module GistCli {
  import opened Wrappers
  import opened GoStrings
  import opened GistTypes
  import opened Distance
  import opened Gist

  /**
   * strings.ReplaceAll(s, string(c), ""): every c removed, every other
   * character kept as often as it occurs; RemoveCharAppend adds that the
   * order is kept.
   */
  function RemoveChar(s: string, c: char): (r: string)
    ensures c !in r
    ensures forall x :: x in r ==> x in s
    ensures forall x :: x != c ==> multiset(r)[x] == multiset(s)[x]
    ensures c !in s ==> r == s
  {
    if s == [] then []
    else
      var rest := RemoveChar(s[1..], c);
      assert forall x :: x in rest ==> x in s by {
        forall x | x in rest ensures x in s {
          assert x in s[1..];
        }
      }
      assert s == [s[0]] + s[1..];
      assert multiset(s) == multiset{s[0]} + multiset(s[1..]);
      if s[0] == c then rest
      else
        assert multiset([s[0]] + rest) == multiset{s[0]} + multiset(rest);
        [s[0]] + rest
  }

  /** Removing a character from a concatenation removes it from each part, in order. */
  lemma {:induction false} RemoveCharAppend(s: string, t: string, c: char)
    ensures RemoveChar(s + t, c) == RemoveChar(s, c) + RemoveChar(t, c)
  {
    if s == [] {
      assert s + t == t;
    } else {
      var x, tail := s[0], s[1..];
      assert s == [x] + tail && s + t == [x] + (tail + t);
      RemoveCharAppend(tail, t, c);
      RemoveCharCons(x, tail, c);
      RemoveCharCons(x, tail + t, c);
      ConcatAssoc(if x == c then [] else [x], RemoveChar(tail, c), RemoveChar(t, c));
    }
  }

  /** Concatenation is associative. */
  lemma ConcatAssoc(a: string, b: string, c: string)
    ensures a + (b + c) == (a + b) + c
  {
  }

  /** The first character is removed exactly when it is c; the rest is handled alike. */
  lemma RemoveCharCons(x: char, rest: string, c: char)
    ensures RemoveChar([x] + rest, c) == (if x == c then [] else [x]) + RemoveChar(rest, c)
  {
    assert ([x] + rest)[0] == x && ([x] + rest)[1..] == rest;
  }

  /** A single character is removed exactly when it is c. */
  lemma RemoveCharSingle(x: char, c: char)
    ensures RemoveChar([x], c) == if x == c then [] else [x]
  {
    assert [x][1..] == [];
  }

  /** A normalised mode: no upper-case letter, no '-' and no '_'. */
  predicate IsNormalMode(m: string)
  {
    '-' !in m && '_' !in m && forall x :: x in m ==> !('A' <= x <= 'Z')
  }

  /**
   * normalizeMode: lower-case, then drop every '-' and '_'. The result is
   * normal, and a normal mode is left as it is.
   */
  function NormalizeMode(mode: string): (r: string)
    ensures IsNormalMode(r)
    ensures IsNormalMode(mode) ==> r == mode
    ensures forall x :: x != '-' && x != '_' ==> multiset(r)[x] == multiset(ToLower(mode))[x]
  {
    var lower := ToLower(mode);
    assert forall x :: x in lower ==> !('A' <= x <= 'Z');

    assert IsNormalMode(mode) ==> lower == mode by {
      if IsNormalMode(mode) {
        forall i | 0 <= i < |mode| ensures lower[i] == mode[i] {
          assert mode[i] in mode;
        }
      }
    }
    RemoveChar(RemoveChar(lower, '-'), '_')
  }

  /** Normalisation works piece by piece, so it keeps the order of what it keeps. */
  lemma NormalizeModeAppend(s: string, t: string)
    ensures NormalizeMode(s + t) == NormalizeMode(s) + NormalizeMode(t)
  {
    ToLowerAppend(s, t);
    RemoveCharAppend(ToLower(s), ToLower(t), '-');
    RemoveCharAppend(RemoveChar(ToLower(s), '-'), RemoveChar(ToLower(t), '-'), '_');
  }

  /** A lone '-' or '_' normalises to nothing. */
  lemma NormalizeSeparator(sep: char)
    requires sep == '-' || sep == '_'
    ensures NormalizeMode([sep]) == []
  {
    assert ToLower([sep]) == [sep];
    RemoveCharSingle(sep, '-');
    if sep == '-' {
      assert RemoveChar([sep], '-') == [];
    } else {
      RemoveCharSingle(sep, '_');
    }
  }

  /** A '-' or '_' anywhere in a mode does not matter. */
  lemma NormalizeModeDropsSeparator(s: string, t: string, sep: char)
    requires sep == '-' || sep == '_'
    ensures NormalizeMode(s + [sep] + t) == NormalizeMode(s + t)
  {
    NormalizeModeAppend(s + [sep], t);
    NormalizeModeAppend(s, [sep]);
    NormalizeModeAppend(s, t);
    NormalizeSeparator(sep);
    assert NormalizeMode(s) + [] == NormalizeMode(s);
  }

  /** Case does not matter to a mode. */
  lemma NormalizeModeIgnoresCase(s: string)
    ensures NormalizeMode(ToLower(s)) == NormalizeMode(s)
  {
    ToLowerIdempotent(s);
  }

  /** A mode that lower-cases to a normal mode normalises to it. */
  lemma LowerCaseMode(s: string, l: string)
    requires ToLower(s) == l && IsNormalMode(l)
    ensures NormalizeMode(s) == l
  {
    NormalizeModeIgnoresCase(s);
  }

  /** Normalising a mode twice is normalising it once. */
  lemma NormalizeModeIdempotent(mode: string)
    ensures NormalizeMode(NormalizeMode(mode)) == NormalizeMode(mode)
  {
  }

  /** The distance modes parseDistance accepts, after normalisation. */
  const DistanceModes: set<string> := {"word", "wordlevenshtein", "ipa", "ipalevenshtein", "joint"}

  /** parseDistance: the distance a mode names, or an error for an unknown mode. */
  function ParseDistance(mode: string): (r: Result<DistanceFunc>)
    ensures r.Ok? <==> NormalizeMode(mode) in DistanceModes
    ensures NormalizeMode(mode) in {"word", "wordlevenshtein"} ==> r == Ok(WordLevenshtein)
    ensures NormalizeMode(mode) in {"ipa", "ipalevenshtein"} ==> r == Ok(IPALevenshtein)
    ensures NormalizeMode(mode) == "joint" ==> r == Ok(JointLevenshtein)
  {
    var m := NormalizeMode(mode);
    if m == "word" || m == "wordlevenshtein" then Ok(WordLevenshtein)
    else if m == "ipa" || m == "ipalevenshtein" then Ok(IPALevenshtein)
    else if m == "joint" then Ok(JointLevenshtein)
    else Err("unknown distance mode " + mode)
  }

  /**
   * parseDistance accepts a mode exactly when it accepts its normal form,
   * and gives the same distance for both; every distance it returns keeps
   * the library contract: in [0, 1], and 0 on entries that agree on the
   * compared text. NormalizeModeIgnores says which spellings share a
   * normal form.
   */
  lemma ParseDistanceSpec(mode: string)
    ensures ParseDistance(NormalizeMode(mode)).Ok? == ParseDistance(mode).Ok?
    ensures ParseDistance(mode).Ok? ==> ParseDistance(NormalizeMode(mode)).value == ParseDistance(mode).value
    ensures ParseDistance(mode).Ok? ==>
              NonNegativeDistance(ParseDistance(mode).value) &&
              forall a, b :: ParseDistance(mode).value(a, b) <= 1.0
    ensures ParseDistance(mode).Ok? ==> forall a :: ParseDistance(mode).value(a, a) == 0.0
  {
    NormalizeModeIdempotent(mode);
  }

  /** The spelling IPA_Levenshtein: its pieces, and its lower-cased form, which is normal. */
  lemma IPALevenshteinPieces()
    ensures "IPA_Levenshtein" == "IPA" + ['_'] + "Levenshtein"
    ensures "IPA" + "Levenshtein" == "IPALevenshtein"
    ensures ToLower("IPALevenshtein") == "ipalevenshtein"
    ensures IsNormalMode("ipalevenshtein")
  {
  }

  /** Mixed case and an underscore inside a mode name still select the distance it names. */
  lemma ParseDistanceSpelling()
    ensures ParseDistance("IPA_Levenshtein") == Ok(IPALevenshtein)
  {
    IPALevenshteinPieces();
    NormalizeModeDropsSeparator("IPA", "Levenshtein", '_');
    LowerCaseMode("IPALevenshtein", "ipalevenshtein");
  }

  /** The n-gram bounds and feature weights a utility mode sets. */
  datatype Preset = Preset(nGramMin: int, nGramMax: int, wordWeight: real, ipaWeight: real)

  /** The utility modes applyUtility accepts, after normalisation. */
  const UtilityModes: set<string> := {"wordtrigram", "ipangram", "joint"}

  /**
   * applyUtility's presets: word trigrams only, IPA 2..3-grams only, or both
   * fields with 2..3-grams; None for an unknown mode.
   */
  function UtilityPreset(mode: string): (r: Option<Preset>)
    ensures r.Some? <==> NormalizeMode(mode) in UtilityModes
    ensures NormalizeMode(mode) == "wordtrigram" ==> r == Some(Preset(3, 3, 1.0, 0.0))
    ensures NormalizeMode(mode) == "ipangram" ==> r == Some(Preset(2, 3, 0.0, 1.0))
    ensures NormalizeMode(mode) == "joint" ==> r == Some(Preset(2, 3, 1.0, 1.0))
  {
    var m := NormalizeMode(mode);
    if m == "wordtrigram" then Some(Preset(3, 3, 1.0, 0.0))
    else if m == "ipangram" then Some(Preset(2, 3, 0.0, 1.0))
    else if m == "joint" then Some(Preset(2, 3, 1.0, 1.0))
    else None
  }

  /** A configuration with the coverage utility and a preset's n-grams and weights. */
  function WithPreset(cfg: Config, p: Preset): Config
  {
    cfg.(utility := Some(CoverageUtility), nGramMin := p.nGramMin, nGramMax := p.nGramMax,
         wordFeatureWeight := p.wordWeight, ipaFeatureWeight := p.ipaWeight)
  }

  /**
   * applyUtility on the configuration: the utility becomes the coverage
   * utility in every case; a known mode sets its preset; an unknown mode is
   * an error and changes nothing else.
   */
  method ApplyUtility(cfg: Config, mode: string) returns (r: Config, err: Option<string>)
    ensures r.utility == Some(CoverageUtility)
    ensures err.None? <==> UtilityPreset(mode).Some?
    ensures err.None? ==> r == WithPreset(cfg, UtilityPreset(mode).value)
    ensures err.Some? ==> r == cfg.(utility := Some(CoverageUtility))
  {
    r := cfg.(utility := Some(CoverageUtility));
    var m := NormalizeMode(mode);
    if m == "wordtrigram" {
      r := r.(nGramMin := 3, nGramMax := 3, wordFeatureWeight := 1.0, ipaFeatureWeight := 0.0);
    } else if m == "ipangram" {
      r := r.(nGramMin := 2, nGramMax := 3, wordFeatureWeight := 0.0, ipaFeatureWeight := 1.0);
    } else if m == "joint" {
      r := r.(nGramMin := 2, nGramMax := 3, wordFeatureWeight := 1.0, ipaFeatureWeight := 1.0);
    } else {
      err := Some("unknown utility mode " + mode);
      return;
    }
    err := None;
  }

  /**
   * Every preset is already in range, so the selector's defaults keep its
   * n-gram bounds, its weights and the coverage utility exactly.
   */
  lemma PresetSurvivesDefaults(cfg: Config, mode: string, entryCount: int)
    requires UtilityPreset(mode).Some?
    ensures var p := UtilityPreset(mode).value;
            var d := WithDefaults(WithPreset(cfg, p), entryCount);
            && d.nGramMin == p.nGramMin && d.nGramMax == p.nGramMax
            && d.wordFeatureWeight == p.wordWeight && d.ipaFeatureWeight == p.ipaWeight
            && d.utility == Some(CoverageUtility)
  {
    WithDefaultsKeepsSettings(WithPreset(cfg, UtilityPreset(mode).value), entryCount);
  }

  /**
   * The row parse of readTSV: a blank line is skipped (None); otherwise the
   * tab-separated columns must number 2 or 3, giving Word, IPA and Extra.
   */
  function ParseRow(line: string): (r: Result<Option<Entry>>)
    ensures r == Ok(None) <==> IsBlank(line)
    ensures r.Err? <==> !IsBlank(line) && !(1 <= multiset(line)['\t'] <= 2)
  {
    SplitCount(line, '\t');
    if IsBlank(line) then Ok(None)
    else
      var columns := Split(line, '\t');
      if |columns| < 2 || |columns| > 3 then Err("invalid TSV row (expected 2 or 3 columns): " + line)
      else Ok(Some(Entry(columns[0], columns[1], if |columns| == 3 then columns[2] else "")))
  }

  /**
   * A parsed entry is the line's columns: Word, IPA, and Extra when there is
   * a third column; joined by tabs they give the line back.
   */
  lemma ParseRowFields(line: string)
    requires ParseRow(line).Ok? && ParseRow(line).value.Some?
    ensures var e := ParseRow(line).value.value;
            var columns := Split(line, '\t');
            && (columns == [e.word, e.ipa] || columns == [e.word, e.ipa, e.extra])
            && (|columns| == 2 ==> e.extra == "")
            && Join(columns, '\t') == line
  {
    JoinSplit(line, '\t');
  }

  /** The columns writeTSV writes: Word and IPA, and Extra when it is set. */
  function RowFields(e: Entry): seq<string>
  {
    if e.extra != "" then [e.word, e.ipa, e.extra] else [e.word, e.ipa]
  }

  /** The row format of writeTSV, without its line terminator: the columns joined by tabs. */
  function FormatRow(e: Entry): string
  {
    Join(RowFields(e), '\t')
  }

  /** A field the formats can carry: no tab, newline or carriage return. */
  predicate CleanField(s: string)
  {
    '\t' !in s && '\n' !in s && '\r' !in s
  }

  /** An entry the TSV format carries intact: clean fields and a row that is not blank. */
  predicate Writable(e: Entry)
  {
    CleanField(e.word) && CleanField(e.ipa) && CleanField(e.extra) && !IsBlank(FormatRow(e))
  }

  /** Formatting and then parsing a row gives the entry back. */
  lemma RowRoundTrip(e: Entry)
    requires Writable(e)
    ensures ParseRow(FormatRow(e)) == Ok(Some(e))
  {
    SplitJoin(RowFields(e), '\t');
  }

  /** A line without the terminator, with one trailing carriage return dropped (bufio.ScanLines). */
  function DropCR(line: string): string
  {
    if |line| > 0 && line[|line| - 1] == '\r' then line[..|line| - 1] else line
  }

  /**
   * The lines bufio.ScanLines yields: the text cut at each newline, a
   * trailing carriage return dropped from each, and no empty line after a
   * final newline.
   */
  function ScanLines(text: string): seq<string>
  {
    var parts := Split(text, '\n');
    var complete := if parts[|parts| - 1] == "" then parts[..|parts| - 1] else parts;
    seq(|complete|, i requires 0 <= i < |complete| => DropCR(complete[i]))
  }

  /** The file text writeTSV produces: every row followed by a newline. */
  function Render(entries: seq<Entry>): string
  {
    if entries == [] then [] else Render(entries[..|entries| - 1]) + FormatRow(entries[|entries| - 1]) + "\n"
  }

  /** readTSV over the scanned lines: rows in order, blank lines skipped, stopping at the first bad row. */
  function ReadRows(lines: seq<string>): Result<seq<Entry>>
  {
    if lines == [] then Ok([])
    else
      var before := ReadRows(lines[..|lines| - 1]);
      if before.Err? then before
      else
        var row := ParseRow(lines[|lines| - 1]);
        if row.Err? then Err(row.message)
        else if row.value.None? then before
        else Ok(before.value + [row.value.value])
  }

  /** readTSV: the rows of the scanned text. */
  function ReadTSV(text: string): Result<seq<Entry>>
  {
    ReadRows(ScanLines(text))
  }

  /**
   * readTSV succeeds exactly when every line is blank or has 2 or 3 columns,
   * and then yields at most one entry per line.
   */
  lemma {:induction false} ReadRowsSpec(lines: seq<string>)
    ensures ReadRows(lines).Ok? <==> forall i :: 0 <= i < |lines| ==> ParseRow(lines[i]).Ok?
    ensures ReadRows(lines).Ok? ==> |ReadRows(lines).value| <= |lines|
  {
    if lines != [] {
      var init := lines[..|lines| - 1];
      ReadRowsSpec(init);
      assert forall i :: 0 <= i < |init| ==> init[i] == lines[i];
    }
  }

  /** The rendered text of rows is the rows joined by newlines, plus a final empty piece. */
  lemma {:induction false} RenderIsJoin(entries: seq<Entry>)
    requires entries != []
    ensures Render(entries) == Join(RowsOf(entries) + [""], '\n')
  {
    var rows := RowsOf(entries);
    var last := entries[|entries| - 1];
    if |entries| == 1 {
      assert Render(entries) == FormatRow(last) + "\n";
      assert rows + [""] == [FormatRow(last), ""];
    } else {
      var init := entries[..|entries| - 1];
      var row := FormatRow(last);
      RenderIsJoin(init);
      JoinAppend(RowsOf(init), row);
      RowsOfSnoc(entries);
      assert Render(entries) == Render(init) + row + "\n";
    }
  }

  /** The rows of entries are the rows of all but the last, then the last one's row. */
  lemma RowsOfSnoc(entries: seq<Entry>)
    requires entries != []
    ensures RowsOf(entries) == RowsOf(entries[..|entries| - 1]) + [FormatRow(entries[|entries| - 1])]
  {
  }

  /** The formatted rows of entries, in order. */
  function RowsOf(entries: seq<Entry>): seq<string>
  {
    seq(|entries|, i requires 0 <= i < |entries| => FormatRow(entries[i]))
  }

  /** Appending a row before the final empty piece adds the row and a newline. */
  lemma {:induction false} JoinAppend(rows: seq<string>, row: string)
    ensures Join(rows + [row] + [""], '\n') == Join(rows + [""], '\n') + row + "\n"
  {
    if rows != [] {
      JoinAppend(rows[1..], row);
      assert (rows + [row] + [""])[1..] == rows[1..] + [row] + [""];
      assert (rows + [""])[1..] == rows[1..] + [""];
    }
  }

  /** The row of a writable entry holds no newline and does not end in a carriage return. */
  lemma RowIsOneLine(e: Entry)
    requires Writable(e)
    ensures '\n' !in FormatRow(e) && DropCR(FormatRow(e)) == FormatRow(e)
  {
    var row := FormatRow(e);
    JoinAvoids(RowFields(e), '\t', '\n');
    JoinAvoids(RowFields(e), '\t', '\r');
    if |row| > 0 {
      assert row[|row| - 1] in row;
    }
  }

  /** The scanner yields exactly the rendered rows of writable entries. */
  lemma ScanRendered(entries: seq<Entry>)
    requires forall i :: 0 <= i < |entries| ==> Writable(entries[i])
    ensures ScanLines(Render(entries)) == RowsOf(entries)
  {
    RowsClean(entries);
    RenderSplits(entries);
    ScanOfLines(Render(entries), RowsOf(entries));
  }

  /** The rows of writable entries hold no newline and keep their last character. */
  lemma RowsClean(entries: seq<Entry>)
    requires forall i :: 0 <= i < |entries| ==> Writable(entries[i])
    ensures forall i :: 0 <= i < |entries| ==> '\n' !in RowsOf(entries)[i] && DropCR(RowsOf(entries)[i]) == RowsOf(entries)[i]
  {
    forall i | 0 <= i < |entries|
      ensures '\n' !in RowsOf(entries)[i] && DropCR(RowsOf(entries)[i]) == RowsOf(entries)[i]
    {
      RowIsOneLine(entries[i]);
    }
  }

  /** The written text splits at newlines into the rows and a final empty piece. */
  lemma RenderSplits(entries: seq<Entry>)
    requires forall i :: 0 <= i < |entries| ==> '\n' !in RowsOf(entries)[i]
    ensures Split(Render(entries), '\n') == RowsOf(entries) + [""]
  {
    if entries == [] {
      assert Split(Render(entries), '\n') == [""];
    } else {
      RenderIsJoin(entries);
      SplitJoinedRows(Render(entries), RowsOf(entries));
    }
  }

  /** Newline-free rows joined before a final empty piece split back into those pieces. */
  lemma SplitJoinedRows(text: string, rows: seq<string>)
    requires text == Join(rows + [""], '\n')
    requires forall i :: 0 <= i < |rows| ==> '\n' !in rows[i]
    ensures Split(text, '\n') == rows + [""]
  {
    assert forall i :: 0 <= i < |rows + [""]| ==> '\n' !in (rows + [""])[i];
    SplitJoin(rows + [""], '\n');
  }

  /** Text that splits into lines followed by an empty piece scans as those lines, when none ends in '\r'. */
  lemma ScanOfLines(text: string, lines: seq<string>)
    requires Split(text, '\n') == lines + [""]
    requires forall i :: 0 <= i < |lines| ==> DropCR(lines[i]) == lines[i]
    ensures ScanLines(text) == lines
  {
    assert (lines + [""])[..|lines|] == lines;
  }

  /** Writing writable entries and reading the text back gives the same entries. */
  lemma {:induction false} FileRoundTrip(entries: seq<Entry>)
    requires forall i :: 0 <= i < |entries| ==> Writable(entries[i])
    ensures ReadTSV(Render(entries)) == Ok(entries)
  {
    ScanRendered(entries);
    RowsRoundTrip(entries);
  }

  /** Reading the formatted rows of writable entries gives the entries. */
  lemma {:induction false} RowsRoundTrip(entries: seq<Entry>)
    requires forall i :: 0 <= i < |entries| ==> Writable(entries[i])
    ensures ReadRows(RowsOf(entries)) == Ok(entries)
  {
    if entries != [] {
      var init := entries[..|entries| - 1];
      RowsRoundTrip(init);
      RowRoundTrip(entries[|entries| - 1]);
      assert RowsOf(entries)[..|entries| - 1] == RowsOf(init);
      DropLastAppend(entries);
    }
  }

  /** A non-empty sequence is its prefix without the last element, plus that element. */
  lemma DropLastAppend<T>(s: seq<T>)
    requires s != []
    ensures s[..|s| - 1] + [s[|s| - 1]] == s
  {
  }

  /** readTSV's loop over the scanned lines. */
  method ReadLines(lines: seq<string>) returns (r: Result<seq<Entry>>)
    ensures r == ReadRows(lines)
  {
    var entries: seq<Entry> := [];
    for i := 0 to |lines|
      invariant ReadRows(lines[..i]) == Ok(entries)
    {
      assert lines[..i + 1][..i] == lines[..i];
      var row := ParseRow(lines[i]);
      if row.Err? {
        ReadRowsErrorSticks(lines, i + 1);
        return Err(row.message);
      }
      if row.value.Some? {
        entries := entries + [row.value.value];
      }
    }
    assert lines[..|lines|] == lines;
    r := Ok(entries);
  }

  /** Once a prefix of the lines fails, the whole read fails the same way. */
  lemma {:induction false} ReadRowsErrorSticks(lines: seq<string>, k: nat)
    requires k <= |lines| && ReadRows(lines[..k]).Err?
    ensures ReadRows(lines) == ReadRows(lines[..k])
    decreases |lines| - k
  {
    if k < |lines| {
      assert lines[..k + 1][..k] == lines[..k];
      ReadRowsErrorSticks(lines, k + 1);
    } else {
      assert lines[..k] == lines;
    }
  }

  /** writeTSV's loop: every entry's row and a newline, in order. */
  method WriteRows(entries: seq<Entry>) returns (text: string)
    ensures text == Render(entries)
  {
    text := "";
    for i := 0 to |entries|
      invariant text == Render(entries[..i])
    {
      assert entries[..i + 1][..i] == entries[..i];
      text := text + FormatRow(entries[i]) + "\n";
    }
    assert entries[..|entries|] == entries;
  }

  /** --max_candidates: a positive limit keeps that many leading entries, in order. */
  function LimitCandidates(entries: seq<Entry>, maxCandidates: int): (r: seq<Entry>)
    ensures r <= entries
    ensures |r| == if 0 < maxCandidates < |entries| then maxCandidates else |entries|
  {
    if maxCandidates > 0 && |entries| > maxCandidates then entries[..maxCandidates] else entries
  }
}
