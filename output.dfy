/** Rendering of matches and counts as output lines (src/output.rs). */
module Output {
  import opened Wrappers
  import opened Strings
  import opened Flags

  datatype OutputMode = FullLines | Count

  datatype OutputConfig = OutputConfig(mode: OutputMode, showLineNumbers: bool, showFilename: bool)

  /** The mode the flags select: counting as soon as "-c" occurs anywhere. */
  function ModeOf(flags: seq<Flag>): OutputMode
  {
    if Flag.Count in flags then OutputMode.Count else FullLines
  }

  /** Scans the flags from the last one backwards and stops at the first "-c". */
  method ModeFromFlags(flags: seq<Flag>) returns (mode: OutputMode)
    ensures mode == OutputMode.Count <==> Flag.Count in flags
    ensures mode == ModeOf(flags)
  {
    var i := |flags|;
    while i > 0
      invariant 0 <= i <= |flags|
      invariant Flag.Count !in flags[i..]
    {
      i := i - 1;
      if flags[i] == Flag.Count {
        return OutputMode.Count;
      }
    }
    assert flags[0..] == flags;
    return FullLines;
  }

  /**
   * The output configuration: counting iff "-c" was given, line numbers iff
   * "-n" was given and the mode is not counting, file names iff the run
   * covers more than one file.
   */
  function NewOutputConfig(flags: seq<Flag>, multipleFiles: bool): (c: OutputConfig)
    ensures c.mode == OutputMode.Count <==> Flag.Count in flags
    ensures c.showLineNumbers <==> Flag.LineNumbers in flags && Flag.Count !in flags
    ensures c.showFilename == multipleFiles
  {
    var mode := ModeOf(flags);
    OutputConfig(mode, Flag.LineNumbers in flags && mode != OutputMode.Count, multipleFiles)
  }

  /**
   * The text of one match: the file name and a colon when a file name is
   * given and file names are shown, then the one-based line number and a
   * colon when line numbers are shown, then the line itself.
   */
  function MatchText(line: string, lineNumber: nat, filename: Option<string>, config: OutputConfig): string
  {
    (if filename.Some? && config.showFilename then filename.value + ":" else [])
    + (if config.showLineNumbers then NatToString(lineNumber + 1) + ":" else [])
    + line
  }

  /**
   * Collects the shown prefixes and the line as parts and joins them with
   * colons; with no prefix, the line is returned alone.
   */
  method FormatMatch(line: string, lineNumber: nat, filename: Option<string>, config: OutputConfig) returns (s: string)
    ensures s == MatchText(line, lineNumber, filename, config)
  {
    var parts: seq<string> := [];
    if filename.Some? {
      if config.showFilename {
        parts := parts + [filename.value];
      }
    }
    if config.showLineNumbers {
      parts := parts + [NatToString(lineNumber + 1)];
    }
    if parts == [] {
      s := line;
    } else {
      parts := parts + [line];
      JoinColons(parts);
      s := Join(parts, ":");
    }
  }

  lemma JoinColons(parts: seq<string>)
    ensures |parts| == 2 ==> Join(parts, ":") == parts[0] + ":" + parts[1]
    ensures |parts| == 3 ==> Join(parts, ":") == parts[0] + ":" + (parts[1] + ":" + parts[2])
  {
    if |parts| == 3 {
      assert Join(parts[1..], ":") == parts[1] + ":" + parts[2];
    }
  }

  /** The rendering of a count: "name:count" when a file name is given and shown, else the count. */
  function FormatCount(count: nat, filename: Option<string>, showFilename: bool): (s: string)
    ensures filename.Some? && showFilename ==> s == filename.value + ":" + NatToString(count)
    ensures !(filename.Some? && showFilename) ==> s == NatToString(count)
  {
    match (filename, showFilename)
    case (Some(fname), true) => fname + ":" + NatToString(count)
    case _ => NatToString(count)
  }

  // ---------------------------------------------------------------------
  // Reading rendered lines back
  // ---------------------------------------------------------------------

  /** The text before the first colon of `s` (all of `s` when it has none). */
  function FirstField(s: string): string
  {
    if s == [] || s[0] == ':' then [] else [s[0]] + FirstField(s[1..])
  }

  /** The text after the first colon of `s` (empty when it has none). */
  function AfterFirstField(s: string): string
  {
    if s == [] then [] else if s[0] == ':' then s[1..] else AfterFirstField(s[1..])
  }

  /** The text after the last colon of `s` (all of `s` when it has none). */
  function LastField(s: string): string
  {
    if s == [] || s[|s| - 1] == ':' then [] else LastField(s[..|s| - 1]) + [s[|s| - 1]]
  }

  lemma {:induction false} FirstFieldSplit(a: string, b: string)
    requires ':' !in a
    ensures FirstField(a + ":" + b) == a
    ensures AfterFirstField(a + ":" + b) == b
  {
    if a != [] {
      assert (a + ":" + b)[1..] == a[1..] + ":" + b;
      FirstFieldSplit(a[1..], b);
    }
  }

  lemma {:induction false} LastFieldWhole(d: string)
    requires ':' !in d
    ensures LastField(d) == d
  {
    if d != [] {
      LastFieldWhole(d[..|d| - 1]);
    }
  }

  lemma {:induction false} LastFieldSplit(a: string, d: string)
    requires ':' !in d
    ensures LastField(a + ":" + d) == d
  {
    var s := a + ":" + d;
    if d != [] {
      assert s[..|s| - 1] == a + ":" + d[..|d| - 1];
      LastFieldSplit(a, d[..|d| - 1]);
    }
  }

  lemma DigitsHaveNoColon(s: string)
    requires AllDigits(s)
    ensures ':' !in s
  {
  }

  // ---------------------------------------------------------------------
  // Properties
  // ---------------------------------------------------------------------

  /** With no prefix to show, a match is printed as the bare line, without a colon. */
  lemma MatchTextPlain(line: string, lineNumber: nat, filename: Option<string>, config: OutputConfig)
    requires !(filename.Some? && config.showFilename) && !config.showLineNumbers
    ensures MatchText(line, lineNumber, filename, config) == line
  {
  }

  /** A printed match always ends with the line itself. */
  lemma MatchTextEndsWithLine(line: string, lineNumber: nat, filename: Option<string>, config: OutputConfig)
    ensures var s := MatchText(line, lineNumber, filename, config);
            |line| <= |s| && s[|s| - |line|..] == line
  {
  }

  /**
   * A printed match without a shown file name but with line numbers reads
   * back as the one-based line number, a colon, and the line.
   */
  lemma MatchTextLineNumber(line: string, lineNumber: nat, filename: Option<string>, config: OutputConfig)
    requires !(filename.Some? && config.showFilename) && config.showLineNumbers
    ensures var s := MatchText(line, lineNumber, filename, config);
            && FirstField(s) == NatToString(lineNumber + 1)
            && AllDigits(FirstField(s)) && ParseNat(FirstField(s)) == lineNumber + 1
            && AfterFirstField(s) == line
  {
    var digits := NatToString(lineNumber + 1);
    DigitsHaveNoColon(digits);
    assert MatchText(line, lineNumber, filename, config) == digits + ":" + line;
    FirstFieldSplit(digits, line);
    ParseNatToString(lineNumber + 1);
  }

  /**
   * A printed match with a shown file name (one without a colon) reads back
   * as that name, a colon, and what would be printed without the name.
   */
  lemma MatchTextFilename(line: string, lineNumber: nat, fname: string, config: OutputConfig)
    requires config.showFilename && ':' !in fname
    ensures var s := MatchText(line, lineNumber, Some(fname), config);
            && FirstField(s) == fname
            && AfterFirstField(s) == MatchText(line, lineNumber, None, config)
  {
    var rest := MatchText(line, lineNumber, None, config);
    assert MatchText(line, lineNumber, Some(fname), config) == fname + ":" + rest;
    FirstFieldSplit(fname, rest);
  }

  /**
   * A printed count ends with the decimal count, which reads back as the
   * count; before it stand the file name and a colon exactly when the name
   * is given and shown.
   */
  lemma FormatCountReadsBack(count: nat, filename: Option<string>, showFilename: bool)
    ensures var s := FormatCount(count, filename, showFilename);
            && LastField(s) == NatToString(count)
            && AllDigits(LastField(s)) && ParseNat(LastField(s)) == count
            && (filename.Some? && showFilename ==> s == filename.value + ":" + LastField(s))
            && (!(filename.Some? && showFilename) ==> s == LastField(s))
  {
    var digits := NatToString(count);
    DigitsHaveNoColon(digits);
    ParseNatToString(count);
    if filename.Some? && showFilename {
      LastFieldSplit(filename.value, digits);
    } else {
      LastFieldWhole(digits);
    }
  }

  // ---------------------------------------------------------------------
  // The source's test cases
  // ---------------------------------------------------------------------

  lemma ModeExamples()
    ensures ModeOf([]) == FullLines
    ensures ModeOf([LineNumbers]) == FullLines
    ensures ModeOf([Flag.Count]) == OutputMode.Count
    ensures ModeOf([LineNumbers, Flag.Count]) == OutputMode.Count
  {
  }

  lemma ConfigExamples()
    ensures NewOutputConfig([LineNumbers], false) == OutputConfig(FullLines, true, false)
    ensures NewOutputConfig([LineNumbers, Flag.Count], true) == OutputConfig(OutputMode.Count, false, true)
  {
  }

  lemma MatchExamples()
    ensures MatchText("test line", 0, None, OutputConfig(FullLines, false, false)) == "test line"
    ensures MatchText("test line", 0, None, OutputConfig(FullLines, true, false)) == "1:test line"
  {
    assert NatToString(1) == "1";
  }

  lemma MatchWithFilenameExamples()
    ensures MatchText("test line", 0, Some("file.txt"), OutputConfig(FullLines, true, true)) == "file.txt:1:test line"
    ensures MatchText("test line", 4, Some("f.txt"), OutputConfig(FullLines, true, true)) == "f.txt:5:test line"
  {
    assert NatToString(1) == "1";
    assert NatToString(5) == "5";
  }

  lemma CountExamples()
    ensures FormatCount(5, None, false) == "5"
    ensures FormatCount(5, Some("file.txt"), false) == "5"
    ensures FormatCount(5, Some("file.txt"), true) == "file.txt:5"
  {
    assert NatToString(5) == "5";
  }
}
