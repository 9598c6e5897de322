/**
 * The driver (src/lib.rs): parse the command line, resolve the file
 * patterns, then search each file in order and print its lines, stopping at
 * the first error. Resolving file patterns and reading files are outside
 * the model and arrive as the functions `resolve` and `read`; what is
 * printed on standard output is returned as a sequence of lines.
 */
module Rep {
  import opened Wrappers
  import opened Strings
  import opened Errors
  import opened Flags
  import opened SearchEngine
  import opened Output
  import opened Args

  /** Everything a run prints on standard output, in order, and how it ends. */
  datatype Outcome = Outcome(printed: seq<string>, status: Result<(), RepError>)

  /** Expansion of file patterns into paths. */
  type Resolver = seq<string> -> Result<seq<string>, RepError>

  /** The contents of the file at a path. */
  type Reader = string -> Result<string, RepError>

  /** The lines printed for one file's search result. */
  function FileLines(filename: string, result: SearchResult, config: OutputConfig): seq<string>
  {
    match config.mode
    case Count => [FormatCount(result.totalCount, Some(filename), config.showFilename)]
    case FullLines =>
      seq(|result.matches|, j requires 0 <= j < |result.matches| =>
        MatchText(result.matches[j].content, result.matches[j].lineNumber, Some(filename), config))
  }

  /**
   * Processing the files in order: each readable file prints its lines; the
   * first unreadable file ends the run with its error, after the lines of
   * the files before it.
   */
  function RunFiles(paths: seq<string>, read: Reader, pattern: string,
                    searchConfig: SearchConfig, outputConfig: OutputConfig): Outcome
  {
    if paths == [] then Outcome([], Ok(()))
    else
      match read(paths[0])
      case Err(e) => Outcome([], Err(e))
      case Ok(contents) =>
        var rest := RunFiles(paths[1..], read, pattern, searchConfig, outputConfig);
        Outcome(FileLines(paths[0], Search(contents, pattern, searchConfig), outputConfig) + rest.printed,
                rest.status)
  }

  /**
   * A whole run: an argument error or a resolution error ends it with
   * nothing printed; otherwise one search configuration and one output
   * configuration, the latter showing file names iff more than one path was
   * resolved, serve every file.
   */
  function RunOutcome(args: seq<string>, resolve: Resolver, read: Reader): Outcome
  {
    match ArgsOutcome(args)
    case Err(e) => Outcome([], Err(e))
    case Ok(parsed) =>
      match resolve(parsed.filePatterns)
      case Err(e) => Outcome([], Err(e))
      case Ok(paths) =>
        RunFiles(paths, read, parsed.pattern, FromFlags(parsed.flags),
                 NewOutputConfig(parsed.flags, |paths| > 1))
  }

  /** Reads one file, searches it and prints its count or its matches. */
  method ProcessFile(path: string, pattern: string, searchConfig: SearchConfig,
                     outputConfig: OutputConfig, read: Reader)
    returns (printed: seq<string>, status: Result<(), RepError>)
    ensures read(path).Err? ==> printed == [] && status == Err(read(path).error)
    ensures read(path).Ok? ==>
              && status == Ok(())
              && printed == FileLines(path, Search(read(path).value, pattern, searchConfig), outputConfig)
  {
    var contents := read(path);
    if contents.Err? {
      return [], Err(contents.error);
    }
    var searchResult := Search(contents.value, pattern, searchConfig);
    printed := [];
    match outputConfig.mode {
      case Count =>
        printed := [FormatCount(searchResult.totalCount, Some(path), outputConfig.showFilename)];
      case FullLines =>
        var ms := searchResult.matches;
        for j := 0 to |ms|
          invariant |printed| == j
          invariant forall k :: 0 <= k < j ==>
                      printed[k] == MatchText(ms[k].content, ms[k].lineNumber, Some(path), outputConfig)
        {
          var output := FormatMatch(ms[j].content, ms[j].lineNumber, Some(path), outputConfig);
          printed := printed + [output];
        }
    }
    status := Ok(());
  }

  /** The whole run: parse, resolve, configure, then every file in turn. */
  method Run(args: seq<string>, resolve: Resolver, read: Reader)
    returns (printed: seq<string>, status: Result<(), RepError>)
    ensures Outcome(printed, status) == RunOutcome(args, resolve, read)
  {
    var parsedArgs := ParseArgs(args);
    if parsedArgs.Err? {
      return [], Err(parsedArgs.error);
    }
    var parsed := parsedArgs.value;
    var filePaths := resolve(parsed.filePatterns);
    if filePaths.Err? {
      return [], Err(filePaths.error);
    }
    var paths := filePaths.value;
    var searchConfig := FromFlags(parsed.flags);
    var outputConfig := NewOutputConfig(parsed.flags, |paths| > 1);
    printed, status := ProcessFiles(paths, read, parsed.pattern, searchConfig, outputConfig);
  }

  /** The loop of the run: each file in order, stopping at the first error. */
  method ProcessFiles(paths: seq<string>, read: Reader, pattern: string,
                      searchConfig: SearchConfig, outputConfig: OutputConfig)
    returns (printed: seq<string>, status: Result<(), RepError>)
    ensures Outcome(printed, status) == RunFiles(paths, read, pattern, searchConfig, outputConfig)
  {
    printed := [];
    var i := 0;
    while i < |paths|
      invariant 0 <= i <= |paths|
      invariant var rest := RunFiles(paths[i..], read, pattern, searchConfig, outputConfig);
                RunFiles(paths, read, pattern, searchConfig, outputConfig)
                == Outcome(printed + rest.printed, rest.status)
    {
      var lines, st := ProcessFile(paths[i], pattern, searchConfig, outputConfig, read);
      RunFilesAt(paths, i, read, pattern, searchConfig, outputConfig);
      if st.Err? {
        assert printed + [] == printed;
        return printed, st;
      }
      var rest := RunFiles(paths[i + 1..], read, pattern, searchConfig, outputConfig).printed;
      assert printed + lines + rest == printed + (lines + rest);
      printed := printed + lines;
      i := i + 1;
    }
    assert printed + [] == printed;
    return printed, Ok(());
  }

  // ---------------------------------------------------------------------
  // Properties of one file's output
  // ---------------------------------------------------------------------

  /**
   * In counting mode a file prints exactly one line, whose last field reads
   * back as the number of selected lines.
   */
  lemma CountModeOneLine(filename: string, contents: string, pattern: string,
                         searchConfig: SearchConfig, config: OutputConfig)
    requires config.mode == OutputMode.Count
    ensures var out := FileLines(filename, Search(contents, pattern, searchConfig), config);
            && |out| == 1
            && AllDigits(LastField(out[0]))
            && ParseNat(LastField(out[0])) == |Search(contents, pattern, searchConfig).matches|
  {
    var r := Search(contents, pattern, searchConfig);
    FormatCountReadsBack(r.totalCount, Some(filename), config.showFilename);
  }

  /**
   * Otherwise a file prints one line per selected line, in line order, each
   * ending with the selected line's text.
   */
  lemma FullLinesOnePerMatch(filename: string, contents: string, pattern: string,
                             searchConfig: SearchConfig, config: OutputConfig)
    requires config.mode == FullLines
    ensures var r := Search(contents, pattern, searchConfig);
            var out := FileLines(filename, r, config);
            && |out| == r.totalCount
            && forall j :: 0 <= j < |out| ==>
                 var line := r.matches[j].content;
                 |line| <= |out[j]| && out[j][|out[j]| - |line|..] == line
  {
    var r := Search(contents, pattern, searchConfig);
    forall j | 0 <= j < |r.matches|
      ensures var line := r.matches[j].content;
              var s := MatchText(line, r.matches[j].lineNumber, Some(filename), config);
              |line| <= |s| && s[|s| - |line|..] == line
    {
      MatchTextEndsWithLine(r.matches[j].content, r.matches[j].lineNumber, Some(filename), config);
    }
  }

  // ---------------------------------------------------------------------
  // Properties of a run over several files
  // ---------------------------------------------------------------------

  /** Every path in `paths` can be read. */
  predicate AllReadable(paths: seq<string>, read: Reader)
  {
    forall j :: 0 <= j < |paths| ==> read(paths[j]).Ok?
  }

  lemma ReadableTail(paths: seq<string>, read: Reader)
    requires paths != [] && AllReadable(paths, read)
    ensures read(paths[0]).Ok? && AllReadable(paths[1..], read)
  {
    forall j | 0 <= j < |paths[1..]|
      ensures read(paths[1..][j]).Ok?
    {
      assert paths[1..][j] == paths[j + 1];
    }
  }

  /** One step of a run over files whose first file can be read. */
  lemma RunFilesStep(paths: seq<string>, read: Reader, pattern: string,
                     searchConfig: SearchConfig, outputConfig: OutputConfig)
    requires paths != [] && read(paths[0]).Ok?
    ensures var rest := RunFiles(paths[1..], read, pattern, searchConfig, outputConfig);
            RunFiles(paths, read, pattern, searchConfig, outputConfig)
            == Outcome(FileLines(paths[0], Search(read(paths[0]).value, pattern, searchConfig), outputConfig)
                       + rest.printed, rest.status)
  {
  }

  /** The run from the `i`-th path on: that file's error, or its output followed by the rest's. */
  lemma RunFilesAt(paths: seq<string>, i: nat, read: Reader, pattern: string,
                   searchConfig: SearchConfig, outputConfig: OutputConfig)
    requires i < |paths|
    ensures read(paths[i]).Err? ==>
              RunFiles(paths[i..], read, pattern, searchConfig, outputConfig) == Outcome([], Err(read(paths[i]).error))
    ensures read(paths[i]).Ok? ==>
              var rest := RunFiles(paths[i + 1..], read, pattern, searchConfig, outputConfig);
              RunFiles(paths[i..], read, pattern, searchConfig, outputConfig)
              == Outcome(FileLines(paths[i], Search(read(paths[i]).value, pattern, searchConfig), outputConfig)
                         + rest.printed, rest.status)
  {
    assert paths[i..][1..] == paths[i + 1..];
  }

  /** A run over files succeeds exactly when every file can be read. */
  lemma {:induction false} RunFilesSucceeds(paths: seq<string>, read: Reader, pattern: string,
                                            searchConfig: SearchConfig, outputConfig: OutputConfig)
    ensures RunFiles(paths, read, pattern, searchConfig, outputConfig).status.Ok? <==> AllReadable(paths, read)
  {
    if paths != [] {
      RunFilesSucceeds(paths[1..], read, pattern, searchConfig, outputConfig);
      if read(paths[0]).Ok? {
        assert AllReadable(paths, read) <==> AllReadable(paths[1..], read) by {
          if AllReadable(paths, read) {
            ReadableTail(paths, read);
          }
          if AllReadable(paths[1..], read) {
            forall j | 0 <= j < |paths|
              ensures read(paths[j]).Ok?
            {
              if j > 0 {
                assert paths[j] == paths[1..][j - 1];
              }
            }
          }
        }
      }
    }
  }

  /**
   * The first unreadable file ends the run with its error; what was printed
   * is exactly the output of the files before it, and nothing of the files
   * after it.
   */
  lemma {:induction false} FirstErrorStops(paths: seq<string>, read: Reader, pattern: string,
                                           searchConfig: SearchConfig, outputConfig: OutputConfig, k: nat)
    requires k < |paths| && read(paths[k]).Err?
    requires AllReadable(paths[..k], read)
    ensures var before := RunFiles(paths[..k], read, pattern, searchConfig, outputConfig);
            && before.status == Ok(())
            && RunFiles(paths, read, pattern, searchConfig, outputConfig)
               == Outcome(before.printed, Err(read(paths[k]).error))
  {
    if k == 0 {
      assert paths[..0] == [];
    } else {
      var prefix := paths[..k];
      ReadableTail(prefix, read);
      assert prefix[0] == paths[0];
      assert prefix[1..] == paths[1..][..k - 1];
      assert paths[1..][k - 1] == paths[k];
      FirstErrorStops(paths[1..], read, pattern, searchConfig, outputConfig, k - 1);
      RunFilesStep(paths, read, pattern, searchConfig, outputConfig);
      RunFilesStep(prefix, read, pattern, searchConfig, outputConfig);
    }
  }

  /**
   * Files are processed in the given order: once the first k files have
   * been read, a run prints their lines followed by the lines of the run
   * over the remaining files, and ends as that run ends.
   */
  lemma {:induction false} RunFilesSplit(paths: seq<string>, k: nat, read: Reader, pattern: string,
                                         searchConfig: SearchConfig, outputConfig: OutputConfig)
    requires k <= |paths| && AllReadable(paths[..k], read)
    ensures var before := RunFiles(paths[..k], read, pattern, searchConfig, outputConfig);
            var after := RunFiles(paths[k..], read, pattern, searchConfig, outputConfig);
            RunFiles(paths, read, pattern, searchConfig, outputConfig)
            == Outcome(before.printed + after.printed, after.status)
  {
    if k == 0 {
      assert paths[..0] == [];
      assert paths[0..] == paths;
      var all := RunFiles(paths, read, pattern, searchConfig, outputConfig).printed;
      assert [] + all == all;
    } else {
      var tail := paths[1..];
      ReadableTail(paths[..k], read);
      assert tail[..k - 1] == paths[..k][1..];
      assert tail[k - 1..] == paths[k..];
      assert paths[..k][0] == paths[0];
      RunFilesSplit(tail, k - 1, read, pattern, searchConfig, outputConfig);
      var first := FileLines(paths[0], Search(read(paths[0]).value, pattern, searchConfig), outputConfig);
      var pa := RunFiles(tail[..k - 1], read, pattern, searchConfig, outputConfig).printed;
      var pb := RunFiles(paths[k..], read, pattern, searchConfig, outputConfig).printed;
      assert first + (pa + pb) == (first + pa) + pb;
    }
  }

  /** The count of selected lines of the file at `path`, or 0 when it cannot be read. */
  function CountOf(path: string, read: Reader, pattern: string, searchConfig: SearchConfig): nat
  {
    match read(path)
    case Ok(contents) => Search(contents, pattern, searchConfig).totalCount
    case Err(_) => 0
  }

  /** The number of selected lines over all files. */
  function TotalCount(paths: seq<string>, read: Reader, pattern: string, searchConfig: SearchConfig): nat
  {
    if paths == [] then 0
    else CountOf(paths[0], read, pattern, searchConfig) + TotalCount(paths[1..], read, pattern, searchConfig)
  }

  lemma CountModeHead(path: string, read: Reader, pattern: string,
                      searchConfig: SearchConfig, outputConfig: OutputConfig)
    requires outputConfig.mode == OutputMode.Count && read(path).Ok?
    ensures FileLines(path, Search(read(path).value, pattern, searchConfig), outputConfig)
            == [FormatCount(CountOf(path, read, pattern, searchConfig), Some(path), outputConfig.showFilename)]
  {
  }

  /**
   * In counting mode a successful run prints one line per file, in file
   * order, each rendering that file's count.
   */
  lemma {:induction false} CountModeLinePerFile(paths: seq<string>, read: Reader, pattern: string,
                                                searchConfig: SearchConfig, outputConfig: OutputConfig)
    requires outputConfig.mode == OutputMode.Count && AllReadable(paths, read)
    ensures var out := RunFiles(paths, read, pattern, searchConfig, outputConfig).printed;
            && |out| == |paths|
            && forall j :: 0 <= j < |paths| ==>
                 out[j] == FormatCount(CountOf(paths[j], read, pattern, searchConfig), Some(paths[j]),
                                       outputConfig.showFilename)
  {
    if paths != [] {
      ReadableTail(paths, read);
      CountModeLinePerFile(paths[1..], read, pattern, searchConfig, outputConfig);
      var out := RunFiles(paths, read, pattern, searchConfig, outputConfig).printed;
      var rest := RunFiles(paths[1..], read, pattern, searchConfig, outputConfig).printed;
      RunFilesStep(paths, read, pattern, searchConfig, outputConfig);
      CountModeHead(paths[0], read, pattern, searchConfig, outputConfig);
      forall j | 1 <= j < |paths|
        ensures out[j] == FormatCount(CountOf(paths[j], read, pattern, searchConfig), Some(paths[j]),
                                      outputConfig.showFilename)
      {
        assert out[j] == rest[j - 1];
        assert paths[1..][j - 1] == paths[j];
      }
    }
  }

  /**
   * Otherwise a successful run prints as many lines as the files have
   * selected lines altogether.
   */
  lemma {:induction false} FullLinesTotal(paths: seq<string>, read: Reader, pattern: string,
                                          searchConfig: SearchConfig, outputConfig: OutputConfig)
    requires outputConfig.mode == FullLines
    ensures |RunFiles(paths, read, pattern, searchConfig, outputConfig).printed|
            <= TotalCount(paths, read, pattern, searchConfig)
    ensures AllReadable(paths, read) ==>
              |RunFiles(paths, read, pattern, searchConfig, outputConfig).printed|
              == TotalCount(paths, read, pattern, searchConfig)
  {
    if paths != [] {
      FullLinesTotal(paths[1..], read, pattern, searchConfig, outputConfig);
      if AllReadable(paths, read) {
        ReadableTail(paths, read);
      }
    }
  }

  // ---------------------------------------------------------------------
  // Properties of a whole run
  // ---------------------------------------------------------------------

  /** A rejected command line prints nothing and ends with the parse error, whatever the resolver and the reader. */
  lemma ArgumentErrorPrintsNothing(args: seq<string>, resolve: Resolver, read: Reader)
    requires ArgsOutcome(args).Err?
    ensures RunOutcome(args, resolve, read) == Outcome([], Err(ArgsOutcome(args).error))
  {
  }

  /**
   * One file, without "-n" and "-c": the run prints the selected lines
   * themselves, with no prefix, in line order.
   */
  lemma SingleFilePlain(args: seq<string>, resolve: Resolver, read: Reader, path: string)
    requires ArgsOutcome(args).Ok?
    requires LineNumbers !in ArgsOutcome(args).value.flags
    requires Flag.Count !in ArgsOutcome(args).value.flags
    requires resolve(ArgsOutcome(args).value.filePatterns) == Ok([path])
    requires read(path).Ok?
    ensures var parsed := ArgsOutcome(args).value;
            var r := Search(read(path).value, parsed.pattern, FromFlags(parsed.flags));
            RunOutcome(args, resolve, read)
            == Outcome(seq(|r.matches|, j requires 0 <= j < |r.matches| => r.matches[j].content), Ok(()))
  {
    var parsed := ArgsOutcome(args).value;
    var sc := FromFlags(parsed.flags);
    var oc := NewOutputConfig(parsed.flags, false);
    var r := Search(read(path).value, parsed.pattern, sc);
    assert [path][1..] == [];
    forall j | 0 <= j < |r.matches|
      ensures MatchText(r.matches[j].content, r.matches[j].lineNumber, Some(path), oc) == r.matches[j].content
    {
      MatchTextPlain(r.matches[j].content, r.matches[j].lineNumber, Some(path), oc);
    }
    var contents := seq(|r.matches|, j requires 0 <= j < |r.matches| => r.matches[j].content);
    assert FileLines(path, r, oc) == contents;
    RunFilesStep([path], read, parsed.pattern, sc, oc);
    assert contents + [] == contents;
  }

  /**
   * Several files with "-c": every printed line is the file's path, a colon
   * and that file's count, one line per file in resolution order.
   */
  lemma MultiFileCount(args: seq<string>, resolve: Resolver, read: Reader, paths: seq<string>)
    requires ArgsOutcome(args).Ok?
    requires Flag.Count in ArgsOutcome(args).value.flags
    requires resolve(ArgsOutcome(args).value.filePatterns) == Ok(paths)
    requires |paths| > 1 && AllReadable(paths, read)
    ensures RunOutcome(args, resolve, read).status == Ok(())
    ensures |RunOutcome(args, resolve, read).printed| == |paths|
    ensures var parsed := ArgsOutcome(args).value;
            var out := RunOutcome(args, resolve, read).printed;
            forall j :: 0 <= j < |paths| ==>
              out[j] == paths[j] + ":" + NatToString(CountOf(paths[j], read, parsed.pattern, FromFlags(parsed.flags)))
  {
    var parsed := ArgsOutcome(args).value;
    var sc := FromFlags(parsed.flags);
    var oc := NewOutputConfig(parsed.flags, true);
    assert RunOutcome(args, resolve, read) == RunFiles(paths, read, parsed.pattern, sc, oc);
    CountModeLinePerFile(paths, read, parsed.pattern, sc, oc);
    RunFilesSucceeds(paths, read, parsed.pattern, sc, oc);
    var status := RunOutcome(args, resolve, read).status;
    assert status.Ok? && status.value == ();
    forall j | 0 <= j < |paths|
      ensures FormatCount(CountOf(paths[j], read, parsed.pattern, sc), Some(paths[j]), true)
              == paths[j] + ":" + NatToString(CountOf(paths[j], read, parsed.pattern, sc))
    {
    }
  }

  /**
   * A run over one three-line file searching for "two" prints only the
   * middle line.
   */
  lemma BasicRun(resolve: Resolver, read: Reader)
    requires resolve(["file.txt"]) == Ok(["file.txt"])
    requires read("file.txt") == Ok("line one\nline two\nline three")
    ensures RunOutcome(["program", "two", "file.txt"], resolve, read) == Outcome(["line two"], Ok(()))
  {
    var args := ["program", "two", "file.txt"];
    var plain := ["two", "file.txt"];
    assert args == ["program"] + ([] + plain);
    assert plain[1..] == ["file.txt"];
    FlagsThenPositionals("program", [], plain);
    assert FromFlags([]) == SearchConfig(false, false);
    SingleFilePlain(args, resolve, read, "file.txt");
    BasicRunLines();
  }

  lemma BasicRunLines()
    ensures var r := Search("line one\nline two\nline three", "two", SearchConfig(false, false));
            seq(|r.matches|, j requires 0 <= j < |r.matches| => r.matches[j].content) == ["line two"]
  {
    BasicSearch();
  }
}
