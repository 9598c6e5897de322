# rep, modelled in Dafny

`rep` is a small grep-like command-line tool. It is invoked as
`rep [-n] [-i] [-c] [-v] <pattern> <file-pattern>...`. It checks the command line and expands the file
patterns into paths. It then searches every file, in order, for lines that contain a literal pattern.
It prints either the matching lines or a count per file, and stops at the first file it cannot read.

This project models the core of the tool in Dafny and proves properties of the model:

- `flags.dfy` (module `Flags`) covers flag recognition: the six flag tokens and the
  extraction of flags from the command line.
- `search.dfy` (module `SearchEngine`) covers the search itself. It splits the text into lines, matches
  each line with or without case folding, and can invert the selection.
- `output.dfy` (module `Output`) covers the output mode, the output configuration, and
  the rendering of a match (`file:lineno:line`) or of a count (`file:count`).
- `args.dfy` (module `Args`) covers the validation scan over the command line: flags, pattern,
  file patterns, and the error cases.
- `rep.dfy` (module `Rep`) covers the driver. `run` parses, resolves and configures. It then processes
  the files one by one, and `process_file` searches and prints each one.
- `strings.dfy` models the parts of Rust's standard library that the tool uses:
  `str::contains`, `to_lowercase` on ASCII letters, `str::lines`, decimal rendering of
  unsigned integers and `join`.
- `errors.dfy` holds the error kinds and `wrappers.dfy` holds `Option`/`Result`.

Each operation takes the form its source has:

- Pure iterator chains and `match` expressions become functions. Their properties are stated
  as `ensures` clauses or as lemmas.
- The loops become methods with loop invariants. These are the reverse scan of
  `OutputMode::from_flags`, the validation loop of `parse_args`, the file loop of `run`, and the
  match loop of `process_file`.
- `format_match` has no loop. It becomes a straight-line method that builds a sequence of parts
  and joins it with colons.
- Each method is proved equal to a specification function. The function's properties are then
  proved as lemmas.

Printing to standard output is modelled as the sequence of printed lines that a method returns.
Expanding file patterns and reading files belong to the operating system. They enter the model
as two function parameters, `resolve` and `read`, each of which returns a `Result`.

## Model

| member | source | states |
|---|---|---|
| Flags.FromArg | src/flags.rs:12-22 | Exactly the tokens `-n -i -c -v -w -V` are recognised, each as the flag whose token it is, and every recognised token starts with `-` |
| Flags.FromArgToken | src/flags.rs:12-22 | Recognition inverts the token table: each of the six flags is recognised from its own token |
| Flags.TokenInjective | src/flags.rs:14-19 | Distinct flags have distinct tokens, so each token maps to one flag only |
| Flags.FromArgRejects | src/flags.rs:46-47 | `-x` and `pattern` are not recognised |
| Flags.ParseFlags | src/flags.rs:25-30 | No arguments give no flags; otherwise there are at most as many flags as arguments after the program name |
| Flags.Recognised | src/flags.rs:26-29 | Each token contributes at most one flag, so there are never more flags than tokens |
| Flags.RecognisedAppend | src/flags.rs:26-29 | Flag extraction distributes over concatenation of token lists, so flags keep their command-line order |
| Flags.RecognisedCount | src/flags.rs:25-30 | Each flag occurs in the result exactly as often as its token occurs, so duplicates are kept |
| Flags.RecognisedIgnoresPlainTokens | src/flags.rs:14-19 | Tokens that do not start with `-` never contribute a flag |
| Flags.ParseFlagsSkipsProgramName | src/flags.rs:27 | The first argument never influences the flags, and the flags are those of the remaining tokens |
| Flags.ParseFlagsLeading | src/flags.rs:50-79 | The source's cases with one flag, two flags, and `-n -c`, each before the pattern |
| Flags.ParseFlagsVerboseAndNone | src/flags.rs:94-112 | The source's case of `-V -n` in that order, and of a command line without flags |
| Flags.ParseFlagsDuplicates | src/flags.rs:114-124 | `-n -n -i` gives LineNumbers twice and then CaseInsensitive |
| Flags.ParseFlagsMixedOrder | src/flags.rs:81-92 | Flags interleaved with positionals are collected in order |
| SearchEngine.FromFlags | src/search.rs:19-25 | Case folding is on iff `-i` was given, and inversion is on iff `-v` was given |
| SearchEngine.SelectLines | src/search.rs:29-54 | At most one entry per scanned line. The closure's two tests are `IsMatch` (src/search.rs:33-37: containment, after ASCII folding of line and pattern when asked) and `ShouldInclude` (src/search.rs:39-43: the match, negated when inverted). The complete characterisation of what it collects is SelectLinesIsSelection together with SelectionIsSelectLines |
| SearchEngine.SelectLinesIsSelection | src/search.rs:29-54 | The collected matches form a selection. Every entry is a line index below the line count, carrying exactly that line. Indices strictly increase. An index is present iff its line is reported (it matches, or does not match when inverted) |
| SearchEngine.SelectionIsSelectLines | src/search.rs:29-54 | Only one sequence meets the selection property, so that property determines the search result completely |
| SearchEngine.SearchSelects | src/search.rs:28-62 | The result of `search` is the selection of all lines of the content |
| SearchEngine.Search | src/search.rs:56-61 | `total_count` equals the number of matches |
| SearchEngine.SelectCountsSum | src/search.rs:39-43 | Over any prefix of the lines, the plain and the inverted selection together have as many entries as there are lines |
| SearchEngine.InvertPartitions | src/search.rs:39-43 | The plain and inverted searches (same text, pattern and folding) report disjoint line numbers. Every line is reported by exactly one of them, and their counts sum to the line count |
| SearchEngine.EmptyPatternMatches | src/search.rs:33-37 | The empty pattern matches every line, whether folded or not |
| SearchEngine.EmptyPattern | src/search.rs:33-43 | The empty pattern reports every line, with its index and text, or no line when inverted |
| SearchEngine.EmptyContent | src/search.rs:29-31 | Empty content yields no matches and a count of 0, inverted or not |
| SearchEngine.CaseInsensitiveIgnoresCase | src/search.rs:33-49 | With folding on, upper-casing the text selects the same line numbers. Each entry then carries the upper-cased original line, so reported content is the line as written, not its folded form |
| SearchEngine.MatchIgnoringCaseAtStart | src/search.rs:33-35 | A line starting with the pattern up to ASCII case matches it under folding |
| SearchEngine.BasicSearch | src/search.rs:68-80 | Searching `two` in the three-line text gives one match, at index 1, with content `line two` |
| SearchEngine.CaseInsensitiveSearch | src/search.rs:82-92 | Searching `line` with folding finds all three differently cased lines |
| SearchEngine.InvertedSearch | src/search.rs:94-106 | Searching `two` inverted gives `line one` (index 0) and then `line three` (index 2) |
| SearchEngine.NoMatches | src/search.rs:108-119 | Searching `four` gives no matches and a count of 0 |
| Strings.Contains | src/search.rs:34-36 | A pattern can only occur in a line at least as long as itself. A pattern that starts the line occurs in it. Of two strings of equal length, one contains the other iff they are equal |
| Strings.Lower | src/search.rs:34 | Folding keeps the length, leaves no ASCII capital, turns every ASCII capital into a small letter, and keeps every other character |
| Strings.Lines | src/search.rs:30 | No line contains a line feed. There are at most as many lines as characters, and no lines exactly for the empty text |
| Strings.ContainsIff | src/search.rs:36 | Substring containment holds iff the pattern occurs at some position of the line |
| Strings.LinesOfLfTerminated | src/search.rs:30 | Line splitting inverts newline termination for lines without line feeds that do not end in a carriage return |
| Strings.LinesOfCrlfTerminated | src/search.rs:30 | Line splitting inverts CR LF termination for lines without line feeds |
| Strings.LinesCount | src/search.rs:30 | There is one line per line feed, plus one for a non-empty unterminated last line |
| Strings.LinesUpper | src/search.rs:30 | Upper-casing a text upper-cases each of its lines and keeps their number |
| Strings.Join | src/output.rs:56 | Joining no parts gives the empty string. A join of at least one part starts with the first part |
| Strings.JoinEndsWithLast | src/output.rs:56 | A join of at least one part ends with the last part |
| Strings.NatToString | src/output.rs:49 | The decimal rendering is a non-empty string of digits, with a leading `0` only for zero itself |
| Strings.ParseNatToString | src/output.rs:49 | Reading back the decimal rendering of a number gives the number |
| Output.ModeFromFlags | src/output.rs:10-17 | The reverse scan returns Count iff `-c` occurs anywhere in the flags |
| Output.NewOutputConfig | src/output.rs:27-36 | The mode is Count iff `-c` was given. Line numbers are shown iff `-n` was given and the mode is not Count. File names are shown iff there are several files |
| Output.FormatMatch | src/output.rs:39-58 | Joining the parts with colons yields the file name and a colon when a name is given and shown, then the one-based line number and a colon when numbers are shown, then the line |
| Output.MatchTextPlain | src/output.rs:52-53 | With no prefix to show, the line is printed unchanged |
| Output.MatchTextEndsWithLine | src/output.rs:52-57 | A printed match always ends with the line itself |
| Output.MatchTextLineNumber | src/output.rs:48-50 | Without a file name, the first field is the decimal one-based line number and it reads back as `line_number + 1`. The rest is the line |
| Output.MatchTextFilename | src/output.rs:42-46 | With the file name shown, the first field is that name (one without a colon). The rest is what would be printed without the name |
| Output.FormatCount | src/output.rs:60-65 | With a file name given and shown, the file name, a colon and the decimal count. Otherwise the decimal count alone |
| Output.FormatCountReadsBack | src/output.rs:60-65 | The last field reads back as the count. The name and a colon precede it exactly when a name is given and shown; otherwise the bare count is printed |
| Output.ModeExamples | src/output.rs:71-77 | The source's four mode cases |
| Output.ConfigExamples | src/output.rs:79-90 | The source's two configuration cases |
| Output.MatchExamples | src/output.rs:92-106 | `test line` without prefixes, and `1:test line` with line numbers |
| Output.MatchWithFilenameExamples | src/output.rs:108-113 | `file.txt:1:test line` with both prefixes, and line index 4 printed as `5` |
| Output.CountExamples | src/output.rs:116-121 | The source's three count renderings |
| Args.ParseArgs | src/args.rs:17-55 | The validation loop returns exactly the outcome `ArgsOutcome` specifies: its error cases, or the parsed flags, pattern and file patterns |
| Args.Usage | src/args.rs:12-14 | The usage line is `Usage: `, then the program name as invoked, then the fixed flag and operand list |
| Args.UsageNamesProgram | src/args.rs:12-14 | The usage line determines the program name: distinct names give distinct lines |
| Args.FirstUnknown | src/args.rs:30-36 | The position found is that of the first unknown dash token, or the end when there is none |
| Args.Positionals | src/args.rs:38-40 | The collected non-flag arguments number at most the tokens and none of them starts with `-` |
| Args.PositionalsAppend | src/args.rs:38-40 | Collecting non-flag arguments distributes over concatenation, so their order is kept |
| Args.NoArguments | src/args.rs:18-22 | An empty command line is rejected with `No arguments provided` |
| Args.UnknownFlagRejected | src/args.rs:31-36 | The command line is rejected for an unknown flag iff some argument after the program name is an unknown dash token. The message is the first such token, a newline and the usage |
| Args.TooFewPositionals | src/args.rs:43-45 | Without unknown flags, the command line is rejected iff fewer than two non-flag arguments remain, and then with the usage |
| Args.ParsedShape | src/args.rs:47-54 | On success, the flags are `parse_flags(args)`. The pattern is the first non-flag argument and the file patterns, at least one, are the rest. Together they equal `extract_non_flag_args(args)` |
| Args.FlagPositionIrrelevant | src/args.rs:30-41 | Moving a run of flag tokens in front of the positionals before it does not change the outcome |
| Args.ExtractNonFlagArgs | src/args.rs:58-64 | No arguments give nothing. Otherwise at most one entry per argument after the program name, and each entry is such an argument that is not a flag token |
| Args.NonFlagsArePositionals | src/args.rs:58-64 | Without unknown flags, `extract_non_flag_args` yields exactly the positionals the validation scan collects |
| Args.NonFlagsPartition | src/args.rs:58-64 | Every argument after the program name is either a recognised flag or an extracted non-flag argument |
| Args.ParseBasic | src/args.rs:71-83 | `program pattern file.txt` parses to no flags, pattern `pattern`, file `file.txt` |
| Args.ParseWithFlags | src/args.rs:85-99 | `-n -i` before the positionals are kept in order |
| Args.ParseMultipleFiles | src/args.rs:101-115 | Two file patterns are kept in order |
| Args.ParseMixedOrder | src/args.rs:117-131 | A flag between the pattern and the file parses as if it came first |
| Args.ParseInsufficient | src/args.rs:133-142 | `program` alone and `program pattern` are rejected with the usage |
| Args.ParseUnknownFlag | src/args.rs:34-36 | `-x` is rejected as an unknown flag, with the token and the usage in the message |
| Rep.ProcessFile | src/lib.rs:36-83 | An unreadable file prints nothing and ends with the read error. Otherwise: in Count mode the file prints its count line, and in FullLines mode one rendered line per match, in match order |
| Rep.ProcessFiles | src/lib.rs:29-31 | The file loop prints and ends exactly as the file-by-file specification `RunFiles` does |
| Rep.Run | src/lib.rs:16-34 | Argument and resolution errors end the run with nothing printed. Otherwise one search configuration and one output configuration, showing file names iff more than one path was resolved, serve every file in order |
| Rep.RunFilesSucceeds | src/lib.rs:29-31 | A run over files succeeds iff every file can be read |
| Rep.FirstErrorStops | src/lib.rs:29-31 | The first unreadable file ends the run with its error. The printed output is exactly that of the files before it, and nothing from the files after it |
| Rep.RunFilesSplit | src/lib.rs:29-31 | Once the first k files have been read, the output is theirs followed by that of the remaining files, and the run ends as the remaining files' run ends |
| Rep.CountModeOneLine | src/lib.rs:60-68 | In Count mode a file prints exactly one line, whose last field reads back as its number of matches |
| Rep.FullLinesOnePerMatch | src/lib.rs:69-79 | In FullLines mode a file prints one line per match, each ending with the matched line's text |
| Rep.CountModeLinePerFile | src/lib.rs:60-68 | In Count mode a successful run prints one line per file, in file order, each the rendering of that file's count |
| Rep.FullLinesTotal | src/lib.rs:69-79 | In FullLines mode a run prints at most as many lines as the files have matches, and exactly that many when every file can be read |
| Rep.ArgumentErrorPrintsNothing | src/lib.rs:17 | A rejected command line prints nothing and ends with the parse error |
| Rep.SingleFilePlain | src/lib.rs:69-79 | With one file, no `-n` and no `-c`, the printed lines are exactly the matched lines' contents |
| Rep.MultiFileCount | src/lib.rs:60-68 | With `-c` and several readable files, the run succeeds. It prints, for each file in order, its path, a colon and its count |
| Rep.BasicRun | src/lib.rs:16-34 | `program two file.txt` over the three-line file prints `line two` only and succeeds |

## Left out

- `src/file_ops.rs` is not part of this model. Glob expansion and `fs::read_to_string` are operating-system work, so they are the `resolve` and `read` parameters of `Rep.Run`.
- `src/main.rs` is not part of this model: reading `env::args`, printing the error and choosing the exit code.
- The `Display` texts of the errors in `src/error.rs` carry no logic. Errors are a plain datatype whose payload is the message the raising code builds.
- `RepError::UnknownFlag` is raised by `src/args.rs:34` but is not declared in `src/error.rs`. The model follows `args.rs` and adds it. `RepError::Help` is never constructed and is left out.
- Verbose diagnostics on standard error (`src/lib.rs:24-27`, `44-50`, `56-58`) never affect results, so they are not modelled. They also read an `output_config.verbose` field that `OutputConfig` (`src/output.rs:20-24`) does not have. The model follows the declared struct and has no such field.
- `-w` (WordMatch) and `-V` (Verbose) are recognised like the other flags. Nothing in the search or output consults them, and the model does the same.
- Strings.LowerChar: `to_lowercase` is modelled on ASCII letters only. Rust's Unicode lower-casing of other letters, and the length changes it can cause, are not covered.
- Strings.Lines: `str::lines` is modelled as modern Rust defines it. Each line loses its line feed and then one carriage return before it. A final unterminated line keeps a trailing carriage return.
- `usize` is modelled as an unbounded natural, so the overflow of `line_number + 1` at `usize::MAX` is not covered.
- File names are modelled as strings. The lossy conversion of a path to text (`to_string_lossy`) is not covered.
- Rep.ProcessFiles: the source writes the file loop inside `run`. The model puts it in a method of its own that `Rep.Run` calls, and keeps the same loop, the same order and the same early exit.
