/** The closed set of command-line switches and their recognition (src/flags.rs). */
module Flags {
  import opened Wrappers

  datatype Flag = LineNumbers | CaseInsensitive | Invert | Count | WordMatch | Verbose

  /** The one token that stands for each flag. */
  function Token(f: Flag): string
  {
    match f
    case LineNumbers => "-n"
    case CaseInsensitive => "-i"
    case Count => "-c"
    case Invert => "-v"
    case WordMatch => "-w"
    case Verbose => "-V"
  }

  /**
   * Recognises a token: exactly the six flag tokens are recognised, each as
   * the flag it stands for, and every recognised token starts with '-'.
   */
  function FromArg(arg: string): (r: Option<Flag>)
    ensures r.Some? <==> arg in {"-n", "-i", "-c", "-v", "-w", "-V"}
    ensures r.Some? ==> Token(r.value) == arg
    ensures r.Some? ==> |arg| > 0 && arg[0] == '-'
  {
    if arg == "-n" then Some(LineNumbers)
    else if arg == "-i" then Some(CaseInsensitive)
    else if arg == "-c" then Some(Count)
    else if arg == "-v" then Some(Invert)
    else if arg == "-w" then Some(WordMatch)
    else if arg == "-V" then Some(Verbose)
    else None
  }

  /** Recognition inverts Token: every flag's token is recognised as that flag. */
  lemma FromArgToken(f: Flag)
    ensures FromArg(Token(f)) == Some(f)
  {
    match f
    case LineNumbers =>
    case CaseInsensitive =>
    case Count =>
    case Invert =>
    case WordMatch =>
    case Verbose =>
  }

  /** Distinct flags have distinct tokens. */
  lemma TokenInjective(f: Flag, g: Flag)
    ensures Token(f) == Token(g) ==> f == g
  {
    FromArgToken(f);
    FromArgToken(g);
  }

  /** Tokens that the source's own tests expect to be rejected. */
  lemma FromArgRejects()
    ensures FromArg("-x") == None
    ensures FromArg("pattern") == None
  {
  }

  /** The flag a single token contributes: one flag or none. */
  function FlagsOf(arg: string): seq<Flag>
  {
    match FromArg(arg)
    case Some(f) => [f]
    case None => []
  }

  /** The recognised tokens of `tokens`, in order, as flags. */
  function Recognised(tokens: seq<string>): (r: seq<Flag>)
    ensures |r| <= |tokens|
  {
    if tokens == [] then [] else FlagsOf(tokens[0]) + Recognised(tokens[1..])
  }

  /**
   * The flags among the command-line arguments: the first argument (the
   * program name) is skipped, every other recognised token contributes its
   * flag, in order and with repetitions.
   */
  function ParseFlags(args: seq<string>): (r: seq<Flag>)
    ensures args == [] ==> r == []
    ensures args != [] ==> |r| <= |args| - 1
  {
    if args == [] then [] else Recognised(args[1..])
  }

  /** Recognition distributes over concatenation, so the order of tokens is kept. */
  lemma {:induction false} RecognisedAppend(a: seq<string>, b: seq<string>)
    ensures Recognised(a + b) == Recognised(a) + Recognised(b)
  {
    if a == [] {
      assert a + b == b;
    } else {
      assert (a + b)[1..] == a[1..] + b;
      RecognisedAppend(a[1..], b);
    }
  }

  /** Each flag occurs in the result as often as its token occurs among the tokens. */
  lemma {:induction false} RecognisedCount(tokens: seq<string>, f: Flag)
    ensures multiset(Recognised(tokens))[f] == multiset(tokens)[Token(f)]
  {
    if tokens != [] {
      assert tokens == [tokens[0]] + tokens[1..];
      RecognisedCount(tokens[1..], f);
      FromArgToken(f);
      if FromArg(tokens[0]).Some? {
        TokenInjective(f, FromArg(tokens[0]).value);
      }
    }
  }

  /** Tokens that do not start with '-' never contribute a flag. */
  lemma {:induction false} RecognisedIgnoresPlainTokens(tokens: seq<string>)
    requires forall i :: 0 <= i < |tokens| ==> |tokens[i]| == 0 || tokens[i][0] != '-'
    ensures Recognised(tokens) == []
  {
    if tokens != [] {
      RecognisedIgnoresPlainTokens(tokens[1..]);
    }
  }

  /** The program name never influences the flags, whatever it is. */
  lemma ParseFlagsSkipsProgramName(name: string, other: string, rest: seq<string>)
    ensures ParseFlags([name] + rest) == ParseFlags([other] + rest)
    ensures ParseFlags([name] + rest) == Recognised(rest)
  {
    assert ([name] + rest)[1..] == rest;
    assert ([other] + rest)[1..] == rest;
  }

  /** The source's tests of one flag, two flags and two flags one of which is "-c". */
  lemma ParseFlagsLeading()
    ensures ParseFlags(["program", "-n", "pattern"]) == [LineNumbers]
    ensures ParseFlags(["program", "-n", "-i", "pattern"]) == [LineNumbers, CaseInsensitive]
    ensures ParseFlags(["program", "-n", "-c", "pattern"]) == [LineNumbers, Count]
  {
    RecognisedAppend(["-n"], ["pattern"]);
    assert ["program", "-n", "pattern"][1..] == ["-n"] + ["pattern"];
    RecognisedAppend(["-n", "-i"], ["pattern"]);
    assert ["program", "-n", "-i", "pattern"][1..] == ["-n", "-i"] + ["pattern"];
    RecognisedAppend(["-n", "-c"], ["pattern"]);
    assert ["program", "-n", "-c", "pattern"][1..] == ["-n", "-c"] + ["pattern"];
    assert ["-n", "-i"][1..] == ["-i"] && ["-n", "-c"][1..] == ["-c"];
  }

  /** The source's tests of "-V" before "-n" and of a command line without flags. */
  lemma ParseFlagsVerboseAndNone()
    ensures ParseFlags(["program", "-V", "-n", "pattern", "file.txt"]) == [Verbose, LineNumbers]
    ensures ParseFlags(["program", "pattern", "file.txt"]) == []
  {
    RecognisedAppend(["-V", "-n"], ["pattern", "file.txt"]);
    assert ["program", "-V", "-n", "pattern", "file.txt"][1..] == ["-V", "-n"] + ["pattern", "file.txt"];
    assert ["-V", "-n"][1..] == ["-n"];
    assert ["pattern", "file.txt"][1..] == ["file.txt"];
    assert ["program", "pattern", "file.txt"][1..] == ["pattern", "file.txt"];
  }

  /** The source's test of duplicates: "-n -n -i" after the program name. */
  lemma ParseFlagsDuplicates()
    ensures ParseFlags(["program", "-n", "-n", "-i"]) == [LineNumbers, LineNumbers, CaseInsensitive]
  {
    assert ["program", "-n", "-n", "-i"][1..] == ["-n", "-n", "-i"];
    assert ["-n", "-n", "-i"][1..] == ["-n", "-i"];
    assert ["-n", "-i"][1..] == ["-i"];
  }

  /** The source's test of flags interleaved with positionals. */
  lemma ParseFlagsMixedOrder()
    ensures ParseFlags(["program", "-n", "pattern", "-i", "file.txt"]) == [LineNumbers, CaseInsensitive]
  {
    var args := ["program", "-n", "pattern", "-i", "file.txt"];
    RecognisedAppend(["-n", "pattern"], ["-i", "file.txt"]);
    assert args[1..] == ["-n", "pattern"] + ["-i", "file.txt"];
    assert ["-n", "pattern"][1..] == ["pattern"];
    assert ["-i", "file.txt"][1..] == ["file.txt"];
  }
}
