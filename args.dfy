/** Validation of the command line into flags, a pattern and file patterns (src/args.rs). */
module Args {
  import opened Wrappers
  import opened Errors
  import opened Flags

  datatype ParsedArgs = ParsedArgs(flags: seq<Flag>, pattern: string, filePatterns: seq<string>)

  /** The flags and operands the usage line lists after the program name. */
  const UsageOperands := " [-n] [-i] [-c] [-v] <pattern> <filename>"

  /** The usage line, naming the program as it was invoked. */
  function Usage(programName: string): (u: string)
    ensures |u| == 7 + |programName| + |UsageOperands|
    ensures u[..7] == "Usage: "
    ensures u[7..7 + |programName|] == programName
    ensures u[7 + |programName|..] == UsageOperands
  {
    "Usage: " + programName + UsageOperands
  }

  /** Distinct program names give distinct usage lines. */
  lemma UsageNamesProgram(a: string, b: string)
    requires Usage(a) == Usage(b)
    ensures a == b
  {
    assert |a| == |b|;
    assert a == Usage(a)[7..7 + |a|];
  }

  /** A token is treated as a flag exactly when it starts with '-'. */
  predicate IsDashed(arg: string)
  {
    |arg| > 0 && arg[0] == '-'
  }

  /** A dashed token that is not one of the flag tokens. */
  predicate IsUnknownFlag(arg: string)
  {
    IsDashed(arg) && FromArg(arg).None?
  }

  /** The position of the first unknown flag among `tokens`, or |tokens| when there is none. */
  function FirstUnknown(tokens: seq<string>): (k: nat)
    ensures k <= |tokens|
    ensures k < |tokens| ==> IsUnknownFlag(tokens[k])
    ensures forall j :: 0 <= j < k ==> !IsUnknownFlag(tokens[j])
  {
    if tokens == [] || IsUnknownFlag(tokens[0]) then 0 else 1 + FirstUnknown(tokens[1..])
  }

  /** The tokens that do not start with '-', in order. */
  function Positionals(tokens: seq<string>): (r: seq<string>)
    ensures |r| <= |tokens|
    ensures forall j :: 0 <= j < |r| ==> !IsDashed(r[j])
  {
    if tokens == [] then []
    else (if IsDashed(tokens[0]) then [] else [tokens[0]]) + Positionals(tokens[1..])
  }

  /**
   * What parsing the command line yields: no arguments at all is an error;
   * otherwise the first unknown flag after the program name is an error
   * naming that token and the usage; otherwise fewer than two positionals is
   * a usage error; otherwise the flags in order, the first positional as the
   * pattern and the remaining positionals as file patterns.
   */
  function ArgsOutcome(args: seq<string>): Result<ParsedArgs, RepError>
  {
    if args == [] then Err(InvalidArguments("No arguments provided"))
    else
      var tokens := args[1..];
      var k := FirstUnknown(tokens);
      if k < |tokens| then Err(UnknownFlag(tokens[k] + "\n" + Usage(args[0])))
      else
        var positionals := Positionals(tokens);
        if |positionals| < 2 then Err(InvalidArguments(Usage(args[0])))
        else Ok(ParsedArgs(Recognised(tokens), positionals[0], positionals[1..]))
  }

  /**
   * Walks the arguments after the program name once, collecting flags and
   * positionals and stopping at the first unknown flag.
   */
  method ParseArgs(args: seq<string>) returns (r: Result<ParsedArgs, RepError>)
    ensures r == ArgsOutcome(args)
  {
    if |args| == 0 {
      return Err(InvalidArguments("No arguments provided"));
    }
    var programName := args[0];
    var flags: seq<Flag> := [];
    var nonFlagArgs: seq<string> := [];
    var i := 1;
    while i < |args|
      invariant 1 <= i <= |args|
      invariant flags == Recognised(args[1..i])
      invariant nonFlagArgs == Positionals(args[1..i])
      invariant NoUnknown(args[1..i])
    {
      var arg := args[i];
      ArgStep(args, i);
      if IsDashed(arg) {
        match FromArg(arg)
        case Some(flag) =>
          flags := flags + [flag];
        case None =>
          return Err(UnknownFlag(arg + "\n" + Usage(programName)));
      } else {
        nonFlagArgs := nonFlagArgs + [arg];
      }
      i := i + 1;
    }
    ArgsDone(args, i);
    if |nonFlagArgs| < 2 {
      return Err(InvalidArguments(Usage(programName)));
    }
    var pattern := nonFlagArgs[0];
    var filePatterns := nonFlagArgs[1..];
    return Ok(ParsedArgs(flags, pattern, filePatterns));
  }

  /** What one more argument contributes to the loop's state in ParseArgs. */
  lemma ArgStep(args: seq<string>, i: nat)
    requires 1 <= i < |args|
    requires NoUnknown(args[1..i])
    ensures Recognised(args[1..i + 1]) == Recognised(args[1..i]) + FlagsOf(args[i])
    ensures Positionals(args[1..i + 1])
            == Positionals(args[1..i]) + (if IsDashed(args[i]) then [] else [args[i]])
    ensures !IsUnknownFlag(args[i]) ==> NoUnknown(args[1..i + 1])
    ensures IsUnknownFlag(args[i]) ==> ArgsOutcome(args) == Err(UnknownFlag(args[i] + "\n" + Usage(args[0])))
  {
    var before := args[1..i];
    assert args[1..i + 1] == before + [args[i]];
    RecognisedAppend(before, [args[i]]);
    PositionalsAppend(before, [args[i]]);
    OneToken(args[i]);
    if IsUnknownFlag(args[i]) {
      UnknownAt(args, i);
    } else {
      NoUnknownAppend(before, [args[i]]);
    }
  }

  lemma UnknownAt(args: seq<string>, i: nat)
    requires 1 <= i < |args|
    requires NoUnknown(args[1..i]) && IsUnknownFlag(args[i])
    ensures ArgsOutcome(args) == Err(UnknownFlag(args[i] + "\n" + Usage(args[0])))
  {
    var tokens := args[1..];
    forall j | 0 <= j < i - 1
      ensures !IsUnknownFlag(tokens[j])
    {
      assert tokens[j] == args[1..i][j];
    }
    FirstUnknownAt(tokens, i - 1);
  }

  /** After the whole command line without an unknown flag, the state covers all tokens. */
  lemma ArgsDone(args: seq<string>, i: nat)
    requires 1 <= i == |args|
    requires NoUnknown(args[1..i])
    ensures args[1..i] == args[1..]
    ensures var ps := Positionals(args[1..]);
            ArgsOutcome(args)
            == if |ps| < 2 then Err(InvalidArguments(Usage(args[0])))
               else Ok(ParsedArgs(Recognised(args[1..]), ps[0], ps[1..]))
  {
    assert args[1..i] == args[1..];
    OutcomeWithoutUnknown(args);
  }

  /** The share of a single token: its flag, or itself as a positional. */
  lemma OneToken(arg: string)
    ensures Recognised([arg]) == FlagsOf(arg)
    ensures Positionals([arg]) == if IsDashed(arg) then [] else [arg]
  {
    assert [arg][1..] == [];
  }

  lemma FirstUnknownAt(tokens: seq<string>, k: nat)
    requires k < |tokens| && IsUnknownFlag(tokens[k])
    requires forall j :: 0 <= j < k ==> !IsUnknownFlag(tokens[j])
    ensures FirstUnknown(tokens) == k
  {
  }

  lemma FirstUnknownNone(tokens: seq<string>)
    requires forall j :: 0 <= j < |tokens| ==> !IsUnknownFlag(tokens[j])
    ensures FirstUnknown(tokens) == |tokens|
  {
  }

  /** Positionals distribute over concatenation, so their order is kept. */
  lemma {:induction false} PositionalsAppend(a: seq<string>, b: seq<string>)
    ensures Positionals(a + b) == Positionals(a) + Positionals(b)
  {
    if a == [] {
      assert a + b == b;
    } else {
      assert (a + b)[1..] == a[1..] + b;
      PositionalsAppend(a[1..], b);
    }
  }

  /** The tokens that are not flag tokens (unknown dashed tokens included). */
  function NonFlags(tokens: seq<string>): (r: seq<string>)
    ensures |r| <= |tokens|
    ensures forall j :: 0 <= j < |r| ==> FromArg(r[j]).None? && r[j] in tokens
  {
    if tokens == [] then []
    else (if FromArg(tokens[0]).None? then [tokens[0]] else []) + NonFlags(tokens[1..])
  }

  /** The arguments after the program name that are not flag tokens. */
  function ExtractNonFlagArgs(args: seq<string>): (r: seq<string>)
    ensures args == [] ==> r == []
    ensures args != [] ==> |r| <= |args| - 1
    ensures forall j :: 0 <= j < |r| ==> FromArg(r[j]).None? && r[j] in args[1..]
  {
    if args == [] then [] else NonFlags(args[1..])
  }

  /** Without unknown flags, the non-flag tokens are exactly the positionals. */
  lemma {:induction false} NonFlagsArePositionals(tokens: seq<string>)
    requires forall j :: 0 <= j < |tokens| ==> !IsUnknownFlag(tokens[j])
    ensures NonFlags(tokens) == Positionals(tokens)
  {
    if tokens != [] {
      NonFlagsArePositionals(tokens[1..]);
    }
  }

  /** Every token after the program name is a flag token or lands in the extracted list. */
  lemma {:induction false} NonFlagsPartition(tokens: seq<string>)
    ensures |NonFlags(tokens)| + |Recognised(tokens)| == |tokens|
  {
    if tokens != [] {
      NonFlagsPartition(tokens[1..]);
    }
  }

  // ---------------------------------------------------------------------
  // Properties
  // ---------------------------------------------------------------------

  /** An empty command line is rejected with its own message. */
  lemma NoArguments()
    ensures ArgsOutcome([]) == Err(InvalidArguments("No arguments provided"))
  {
  }

  /**
   * The command line is rejected for an unknown flag exactly when some token
   * after the program name is one, and the message names the first of them
   * followed by the usage.
   */
  lemma UnknownFlagRejected(args: seq<string>)
    requires args != []
    ensures ArgsOutcome(args).Err? && ArgsOutcome(args).error.UnknownFlag?
            <==> exists j :: 1 <= j < |args| && IsUnknownFlag(args[j])
    ensures forall k :: 1 <= k < |args| && IsUnknownFlag(args[k])
                        && (forall j :: 1 <= j < k ==> !IsUnknownFlag(args[j])) ==>
              ArgsOutcome(args) == Err(UnknownFlag(args[k] + "\n" + Usage(args[0])))
  {
    var tokens := args[1..];
    var k := FirstUnknown(tokens);
    if k < |tokens| {
      assert IsUnknownFlag(args[k + 1]);
    }
    forall k' | 1 <= k' < |args| && IsUnknownFlag(args[k'])
                && (forall j :: 1 <= j < k' ==> !IsUnknownFlag(args[j]))
      ensures ArgsOutcome(args) == Err(UnknownFlag(args[k'] + "\n" + Usage(args[0])))
    {
      FirstUnknownAt(tokens, k' - 1);
    }
  }

  /**
   * Without unknown flags, the command line is rejected exactly when fewer
   * than two positionals remain, and then with the usage.
   */
  lemma TooFewPositionals(args: seq<string>)
    requires args != []
    requires forall j :: 1 <= j < |args| ==> !IsUnknownFlag(args[j])
    ensures ArgsOutcome(args).Err? <==> |Positionals(args[1..])| < 2
    ensures ArgsOutcome(args).Err? ==> ArgsOutcome(args) == Err(InvalidArguments(Usage(args[0])))
  {
    FirstUnknownNone(args[1..]);
  }

  /**
   * A successful parse keeps every flag in order, takes the first positional
   * as the pattern and the rest, at least one, as file patterns; these are
   * exactly the extracted non-flag arguments.
   */
  lemma ParsedShape(args: seq<string>)
    requires ArgsOutcome(args).Ok?
    ensures var p := ArgsOutcome(args).value;
            && p.flags == ParseFlags(args)
            && |p.filePatterns| >= 1
            && [p.pattern] + p.filePatterns == Positionals(args[1..])
            && [p.pattern] + p.filePatterns == ExtractNonFlagArgs(args)
            && !IsDashed(p.pattern)
            && forall j :: 0 <= j < |p.filePatterns| ==> !IsDashed(p.filePatterns[j])
  {
    var tokens := args[1..];
    NonFlagsArePositionals(tokens);
    var ps := Positionals(tokens);
    assert ps == [ps[0]] + ps[1..];
  }

  /** Every token of `tokens` is one of the flag tokens. */
  predicate AllFlagTokens(tokens: seq<string>)
  {
    forall j :: 0 <= j < |tokens| ==> FromArg(tokens[j]).Some?
  }

  /** No token of `tokens` starts with '-'. */
  predicate AllPlain(tokens: seq<string>)
  {
    forall j :: 0 <= j < |tokens| ==> !IsDashed(tokens[j])
  }

  /** No token of `tokens` is an unknown flag. */
  predicate NoUnknown(tokens: seq<string>)
  {
    forall j :: 0 <= j < |tokens| ==> !IsUnknownFlag(tokens[j])
  }

  lemma NoUnknownAppend(a: seq<string>, b: seq<string>)
    requires NoUnknown(a) && NoUnknown(b)
    ensures NoUnknown(a + b)
  {
    forall j | 0 <= j < |a + b|
      ensures !IsUnknownFlag((a + b)[j])
    {
      if j >= |a| {
        assert (a + b)[j] == b[j - |a|];
      }
    }
  }

  lemma {:induction false} FlagTokensShare(tokens: seq<string>)
    requires AllFlagTokens(tokens)
    ensures Positionals(tokens) == [] && NoUnknown(tokens)
  {
    if tokens != [] {
      FlagTokensShare(tokens[1..]);
    }
  }

  lemma {:induction false} PlainShare(tokens: seq<string>)
    requires AllPlain(tokens)
    ensures Positionals(tokens) == tokens && Recognised(tokens) == [] && NoUnknown(tokens)
  {
    if tokens != [] {
      PlainShare(tokens[1..]);
    }
  }

  /** Positionals of four consecutive runs of tokens. */
  lemma PositionalsOfFour(a: seq<string>, b: seq<string>, c: seq<string>, d: seq<string>)
    ensures Positionals(a + (b + c + d)) == Positionals(a) + Positionals(b) + Positionals(c) + Positionals(d)
  {
    PositionalsAppend(a, b + c + d);
    PositionalsAppend(b + c, d);
    PositionalsAppend(b, c);
    Associate(Positionals(a), Positionals(b), Positionals(c), Positionals(d));
  }

  /** Flags of four consecutive runs of tokens. */
  lemma RecognisedOfFour(a: seq<string>, b: seq<string>, c: seq<string>, d: seq<string>)
    ensures Recognised(a + (b + c + d)) == Recognised(a) + Recognised(b) + Recognised(c) + Recognised(d)
  {
    RecognisedAppend(a, b + c + d);
    RecognisedAppend(b + c, d);
    RecognisedAppend(b, c);
    Associate(Recognised(a), Recognised(b), Recognised(c), Recognised(d));
  }

  // Generic facts about sequence concatenation, proved on their own so
  // that they are not re-derived inside the larger contexts that use them.

  lemma EmptyMoves<T>(x: seq<T>, y: seq<T>, z: seq<T>)
    ensures x + y + [] + z == x + [] + y + z
  {
  }

  lemma EmptyDrops<T>(x: seq<T>, y: seq<T>)
    ensures x + [] + y + [] == x + y + [] + []
  {
  }

  lemma Associate<T>(a: seq<T>, b: seq<T>, c: seq<T>, d: seq<T>)
    ensures a + (b + c + d) == a + b + c + d
  {
  }

  /**
   * A run of flag tokens may be moved in front of the positionals before it
   * without changing the result: flags may come before, between or after
   * the pattern and the file patterns.
   */
  lemma FlagPositionIrrelevant(name: string, lead: seq<string>, before: seq<string>,
                               flagTokens: seq<string>, after: seq<string>)
    requires NoUnknown(lead) && AllPlain(before) && AllFlagTokens(flagTokens) && AllPlain(after)
    ensures ArgsOutcome([name] + (lead + (before + flagTokens + after)))
            == ArgsOutcome([name] + (lead + (flagTokens + before + after)))
  {
    var t1 := lead + (before + flagTokens + after);
    var t2 := lead + (flagTokens + before + after);
    assert ([name] + t1)[1..] == t1;
    assert ([name] + t2)[1..] == t2;
    SharesMoved(lead, before, flagTokens, after);
    NoUnknownMoved(lead, before, flagTokens, after);
    OutcomeWithoutUnknown([name] + t1);
    OutcomeWithoutUnknown([name] + t2);
  }

  lemma SharesMoved(lead: seq<string>, before: seq<string>, flagTokens: seq<string>, after: seq<string>)
    requires AllPlain(before) && AllFlagTokens(flagTokens) && AllPlain(after)
    ensures Positionals(lead + (before + flagTokens + after)) == Positionals(lead + (flagTokens + before + after))
    ensures Recognised(lead + (before + flagTokens + after)) == Recognised(lead + (flagTokens + before + after))
  {
    PlainShare(before);
    PlainShare(after);
    FlagTokensShare(flagTokens);
    PositionalsMoved(lead, before, flagTokens, after);
    RecognisedMoved(lead, before, flagTokens, after);
  }

  lemma PositionalsMoved(lead: seq<string>, before: seq<string>, flagTokens: seq<string>, after: seq<string>)
    requires Positionals(flagTokens) == []
    ensures Positionals(lead + (before + flagTokens + after)) == Positionals(lead + (flagTokens + before + after))
  {
    var pl, pb, pa := Positionals(lead), Positionals(before), Positionals(after);
    PositionalsOfFour(lead, before, flagTokens, after);
    PositionalsOfFour(lead, flagTokens, before, after);
    EmptyMoves(pl, pb, pa);
  }

  lemma RecognisedMoved(lead: seq<string>, before: seq<string>, flagTokens: seq<string>, after: seq<string>)
    requires Recognised(before) == [] && Recognised(after) == []
    ensures Recognised(lead + (before + flagTokens + after)) == Recognised(lead + (flagTokens + before + after))
  {
    var rl, rf := Recognised(lead), Recognised(flagTokens);
    RecognisedOfFour(lead, before, flagTokens, after);
    RecognisedOfFour(lead, flagTokens, before, after);
    EmptyDrops(rl, rf);
  }

  lemma NoUnknownMoved(lead: seq<string>, before: seq<string>, flagTokens: seq<string>, after: seq<string>)
    requires NoUnknown(lead) && AllPlain(before) && AllFlagTokens(flagTokens) && AllPlain(after)
    ensures NoUnknown(lead + (before + flagTokens + after))
    ensures NoUnknown(lead + (flagTokens + before + after))
  {
    PlainShare(before);
    PlainShare(after);
    FlagTokensShare(flagTokens);
    NoUnknownAppend(before, flagTokens);
    NoUnknownAppend(before + flagTokens, after);
    NoUnknownAppend(lead, before + flagTokens + after);
    NoUnknownAppend(flagTokens, before);
    NoUnknownAppend(flagTokens + before, after);
    NoUnknownAppend(lead, flagTokens + before + after);
  }

  /** Without unknown flags, only the flags and the positionals decide the outcome. */
  lemma OutcomeWithoutUnknown(args: seq<string>)
    requires args != [] && NoUnknown(args[1..])
    ensures var ps := Positionals(args[1..]);
            ArgsOutcome(args)
            == if |ps| < 2 then Err(InvalidArguments(Usage(args[0])))
               else Ok(ParsedArgs(Recognised(args[1..]), ps[0], ps[1..]))
  {
    FirstUnknownNone(args[1..]);
  }

  /** A command line of flag tokens followed by at least two positionals. */
  lemma FlagsThenPositionals(name: string, flagTokens: seq<string>, plain: seq<string>)
    requires AllFlagTokens(flagTokens) && AllPlain(plain) && |plain| >= 2
    ensures ArgsOutcome([name] + (flagTokens + plain))
            == Ok(ParsedArgs(Recognised(flagTokens), plain[0], plain[1..]))
  {
    var tokens := flagTokens + plain;
    assert ([name] + tokens)[1..] == tokens;
    PositionalsAppend(flagTokens, plain);
    RecognisedAppend(flagTokens, plain);
    FlagTokensShare(flagTokens);
    PlainShare(plain);
    assert Positionals(tokens) == plain;
    assert Recognised(tokens) == Recognised(flagTokens);
    NoUnknownAppend(flagTokens, plain);
    OutcomeWithoutUnknown([name] + tokens);
  }

  lemma RecognisedPair(a: string, b: string)
    ensures Recognised([a, b]) == FlagsOf(a) + FlagsOf(b)
  {
    assert [a, b][1..] == [b];
    assert [b][1..] == [];
  }

  // ---------------------------------------------------------------------
  // The source's test cases
  // ---------------------------------------------------------------------

  lemma ParseBasic()
    ensures ArgsOutcome(["program", "pattern", "file.txt"]) == Ok(ParsedArgs([], "pattern", ["file.txt"]))
  {
    var plain := ["pattern", "file.txt"];
    assert ["program", "pattern", "file.txt"] == ["program"] + ([] + plain);
    assert plain[1..] == ["file.txt"];
    FlagsThenPositionals("program", [], plain);
  }

  lemma ParseWithFlags()
    ensures ArgsOutcome(["program", "-n", "-i", "pattern", "file.txt"])
            == Ok(ParsedArgs([LineNumbers, CaseInsensitive], "pattern", ["file.txt"]))
  {
    var plain := ["pattern", "file.txt"];
    assert ["program", "-n", "-i", "pattern", "file.txt"] == ["program"] + (["-n", "-i"] + plain);
    assert plain[1..] == ["file.txt"];
    RecognisedPair("-n", "-i");
    assert FlagsOf("-n") == [LineNumbers] && FlagsOf("-i") == [CaseInsensitive];
    assert Recognised(["-n", "-i"]) == [LineNumbers, CaseInsensitive];
    FlagsThenPositionals("program", ["-n", "-i"], plain);
  }

  lemma ParseMultipleFiles()
    ensures ArgsOutcome(["program", "-n", "pattern", "file1.txt", "file2.txt"])
            == Ok(ParsedArgs([LineNumbers], "pattern", ["file1.txt", "file2.txt"]))
  {
    var plain := ["pattern", "file1.txt", "file2.txt"];
    assert ["program", "-n", "pattern", "file1.txt", "file2.txt"] == ["program"] + (["-n"] + plain);
    assert plain[1..] == ["file1.txt", "file2.txt"];
    assert ["-n"][1..] == [];
    assert FlagsOf("-n") == [LineNumbers];
    assert Recognised(["-n"]) == [LineNumbers];
    FlagsThenPositionals("program", ["-n"], plain);
  }

  lemma ParseMixedOrder()
    ensures ArgsOutcome(["program", "-n", "pattern", "-i", "file.txt"])
            == Ok(ParsedArgs([LineNumbers, CaseInsensitive], "pattern", ["file.txt"]))
  {
    assert ["program", "-n", "pattern", "-i", "file.txt"]
           == ["program"] + (["-n"] + (["pattern"] + ["-i"] + ["file.txt"]));
    assert ["program", "-n", "-i", "pattern", "file.txt"]
           == ["program"] + (["-n"] + (["-i"] + ["pattern"] + ["file.txt"]));
    assert NoUnknown(["-n"]);
    FlagPositionIrrelevant("program", ["-n"], ["pattern"], ["-i"], ["file.txt"]);
    ParseWithFlags();
  }

  lemma ParseInsufficient()
    ensures ArgsOutcome(["program"]) == Err(InvalidArguments(Usage("program")))
    ensures ArgsOutcome(["program", "pattern"]) == Err(InvalidArguments(Usage("program")))
  {
    assert ["program"][1..] == [];
    assert ["program", "pattern"][1..] == ["pattern"];
    assert ["pattern"][1..] == [];
  }

  lemma ParseUnknownFlag()
    ensures ArgsOutcome(["program", "-x", "pattern", "file.txt"])
            == Err(UnknownFlag("-x\n" + Usage("program")))
  {
    var args := ["program", "-x", "pattern", "file.txt"];
    assert IsUnknownFlag(args[1]);
    assert args[1] + "\n" == "-x\n";
    UnknownFlagRejected(args);
  }
}
