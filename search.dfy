/** The search engine: which lines of a text a literal pattern selects (src/search.rs). */
module SearchEngine {
  import opened Strings
  import opened Flags

  datatype SearchConfig = SearchConfig(caseInsensitive: bool, invertMatch: bool)

  /** A selected line: its zero-based index among the lines and its exact text. */
  datatype MatchedLine = MatchedLine(lineNumber: nat, content: string)

  datatype SearchResult = SearchResult(matches: seq<MatchedLine>, totalCount: nat)

  /** Case folding is on iff "-i" was given; inversion is on iff "-v" was given. */
  function FromFlags(flags: seq<Flag>): (c: SearchConfig)
    ensures c.caseInsensitive <==> CaseInsensitive in flags
    ensures c.invertMatch <==> Invert in flags
  {
    SearchConfig(CaseInsensitive in flags, Invert in flags)
  }

  /** The line contains the pattern, after folding both when asked to. */
  predicate IsMatch(line: string, pattern: string, caseInsensitive: bool)
  {
    if caseInsensitive then Contains(Lower(line), Lower(pattern)) else Contains(line, pattern)
  }

  /** The line is reported: it matches, or when inverted, it does not. */
  predicate ShouldInclude(line: string, pattern: string, config: SearchConfig)
  {
    if config.invertMatch then !IsMatch(line, pattern, config.caseInsensitive)
    else IsMatch(line, pattern, config.caseInsensitive)
  }

  /** `ms` has a line number `i`. */
  predicate HasLine(ms: seq<MatchedLine>, i: nat)
  {
    exists j :: 0 <= j < |ms| && ms[j].lineNumber == i
  }

  /**
   * `ms` is what the search reports for the first `n` of `lines`: each
   * entry is an index below `n` with the line at that index, the indices
   * increase strictly, and an index is present iff its line is reported.
   */
  predicate IsSelection(ms: seq<MatchedLine>, lines: seq<string>, n: nat, pattern: string, config: SearchConfig)
    requires n <= |lines|
  {
    && (forall j :: 0 <= j < |ms| ==> ms[j].lineNumber < n && ms[j].content == lines[ms[j].lineNumber])
    && (forall j, k :: 0 <= j < k < |ms| ==> ms[j].lineNumber < ms[k].lineNumber)
    && (forall i :: 0 <= i < n ==> (ShouldInclude(lines[i], pattern, config) <==> HasLine(ms, i)))
  }

  /** The reported lines among the first `n` of `lines`, in order. */
  function SelectLines(lines: seq<string>, n: nat, pattern: string, config: SearchConfig): (ms: seq<MatchedLine>)
    requires n <= |lines|
    ensures |ms| <= n
  {
    if n == 0 then []
    else
      SelectLines(lines, n - 1, pattern, config)
      + if ShouldInclude(lines[n - 1], pattern, config) then [MatchedLine(n - 1, lines[n - 1])] else []
  }

  /** A reported next line extends a selection by its entry. */
  lemma SelectionTake(prev: seq<MatchedLine>, lines: seq<string>, n: nat, pattern: string, config: SearchConfig)
    requires 0 < n <= |lines|
    requires IsSelection(prev, lines, n - 1, pattern, config)
    requires ShouldInclude(lines[n - 1], pattern, config)
    ensures IsSelection(prev + [MatchedLine(n - 1, lines[n - 1])], lines, n, pattern, config)
  {
    var ms := prev + [MatchedLine(n - 1, lines[n - 1])];
    assert HasLine(ms, n - 1) by {
      assert ms[|prev|].lineNumber == n - 1;
    }
    forall i | 0 <= i < n - 1
      ensures HasLine(prev, i) <==> HasLine(ms, i)
    {
      if HasLine(prev, i) {
        var j :| 0 <= j < |prev| && prev[j].lineNumber == i;
        assert ms[j] == prev[j];
      }
      if HasLine(ms, i) {
        var j :| 0 <= j < |ms| && ms[j].lineNumber == i;
        assert j < |prev| && ms[j] == prev[j];
      }
    }
  }

  /** A next line that is not reported leaves a selection as it is. */
  lemma SelectionSkip(prev: seq<MatchedLine>, lines: seq<string>, n: nat, pattern: string, config: SearchConfig)
    requires 0 < n <= |lines|
    requires IsSelection(prev, lines, n - 1, pattern, config)
    requires !ShouldInclude(lines[n - 1], pattern, config)
    ensures IsSelection(prev, lines, n, pattern, config)
  {
    assert !HasLine(prev, n - 1);
  }

  /** SelectLines computes the selection. */
  lemma {:induction false} SelectLinesIsSelection(lines: seq<string>, n: nat, pattern: string, config: SearchConfig)
    requires n <= |lines|
    ensures IsSelection(SelectLines(lines, n, pattern, config), lines, n, pattern, config)
  {
    if n > 0 {
      var prev := SelectLines(lines, n - 1, pattern, config);
      SelectLinesIsSelection(lines, n - 1, pattern, config);
      if ShouldInclude(lines[n - 1], pattern, config) {
        assert SelectLines(lines, n, pattern, config) == prev + [MatchedLine(n - 1, lines[n - 1])];
        SelectionTake(prev, lines, n, pattern, config);
      } else {
        assert SelectLines(lines, n, pattern, config) == prev;
        SelectionSkip(prev, lines, n, pattern, config);
      }
    }
  }

  /**
   * Searches `content` line by line; the count is the number of entries.
   * That the entries are exactly the reported lines, in increasing line
   * order and each with its original text, is SearchSelects.
   */
  function Search(content: string, pattern: string, config: SearchConfig): (r: SearchResult)
    ensures r.totalCount == |r.matches|
  {
    var lines := Lines(content);
    var matches := SelectLines(lines, |lines|, pattern, config);
    SearchResult(matches, |matches|)
  }

  /**
   * The search result lists exactly the reported lines, in increasing line
   * order and each with its original text.
   */
  lemma SearchSelects(content: string, pattern: string, config: SearchConfig)
    ensures IsSelection(Search(content, pattern, config).matches, Lines(content), |Lines(content)|, pattern, config)
  {
    var lines := Lines(content);
    SelectLinesIsSelection(lines, |lines|, pattern, config);
  }

  // ---------------------------------------------------------------------
  // Properties
  // ---------------------------------------------------------------------

  /** Removes the entry for line `m` from the end of `ms`, if it is there. */
  function DropLine(ms: seq<MatchedLine>, m: nat): seq<MatchedLine>
  {
    if ms != [] && ms[|ms| - 1].lineNumber == m then ms[..|ms| - 1] else ms
  }

  /** A selection whose last line is reported ends with that line's entry. */
  lemma DropReportedLast(ms: seq<MatchedLine>, lines: seq<string>, n: nat, pattern: string, config: SearchConfig)
    requires 0 < n <= |lines|
    requires IsSelection(ms, lines, n, pattern, config)
    requires ShouldInclude(lines[n - 1], pattern, config)
    ensures ms != [] && ms[|ms| - 1] == MatchedLine(n - 1, lines[n - 1])
    ensures IsSelection(ms[..|ms| - 1], lines, n - 1, pattern, config)
  {
    ReportedIsLast(ms, lines, n, pattern, config);
    SelectionBeforeLast(ms, lines, n, pattern, config);
  }

  lemma ReportedIsLast(ms: seq<MatchedLine>, lines: seq<string>, n: nat, pattern: string, config: SearchConfig)
    requires 0 < n <= |lines|
    requires IsSelection(ms, lines, n, pattern, config)
    requires ShouldInclude(lines[n - 1], pattern, config)
    ensures ms != [] && ms[|ms| - 1] == MatchedLine(n - 1, lines[n - 1])
    ensures forall k :: 0 <= k < |ms| - 1 ==> ms[k].lineNumber < n - 1
  {
    assert HasLine(ms, n - 1);
    var j :| 0 <= j < |ms| && ms[j].lineNumber == n - 1;
    var last := |ms| - 1;
    assert ms[last].lineNumber < n;
    forall k | 0 <= k < last
      ensures ms[k].lineNumber < n - 1
    {
      assert ms[k].lineNumber < ms[last].lineNumber;
    }
    assert j == last;
  }

  /** Without its last entry, for line n - 1, a selection of `n` lines is one of n - 1 lines. */
  lemma SelectionBeforeLast(ms: seq<MatchedLine>, lines: seq<string>, n: nat, pattern: string, config: SearchConfig)
    requires 0 < n <= |lines|
    requires IsSelection(ms, lines, n, pattern, config)
    requires ms != [] && ms[|ms| - 1].lineNumber == n - 1
    requires forall k :: 0 <= k < |ms| - 1 ==> ms[k].lineNumber < n - 1
    ensures IsSelection(ms[..|ms| - 1], lines, n - 1, pattern, config)
  {
    var last := |ms| - 1;
    var prev := ms[..last];
    forall k | 0 <= k < |prev|
      ensures prev[k].lineNumber < n - 1 && prev[k].content == lines[prev[k].lineNumber]
    {
      assert prev[k] == ms[k];
    }
    forall i | 0 <= i < n - 1
      ensures HasLine(prev, i) <==> HasLine(ms, i)
    {
      if HasLine(prev, i) {
        var k :| 0 <= k < |prev| && prev[k].lineNumber == i;
        assert ms[k] == prev[k];
      }
      if HasLine(ms, i) {
        var k :| 0 <= k < |ms| && ms[k].lineNumber == i;
        assert k != last;
        assert prev[k] == ms[k];
      }
    }
  }

  /** A selection whose last line is not reported is a selection of one line fewer. */
  lemma DropUnreportedLast(ms: seq<MatchedLine>, lines: seq<string>, n: nat, pattern: string, config: SearchConfig)
    requires 0 < n <= |lines|
    requires IsSelection(ms, lines, n, pattern, config)
    requires !ShouldInclude(lines[n - 1], pattern, config)
    ensures ms == [] || ms[|ms| - 1].lineNumber != n - 1
    ensures IsSelection(ms, lines, n - 1, pattern, config)
  {
    assert !HasLine(ms, n - 1);
    forall k | 0 <= k < |ms|
      ensures ms[k].lineNumber < n - 1
    {
      assert ms[k].lineNumber != n - 1;
    }
  }

  lemma DropLastLine(ms: seq<MatchedLine>, lines: seq<string>, n: nat, pattern: string, config: SearchConfig)
    requires 0 < n <= |lines|
    requires IsSelection(ms, lines, n, pattern, config)
    ensures IsSelection(DropLine(ms, n - 1), lines, n - 1, pattern, config)
    ensures ms == DropLine(ms, n - 1)
                  + if ShouldInclude(lines[n - 1], pattern, config) then [MatchedLine(n - 1, lines[n - 1])] else []
  {
    if ShouldInclude(lines[n - 1], pattern, config) {
      DropReportedLast(ms, lines, n, pattern, config);
      assert DropLine(ms, n - 1) == ms[..|ms| - 1];
      assert ms == ms[..|ms| - 1] + [ms[|ms| - 1]];
    } else {
      DropUnreportedLast(ms, lines, n, pattern, config);
      assert DropLine(ms, n - 1) == ms;
      assert ms + [] == ms;
    }
  }

  /** Entries whose line numbers lie below `n` cannot exist when `n` is zero. */
  lemma EntriesBelow(ms: seq<MatchedLine>, n: nat)
    requires forall j :: 0 <= j < |ms| ==> ms[j].lineNumber < n
    ensures n == 0 ==> ms == []
  {
    if ms != [] {
      assert ms[0].lineNumber < n;
    }
  }

  /** SelectLines is the only selection: any sequence meeting IsSelection is it. */
  lemma {:induction false} SelectionIsSelectLines(ms: seq<MatchedLine>, lines: seq<string>, n: nat, pattern: string, config: SearchConfig)
    requires n <= |lines|
    requires IsSelection(ms, lines, n, pattern, config)
    ensures ms == SelectLines(lines, n, pattern, config)
    decreases n, 1
  {
    if n == 0 {
      SelectionOfNoLines(ms, lines, pattern, config);
    } else {
      DropLastLine(ms, lines, n, pattern, config);
      SelectionExtends(ms, DropLine(ms, n - 1), lines, n, pattern, config);
    }
  }

  lemma SelectionOfNoLines(ms: seq<MatchedLine>, lines: seq<string>, pattern: string, config: SearchConfig)
    requires IsSelection(ms, lines, 0, pattern, config)
    ensures ms == SelectLines(lines, 0, pattern, config)
  {
    EntriesBelow(ms, 0);
  }

  /** A selection of one line fewer, extended by the next line's entry if it is reported, is SelectLines. */
  lemma {:induction false} SelectionExtends(ms: seq<MatchedLine>, prev: seq<MatchedLine>, lines: seq<string>, n: nat,
                                            pattern: string, config: SearchConfig)
    requires 0 < n <= |lines|
    requires IsSelection(prev, lines, n - 1, pattern, config)
    requires ms == prev + if ShouldInclude(lines[n - 1], pattern, config) then [MatchedLine(n - 1, lines[n - 1])] else []
    ensures ms == SelectLines(lines, n, pattern, config)
    decreases n, 0
  {
    SelectionIsSelectLines(prev, lines, n - 1, pattern, config);
  }

  lemma {:induction false} SelectCountsSum(lines: seq<string>, n: nat, pattern: string, caseInsensitive: bool)
    requires n <= |lines|
    ensures |SelectLines(lines, n, pattern, SearchConfig(caseInsensitive, false))|
          + |SelectLines(lines, n, pattern, SearchConfig(caseInsensitive, true))| == n
  {
    if n > 0 {
      SelectCountsSum(lines, n - 1, pattern, caseInsensitive);
    }
  }

  /**
   * With the same text, pattern and folding, the plain and the inverted
   * search report disjoint sets of lines that together cover every line.
   */
  lemma InvertPartitions(content: string, pattern: string, caseInsensitive: bool)
    ensures var plain := Search(content, pattern, SearchConfig(caseInsensitive, false));
            var inverted := Search(content, pattern, SearchConfig(caseInsensitive, true));
            && plain.totalCount + inverted.totalCount == |Lines(content)|
            && (forall j, k :: 0 <= j < |plain.matches| && 0 <= k < |inverted.matches| ==>
                  plain.matches[j].lineNumber != inverted.matches[k].lineNumber)
            && (forall i :: 0 <= i < |Lines(content)| ==> HasLine(plain.matches, i) != HasLine(inverted.matches, i))
  {
    var lines := Lines(content);
    SelectCountsSum(lines, |lines|, pattern, caseInsensitive);
    var plain := Search(content, pattern, SearchConfig(caseInsensitive, false));
    var inverted := Search(content, pattern, SearchConfig(caseInsensitive, true));
    SearchSelects(content, pattern, SearchConfig(caseInsensitive, false));
    SearchSelects(content, pattern, SearchConfig(caseInsensitive, true));
    forall j, k | 0 <= j < |plain.matches| && 0 <= k < |inverted.matches|
      ensures plain.matches[j].lineNumber != inverted.matches[k].lineNumber
    {
      assert HasLine(plain.matches, plain.matches[j].lineNumber);
      assert HasLine(inverted.matches, inverted.matches[k].lineNumber);
    }
  }

  lemma EmptyPatternMatches(line: string, caseInsensitive: bool)
    ensures IsMatch(line, [], caseInsensitive)
  {
    assert Lower([]) == [];
  }

  lemma {:induction false} SelectEmptyPattern(lines: seq<string>, n: nat, config: SearchConfig)
    requires n <= |lines|
    ensures !config.invertMatch ==> SelectLines(lines, n, [], config) == seq(n, i requires 0 <= i < n => MatchedLine(i, lines[i]))
    ensures config.invertMatch ==> SelectLines(lines, n, [], config) == []
  {
    if n > 0 {
      SelectEmptyPattern(lines, n - 1, config);
      EmptyPatternMatches(lines[n - 1], config.caseInsensitive);
      if !config.invertMatch {
        var all := seq(n, i requires 0 <= i < n => MatchedLine(i, lines[i]));
        assert all == all[..n - 1] + [MatchedLine(n - 1, lines[n - 1])];
      }
    }
  }

  /** The empty pattern reports every line, or, inverted, no line. */
  lemma EmptyPattern(content: string, config: SearchConfig)
    ensures var r := Search(content, [], config);
            && (!config.invertMatch ==>
                  && r.totalCount == |Lines(content)|
                  && forall i :: 0 <= i < |Lines(content)| ==> r.matches[i] == MatchedLine(i, Lines(content)[i]))
            && (config.invertMatch ==> r.matches == [] && r.totalCount == 0)
  {
    SelectEmptyPattern(Lines(content), |Lines(content)|, config);
  }

  /** Empty text has no lines, so nothing is reported, inverted or not. */
  lemma EmptyContent(pattern: string, config: SearchConfig)
    ensures Search("", pattern, config) == SearchResult([], 0)
  {
  }

  lemma {:induction false} SelectUpper(lines: seq<string>, upper: seq<string>, n: nat, pattern: string, invert: bool)
    requires n <= |lines| == |upper|
    requires forall i :: 0 <= i < |lines| ==> upper[i] == Upper(lines[i])
    ensures var ms := SelectLines(lines, n, pattern, SearchConfig(true, invert));
            var us := SelectLines(upper, n, pattern, SearchConfig(true, invert));
            |us| == |ms| && forall j :: 0 <= j < |ms| ==> us[j] == MatchedLine(ms[j].lineNumber, Upper(ms[j].content))
  {
    if n > 0 {
      SelectUpper(lines, upper, n - 1, pattern, invert);
      LowerUpper(lines[n - 1]);
    }
  }

  /**
   * Folded search does not see case: upper-casing the text selects the
   * same line numbers, and each entry is the upper-cased original line.
   */
  lemma CaseInsensitiveIgnoresCase(content: string, pattern: string, invert: bool)
    ensures var r := Search(content, pattern, SearchConfig(true, invert));
            var u := Search(Upper(content), pattern, SearchConfig(true, invert));
            |u.matches| == |r.matches|
            && forall j :: 0 <= j < |r.matches| ==>
                 u.matches[j] == MatchedLine(r.matches[j].lineNumber, Upper(r.matches[j].content))
  {
    LinesUpper(content);
    SelectUpper(Lines(content), Lines(Upper(content)), |Lines(content)|, pattern, invert);
  }

  // ---------------------------------------------------------------------
  // The source's test cases
  // ---------------------------------------------------------------------

  lemma ThreeLines()
    ensures Lines("line one\nline two\nline three") == ["line one", "line two", "line three"]
  {
    assert "line one\nline two\nline three" == "line one" + ['\n'] + ("line two" + ['\n'] + "line three");
    LinesThree("line one", "line two", "line three");
  }

  /** The entry a single line contributes to a selection. */
  function EntryFor(lines: seq<string>, i: nat, pattern: string, config: SearchConfig): seq<MatchedLine>
    requires i < |lines|
  {
    if ShouldInclude(lines[i], pattern, config) then [MatchedLine(i, lines[i])] else []
  }

  lemma SelectThree(lines: seq<string>, pattern: string, config: SearchConfig)
    requires |lines| == 3
    ensures SelectLines(lines, 3, pattern, config)
            == EntryFor(lines, 0, pattern, config) + EntryFor(lines, 1, pattern, config) + EntryFor(lines, 2, pattern, config)
  {
    assert SelectLines(lines, 0, pattern, config) == [];
    assert SelectLines(lines, 1, pattern, config) == EntryFor(lines, 0, pattern, config);
    assert SelectLines(lines, 2, pattern, config) == SelectLines(lines, 1, pattern, config) + EntryFor(lines, 1, pattern, config);
    assert SelectLines(lines, 3, pattern, config) == SelectLines(lines, 2, pattern, config) + EntryFor(lines, 2, pattern, config);
  }

  /** The three-line text of the source's tests, searched with any pattern and setting. */
  lemma ThreeLinesSelection(pattern: string, config: SearchConfig)
    ensures var ls := ["line one", "line two", "line three"];
            Search("line one\nline two\nline three", pattern, config).matches
            == EntryFor(ls, 0, pattern, config) + EntryFor(ls, 1, pattern, config) + EntryFor(ls, 2, pattern, config)
  {
    ThreeLines();
    SelectThree(["line one", "line two", "line three"], pattern, config);
  }

  lemma TwoInLineTwo()
    ensures Contains("line two", "two")
  {
    assert "line two"[5..8] == "two";
    ContainsAt("line two", "two", 5);
  }

  lemma TwoNotInOthers()
    ensures !Contains("line one", "two") && !Contains("line three", "two")
  {
    NotContains("line one", "two", 1);
    NotContains("line three", "two", 1);
  }

  lemma FourNowhere()
    ensures !Contains("line one", "four") && !Contains("line two", "four") && !Contains("line three", "four")
  {
    NotContains("line one", "four", 0);
    NotContains("line two", "four", 0);
    NotContains("line three", "four", 0);
  }

  lemma PlainEntries()
    ensures var ls := ["line one", "line two", "line three"];
            var config := SearchConfig(false, false);
            && EntryFor(ls, 0, "two", config) == []
            && EntryFor(ls, 1, "two", config) == [MatchedLine(1, "line two")]
            && EntryFor(ls, 2, "two", config) == []
  {
    TwoInLineTwo();
    TwoNotInOthers();
  }

  lemma InvertedEntries()
    ensures var ls := ["line one", "line two", "line three"];
            var config := SearchConfig(false, true);
            && EntryFor(ls, 0, "two", config) == [MatchedLine(0, "line one")]
            && EntryFor(ls, 1, "two", config) == []
            && EntryFor(ls, 2, "two", config) == [MatchedLine(2, "line three")]
  {
    TwoInLineTwo();
    TwoNotInOthers();
  }

  /** Searching "two" plainly finds the second line only. */
  lemma BasicSearch()
    ensures var r := Search("line one\nline two\nline three", "two", SearchConfig(false, false));
            r.matches == [MatchedLine(1, "line two")] && r.totalCount == 1
  {
    ThreeLinesSelection("two", SearchConfig(false, false));
    PlainEntries();
  }

  /** Searching "two" inverted finds the first and the third line, in that order. */
  lemma InvertedSearch()
    ensures var r := Search("line one\nline two\nline three", "two", SearchConfig(false, true));
            r.matches == [MatchedLine(0, "line one"), MatchedLine(2, "line three")] && r.totalCount == 2
  {
    ThreeLinesSelection("two", SearchConfig(false, true));
    InvertedEntries();
  }

  /** Searching "four" finds nothing. */
  lemma NoMatches()
    ensures Search("line one\nline two\nline three", "four", SearchConfig(false, false)) == SearchResult([], 0)
  {
    var ls := ["line one", "line two", "line three"];
    var config := SearchConfig(false, false);
    FourNowhere();
    ThreeLinesSelection("four", config);
    assert EntryFor(ls, 0, "four", config) == [];
    assert EntryFor(ls, 1, "four", config) == [];
    assert EntryFor(ls, 2, "four", config) == [];
  }

  /** A line whose first characters equal the pattern up to ASCII case matches it case-insensitively. */
  lemma MatchIgnoringCaseAtStart(line: string, pattern: string)
    requires |pattern| <= |line|
    requires forall k :: 0 <= k < |pattern| ==> LowerChar(line[k]) == LowerChar(pattern[k])
    ensures IsMatch(line, pattern, true)
  {
    assert Lower(line)[0..|pattern|] == Lower(pattern);
    ContainsAt(Lower(line), Lower(pattern), 0);
  }

  lemma MixedCaseLines()
    ensures Lines("Line One\nLINE TWO\nline three") == ["Line One", "LINE TWO", "line three"]
  {
    assert "Line One\nLINE TWO\nline three" == "Line One" + ['\n'] + ("LINE TWO" + ['\n'] + "line three");
    LinesThree("Line One", "LINE TWO", "line three");
  }

  lemma MixedCaseEntries()
    ensures var ls := ["Line One", "LINE TWO", "line three"];
            var config := SearchConfig(true, false);
            && EntryFor(ls, 0, "line", config) == [MatchedLine(0, "Line One")]
            && EntryFor(ls, 1, "line", config) == [MatchedLine(1, "LINE TWO")]
            && EntryFor(ls, 2, "line", config) == [MatchedLine(2, "line three")]
  {
    MatchIgnoringCaseAtStart("Line One", "line");
    MatchIgnoringCaseAtStart("LINE TWO", "line");
    MatchIgnoringCaseAtStart("line three", "line");
  }

  /** Searching "line" case-insensitively finds all three differently cased lines. */
  lemma CaseInsensitiveSearch()
    ensures Search("Line One\nLINE TWO\nline three", "line", SearchConfig(true, false)).totalCount == 3
  {
    var ls := ["Line One", "LINE TWO", "line three"];
    var config := SearchConfig(true, false);
    MixedCaseLines();
    SelectThree(ls, "line", config);
    MixedCaseEntries();
  }
}
