/**
 * The pieces of Rust's standard string library the tool relies on:
 * substring containment (`str::contains`), case folding
 * (`str::to_lowercase`, modelled on ASCII letters only), line splitting
 * (`str::lines`), decimal rendering (`usize::to_string`) and joining
 * (`[String]::join`).
 */
module Strings {

  // ---------------------------------------------------------------------
  // Substring containment
  // ---------------------------------------------------------------------

  /** `p` occurs in `s` as a contiguous run of characters. */
  predicate Contains(s: string, p: string)
    ensures Contains(s, p) ==> |p| <= |s|
    ensures p <= s ==> Contains(s, p)
    ensures |p| == |s| ==> (Contains(s, p) <==> p == s)
    decreases |s|
  {
    p <= s || (s != [] && Contains(s[1..], p))
  }

  /** `p` occurs in `s` starting at index `i`. */
  predicate OccursAt(s: string, p: string, i: int)
  {
    0 <= i <= |s| - |p| && s[i..i + |p|] == p
  }

  /** Contains holds exactly when `p` occurs at some position of `s`. */
  lemma {:induction false} ContainsIff(s: string, p: string)
    ensures Contains(s, p) <==> exists i :: OccursAt(s, p, i)
    decreases |s|
  {
    if p <= s {
      assert OccursAt(s, p, 0);
    } else {
      assert !OccursAt(s, p, 0);
      if s == [] {
        assert forall i :: OccursAt(s, p, i) ==> i == 0;
      } else {
        ContainsIff(s[1..], p);
        forall i | 0 < i
          ensures OccursAt(s, p, i) <==> OccursAt(s[1..], p, i - 1)
        {
          if i <= |s| - |p| {
            assert s[1..][i - 1..i - 1 + |p|] == s[i..i + |p|];
          }
        }
        if exists j :: OccursAt(s[1..], p, j) {
          var j :| OccursAt(s[1..], p, j);
          assert OccursAt(s, p, j + 1);
        }
      }
    }
  }

  /** Every character of a pattern that occurs in `s` is a character of `s`. */
  lemma ContainedChars(s: string, p: string)
    ensures Contains(s, p) ==> forall k :: 0 <= k < |p| ==> p[k] in s
  {
    ContainsIff(s, p);
    if Contains(s, p) {
      var i :| OccursAt(s, p, i);
      forall k | 0 <= k < |p|
        ensures p[k] in s
      {
        assert s[i + k] == p[k];
      }
    }
  }

  /** An occurrence at a known position witnesses containment. */
  lemma ContainsAt(s: string, p: string, i: int)
    requires OccursAt(s, p, i)
    ensures Contains(s, p)
  {
    ContainsIff(s, p);
  }

  /** A pattern with a character that `s` lacks does not occur in `s`. */
  lemma NotContains(s: string, p: string, k: nat)
    requires k < |p| && p[k] !in s
    ensures !Contains(s, p)
  {
    ContainedChars(s, p);
  }

  // ---------------------------------------------------------------------
  // Case mapping (ASCII letters only)
  // ---------------------------------------------------------------------

  function LowerChar(c: char): char
  {
    if 'A' <= c <= 'Z' then (c as int + 32) as char else c
  }

  function UpperChar(c: char): char
  {
    if 'a' <= c <= 'z' then (c as int - 32) as char else c
  }

  /** Lower-cases every ASCII letter of `s` and keeps every other character. */
  function Lower(s: string): (r: string)
    ensures |r| == |s|
    ensures forall i :: 0 <= i < |r| ==> !('A' <= r[i] <= 'Z')
    ensures forall i :: 0 <= i < |s| && 'A' <= s[i] <= 'Z' ==> 'a' <= r[i] <= 'z'
    ensures forall i :: 0 <= i < |s| && !('A' <= s[i] <= 'Z') ==> r[i] == s[i]
  {
    seq(|s|, i requires 0 <= i < |s| => LowerChar(s[i]))
  }

  /** Upper-cases every ASCII letter of `s` and keeps every other character. */
  function Upper(s: string): string
  {
    seq(|s|, i requires 0 <= i < |s| => UpperChar(s[i]))
  }

  /** Re-casing a string to upper case does not change its lower-case form. */
  lemma LowerUpper(s: string)
    ensures Lower(Upper(s)) == Lower(s)
  {
    assert forall i :: 0 <= i < |s| ==> Lower(Upper(s))[i] == Lower(s)[i];
  }

  // ---------------------------------------------------------------------
  // Line splitting
  // ---------------------------------------------------------------------

  /** Index of the first line feed of `s`, or `|s|` when there is none. */
  function NewlineIndex(s: string): (k: nat)
    ensures k <= |s|
    ensures k < |s| ==> s[k] == '\n'
    ensures forall j :: 0 <= j < k ==> s[j] != '\n'
  {
    if s == [] || s[0] == '\n' then 0 else 1 + NewlineIndex(s[1..])
  }

  /** Drops one trailing carriage return, if any. */
  function StripCr(l: string): string
  {
    if l != [] && l[|l| - 1] == '\r' then l[..|l| - 1] else l
  }

  /**
   * The lines of `s`: `s` is cut after every line feed; each terminated
   * piece loses its line feed and then one carriage return before it, if
   * any. A final piece without a line feed is kept whole, and a final line
   * feed does not start an empty last line.
   */
  function Lines(s: string): (ls: seq<string>)
    ensures forall i, j :: 0 <= i < |ls| && 0 <= j < |ls[i]| ==> ls[i][j] != '\n'
    ensures |ls| <= |s|
    ensures ls == [] <==> s == []
    decreases |s|
  {
    if s == [] then []
    else
      var k := NewlineIndex(s);
      if k == |s| then [s]
      else [StripCr(s[..k])] + Lines(s[k + 1..])
  }

  /** Each element of `ls` followed by `terminator`, concatenated. */
  function Terminated(ls: seq<string>, terminator: string): string
  {
    if ls == [] then [] else ls[0] + terminator + Terminated(ls[1..], terminator)
  }

  /** The number of line feeds in `s`. */
  function NewlineCount(s: string): nat
  {
    if s == [] then 0 else (if s[0] == '\n' then 1 else 0) + NewlineCount(s[1..])
  }

  lemma NewlineIndexAfter(a: string, b: string)
    requires '\n' !in a
    ensures NewlineIndex(a + ['\n'] + b) == |a|
  {
    var s := a + ['\n'] + b;
    assert s[|a|] == '\n';
    assert forall j :: 0 <= j < |a| ==> s[j] == a[j];
  }

  /** A line ended by a line feed, followed by the rest of the text. */
  lemma LinesCons(a: string, b: string)
    requires '\n' !in a
    ensures Lines(a + ['\n'] + b) == [StripCr(a)] + Lines(b)
  {
    var s := a + ['\n'] + b;
    NewlineIndexAfter(a, b);
    assert s[..|a|] == a;
    assert s[|a| + 1..] == b;
  }

  /** A non-empty text without any line feed is one line. */
  lemma LinesSingle(a: string)
    requires a != [] && '\n' !in a
    ensures Lines(a) == [a]
  {
    assert NewlineIndex(a) == |a|;
  }

  lemma StripCrKeeps(a: string)
    requires a == [] || a[|a| - 1] != '\r'
    ensures StripCr(a) == a
  {
  }

  lemma LinesTwo(a: string, b: string)
    requires '\n' !in a && '\n' !in b && b != []
    requires a == [] || a[|a| - 1] != '\r'
    ensures Lines(a + ['\n'] + b) == [a, b]
  {
    LinesCons(a, b);
    LinesSingle(b);
  }

  /** Three lines separated by line feeds, the last one unterminated. */
  lemma LinesThree(a: string, b: string, c: string)
    requires '\n' !in a && '\n' !in b && '\n' !in c && c != []
    requires a == [] || a[|a| - 1] != '\r'
    requires b == [] || b[|b| - 1] != '\r'
    ensures Lines(a + ['\n'] + (b + ['\n'] + c)) == [a, b, c]
  {
    LinesCons(a, b + ['\n'] + c);
    StripCrKeeps(a);
    LinesTwo(b, c);
  }

  /** Terminating every line with a line feed and splitting again gives the lines back. */
  lemma {:induction false} LinesOfLfTerminated(ls: seq<string>)
    requires forall i :: 0 <= i < |ls| ==> '\n' !in ls[i]
    requires forall i :: 0 <= i < |ls| ==> ls[i] == [] || ls[i][|ls[i]| - 1] != '\r'
    ensures Lines(Terminated(ls, "\n")) == ls
  {
    if ls != [] {
      var s := Terminated(ls, "\n");
      var rest := Terminated(ls[1..], "\n");
      assert s == ls[0] + ['\n'] + rest;
      NewlineIndexAfter(ls[0], rest);
      assert s[..|ls[0]|] == ls[0];
      assert s[|ls[0]| + 1..] == rest;
      LinesOfLfTerminated(ls[1..]);
    }
  }

  /** Terminating every line with CR LF and splitting again gives the lines back. */
  lemma {:induction false} LinesOfCrlfTerminated(ls: seq<string>)
    requires forall i :: 0 <= i < |ls| ==> '\n' !in ls[i]
    ensures Lines(Terminated(ls, "\r\n")) == ls
  {
    if ls != [] {
      var s := Terminated(ls, "\r\n");
      var rest := Terminated(ls[1..], "\r\n");
      var head := ls[0] + ['\r'];
      assert s == head + ['\n'] + rest;
      NewlineIndexAfter(head, rest);
      assert s[..|head|] == head;
      assert StripCr(head) == ls[0];
      assert s[|head| + 1..] == rest;
      LinesOfCrlfTerminated(ls[1..]);
    }
  }

  lemma {:induction false} NewlineCountSplit(s: string)
    ensures NewlineIndex(s) == |s| ==> NewlineCount(s) == 0
    ensures NewlineIndex(s) < |s| ==> NewlineCount(s) == 1 + NewlineCount(s[NewlineIndex(s) + 1..])
  {
    if s != [] && s[0] != '\n' {
      NewlineCountSplit(s[1..]);
      if NewlineIndex(s) < |s| {
        assert s[1..][NewlineIndex(s[1..]) + 1..] == s[NewlineIndex(s) + 1..];
      }
    }
  }

  /** There is one line per line feed, plus one for an unterminated last line. */
  lemma {:induction false} LinesCount(s: string)
    ensures |Lines(s)| == NewlineCount(s) + (if s != [] && s[|s| - 1] != '\n' then 1 else 0)
    decreases |s|
  {
    if s != [] {
      var k := NewlineIndex(s);
      NewlineCountSplit(s);
      if k == |s| {
        LinesWhole(s);
      } else {
        var rest := s[k + 1..];
        LinesAt(s, k);
        LinesCount(rest);
        if rest != [] {
          assert rest[|rest| - 1] == s[|s| - 1];
        }
      }
    }
  }

  /** A non-empty text whose first line feed is past its end is one line. */
  lemma LinesWhole(s: string)
    requires s != [] && NewlineIndex(s) == |s|
    ensures Lines(s) == [s]
  {
  }

  lemma {:induction false} NewlineIndexUpper(s: string)
    ensures NewlineIndex(Upper(s)) == NewlineIndex(s)
  {
    if s != [] && s[0] != '\n' {
      assert Upper(s)[1..] == Upper(s[1..]);
      NewlineIndexUpper(s[1..]);
    }
  }

  lemma UpperSlices(s: string, k: nat)
    requires k < |s|
    ensures Upper(s)[..k] == Upper(s[..k])
    ensures Upper(s)[k + 1..] == Upper(s[k + 1..])
  {
  }

  lemma StripCrUpper(l: string)
    ensures StripCr(Upper(l)) == Upper(StripCr(l))
  {
  }

  /** Upper-casing the text upper-cases each of its lines and keeps their number. */
  lemma {:induction false} LinesUpper(s: string)
    ensures |Lines(Upper(s))| == |Lines(s)|
    ensures forall i :: 0 <= i < |Lines(s)| ==> Lines(Upper(s))[i] == Upper(Lines(s)[i])
    decreases |s|
  {
    if s == [] {
      assert Upper(s) == [];
    } else {
      var k := NewlineIndex(s);
      if k == |s| {
        LinesUpperSingle(s);
      } else {
        var t := s[k + 1..];
        LinesUpper(t);
        LinesUpperStep(s, t);
      }
    }
  }

  /** The property of LinesUpper carries over from the text after the first line feed to the whole text. */
  lemma LinesUpperStep(s: string, t: string)
    requires NewlineIndex(s) < |s| && t == s[NewlineIndex(s) + 1..]
    requires |Lines(Upper(t))| == |Lines(t)|
    requires forall i :: 0 <= i < |Lines(t)| ==> Lines(Upper(t))[i] == Upper(Lines(t)[i])
    ensures |Lines(Upper(s))| == |Lines(s)|
    ensures forall i :: 0 <= i < |Lines(s)| ==> Lines(Upper(s))[i] == Upper(Lines(s)[i])
  {
    var k := NewlineIndex(s);
    LinesUpperUnfold(s);
    UpperCons(Lines(Upper(s)), Lines(s), StripCr(s[..k]), Lines(Upper(t)), Lines(t));
  }

  lemma LinesUpperSingle(s: string)
    requires s != [] && NewlineIndex(s) == |s|
    ensures |Lines(Upper(s))| == |Lines(s)|
    ensures forall i :: 0 <= i < |Lines(s)| ==> Lines(Upper(s))[i] == Upper(Lines(s)[i])
  {
    NewlineIndexUpper(s);
    assert Lines(Upper(s)) == [Upper(s)] && Lines(s) == [s];
  }

  lemma LinesUpperUnfold(s: string)
    requires NewlineIndex(s) < |s|
    ensures var k := NewlineIndex(s);
            && Lines(Upper(s)) == [Upper(StripCr(s[..k]))] + Lines(Upper(s[k + 1..]))
            && Lines(s) == [StripCr(s[..k])] + Lines(s[k + 1..])
  {
    var k := NewlineIndex(s);
    var u := Upper(s);
    NewlineIndexUpper(s);
    LinesAt(u, k);
    LinesAt(s, k);
    UpperSlices(s, k);
    StripCrUpper(s[..k]);
  }

  /** The lines of a text whose first line feed is at `k`. */
  lemma LinesAt(t: string, k: nat)
    requires k == NewlineIndex(t) < |t|
    ensures Lines(t) == [StripCr(t[..k])] + Lines(t[k + 1..])
  {
  }

  lemma UpperCons(xs: seq<string>, ys: seq<string>, h: string, xr: seq<string>, yr: seq<string>)
    requires xs == [Upper(h)] + xr && ys == [h] + yr
    requires |xr| == |yr| && forall i :: 0 <= i < |yr| ==> xr[i] == Upper(yr[i])
    ensures |xs| == |ys| && forall i :: 0 <= i < |ys| ==> xs[i] == Upper(ys[i])
  {
    forall i | 0 <= i < |ys|
      ensures xs[i] == Upper(ys[i])
    {
      if i > 0 {
        assert xs[i] == xr[i - 1] && ys[i] == yr[i - 1];
      }
    }
  }

  // ---------------------------------------------------------------------
  // Decimal rendering
  // ---------------------------------------------------------------------

  predicate IsDigit(c: char)
  {
    '0' <= c <= '9'
  }

  predicate AllDigits(s: string)
  {
    forall i :: 0 <= i < |s| ==> IsDigit(s[i])
  }

  function DigitChar(d: nat): (c: char)
    requires d < 10
    ensures IsDigit(c)
  {
    ('0' as int + d) as char
  }

  function DigitValue(c: char): nat
    requires IsDigit(c)
  {
    c as int - '0' as int
  }

  /**
   * The decimal rendering of `n`: a non-empty string of digits that starts
   * with '0' only when it is exactly "0".
   */
  function NatToString(n: nat): (s: string)
    ensures |s| >= 1 && AllDigits(s)
    ensures s[0] == '0' <==> n == 0
    ensures s[0] == '0' ==> |s| == 1
    decreases n
  {
    if n < 10 then [DigitChar(n)] else NatToString(n / 10) + [DigitChar(n % 10)]
  }

  /** The number a string of decimal digits denotes. */
  function ParseNat(s: string): nat
    requires AllDigits(s)
    decreases |s|
  {
    if s == [] then 0 else 10 * ParseNat(s[..|s| - 1]) + DigitValue(s[|s| - 1])
  }

  /** Reading back a rendered number gives the number. */
  lemma {:induction false} ParseNatToString(n: nat)
    ensures ParseNat(NatToString(n)) == n
    decreases n
  {
    var s := NatToString(n);
    if n >= 10 {
      assert s[..|s| - 1] == NatToString(n / 10);
      ParseNatToString(n / 10);
    }
  }

  // ---------------------------------------------------------------------
  // Joining
  // ---------------------------------------------------------------------

  /** The parts of `parts` with `sep` between each two neighbours. */
  function Join(parts: seq<string>, sep: string): (r: string)
    ensures parts == [] ==> r == []
    ensures |parts| >= 1 ==> parts[0] <= r
  {
    if |parts| == 0 then []
    else if |parts| == 1 then parts[0]
    else parts[0] + sep + Join(parts[1..], sep)
  }

  /** A join of at least one part ends with the last part. */
  lemma {:induction false} JoinEndsWithLast(parts: seq<string>, sep: string)
    requires |parts| >= 1
    ensures var r := Join(parts, sep); var last := parts[|parts| - 1];
            |last| <= |r| && r[|r| - |last|..] == last
  {
    if |parts| > 1 {
      JoinEndsWithLast(parts[1..], sep);
    }
  }
}
